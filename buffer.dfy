/**
 * The few Buffer behaviours the layers rely on: reading an index that may
 * lie past the end (`undefined`), the same read where the byte only enters
 * bitwise operators (where `undefined` acts as 0), and `slice` with its
 * clamping and negative offsets.
 */
module JsBuffer {
  import opened Wrappers
  import opened Protocol

  /** `s[i]`: the byte, or `undefined` past the end. */
  function At(s: seq<Byte>, i: nat): (r: Option<Byte>)
    ensures r.Some? <==> i < |s|
    ensures r.Some? ==> r.value == s[i]
  {
    if i < |s| then Some(s[i]) else None
  }

  /** `s[i]` as an operand of `&`, `|` or `<<`, where `undefined` converts to 0. */
  function ByteAt(s: seq<Byte>, i: nat): (r: Byte)
    ensures i < |s| ==> r == s[i]
    ensures i >= |s| ==> r == 0
  {
    if i < |s| then s[i] else 0
  }

  /** A slice offset resolved against a buffer of n bytes: negative counts from the end, then clamped to 0 .. n. */
  function Clamp(i: int, n: nat): (c: nat)
    ensures c <= n
    ensures 0 <= i <= n ==> c == i
    ensures i < 0 && (n as int) + i >= 0 ==> c as int == (n as int) + i
  {
    if i < 0 then (if n + i < 0 then 0 else n + i) else if i > n then n else i
  }

  /** `s.slice(start, end)`; it never throws, an empty range gives an empty buffer. */
  function Slice(s: seq<Byte>, start: int, end: int): (r: seq<Byte>)
    ensures Clamp(start, |s|) <= Clamp(end, |s|) ==> r == s[Clamp(start, |s|)..Clamp(end, |s|)]
    ensures Clamp(start, |s|) > Clamp(end, |s|) ==> r == []
  {
    var a := Clamp(start, |s|);
    var b := Clamp(end, |s|);
    if a <= b then s[a..b] else []
  }

  /** `s.slice(start)`: everything from start on. */
  function From(s: seq<Byte>, start: nat): (r: seq<Byte>)
    ensures start <= |s| ==> r == s[start..]
    ensures start > |s| ==> r == []
  {
    Slice(s, start, |s|)
  }
}
