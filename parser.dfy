/**
 * The stream parser that cuts the serial byte stream into Z-Wave frames
 * (zwave-transport-stream-parser.js). It keeps the bytes it has not yet
 * delivered in `buffer`; each chunk is appended and the front of the data
 * is examined: a single-byte ACK, NAK or CAN frame is delivered and the scan
 * goes on, a complete SOF frame is delivered and the scan stops, an SOF frame
 * that is incomplete or announces an impossible length is kept, and any
 * other leading byte discards everything held.
 */
module StreamParser {
  import opened Protocol

  /** The frames one scan delivers and the bytes it keeps for the next chunk. */
  datatype Scanned = Scanned(frames: seq<seq<Byte>>, rest: seq<Byte>)

  /** A lead byte that forms a frame on its own. */
  predicate IsSingleByteFrame(b: Byte)
  {
    b == ACK || b == CAN || b == NAK
  }

  /** The length byte of an SOF frame is within 4 .. 64. */
  predicate LengthInLimits(l: Byte)
  {
    4 <= l <= 64
  }

  /** The number of bytes an SOF frame with length byte l occupies: l, the SOF byte and the length byte. */
  function FrameSize(l: Byte): nat
  {
    (l as int) + 2
  }

  /** What one call of the transform delivers from the held bytes followed by the chunk, data. */
  function Scan(data: seq<Byte>): Scanned
    decreases |data|
  {
    if data == [] then Scanned([], [])
    else if IsSingleByteFrame(data[0]) then
      var r := Scan(data[1..]);
      Scanned([data[..1]] + r.frames, r.rest)
    else if data[0] == SOF then
      if |data| < 5 || !LengthInLimits(data[1]) || |data| < FrameSize(data[1]) then Scanned([], data)
      else Scanned([data[..FrameSize(data[1])]], data[FrameSize(data[1])..])
    else Scanned([], [])
  }

  class ZwaveTransportStreamParser {
    /** Bytes received but not yet delivered as a frame. */
    var buffer: seq<Byte>

    constructor ()
      ensures buffer == []
    {
      buffer := [];
    }

    /** _transform: appends chunk to the held bytes and delivers the frames found at their front. */
    method Transform(chunk: seq<Byte>) returns (frames: seq<seq<Byte>>)
      modifies this
      ensures Scanned(frames, buffer) == Scan(old(buffer) + chunk)
    {
      var data := buffer + chunk;
      ghost var whole := data;
      frames := [];
      var loop := true;
      while loop
        invariant loop ==> Scan(whole) == Scanned(frames + Scan(data).frames, Scan(data).rest)
        invariant !loop ==> Scan(whole) == Scanned(frames, buffer)
        decreases |data| + (if loop then 1 else 0)
      {
        loop := false;
        if data != [] && IsSingleByteFrame(data[0]) {
          frames := frames + [data[..1]];
          data := data[1..];
          loop := |data| > 0;
        } else if data != [] && data[0] == SOF {
          if |data| >= 5 {
            var length := data[1];
            if LengthInLimits(length) {
              var messageLength := FrameSize(length);
              if |data| >= messageLength {
                frames := frames + [data[..messageLength]];
                data := data[messageLength..];
              }
            }
          }
        } else {
          data := [];
        }
        buffer := data;
      }
    }

    /** _flush: hands over whatever is still held and empties the buffer. */
    method Flush() returns (remainder: seq<Byte>)
      modifies this
      ensures remainder == old(buffer) && buffer == []
    {
      remainder := buffer;
      buffer := [];
    }
  }

  /*
   * Properties of the scan.
   */

  function Flatten(fs: seq<seq<Byte>>): seq<Byte>
  {
    if fs == [] then [] else fs[0] + Flatten(fs[1..])
  }

  /** A frame the parser can deliver: one ACK, NAK or CAN byte, or a whole SOF frame of a permitted length. */
  predicate WellFormedFrame(f: seq<Byte>)
  {
    (|f| == 1 && IsSingleByteFrame(f[0]))
    || (|f| >= 6 && f[0] == SOF && LengthInLimits(f[1]) && |f| == FrameSize(f[1]))
  }

  /** The data begins, after its single-byte frames, with a byte that is neither one of those nor SOF. */
  predicate StartsWithGarbage(data: seq<Byte>)
    decreases |data|
  {
    data != [] && (if IsSingleByteFrame(data[0]) then StartsWithGarbage(data[1..]) else data[0] != SOF)
  }

  /**
   * Every delivered frame is well formed and only the last one may be an SOF
   * frame. When no SOF frame was delivered, what is kept is empty or begins
   * with SOF; after one, the kept bytes are whatever followed it.
   */
  lemma {:induction false} ScanShape(data: seq<Byte>)
    ensures var r := Scan(data);
      (forall i :: 0 <= i < |r.frames| ==> WellFormedFrame(r.frames[i]))
      && (forall i :: 0 <= i < |r.frames| - 1 ==> |r.frames[i]| == 1)
      && (r.rest == [] || r.rest[0] == SOF || (r.frames != [] && r.frames[|r.frames| - 1][0] == SOF))
    decreases |data|
  {
    if data != [] && IsSingleByteFrame(data[0]) {
      ScanShape(data[1..]);
      var r := Scan(data[1..]);
      assert Scan(data).frames == [data[..1]] + r.frames;
    }
  }

  /**
   * No byte is invented or reordered: the frames followed by the kept bytes are
   * a prefix of the data, and all of it unless a garbage lead byte was met.
   */
  lemma {:induction false} ScanConserves(data: seq<Byte>)
    ensures var r := Scan(data);
      (Flatten(r.frames) + r.rest <= data)
      && (Flatten(r.frames) + r.rest == data <==> !StartsWithGarbage(data))
    decreases |data|
  {
    if data != [] && IsSingleByteFrame(data[0]) {
      ScanConserves(data[1..]);
      SingleByteConcat(data);
    } else if data != [] && data[0] == SOF {
      SofConserves(data);
    }
  }

  /** The single-byte step of the scan puts that byte in front of what the rest of the scan yields. */
  lemma SingleByteConcat(data: seq<Byte>)
    requires data != [] && IsSingleByteFrame(data[0])
    ensures Flatten(Scan(data).frames) + Scan(data).rest == [data[0]] + (Flatten(Scan(data[1..]).frames) + Scan(data[1..]).rest)
    ensures data == [data[0]] + data[1..]
  {
    var r := Scan(data[1..]);
    var fs := [data[..1]] + r.frames;
    assert fs[1..] == r.frames;
    assert data[..1] == [data[0]];
  }

  /** The SOF step of the scan delivers or keeps every byte. */
  lemma SofConserves(data: seq<Byte>)
    requires data != [] && data[0] == SOF
    ensures Flatten(Scan(data).frames) + Scan(data).rest == data
  {
    var r := Scan(data);
    if r.frames != [] {
      assert r.frames[1..] == [];
      assert Flatten(r.frames) + r.rest == data[..FrameSize(data[1])] + data[FrameSize(data[1])..];
    }
  }

  /**
   * The switch on the lead byte takes exactly one arm, since the frame codes
   * differ: an ACK, NAK or CAN byte is delivered alone and the scan goes on
   * with the rest, an SOF lead delivers nothing but an SOF frame, and any
   * other lead delivers nothing and keeps nothing.
   */
  lemma LeadByteSelectsArm(b: Byte, rest: seq<Byte>)
    ensures IsSingleByteFrame(b) ==> b != SOF && Scan([b] + rest) == Scanned([[b]] + Scan(rest).frames, Scan(rest).rest)
    ensures b == SOF ==> !IsSingleByteFrame(b) && |Scan([b] + rest).frames| <= 1
    ensures b == SOF ==> forall i :: 0 <= i < |Scan([b] + rest).frames| ==> Scan([b] + rest).frames[i][0] == SOF
    ensures !IsSingleByteFrame(b) && b != SOF ==> Scan([b] + rest) == Scanned([], [])
  {
    var data := [b] + rest;
    assert data[1..] == rest && data[..1] == [b];
  }

  /** An SOF frame arriving in two pieces is held after the first and delivered whole after the second. */
  lemma SplitFrameReassembled(f: seq<Byte>, k: nat)
    requires |f| >= 6 && f[0] == SOF && LengthInLimits(f[1]) && |f| == FrameSize(f[1])
    requires 0 < k < |f|
    ensures Scan(f[..k]) == Scanned([], f[..k])
    ensures Scan(f[..k] + f[k..]) == Scanned([f], [])
  {
    assert f[..k] + f[k..] == f;
    assert f[..FrameSize(f[1])] == f;
    assert f[FrameSize(f[1])..] == [];
  }

  /** Of two complete SOF frames in the held bytes, only the first is delivered; the second waits for more input. */
  lemma OneSofFramePerChunk(f: seq<Byte>, g: seq<Byte>)
    requires WellFormedFrame(f) && WellFormedFrame(g) && f[0] == SOF
    ensures Scan(f + g) == Scanned([f], g)
  {
    assert (f + g)[..|f|] == f;
    assert (f + g)[|f|..] == g;
  }

  /**
   * An SOF lead with a length byte outside 4 .. 64 stalls the parser: the bytes
   * are kept, and no later chunk gets anything past them until the flush.
   */
  lemma BadLengthStalls(data: seq<Byte>, more: seq<Byte>)
    requires |data| >= 5 && data[0] == SOF && !LengthInLimits(data[1])
    ensures Scan(data) == Scanned([], data)
    ensures Scan(data + more) == Scanned([], data + more)
  {
    assert (data + more)[..2] == data[..2];
  }

  /** A lead byte that is neither a frame byte nor SOF throws away everything held. */
  lemma GarbageDiscards(data: seq<Byte>)
    requires data != [] && !IsSingleByteFrame(data[0]) && data[0] != SOF
    ensures Scan(data) == Scanned([], [])
  {
  }
}
