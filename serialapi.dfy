/**
 * The Serial API middleware (zwave-serial-middleware.js): on the way in it
 * turns the payload of each response or unsolicited request into fields of
 * the context (the controller's version, capabilities, home id and node
 * list, a node's protocol information, a node information frame); on the way
 * out it builds the SOF request frame for a serial function.
 */
module SerialApi {
  import opened Wrappers
  import opened Protocol
  import opened JsBuffer
  import opened HexFormat
  import opened TransportMiddleware
  import opened ZwaveContext
  import Utf8Text

  /** What a layer's invoke does with a context: stops the chain, hands it on, or throws. */
  datatype Flow = Stop | Next(ctx: Inbound) | Throw(error: string)

  /*
   * Bit masks. SerialGetCapabilities tests `(b & (1 << j)) != 0` and
   * SerialApiGetInitData tests `(b & 2^j) == 2^j`; for j < 8 both say bit j is set.
   */

  predicate BitSet(b: Byte, j: nat)
    requires j < 8
  {
    b & ((1 as Byte) << j) != 0
  }

  /** For a single bit, `(b & 2^j) == 2^j` and `(b & 2^j) != 0` agree. */
  lemma SingleBitTest(b: Byte, j: nat)
    requires j < 8
    ensures b & ((1 as Byte) << j) == (1 as Byte) << j <==> BitSet(b, j)
  {
    if j == 0 {} else if j == 1 {} else if j == 2 {} else if j == 3 {}
    else if j == 4 {} else if j == 5 {} else if j == 6 {} else {}
  }

  /** The ids base + j + 1 for the bits j < n of b that are set, lowest first. */
  function ByteIds(b: Byte, base: nat, n: nat): seq<nat>
    requires n <= 8
  {
    if n == 0 then [] else ByteIds(b, base, n - 1) + (if BitSet(b, n - 1) then [base + n] else [])
  }

  /** The ids a bit mask stands for: bit j of byte k is id 8k + j + 1, in ascending order. */
  function MaskIds(mask: seq<Byte>): seq<nat>
  {
    if mask == [] then [] else MaskIds(mask[..|mask| - 1]) + ByteIds(mask[|mask| - 1], 8 * (|mask| - 1), 8)
  }

  predicate StrictlyIncreasing(s: seq<nat>)
  {
    forall i, j :: 0 <= i < j < |s| ==> s[i] < s[j]
  }

  /** Joining two increasing lists, all of whose elements are in order across the join, gives an increasing list. */
  lemma IncreasingConcat(s: seq<nat>, t: seq<nat>)
    requires StrictlyIncreasing(s) && StrictlyIncreasing(t)
    requires forall x, y :: x in s && y in t ==> x < y
    ensures StrictlyIncreasing(s + t)
  {
    var u := s + t;
    forall i, j | 0 <= i < j < |u| ensures u[i] < u[j] {
      if j < |s| {
        assert u[i] == s[i] && u[j] == s[j];
      } else if i >= |s| {
        assert u[i] == t[i - |s|] && u[j] == t[j - |s|];
      } else {
        assert u[i] == s[i] && u[j] == t[j - |s|];
        assert s[i] in s && t[j - |s|] in t;
      }
    }
  }

  lemma {:induction false} ByteIdsSpec(b: Byte, base: nat, n: nat)
    requires n <= 8
    ensures forall id :: id in ByteIds(b, base, n) <==> base < id <= base + n && BitSet(b, id - base - 1)
    ensures StrictlyIncreasing(ByteIds(b, base, n))
  {
    if n > 0 {
      ByteIdsSpec(b, base, n - 1);
      var last: seq<nat> := if BitSet(b, n - 1) then [base + n] else [];
      IncreasingConcat(ByteIds(b, base, n - 1), last);
    }
  }

  /** Every id of the mask is in 1 .. 8 * |mask|, and it is there exactly when its bit is set. */
  lemma {:induction false} MaskIdsSpec(mask: seq<Byte>)
    ensures forall id :: id in MaskIds(mask) <==>
      1 <= id <= 8 * |mask| && BitSet(mask[(id - 1) / 8], (id - 1) % 8)
    ensures StrictlyIncreasing(MaskIds(mask))
  {
    if mask != [] {
      var init := mask[..|mask| - 1];
      var base := 8 * (|mask| - 1);
      MaskIdsSpec(init);
      ByteIdsSpec(mask[|mask| - 1], base, 8);
      assert forall k :: 0 <= k < |init| ==> mask[k] == init[k];
      IncreasingConcat(MaskIds(init), ByteIds(mask[|mask| - 1], base, 8));
    }
  }

  /** `payload[start .. start + n]` read the way the bit tests read it: a missing byte has no bits set. */
  function Window(p: seq<Byte>, start: nat, n: nat): (w: seq<Byte>)
    ensures |w| == n
    ensures forall k :: 0 <= k < n ==> w[k] == ByteAt(p, start + k)
  {
    seq(n, k requires 0 <= k < n => ByteAt(p, start + k))
  }

  lemma MaskSnoc(p: seq<Byte>, octet: nat)
    requires 8 <= octet < |p|
    ensures MaskIds(Slice(p, 8, octet + 1)) == MaskIds(Slice(p, 8, octet)) + ByteIds(p[octet], 8 * (octet - 8), 8)
  {
    assert Slice(p, 8, octet + 1)[..octet - 8] == Slice(p, 8, octet);
  }

  /** One step of the SerialGetCapabilities bit test extends the ids of byte b by bit j's id when it is set. */
  lemma CapabilityBitStep(b: Byte, base: nat, j: nat, before: seq<nat>)
    requires j < 8
    ensures BitSet(b, j) ==> before + ByteIds(b, base, j + 1) == (before + ByteIds(b, base, j)) + [base + j + 1]
    ensures !BitSet(b, j) ==> before + ByteIds(b, base, j + 1) == before + ByteIds(b, base, j)
  {
    ConcatAssoc(before, ByteIds(b, base, j), [base + j + 1]);
  }

  /** SerialGetCapabilities: the supported function ids, from the bit mask that begins at payload byte 8. */
  method SerialCapabilityIds(p: seq<Byte>) returns (ids: seq<nat>)
    ensures ids == MaskIds(From(p, 8))
  {
    ids := [];
    var octet := 8;
    while octet < |p|
      invariant 8 <= octet && (octet <= |p| || octet == 8)
      invariant ids == MaskIds(Slice(p, 8, octet))
    {
      var bit := 0;
      ghost var before := ids;
      while bit < 8
        invariant 0 <= bit <= 8
        invariant ids == before + ByteIds(p[octet], 8 * (octet - 8), bit)
      {
        CapabilityBitStep(p[octet], 8 * (octet - 8), bit, before);
        if p[octet] & ((1 as Byte) << bit) != 0 {
          ids := ids + [(octet - 8) * 8 + bit + 1];
        }
        bit := bit + 1;
      }
      MaskSnoc(p, octet);
      octet := octet + 1;
    }
  }

  /** The number of node bitmask bytes SerialApiGetInitData requires (232 node ids). */
  const NODE_BYTES: nat := 29

  /** The node list built from a list of ids: each id maps to `{ available: true }`. */
  function AvailableNodes(ids: seq<nat>): (nodes: Nodes)
  {
    if ids == [] then map[] else AvailableNodes(ids[..|ids| - 1])[Some(ids[|ids| - 1]) := Some(NodeRecord(None, Available))]
  }

  lemma {:induction false} AvailableNodesSpec(ids: seq<nat>)
    ensures forall k :: k in AvailableNodes(ids) <==> k.Some? && k.value in ids
    ensures forall k :: k in AvailableNodes(ids) ==> AvailableNodes(ids)[k] == Some(NodeRecord(None, Available))
  {
    if ids != [] {
      AvailableNodesSpec(ids[..|ids| - 1]);
      assert ids == ids[..|ids| - 1] + [ids[|ids| - 1]];
    }
  }

  lemma AvailableNodesSnoc(ids: seq<nat>, id: nat)
    ensures AvailableNodes(ids + [id]) == AvailableNodes(ids)[Some(id) := Some(NodeRecord(None, Available))]
  {
    assert (ids + [id])[..|ids|] == ids;
  }

  /** The ids of the first k node bytes of a SerialApiGetInitData payload, which begin at byte 3. */
  function InitIds(p: seq<Byte>, k: nat): seq<nat>
  {
    if k == 0 then [] else InitIds(p, k - 1) + ByteIds(ByteAt(p, 3 + k - 1), 8 * (k - 1), 8)
  }

  /** They are the ids of the bit mask made of those bytes. */
  lemma {:induction false} InitIdsMask(p: seq<Byte>, k: nat)
    ensures InitIds(p, k) == MaskIds(Window(p, 3, k))
  {
    if k > 0 {
      InitIdsMask(p, k - 1);
      assert Window(p, 3, k)[..k - 1] == Window(p, 3, k - 1);
    }
  }

  lemma ConcatAssoc(a: seq<nat>, b: seq<nat>, c: seq<nat>)
    ensures a + (b + c) == (a + b) + c
  {
  }

  /** One step of the SerialApiGetInitData bit test extends the ids of byte b by bit j's id when it is set. */
  lemma InitDataBitStep(b: Byte, base: nat, j: nat, before: seq<nat>, b1: Byte, b2: Byte)
    requires j < 8 && b2 == (1 as Byte) << j && b1 == b & b2
    ensures b1 == b2 ==> before + ByteIds(b, base, j + 1) == (before + ByteIds(b, base, j)) + [base + j + 1]
    ensures b1 != b2 ==> before + ByteIds(b, base, j + 1) == before + ByteIds(b, base, j)
  {
    SingleBitTest(b, j);
    ConcatAssoc(before, ByteIds(b, base, j), [base + j + 1]);
  }

  /**
   * The inner loop of SerialApiGetInitData: tests the eight bits of one node
   * byte, marking node nodeId available for each set bit, and counts nodeId on.
   */
  method MarkByteNodes(incomingByte: Byte, nodeId0: nat, nodes0: Nodes, ghost before: seq<nat>)
    returns (nodeId: nat, nodes: Nodes, ghost ids: seq<nat>)
    requires nodeId0 >= 1 && nodes0 == AvailableNodes(before)
    ensures nodeId == nodeId0 + 8
    ensures ids == before + ByteIds(incomingByte, nodeId0 - 1, 8) && nodes == AvailableNodes(ids)
  {
    nodeId, nodes, ids := nodeId0, nodes0, before;
    var j := 0;
    while j < 8
      invariant 0 <= j <= 8
      invariant nodeId == nodeId0 + j
      invariant ids == before + ByteIds(incomingByte, nodeId0 - 1, j)
      invariant nodes == AvailableNodes(ids)
    {
      var b1 := incomingByte & ((1 as Byte) << j);
      var b2 := (1 as Byte) << j;
      InitDataBitStep(incomingByte, nodeId0 - 1, j, before, b1, b2);
      if b1 == b2 {
        AvailableNodesSnoc(ids, nodeId);
        ids := ids + [nodeId];
        nodes := nodes[Some(nodeId) := Some(NodeRecord(None, Available))];
      }
      nodeId := nodeId + 1;
      j := j + 1;
    }
  }

  /** SerialApiGetInitData: the nodes whose bits are set in payload bytes 3 .. 31, numbered from 1. */
  method InitDataNodes(p: seq<Byte>) returns (nodes: Nodes)
    ensures nodes == AvailableNodes(InitIds(p, NODE_BYTES))
  {
    var nodeId := 1;
    nodes := map[];
    ghost var ids: seq<nat> := [];
    var i := 3;
    while i < 3 + NODE_BYTES
      invariant 3 <= i <= 3 + NODE_BYTES
      invariant nodeId == 8 * (i - 3) + 1
      invariant ids == InitIds(p, i - 3)
      invariant nodes == AvailableNodes(ids)
    {
      var incomingByte := ByteAt(p, i);
      nodeId, nodes, ids := MarkByteNodes(incomingByte, nodeId, nodes, ids);
      i := i + 1;
    }
  }

  /** The node list SerialApiGetInitData yields holds exactly the ids 1 .. 232 whose bit is set, each available. */
  lemma InitDataNodesSpec(p: seq<Byte>)
    ensures var nodes := AvailableNodes(InitIds(p, NODE_BYTES));
      (forall k :: k in nodes <==> k.Some? && 1 <= k.value <= 232
                                   && BitSet(ByteAt(p, 3 + (k.value - 1) / 8), (k.value - 1) % 8))
      && (forall k :: k in nodes ==> nodes[k] == Some(NodeRecord(None, Available)))
  {
    var w := Window(p, 3, NODE_BYTES);
    InitIdsMask(p, NODE_BYTES);
    MaskIdsSpec(w);
    AvailableNodesSpec(MaskIds(w));
  }

  /*
   * Node information frames. The class list runs from payload byte 6 up to
   * (not including) byte `payload[2] + 3`; when payload[2] is missing that
   * bound is NaN and the loop does not run.
   */

  function NifEnd(p: seq<Byte>): nat
  {
    if |p| >= 3 then Val(p[2]) + 3 else 0
  }

  /**
   * The class list of bytes 6 .. end - 1, each recorded under name(byte); a
   * class listed twice keeps one entry. The loop uses ClassName for name.
   */
  function NifClassesUpTo(p: seq<Byte>, end: nat, name: Option<Byte> -> string): map<Option<Byte>, string>
  {
    if end <= 6 then map[] else NifClassesUpTo(p, end - 1, name)[At(p, end - 1) := name(At(p, end - 1))]
  }

  function NifClasses(p: seq<Byte>): map<Option<Byte>, string>
  {
    NifClassesUpTo(p, NifEnd(p), ClassName)
  }

  /** The class bytes of payload bytes 6 .. end - 1. */
  function NifListed(p: seq<Byte>, end: nat): set<Option<Byte>>
  {
    if end <= 6 then {} else NifListed(p, end - 1) + {At(p, end - 1)}
  }

  /** The class list's keys are the bytes listed, whatever names it records. */
  lemma {:induction false} NifListedKeys(p: seq<Byte>, end: nat, name: Option<Byte> -> string)
    ensures NifClassesUpTo(p, end, name).Keys == NifListed(p, end)
  {
    if end > 6 {
      NifListedKeys(p, end - 1, name);
    }
  }

  /** The SupportedCmdClasses record the serial layer stores is the class list the loop builds. */
  lemma ClassListNames(p: seq<Byte>)
    ensures ClassList(NifListed(p, NifEnd(p))).names == NifClasses(p)
  {
    NifListedKeys(p, NifEnd(p), ClassName);
    NifClassesListed(p);
  }

  /** The class list loop of a node information frame, with an unknown class recorded as "unknown". */
  method SupportedClasses(p: seq<Byte>) returns (classes: map<Option<Byte>, string>)
    ensures classes == NifClasses(p)
  {
    classes := ListClasses(p, ClassName);
  }

  /** The loop over bytes 6 .. payload[2] + 2, recording each byte under name(byte). */
  method ListClasses(p: seq<Byte>, name: Option<Byte> -> string) returns (classes: map<Option<Byte>, string>)
    ensures classes == NifClassesUpTo(p, NifEnd(p), name)
  {
    classes := map[];
    var end := NifEnd(p);
    var i := 6;
    while i < end
      invariant 6 <= i && (i <= end || i == 6)
      invariant classes == NifClassesUpTo(p, i, name)
    {
      var data := At(p, i);
      NifClassesNext(p, i, name);
      classes := classes[data := name(data)];
      i := i + 1;
    }
  }

  lemma NifClassesNext(p: seq<Byte>, i: nat, name: Option<Byte> -> string)
    requires i >= 6
    ensures NifClassesUpTo(p, i + 1, name) == NifClassesUpTo(p, i, name)[At(p, i) := name(At(p, i))]
  {
  }

  /** The class list holds exactly the bytes listed, each under the name the naming function gives it. */
  lemma {:induction false} NifClassesSpec(p: seq<Byte>, end: nat, name: Option<Byte> -> string)
    ensures forall d :: d in NifClassesUpTo(p, end, name) <==> exists i :: 6 <= i < end && At(p, i) == d
    ensures forall d :: d in NifClassesUpTo(p, end, name) ==> NifClassesUpTo(p, end, name)[d] == name(d)
  {
    if end > 6 {
      NifClassesSpec(p, end - 1, name);
      NifClassesStep(p, end - 1, end, name);
    }
  }

  lemma NifClassesStep(p: seq<Byte>, prev: nat, end: nat, name: Option<Byte> -> string)
    requires end > 6 && prev + 1 == end
    requires forall d :: d in NifClassesUpTo(p, prev, name) <==> exists i :: 6 <= i < prev && At(p, i) == d
    requires forall d :: d in NifClassesUpTo(p, prev, name) ==> NifClassesUpTo(p, prev, name)[d] == name(d)
    ensures forall d :: d in NifClassesUpTo(p, end, name) <==> exists i :: 6 <= i < end && At(p, i) == d
    ensures forall d :: d in NifClassesUpTo(p, end, name) ==> NifClassesUpTo(p, end, name)[d] == name(d)
  {
    var m := NifClassesUpTo(p, prev, name);
    assert NifClassesUpTo(p, end, name) == m[At(p, prev) := name(At(p, prev))];
    forall d | d in NifClassesUpTo(p, end, name)
      ensures exists i :: 6 <= i < end && At(p, i) == d
    {
      if d != At(p, prev) {
        var i :| 6 <= i < prev && At(p, i) == d;
        assert 6 <= i < end;
      }
    }
  }

  /** The class list a node information frame yields holds exactly the bytes listed, each under its table name or "unknown". */
  lemma NifClassesListed(p: seq<Byte>)
    ensures forall d :: d in NifClasses(p) <==> exists i :: 6 <= i < NifEnd(p) && At(p, i) == d
    ensures forall d :: d in NifClasses(p) ==> NifClasses(p)[d] == ClassName(d)
  {
    NifClassesSpec(p, NifEnd(p), ClassName);
  }

  /**
   * The class list as written: `CommandClass.properties[data].name` throws a
   * TypeError when the table has no entry for the byte, or when the byte lies
   * past the end of the payload.
   */
  function NifClassesAsWritten(p: seq<Byte>, end: nat): Result<map<Option<Byte>, string>>
  {
    if end <= 6 then Ok(map[])
    else
      match NifClassesAsWritten(p, end - 1)
      case Err(e) => Err(e)
      case Ok(m) =>
        var d := At(p, end - 1);
        if NameAt(CommandClassName, d).None? then Err("TypeError: Cannot read property 'name' of undefined")
        else Ok(m[d := NameAt(CommandClassName, d).value])
  }

  /** The code as written throws exactly when some listed byte has no table entry. */
  lemma {:induction false} NifAsWrittenThrows(p: seq<Byte>, end: nat)
    ensures NifClassesAsWritten(p, end).Err? <==>
      exists i :: 6 <= i < end && NameAt(CommandClassName, At(p, i)).None?
  {
    if end > 6 {
      NifAsWrittenThrows(p, end - 1);
      if NameAt(CommandClassName, At(p, end - 1)).None? {
        assert 6 <= end - 1 < end;
      }
    }
  }

  /**
   * Otherwise it computes the same list as the corrected loop, so the
   * "unknown" fallback the code spells out is only reachable after the fix.
   */
  lemma {:induction false} NifAsWrittenAgreement(p: seq<Byte>, end: nat)
    ensures NifClassesAsWritten(p, end).Ok? ==> NifClassesAsWritten(p, end).value == NifClassesUpTo(p, end, ClassName)
  {
    if end > 6 {
      NifAsWrittenAgreement(p, end - 1);
    }
  }

  /** A node information frame for node 5 listing the class byte 0x01, which the table lacks. */
  lemma NifAsWrittenThrowsOnUnknownClass()
    ensures CommandClassName(0x01).None?
    ensures NifClassesAsWritten([NODE_INFO_RECEIVED, 5, 4, 0x04, 0x10, 0x01, 0x01], 7).Err?
    ensures NifClasses([NODE_INFO_RECEIVED, 5, 4, 0x04, 0x10, 0x01, 0x01]) == map[Some(0x01) := "unknown"]
  {
    var p: seq<Byte> := [NODE_INFO_RECEIVED, 5, 4, 0x04, 0x10, 0x01, 0x01];
    assert At(p, 6) == Some(0x01);
    assert NifEnd(p) == 7 by { ByteValue(4); }
    assert NifClassesAsWritten(p, 6) == Ok(map[]);
    assert ClassName(Some(0x01)) == "unknown";
    assert NifClassesUpTo(p, 7, ClassName) == NifClassesUpTo(p, 6, ClassName)[Some(0x01) := "unknown"];
  }

  /*
   * Reading the payload of each function class.
   */

  function Named(table: Byte -> Option<string>, b: Option<Byte>): (v: NamedValue)
    ensures v.value == b
  {
    NamedValue(b, NameAt(table, b))
  }

  function SpecificOf(p: seq<Byte>): SpecificDeviceClass
  {
    SpecificDeviceClass(At(p, 5), At(p, 4))
  }

  /** A node information frame's record, with the class list the loop produces. */
  function NifNode(p: seq<Byte>, classes: ClassList): NodeRecord
  {
    NodeRecord(KeyOf(At(p, 1)),
      InfoFrame(Named(BasicClassName, At(p, 3)), Named(GenericClassName, At(p, 4)), SpecificOf(p), classes))
  }

  /** ApplicationUpdate: the status; a node information frame stored under its node id, or a failure under 0. */
  function ApplicationUpdate(c: Inbound, classes: ClassList): Inbound
  {
    var p := c.payload;
    var c1 := c.(status := Some(Named(ApplicationUpdateName, At(p, 0))));
    if At(p, 0) == Some(NODE_INFO_RECEIVED) then c1.(nodes := c.nodes[KeyOf(At(p, 1)) := Some(NifNode(p, classes))])
    else if At(p, 0) == Some(NODE_INFO_REQ_FAILED) then c1.(nodes := map[Some(0) := Some(NodeRecord(None, InfoFailed))])
    else c1
  }

  /** ApplicationCommandHandler: the sending node, the command class and command, and the command's arguments. */
  function CommandHandler(c: Inbound): Inbound
  {
    var p := c.payload;
    c.(nodeId := At(p, 1), commandClass := At(p, 3), command := At(p, 4), payload := From(p, 5))
  }

  function GetVersion(p: seq<Byte>): Controller
  {
    VersionInfo(Utf8Text.Decode(Slice(p, 0, 11)), Named(LibraryTypeName, At(p, 12)))
  }

  function SerialGetCapabilities(p: seq<Byte>, capabilities: seq<nat>): Controller
  {
    SerialCapabilities(DecimalText(At(p, 0)) + "." + DecimalText(At(p, 1)),
      ToHex(Word(ByteAt(p, 2), ByteAt(p, 3))), ToHex(Word(ByteAt(p, 4), ByteAt(p, 5))),
      ToHex(Word(ByteAt(p, 6), ByteAt(p, 7))), capabilities)
  }

  function GetHomeId(p: seq<Byte>): Controller
  {
    HomeInfo(ToHex32(At(p, 0), At(p, 1), At(p, 2), At(p, 3)), At(p, 4))
  }

  function GetControllerCapabilities(p: seq<Byte>): Controller
  {
    var b := ByteAt(p, 0);
    ControllerCapabilities(b & CAPS_IS_SECONDARY_CONTROLLER != 0, b & CAPS_IS_ON_OTHER_NETWORK != 0,
      b & CAPS_IS_SIS_PRESENT != 0, b & CAPS_IS_REAL_PRIMARY != 0, b & CAPS_IS_STATIC_UPDATE_CONTROLLER != 0)
  }

  function InitDataController(p: seq<Byte>): Controller
  {
    var b := ByteAt(p, 1);
    InitData(b & INIT_IS_SECONDARY_CONTROLLER != 0, b & INIT_SLAVE_API != 0, b & INIT_TIMER_SUPPORT != 0,
      b & INIT_IS_STATIC_UPDATE_CONTROLLER != 0, At(p, 0))
  }

  /** GetNodeProtocolInfo's record, stored under node 0 until the node-missing layer moves it. */
  function ProtocolInfoNode(p: seq<Byte>): NodeRecord
  {
    var b0, b1 := ByteAt(p, 0), ByteAt(p, 1);
    NodeRecord(None, ProtocolInfo(b0 & NODE_LISTENING != 0, b0 & NODE_ROUTING != 0, Val(b0 & NODE_VERSION) + 1,
      b1 & NODE_FREQUENTLY_LISTENING != 0, b1 & NODE_BEAMING != 0, b1 & NODE_SECURITY != 0, At(p, 2),
      Named(BasicClassName, At(p, 3)), Named(GenericClassName, At(p, 4)), SpecificOf(p)))
  }

  /** Whether SerialApiGetInitData reports the full 29-byte node mask; otherwise the node list is left alone. */
  predicate HasNodeMask(p: seq<Byte>)
  {
    At(p, 2) == Some(NODE_BYTES as Byte)
  }

  /**
   * The serial layer's invoke, given the results of its three loops:
   * RequestNodeInfo and SendData frames stop here (the ApplicationUpdate or
   * command that follows is what matters), every other frame goes on.
   */
  function SerialDecode(c: Inbound, capabilities: seq<nat>, initNodes: Nodes, classes: ClassList): (r: Flow)
    ensures r.Stop? <==> c.frame.functionClass in {Some(REQUEST_NODE_INFO), Some(SEND_DATA)}
    ensures r.Next? ==> r.ctx.frame == c.frame
    ensures !r.Throw?
  {
    var p := c.payload;
    var fc := c.frame.functionClass;
    if fc == Some(REQUEST_NODE_INFO) || fc == Some(SEND_DATA) then Stop
    else if fc == Some(APPLICATION_COMMAND_HANDLER) then Next(CommandHandler(c))
    else if fc == Some(APPLICATION_UPDATE) then Next(ApplicationUpdate(c, classes))
    else if fc == Some(GET_VERSION) then Next(c.(controller := GetVersion(p)))
    else if fc == Some(SERIAL_GET_CAPABILITIES) then Next(c.(controller := SerialGetCapabilities(p, capabilities)))
    else if fc == Some(GET_HOME_ID) then Next(c.(controller := GetHomeId(p)))
    else if fc == Some(GET_CONTROLLER_CAPABILITIES) then Next(c.(controller := GetControllerCapabilities(p)))
    else if fc == Some(SERIAL_API_GET_INIT_DATA) then
      Next(c.(controller := InitDataController(p), nodes := if HasNodeMask(p) then initNodes else c.nodes))
    else if fc == Some(GET_NODE_PROTOCOL_INFO) then Next(c.(nodes := c.nodes[Some(0) := Some(ProtocolInfoNode(p))]))
    else Next(c)
  }

  /** What the serial layer makes of a context: SerialDecode with the loops' specified results. */
  function SerialSpec(c: Inbound): Flow
  {
    SerialDecode(c, MaskIds(From(c.payload, 8)), AvailableNodes(InitIds(c.payload, NODE_BYTES)),
      ClassList(NifListed(c.payload, NifEnd(c.payload))))
  }

  /** ZwaveSerialApiMiddleware.invoke, with the class-list loop corrected to record unknown classes as "unknown". */
  method Invoke(c: Inbound) returns (r: Flow)
    ensures r == SerialSpec(c)
  {
    var p := c.payload;
    var capabilities: seq<nat> := [];
    var initNodes: Nodes := map[];
    var classes: map<Option<Byte>, string> := map[];
    var fc := c.frame.functionClass;
    if fc == Some(SERIAL_GET_CAPABILITIES) {
      capabilities := SerialCapabilityIds(p);
    } else if fc == Some(SERIAL_API_GET_INIT_DATA) && HasNodeMask(p) {
      initNodes := InitDataNodes(p);
    } else if fc == Some(APPLICATION_UPDATE) && At(p, 0) == Some(NODE_INFO_RECEIVED) {
      classes := SupportedClasses(p);
    }
    NifListedKeys(p, NifEnd(p), ClassName);
    r := SerialDecode(c, capabilities, initNodes, ClassList(classes.Keys));
  }

  /*
   * Properties of the decoding.
   */

  /** Only RequestNodeInfo and SendData frames stop at this layer, and no frame is rejected. */
  lemma StopsOnlyNodeInfoAndSendData(c: Inbound)
    ensures SerialSpec(c).Stop? <==> c.frame.functionClass in {Some(REQUEST_NODE_INFO), Some(SEND_DATA)}
    ensures !SerialSpec(c).Throw?
  {
  }

  /** Frames of a function class the layer does not read pass through unchanged. */
  lemma OtherFramesUnchanged(c: Inbound)
    requires c.frame.functionClass !in {Some(REQUEST_NODE_INFO), Some(SEND_DATA), Some(APPLICATION_COMMAND_HANDLER),
      Some(APPLICATION_UPDATE), Some(GET_VERSION), Some(SERIAL_GET_CAPABILITIES), Some(GET_HOME_ID),
      Some(GET_CONTROLLER_CAPABILITIES), Some(SERIAL_API_GET_INIT_DATA), Some(GET_NODE_PROTOCOL_INFO)}
    ensures SerialSpec(c) == Next(c)
  {
  }

  /** The capability list of SerialGetCapabilities: ascending ids, each present exactly when its bit is set. */
  lemma CapabilitiesSpec(p: seq<Byte>)
    requires |p| >= 8
    ensures var ids := MaskIds(From(p, 8));
      StrictlyIncreasing(ids)
      && forall id :: id in ids <==> 1 <= id <= 8 * (|p| - 8) && BitSet(p[8 + (id - 1) / 8], (id - 1) % 8)
  {
    MaskIdsSpec(From(p, 8));
  }

  /** The ids, device type and manufacturer of SerialGetCapabilities are "0x" and four digits that read back as the byte pairs. */
  lemma SerialCapabilitiesIds(p: seq<Byte>, caps: seq<nat>)
    requires |p| >= 8
    ensures var c := SerialGetCapabilities(p, caps);
      ParseHex(c.manufacturerId[2..]) == Some(Word(p[2], p[3]))
      && ParseHex(c.deviceType[2..]) == Some(Word(p[4], p[5]))
      && ParseHex(c.deviceId[2..]) == Some(Word(p[6], p[7]))
      && c.capabilities == caps
  {
    var c := SerialGetCapabilities(p, caps);
    assert c.manufacturerId == ToHex(Word(p[2], p[3]));
    assert c.deviceType == ToHex(Word(p[4], p[5]));
    assert c.deviceId == ToHex(Word(p[6], p[7]));
    ToHexRoundTrip(Word(p[2], p[3]));
    ToHexRoundTrip(Word(p[4], p[5]));
    ToHexRoundTrip(Word(p[6], p[7]));
  }

  /** The application version "a.b" splits at its one "." back into the two payload bytes. */
  lemma ApplicationVersionSplits(p: seq<Byte>, caps: seq<nat>)
    requires |p| >= 2
    ensures var v := SerialGetCapabilities(p, caps).applicationVersion;
      var k := |DecimalText(Some(p[0]))|;
      0 < k < |v| && v[k] == '.' && '.' !in v[..k] && '.' !in v[k + 1..]
      && ParseDigits(v[..k], 10) == Some(Val(p[0])) && ParseDigits(v[k + 1..], 10) == Some(Val(p[1]))
  {
    var a, b := DecimalText(Some(p[0])), DecimalText(Some(p[1]));
    DecimalTextRoundTrip(p[0]);
    DecimalTextRoundTrip(p[1]);
    assert |a| >= 1;
    var v := a + "." + b;
    assert SerialGetCapabilities(p, caps).applicationVersion == v by {
      assert At(p, 0) == Some(p[0]) && At(p, 1) == Some(p[1]);
    }
    assert v[|a|] == '.' && v[..|a|] == a;
    assert v[|a| + 1..] == b;
  }

  /** GetHomeId: eight hexadecimal digits that read back as the big-endian home id, and the controller's own node id. */
  lemma HomeIdSpec(p: seq<Byte>)
    requires |p| >= 5
    ensures var c := GetHomeId(p);
      |c.homeId| == 8 && c.ownNodeId == Some(p[4])
      && ParseHex(c.homeId[..2]) == Some(Val(p[0])) && ParseHex(c.homeId[2..4]) == Some(Val(p[1]))
      && ParseHex(c.homeId[4..6]) == Some(Val(p[2])) && ParseHex(c.homeId[6..]) == Some(Val(p[3]))
  {
    assert At(p, 0) == Some(p[0]) && At(p, 1) == Some(p[1]) && At(p, 2) == Some(p[2]) && At(p, 3) == Some(p[3]);
    ToHex32RoundTrip(p[0], p[1], p[2], p[3]);
  }

  lemma HexByteExample(b: Byte, n: nat, s: string)
    requires Val(b) == n && Last("00" + ToRadix(n, 16), 2) == s
    ensures ToHex8(Some(b)) == s
  {
  }

  lemma HomeIdExample()
    ensures GetHomeId([0xc0, 0xff, 0xee, 0x01, 0x01]) == HomeInfo("c0ffee01", Some(0x01))
  {
    HexByteExample(0xc0, 192, "c0");
    HexByteExample(0xff, 255, "ff");
    HexByteExample(0xee, 238, "ee");
    HexByteExample(0x01, 1, "01");
  }

  /**
   * GetVersion: the version text is the first eleven payload bytes read as
   * UTF-8, so a text sent in UTF-8 reads back as itself and ASCII bytes give
   * one character each; the library type is byte 12 with its table name.
   */
  lemma GetVersionSpec(p: seq<Byte>)
    requires |p| >= 13
    ensures var c := GetVersion(p);
      |c.version| <= 11 && (forall t :: Utf8Text.Encode(t) == p[..11] ==> c.version == t)
      && c.libraryType.value == Some(p[12]) && c.libraryType.name == LibraryTypeName(p[12])
    ensures (forall i :: 0 <= i < 11 ==> Val(p[i]) < 0x80) ==>
      var v := GetVersion(p).version;
      |v| == 11 && forall i :: 0 <= i < 11 ==> v[i] as int == Val(p[i])
  {
    assert Slice(p, 0, 11) == p[..11];
    forall t | Utf8Text.Encode(t) == p[..11] ensures Utf8Text.Decode(p[..11]) == t {
      Utf8Text.DecodeEncode(t);
    }
    if forall i :: 0 <= i < 11 ==> Val(p[i]) < 0x80 {
      Utf8Text.AsciiText(p[..11]);
    }
  }

  /** A payload too short for the version gives text for the bytes present only, and no library type. */
  lemma GetVersionShortPayload(p: seq<Byte>)
    requires |p| <= 11
    ensures var c := GetVersion(p);
      |c.version| <= |p| && (forall t :: Utf8Text.Encode(t) == p ==> c.version == t)
      && c.libraryType.value.None? && c.libraryType.name.None?
  {
    assert Slice(p, 0, 11) == p;
    forall t | Utf8Text.Encode(t) == p ensures Utf8Text.Decode(p) == t {
      Utf8Text.DecodeEncode(t);
    }
  }

  /** GetControllerCapabilities: each of the five flags is one bit of payload byte 0, and all are false when that byte is missing. */
  lemma ControllerCapabilitiesSpec(p: seq<Byte>)
    ensures var c := GetControllerCapabilities(p);
      var b := ByteAt(p, 0);
      (c.isSecondaryController <==> b & 0x01 == 0x01) && (c.isOnOtherNetwork <==> b & 0x02 == 0x02)
      && (c.isSISPresent <==> b & 0x04 == 0x04) && (c.isRealPrimary <==> b & 0x08 == 0x08)
      && (c.isStaticUpdateController <==> b & 0x10 == 0x10)
    ensures p == [] ==> GetControllerCapabilities(p) == ControllerCapabilities(false, false, false, false, false)
  {
  }

  /** SerialApiGetInitData: the four flags are bits of payload byte 1 and the Serial API version is byte 0. */
  lemma InitDataFlagsSpec(p: seq<Byte>)
    ensures var c := InitDataController(p);
      var b := ByteAt(p, 1);
      (c.isSlaveApi <==> b & 0x01 == 0x01) && (c.hasTimerSupport <==> b & 0x02 == 0x02)
      && (c.isSecondaryController <==> b & 0x04 == 0x04) && (c.isStaticUpdateController <==> b & 0x08 == 0x08)
      && c.serialApiVersion == At(p, 0)
  {
  }

  /** GetNodeProtocolInfo: the protocol version is the low three bits plus one, so 1 .. 8, and each flag is its bit. */
  lemma ProtocolInfoSpec(p: seq<Byte>)
    requires |p| >= 2
    ensures var f := ProtocolInfoNode(p).fields;
      1 <= f.version <= 8
      && (f.listening <==> p[0] & 0x80 == 0x80) && (f.routing <==> p[0] & 0x40 == 0x40)
      && (f.beaming <==> p[1] & 0x10 == 0x10) && (f.security <==> p[1] & 0x01 == 0x01)
      && (f.frequentlyListening <==> p[1] & 0x60 != 0)
  {
    var v := p[0] & 7;
    assert v <= 7;
    assert Val(v) <= 7;
  }

  /** ApplicationCommandHandler frame a node sends: receive status, node id, command length, class, command, arguments. */
  function CommandFrame(status: Byte, node: Byte, cc: Byte, cmd: Byte, args: seq<Byte>): seq<Byte>
    requires |args| <= 247
  {
    [SOF, (|args| + 8) as Byte, REQUEST, APPLICATION_COMMAND_HANDLER, status, node, (|args| + 2) as Byte, cc, cmd] + args + [0]
  }

  lemma CommandFrameShape(status: Byte, node: Byte, cc: Byte, cmd: Byte, args: seq<Byte>)
    requires |args| <= 247
    ensures var raw := CommandFrame(status, node, cc, cmd, args);
      |raw| >= 5 && |raw| == (raw[1] as int) + 2 && raw[3] == APPLICATION_COMMAND_HANDLER
      && raw[4..|raw| - 1] == [status, node, (|args| + 2) as Byte, cc, cmd] + args
  {
    var raw := CommandFrame(status, node, cc, cmd, args);
    ByteValue(|args| + 8);
    assert raw[1] == (|args| + 8) as Byte;
    assert raw[4..|raw| - 1] == [status, node, (|args| + 2) as Byte, cc, cmd] + args;
  }

  /** The framer reads a node's command frame as ApplicationCommandHandler with the bytes after the function class as payload. */
  lemma CommandFrameFramed(status: Byte, node: Byte, cc: Byte, cmd: Byte, args: seq<Byte>)
    requires |args| <= 247
    ensures var f := FramerInvoke(OnTheWire(CommandFrame(status, node, cc, cmd, args)));
      f.functionClass == Some(APPLICATION_COMMAND_HANDLER) && f.payload == [status, node, (|args| + 2) as Byte, cc, cmd] + args
  {
    CommandFrameShape(status, node, cc, cmd, args);
    FramedAfterFill(CommandFrame(status, node, cc, cmd, args));
  }

  /** An ApplicationCommandHandler frame passes the serial layer with its command fields read out. */
  lemma SerialSpecCommand(c: Inbound)
    requires c.frame.functionClass == Some(APPLICATION_COMMAND_HANDLER)
    ensures SerialSpec(c) == Next(CommandHandler(c))
  {
  }

  /** Framing and decoding a node's command gives back its node id, command class, command and arguments. */
  lemma CommandFrameDecodes(status: Byte, node: Byte, cc: Byte, cmd: Byte, args: seq<Byte>)
    requires |args| <= 247
    ensures var c := FreshInbound(FramerInvoke(OnTheWire(CommandFrame(status, node, cc, cmd, args))));
      SerialSpec(c) == Next(c.(nodeId := Some(node), commandClass := Some(cc), command := Some(cmd), payload := args))
  {
    var c := FreshInbound(FramerInvoke(OnTheWire(CommandFrame(status, node, cc, cmd, args))));
    CommandFrameFramed(status, node, cc, cmd, args);
    SerialSpecCommand(c);
    assert From(c.payload, 5) == args;
  }

  /*
   * Outbound: sendSerialRequest and its wrappers.
   */

  /** The request frame for function fc: SOF, length, Request, fc, payload, and a checksum slot the framer fills. */
  function SerialRequestFrame(fc: Byte, payload: seq<Byte>): (f: seq<Byte>)
    ensures |f| == |payload| + 5
  {
    [SOF, ((|payload| + 3) % 256) as Byte, REQUEST, fc] + payload + [0x00]
  }

  /**
   * sendSerialRequest(fc, payload): a function class of 0 rejects with
   * "Missing function"; otherwise the request carries the frame, and for
   * GetNodeProtocolInfo and RequestNodeInfo the node id the payload begins with.
   */
  function SendSerialRequest(fc: Byte, payload: seq<Byte>): (r: Result<Request>)
    ensures r.Err? <==> fc == 0
    ensures r.Ok? ==> r.value.raw == Some(SerialRequestFrame(fc, payload)) && !r.value.doNotCache
    ensures r.Ok? ==> (r.value.nodeId.Some? <==> (fc == GET_NODE_PROTOCOL_INFO || fc == REQUEST_NODE_INFO) && payload != [])
  {
    if fc == 0 then Err("Missing function")
    else
      var nodeId := if fc == GET_NODE_PROTOCOL_INFO || fc == REQUEST_NODE_INFO then At(payload, 0) else None;
      Ok(Request(Some(SerialRequestFrame(fc, payload)), false, nodeId, None, None, None, None, None))
  }

  /** A request frame, once the framer has filled in its checksum, is read back as the same function and payload. */
  lemma SerialRequestRoundTrip(fc: Byte, payload: seq<Byte>)
    requires |payload| <= 252
    ensures var f := FramerInvoke(OnTheWire(SerialRequestFrame(fc, payload)));
      f.frameType == Some(SOF) && f.messageType == Some(REQUEST) && f.functionClass == Some(fc) && f.payload == payload
    ensures ChecksumValid(OnTheWire(SerialRequestFrame(fc, payload)))
  {
    var raw := SerialRequestFrame(fc, payload);
    var w := OnTheWire(raw);
    OnTheWireValid(raw);
    assert w[..|raw| - 1] == raw[..|raw| - 1];
    assert w[0] == SOF && w[2] == REQUEST && w[3] == fc;
    assert w[1] == ((|payload| + 3) % 256) as Byte;
    ByteValue(|payload| + 3);
    assert w[4..|w| - 1] == raw[4..|raw| - 1] == payload;
  }

  /** A request frame with 1 .. 61 payload bytes is one the stream parser would deliver whole. */
  lemma SerialRequestParses(fc: Byte, payload: seq<Byte>)
    requires 1 <= |payload| <= 61
    ensures var w := OnTheWire(SerialRequestFrame(fc, payload));
      4 <= Val(w[1]) <= 64 && |w| == Val(w[1]) + 2
  {
  }

  lemma SetTimeoutsFrame(ackTimeout: Byte, byteTimeout: Byte)
    ensures SerialRequestFrame(SERIAL_API_SET_TIMEOUTS, [ackTimeout, byteTimeout])
      == [SOF, 0x05, REQUEST, SERIAL_API_SET_TIMEOUTS, ackTimeout, byteTimeout, 0x00]
  {
    assert ((2 + 3) % 256) as Byte == 0x05;
  }

  /** sendSerialApiSetTimeouts(ack, byte): SerialApiSetTimeouts with the two timeouts as its payload. */
  function SendSerialApiSetTimeouts(ackTimeout: Byte, byteTimeout: Byte): (r: Result<Request>)
    ensures r.Ok? && r.value.raw == Some([SOF, 0x05, REQUEST, SERIAL_API_SET_TIMEOUTS, ackTimeout, byteTimeout, 0x00])
    ensures r.value.nodeId.None?
  {
    SetTimeoutsFrame(ackTimeout, byteTimeout);
    SendSerialRequest(SERIAL_API_SET_TIMEOUTS, [ackTimeout, byteTimeout])
  }

  /** The argument of sendGetNodeProtocolInfo and sendRequestNodeInfo: an array of node ids or a single one. */
  datatype NodeSelection = NodeList(ids: seq<Byte>) | SingleNode(id: Byte)

  /** A node id passed as the payload argument: a non-zero number becomes a one-byte list, 0 (falsy) an empty one. */
  function ScalarPayload(id: Byte): (p: seq<Byte>)
    ensures id != 0 ==> p == [id]
    ensures id == 0 ==> p == []
  {
    if id == 0 then [] else [id]
  }

  /** The node id a one-node request stashes: the id itself, or none for node 0, whose payload is empty. */
  function Stashed(id: Byte): Option<Byte>
  {
    if id == 0 then None else Some(id)
  }

  /** The ids a selection names, in order. */
  function Selected(nodes: NodeSelection): seq<Byte>
  {
    if nodes.NodeList? then nodes.ids else [nodes.id]
  }

  /** One request for function fc per selected node. */
  function PerNode(fc: Byte, ids: seq<Byte>): seq<Result<Request>>
  {
    seq(|ids|, i requires 0 <= i < |ids| => SendSerialRequest(fc, ScalarPayload(ids[i])))
  }

  /** sendRequestNodeInfo: one RequestNodeInfo request per node, each stashing its node id. */
  function SendRequestNodeInfo(nodes: NodeSelection): (rs: seq<Result<Request>>)
    ensures |rs| == |Selected(nodes)|
    ensures forall i :: 0 <= i < |rs| ==>
      rs[i].Ok? && rs[i].value.nodeId == Stashed(Selected(nodes)[i])
      && rs[i].value.raw == Some(SerialRequestFrame(REQUEST_NODE_INFO, ScalarPayload(Selected(nodes)[i])))
  {
    match nodes
    case NodeList(ids) => PerNode(REQUEST_NODE_INFO, ids)
    case SingleNode(id) => [SendSerialRequest(REQUEST_NODE_INFO, ScalarPayload(id))]
  }

  /**
   * sendGetNodeProtocolInfo as written: the single-node branch names an
   * undeclared `id` and throws. That Err is a synchronous throw at the
   * caller; the Err of SendSerialRequest is a rejected promise.
   */
  function SendGetNodeProtocolInfoAsWritten(nodes: NodeSelection): seq<Result<Request>>
  {
    match nodes
    case NodeList(ids) => PerNode(GET_NODE_PROTOCOL_INFO, ids)
    case SingleNode(_) => [Err("ReferenceError: id is not defined")]
  }

  /** For a single node, the code as written throws at its caller where the corrected function sends the request. */
  lemma GetNodeProtocolInfoSingleNodeThrows(id: Byte)
    ensures SendGetNodeProtocolInfoAsWritten(SingleNode(id)) == [Err("ReferenceError: id is not defined")]
    ensures SendGetNodeProtocolInfo(SingleNode(id))[0].Ok?
  {
  }

  /** sendGetNodeProtocolInfo with its single-node branch sending for the node it was given, as sendRequestNodeInfo does. */
  function SendGetNodeProtocolInfo(nodes: NodeSelection): (rs: seq<Result<Request>>)
    ensures |rs| == |Selected(nodes)|
    ensures forall i :: 0 <= i < |rs| ==>
      rs[i].Ok? && rs[i].value.nodeId == Stashed(Selected(nodes)[i])
      && rs[i].value.raw == Some(SerialRequestFrame(GET_NODE_PROTOCOL_INFO, ScalarPayload(Selected(nodes)[i])))
    ensures nodes.NodeList? ==> rs == SendGetNodeProtocolInfoAsWritten(nodes)
  {
    match nodes
    case NodeList(ids) => PerNode(GET_NODE_PROTOCOL_INFO, ids)
    case SingleNode(id) => [SendSerialRequest(GET_NODE_PROTOCOL_INFO, ScalarPayload(id))]
  }

  /** sendNodeSequence(ids, cc, cmd): one node command per id, for the node layer to frame. */
  function SendNodeSequence(ids: seq<Byte>, cc: Option<Byte>, cmd: Option<Byte>): (rs: seq<Request>)
    ensures |rs| == |ids|
    ensures forall i :: 0 <= i < |rs| ==>
      rs[i].raw.None? && rs[i].payload.None? && rs[i].nodeId == Some(ids[i]) && rs[i].commandClass == cc
      && rs[i].command == cmd && !rs[i].doNotCache
  {
    seq(|ids|, i requires 0 <= i < |ids| => Request(None, false, Some(ids[i]), None, cc, cmd, None, None))
  }
}
