/**
 * The node middleware (zwave-node-middleware.js). On the way out it wraps a
 * command for one node (command class, command, arguments) into a SendData
 * request frame with a rolling callback id; on the way in it records, for
 * each ApplicationCommandHandler frame, a fresh node under the sending node's
 * id, filled from a ManufacturerSpecific report when the frame carries one.
 */
module NodeSerialApi {
  import opened Wrappers
  import opened Protocol
  import opened JsBuffer
  import opened HexFormat
  import opened TransportMiddleware
  import opened ZwaveContext
  import Utf8Text

  /*
   * Outbound: SendData frames.
   */

  /** A count stored into a Buffer keeps its low eight bits. */
  function Low8(n: nat): (b: Byte)
    ensures Val(b) == n % 256
  {
    ByteValue(n % 256);
    (n % 256) as Byte
  }

  /**
   * The SendData request for a command to node: SOF, length, Request,
   * SendData, node id, command length, class, command, arguments, transmit
   * options, callback id, and the checksum slot.
   */
  function SendDataFrame(node: Byte, cc: Byte, cmd: Byte, args: seq<Byte>, tx: Byte, callbackId: Byte): (f: seq<Byte>)
    ensures |f| == |args| + 11
  {
    [SOF, Low8(|args| + 9), REQUEST, SEND_DATA] + SendDataPayload(node, cc, cmd, args, tx, callbackId) + [0x00]
  }

  /** The SendData payload: node id, command length, class, command, arguments, transmit options, callback id. */
  function SendDataPayload(node: Byte, cc: Byte, cmd: Byte, args: seq<Byte>, tx: Byte, callbackId: Byte): (p: seq<Byte>)
    ensures |p| == |args| + 6
  {
    [node, Low8(|args| + 2), cc, cmd] + args + [tx, callbackId]
  }

  /** The callback id after `(id + 1) % 0xFF`: it runs 1, 2, .., 254, 0, 1, .. */
  function NextCallbackId(id: nat): (n: nat)
    ensures n < 255
    ensures id < 254 ==> n == id + 1
    ensures id == 254 ==> n == 0
  {
    (id + 1) % 255
  }

  /** What ZwaveNodeSerialApi.send does with an outbound context. */
  datatype NodeSend =
    /** `next(context)`: the context goes on down unchanged. */
    | PassOn(ctx: Request)
    /** `server.send(...)`: a new message carrying the SendData frame enters the pipeline. */
    | Resend(msg: Request)
    | Throws(error: string)

  const MISSING_COMMAND := "[ZWAVE] Missing CommandClass or Command on sending a message to a specified Node"

  /**
   * The command's arguments: `payload ? (Array.isArray(payload) ? payload :
   * [payload]) : []`. An array is truthy even when empty and is taken as it
   * is; a number is wrapped into a one-element list, except 0, which is
   * falsy and gives no arguments.
   */
  function Arguments(c: Request): seq<Byte>
  {
    match c.payload
    case None => []
    case Some(Bytes(s)) => s
    case Some(Scalar(v)) => if v == 0 then [] else [v]
  }

  /** The message send builds for context c once the callback id has advanced to callbackId: RawPayload, DoNotCache and NodeId only. */
  function SendDataMessage(c: Request, callbackId: Byte): (m: Request)
    requires c.nodeId.Some? && c.commandClass.Some? && c.command.Some?
    ensures m.raw.Some? && m.doNotCache && m.nodeId == c.nodeId
    ensures m.functionClass.None? && m.commandClass.None? && m.command.None? && m.payload.None?
  {
    var frame := SendDataFrame(c.nodeId.value, c.commandClass.value, c.command.value, Arguments(c),
                               c.transmitOptions.GetOr(TRANSMIT_OPTIONS_NONE), callbackId);
    Request(Some(frame), true, c.nodeId, None, None, None, None, None)
  }

  /**
   * The frame of the message send builds holds the node, class and command
   * at bytes 4, 6 and 7 and the arguments from byte 8, followed by the
   * transmit options, the callback id and the checksum slot.
   */
  lemma SendDataMessageLayout(c: Request, callbackId: Byte)
    requires c.nodeId.Some? && c.commandClass.Some? && c.command.Some?
    ensures var f := SendDataMessage(c, callbackId).raw.value; var n := |Arguments(c)|;
      |f| == n + 11 && f[..4] == [SOF, Low8(n + 9), REQUEST, SEND_DATA]
      && f[4] == c.nodeId.value && f[5] == Low8(n + 2) && f[6] == c.commandClass.value && f[7] == c.command.value
      && f[8..8 + n] == Arguments(c)
      && f[8 + n..] == [c.transmitOptions.GetOr(TRANSMIT_OPTIONS_NONE), callbackId, 0x00]
  {
    var t := c.transmitOptions.GetOr(TRANSMIT_OPTIONS_NONE);
    var head := [SOF, Low8(|Arguments(c)| + 9), REQUEST, SEND_DATA];
    var body := SendDataPayload(c.nodeId.value, c.commandClass.value, c.command.value, Arguments(c), t, callbackId);
    Enclosed(head, body, [0x00]);
  }

  /** The node command c with the single-number Payload v. */
  function ScalarCommand(node: Byte, cc: Byte, cmd: Byte, v: Byte, tx: Option<Byte>): Request
  {
    Request(None, false, Some(node), None, Some(cc), Some(cmd), Some(Scalar(v)), tx)
  }

  /**
   * A single-number Payload is wrapped into a one-element list: a Basic Set
   * (class 0x20, command 0x01) with the Payload 0xFF goes out as the SendData
   * frame whose one argument byte is 0xFF.
   */
  lemma ScalarPayloadWrapped(node: Byte, cc: Byte, cmd: Byte, v: Byte, tx: Option<Byte>, callbackId: Byte)
    requires v != 0
    ensures SendDataMessage(ScalarCommand(node, cc, cmd, v, tx), callbackId).raw
      == Some(SendDataFrame(node, cc, cmd, [v], tx.GetOr(TRANSMIT_OPTIONS_NONE), callbackId))
  {
    assert Arguments(ScalarCommand(node, cc, cmd, v, tx)) == [v];
  }

  /** The Payload 0 is falsy: the frame carries no argument byte at all. */
  lemma ZeroPayloadDropped(node: Byte, cc: Byte, cmd: Byte, tx: Option<Byte>, callbackId: Byte)
    ensures SendDataMessage(ScalarCommand(node, cc, cmd, 0, tx), callbackId).raw
      == Some(SendDataFrame(node, cc, cmd, [], tx.GetOr(TRANSMIT_OPTIONS_NONE), callbackId))
  {
    assert Arguments(ScalarCommand(node, cc, cmd, 0, tx)) == [];
  }

  /**
   * ZwaveNodeSerialApi (the second, effective definition of send). The
   * callback id is the server's CallbackId property, which the transport
   * server sets to 0 when it is created.
   */
  class ZwaveNodeSerialApi {
    var callbackId: nat

    ghost predicate Valid()
      reads this
    {
      callbackId < 255
    }

    constructor ()
      ensures Valid() && callbackId == 0
    {
      callbackId := 0;
    }

    /**
     * send: a context without a (truthy) node id, or one that already has
     * its raw frame, passes on; a node command lacking a truthy command class
     * or command throws; otherwise the callback id advances and the SendData
     * message for the command is sent in its place.
     */
    method Send(c: Request) returns (r: NodeSend)
      requires Valid()
      modifies this
      ensures Valid()
      ensures !Truthy(c.nodeId) || c.raw.Some? ==> r == PassOn(c) && callbackId == old(callbackId)
      ensures Truthy(c.nodeId) && c.raw.None? && !(Truthy(c.commandClass) && Truthy(c.command)) ==>
        r == Throws(MISSING_COMMAND) && callbackId == old(callbackId)
      ensures Truthy(c.nodeId) && c.raw.None? && Truthy(c.commandClass) && Truthy(c.command) ==>
        callbackId == NextCallbackId(old(callbackId)) && r == Resend(SendDataMessage(c, callbackId as Byte))
    {
      if !Truthy(c.nodeId) || c.raw.Some? {
        return PassOn(c);
      }
      if !Truthy(c.commandClass) || !Truthy(c.command) {
        return Throws(MISSING_COMMAND);
      }
      callbackId := NextCallbackId(callbackId);
      r := Resend(SendDataMessage(c, callbackId as Byte));
    }
  }

  /** The framer reads a SendData frame back as the SendData function with node, length, command, arguments, options and callback id as payload. */
  lemma SendDataRoundTrip(node: Byte, cc: Byte, cmd: Byte, args: seq<Byte>, tx: Byte, callbackId: Byte)
    requires |args| <= 246
    ensures var f := FramerInvoke(OnTheWire(SendDataFrame(node, cc, cmd, args, tx, callbackId)));
      f.frameType == Some(SOF) && f.messageType == Some(REQUEST) && f.functionClass == Some(SEND_DATA)
      && f.payload == [node, Low8(|args| + 2), cc, cmd] + args + [tx, callbackId]
    ensures ChecksumValid(OnTheWire(SendDataFrame(node, cc, cmd, args, tx, callbackId)))
  {
    var raw := SendDataFrame(node, cc, cmd, args, tx, callbackId);
    SendDataShape(node, cc, cmd, args, tx, callbackId);
    FramedAfterFill(raw);
    OnTheWireValid(raw);
  }

  lemma SendDataShape(node: Byte, cc: Byte, cmd: Byte, args: seq<Byte>, tx: Byte, callbackId: Byte)
    requires |args| <= 246
    ensures var raw := SendDataFrame(node, cc, cmd, args, tx, callbackId);
      |raw| >= 5 && |raw| == Val(raw[1]) + 2 && raw[0] == SOF && raw[2] == REQUEST && raw[3] == SEND_DATA
      && raw[4..|raw| - 1] == [node, Low8(|args| + 2), cc, cmd] + args + [tx, callbackId]
  {
    var head := [SOF, Low8(|args| + 9), REQUEST, SEND_DATA];
    var body := SendDataPayload(node, cc, cmd, args, tx, callbackId);
    Enclosed(head, body, [0x00]);
    LowValue(|args| + 9);
  }

  /** In head + body + tail, the head's bytes keep their places and body sits between. */
  lemma Enclosed(head: seq<Byte>, body: seq<Byte>, tail: seq<Byte>)
    ensures var s := head + body + tail;
      |s| == |head| + |body| + |tail| && s[..|head|] == head && s[|head|..|head| + |body|] == body
  {
    var s := head + body + tail;
    assert s == head + (body + tail);
    assert s[|head|..] == body + tail;
  }

  lemma LowValue(n: nat)
    requires n < 256
    ensures Val(Low8(n)) == n
  {
  }

  /** A SendData frame with at most 55 argument bytes has a length byte the stream parser accepts, so it can be delivered whole. */
  lemma SendDataWithinParserLimits(node: Byte, cc: Byte, cmd: Byte, args: seq<Byte>, tx: Byte, callbackId: Byte)
    requires |args| <= 55
    ensures var raw := SendDataFrame(node, cc, cmd, args, tx, callbackId);
      9 <= Val(raw[1]) <= 64 && |raw| == Val(raw[1]) + 2
  {
    SendDataShape(node, cc, cmd, args, tx, callbackId);
  }

  /** Callback ids repeat only every 255 frames: k advances from id land back on id exactly when 255 divides k. */
  function AdvanceCallbackId(id: nat, k: nat): (n: nat)
    requires id < 255
    ensures n < 255
  {
    if k == 0 then id else NextCallbackId(AdvanceCallbackId(id, k - 1))
  }

  lemma {:induction false} AdvanceCallbackIdIsSum(id: nat, k: nat)
    requires id < 255
    ensures AdvanceCallbackId(id, k) == (id + k) % 255
  {
    if k == 0 {
      ModOf(id, 0, id);
    } else {
      AdvanceCallbackIdIsSum(id, k - 1);
      NextOfMod(id + k - 1);
      assert AdvanceCallbackId(id, k) == NextCallbackId(AdvanceCallbackId(id, k - 1));
    }
  }

  lemma NextOfMod(n: nat)
    ensures NextCallbackId(n % 255) == (n + 1) % 255
  {
    var q, m := n / 255, n % 255;
    if m < 254 {
      ModOf(n + 1, q, m + 1);
    } else {
      ModOf(n + 1, q + 1, 0);
    }
  }

  lemma ModOf(n: nat, q: nat, r: nat)
    requires n == 255 * q + r && r < 255
    ensures n % 255 == r
  {
  }

  lemma CallbackIdsCycle(id: nat, k: nat)
    requires id < 255
    ensures AdvanceCallbackId(id, k) == id <==> k % 255 == 0
  {
    AdvanceCallbackIdIsSum(id, k);
  }

  /*
   * Inbound: ManufacturerSpecific reports.
   */

  /** The three header fields of a DeviceSpecificReport. */
  function DataType(p: seq<Byte>): Byte { ByteAt(p, 0) & 0x07 }
  function DataFormat(p: seq<Byte>): Byte { (ByteAt(p, 1) & 0xe0) >> 5 }
  function DataLength(p: seq<Byte>): Byte { ByteAt(p, 1) & 0x1f }

  /** The data of a DeviceSpecificReport: its format and the data bytes its length announces. */
  function DeviceOf(p: seq<Byte>): DeviceText
  {
    DeviceText(DataFormat(p), Slice(p, 2, Val(DataLength(p)) + 2))
  }

  /** The text of a DeviceSpecificReport: the data bytes read as UTF-8 for format 0, their hexadecimal forms otherwise. */
  function DeviceData(p: seq<Byte>): string
  {
    DeviceOf(p).text
  }

  /** The report fields of a command a node sent, from its command class, command and arguments. */
  function ReportOf(cc: Option<Byte>, cmd: Option<Byte>, p: seq<Byte>): ReportFields
  {
    if cc == Some(MANUFACTURER_SPECIFIC) && cmd == Some(MANUFACTURER_SPECIFIC_REPORT) then
      ManufacturerIds(ToHex(Word(ByteAt(p, 0), ByteAt(p, 1))), ToHex(Word(ByteAt(p, 2), ByteAt(p, 3))),
                      ToHex(Word(ByteAt(p, 4), ByteAt(p, 5))))
    else if cc == Some(MANUFACTURER_SPECIFIC) && cmd == Some(DEVICE_SPECIFIC_REPORT) then
      if DataType(p) == 1 then ManufacturerSerialNumber(DeviceOf(p)) else ManufacturerDefault(DeviceOf(p))
    else NoReport
  }

  /**
   * ZwaveNodeSerialApi.invoke: an ApplicationCommandHandler context gets a
   * fresh node under its node id (the key "undefined" when the id byte was
   * missing), filled from the report it carries; every context then goes on.
   */
  function NodeInvoke(c: Inbound): (r: Inbound)
    ensures c.frame.functionClass != Some(APPLICATION_COMMAND_HANDLER) ==> r == c
    ensures c.frame.functionClass == Some(APPLICATION_COMMAND_HANDLER) ==>
      r == c.(nodes := c.nodes[KeyOf(c.nodeId) := Some(NodeRecord(None, CommandReport(ReportOf(c.commandClass, c.command, c.payload))))])
  {
    if c.frame.functionClass != Some(APPLICATION_COMMAND_HANDLER) then c
    else
      var node := NodeRecord(None, CommandReport(ReportOf(c.commandClass, c.command, c.payload)));
      c.(nodes := c.nodes[KeyOf(c.nodeId) := Some(node)])
  }

  /** Only the entry of the sending node changes; every other key keeps what it had. */
  lemma NodeInvokeFrame(c: Inbound, k: NodeKey)
    requires c.frame.functionClass == Some(APPLICATION_COMMAND_HANDLER) && k != KeyOf(c.nodeId)
    ensures k in NodeInvoke(c).nodes <==> k in c.nodes
    ensures k in c.nodes ==> NodeInvoke(c).nodes[k] == c.nodes[k]
    ensures NodeInvoke(c).controller == c.controller && NodeInvoke(c).frame == c.frame
  {
  }

  /** A ManufacturerSpecific Report gives the three 16-bit ids, big-endian, each as "0x" and four digits that read back. */
  lemma ManufacturerReportRoundTrip(p: seq<Byte>)
    requires |p| >= 6
    ensures var r := ReportOf(Some(MANUFACTURER_SPECIFIC), Some(MANUFACTURER_SPECIFIC_REPORT), p);
      r.ManufacturerIds?
      && |r.manufacturerId| == 6 && |r.deviceType| == 6 && |r.deviceId| == 6
      && ParseHex(r.manufacturerId[2..]) == Some(Word(p[0], p[1]))
      && ParseHex(r.deviceType[2..]) == Some(Word(p[2], p[3]))
      && ParseHex(r.deviceId[2..]) == Some(Word(p[4], p[5]))
  {
    assert ByteAt(p, 0) == p[0] && ByteAt(p, 1) == p[1] && ByteAt(p, 2) == p[2];
    assert ByteAt(p, 3) == p[3] && ByteAt(p, 4) == p[4] && ByteAt(p, 5) == p[5];
    ToHexRoundTrip(Word(p[0], p[1]));
    ToHexRoundTrip(Word(p[2], p[3]));
    ToHexRoundTrip(Word(p[4], p[5]));
  }

  /** Distinct manufacturer ids give distinct strings. */
  lemma ManufacturerIdsDistinguish(p: seq<Byte>, q: seq<Byte>)
    requires |p| >= 6 && |q| >= 6 && (p[0] != q[0] || p[1] != q[1])
    ensures ReportOf(Some(MANUFACTURER_SPECIFIC), Some(MANUFACTURER_SPECIFIC_REPORT), p).manufacturerId
         != ReportOf(Some(MANUFACTURER_SPECIFIC), Some(MANUFACTURER_SPECIFIC_REPORT), q).manufacturerId
  {
    var a := ReportOf(Some(MANUFACTURER_SPECIFIC), Some(MANUFACTURER_SPECIFIC_REPORT), p).manufacturerId;
    var b := ReportOf(Some(MANUFACTURER_SPECIFIC), Some(MANUFACTURER_SPECIFIC_REPORT), q).manufacturerId;
    assert a == ToHex(Word(p[0], p[1])) by { assert ByteAt(p, 0) == p[0] && ByteAt(p, 1) == p[1]; }
    assert b == ToHex(Word(q[0], q[1])) by { assert ByteAt(q, 0) == q[0] && ByteAt(q, 1) == q[1]; }
    if a == b {
      ToHexInjective(Word(p[0], p[1]), Word(q[0], q[1]));
      WordInjective(p[0], p[1], q[0], q[1]);
    }
  }

  lemma WordInjective(a: Byte, b: Byte, c: Byte, d: Byte)
    requires Word(a, b) == Word(c, d)
    ensures a == c && b == d
  {
    ByteFromVal(a);
    ByteFromVal(b);
    ByteFromVal(c);
    ByteFromVal(d);
  }

  lemma ByteFromVal(b: Byte)
    ensures (Val(b) as Byte) == b && Val(b) < 256
  {
  }

  /** The second header byte of a DeviceSpecificReport packs the format in its top three bits and the length in the low five. */
  lemma DeviceHeaderFields(format: Byte, length: Byte)
    requires format < 8 && length < 32
    ensures var h := (format << 5) | length;
      (h & 0xe0) >> 5 == format && h & 0x1f == length
  {
  }

  /**
   * A DeviceSpecificReport whose header announces the data bytes that follow:
   * type 1 is a serial number, any other type the default id; format 0 is
   * UTF-8 text, any other format the bytes in hexadecimal.
   */
  lemma DeviceReportDecodes(dataType: Byte, format: Byte, length: Byte, data: seq<Byte>)
    requires format < 8 && length < 32 && Val(length) == |data|
    ensures var p := [dataType, (format << 5) | length] + data;
      var r := ReportOf(Some(MANUFACTURER_SPECIFIC), Some(DEVICE_SPECIFIC_REPORT), p);
      (dataType & 0x07 == 1 ==> r == ManufacturerSerialNumber(DeviceText(format, data)))
      && (dataType & 0x07 != 1 ==> r == ManufacturerDefault(DeviceText(format, data)))
      && r.data.text == if format == 0 then Utf8Text.Decode(data) else JoinHex(data)
  {
    var p := [dataType, (format << 5) | length] + data;
    DeviceHeader(dataType, format, length, data);
    assert p[2..|data| + 2] == data;
    assert DeviceOf(p) == DeviceText(format, data);
  }

  lemma DeviceHeader(dataType: Byte, format: Byte, length: Byte, data: seq<Byte>)
    requires format < 8 && length < 32
    ensures var p := [dataType, (format << 5) | length] + data;
      DataType(p) == dataType & 0x07 && DataFormat(p) == format && DataLength(p) == length
  {
    var p := [dataType, (format << 5) | length] + data;
    DeviceHeaderFields(format, length);
    assert ByteAt(p, 0) == dataType && ByteAt(p, 1) == (format << 5) | length;
  }

  /** A report whose data length runs past the payload keeps only the bytes present. */
  lemma DeviceDataTruncated(p: seq<Byte>)
    requires |p| >= 2 && Val(DataLength(p)) + 2 > |p|
    ensures DataFormat(p) == 0 ==> DeviceData(p) == Utf8Text.Decode(p[2..])
  {
    assert Slice(p, 2, Val(DataLength(p)) + 2) == p[2..];
  }
}
