/**
 * The fields of the ZWAVE context records the layers pass along, named after
 * the ZWAVE keys of protocol-constants.js. An inbound frame gets a fresh
 * record whose Controller and Nodes start empty; an outbound request is the
 * record a caller hands to `server.send`.
 */
module ZwaveContext {
  import opened Wrappers
  import opened Protocol
  import opened TransportMiddleware
  import opened HexFormat
  import Utf8Text

  /** A table entry as the layers store it: `table[b] || {}` with `.value = b`, so the name is absent for an unknown b. */
  datatype NamedValue = NamedValue(value: Option<Byte>, name: Option<string>)

  /** The SpecificClass field: the specific class byte, its name, and the generic class it was looked up under. */
  datatype SpecificDeviceClass = SpecificDeviceClass(value: Option<Byte>, genericClass: Option<Byte>)
  {
    /** The name the two-level table gives the byte within its generic class. */
    const name: Option<string> := SpecificClassName(genericClass, value)
  }

  /**
   * A key of the Nodes object. JavaScript turns every key into a string; the
   * node ids here are numbers, and a byte read past the end of a payload is
   * `undefined`, which becomes the key "undefined" (None).
   */
  type NodeKey = Option<nat>

  function KeyOf(b: Option<Byte>): NodeKey
  {
    if b.Some? then Some(b.value as int) else None
  }

  /** What a layer learned about a manufacturer-specific report; empty for any other command. */
  datatype ReportFields =
    | NoReport
    | ManufacturerIds(manufacturerId: string, deviceType: string, deviceId: string)
    | ManufacturerSerialNumber(data: DeviceText)
    | ManufacturerDefault(data: DeviceText)

  /** The data of a DeviceSpecificReport, which the layer stores as text. */
  datatype DeviceText = DeviceText(format: Byte, bytes: seq<Byte>)
  {
    /** The text: the bytes read as UTF-8 for format 0, their hexadecimal forms joined by spaces otherwise. */
    const text: string := if format == 0 then Utf8Text.Decode(bytes) else JoinHex(bytes)
  }

  /** The name the class list records for a class byte: its table name, or "unknown". */
  function ClassName(b: Option<Byte>): string
  {
    var n := NameAt(CommandClassName, b);
    if n.Some? then n.value else "unknown"
  }

  /** SupportedCmdClasses, given by the class bytes a node information frame lists. */
  datatype ClassList = ClassList(listed: set<Option<Byte>>)
  {
    /** The object itself: each listed byte under the name ClassName gives it. */
    const names: map<Option<Byte>, string> := map d | d in listed :: ClassName(d)
  }

  /** The record stored under a node key, one variant per layer that writes one. */
  datatype NodeFields =
    /** `{ available: true }`, from SerialApiGetInitData. */
    | Available
    /** `{ Online: false }`, from a failed node information request. */
    | InfoFailed
    /** A node information frame: Online is true. SupportedCmdClasses maps each listed class byte to its name. */
    | InfoFrame(basic: NamedValue, generic: NamedValue, specific: SpecificDeviceClass,
                supportedClasses: ClassList)
    /** GetNodeProtocolInfo. */
    | ProtocolInfo(listening: bool, routing: bool, version: nat, frequentlyListening: bool,
                   beaming: bool, security: bool, reserved: Option<Byte>,
                   basic: NamedValue, generic: NamedValue, specific: SpecificDeviceClass)
    /** ApplicationCommandHandler: the node layer's record for the sending node. */
    | CommandReport(report: ReportFields)

  /** A node record and its NodeId field, which the NIF decoder and the node-missing layer set. */
  datatype NodeRecord = NodeRecord(nodeId: Option<nat>, fields: NodeFields)

  /**
   * The Nodes object of a context. `Nodes[k] = undefined` keeps the key with
   * an undefined value, so an entry is an Option too.
   */
  type Nodes = map<NodeKey, Option<NodeRecord>>

  /** The Controller object of a context, filled by the response it belongs to. */
  datatype Controller =
    | NoControllerInfo
    | VersionInfo(version: string, libraryType: NamedValue)
    | SerialCapabilities(applicationVersion: string, manufacturerId: string, deviceType: string,
                         deviceId: string, capabilities: seq<nat>)
    | HomeInfo(homeId: string, ownNodeId: Option<Byte>)
    | ControllerCapabilities(isSecondaryController: bool, isOnOtherNetwork: bool, isSISPresent: bool,
                             isRealPrimary: bool, isStaticUpdateController: bool)
    | InitData(isSecondaryController: bool, isSlaveApi: bool, hasTimerSupport: bool,
               isStaticUpdateController: bool, serialApiVersion: Option<Byte>)

  /** An inbound context once the serial layer has read it. */
  datatype Inbound = Inbound(
    frame: Framed,
    /** Payload: the framer's, or for ApplicationCommandHandler the command's arguments. */
    payload: seq<Byte>,
    /** ApplicationUpdate's Status. */
    status: Option<NamedValue>,
    nodeId: Option<Byte>,
    commandClass: Option<Byte>,
    command: Option<Byte>,
    controller: Controller,
    nodes: Nodes)

  /** The context the transport server creates for a frame the parser delivered, after the framer has read it. */
  function FreshInbound(f: Framed): (c: Inbound)
    ensures c.frame == f && c.payload == f.payload && c.controller == NoControllerInfo && c.nodes == map[]
  {
    Inbound(f, f.payload, None, None, None, None, NoControllerInfo, map[])
  }

  /** A Payload as a caller sets it: an array of bytes, or a single number. */
  datatype PayloadValue = Bytes(bytes: seq<Byte>) | Scalar(number: Byte)

  /**
   * An outbound context as a caller of `server.send` builds it. `raw` is
   * RawPayload; `functionClass` is SerialFunctionClass, which the callers
   * modelled here leave unset; `payload` is Payload, absent when the caller
   * set none.
   */
  datatype Request = Request(
    raw: Option<seq<Byte>>,
    doNotCache: bool,
    nodeId: Option<Byte>,
    functionClass: Option<Byte>,
    commandClass: Option<Byte>,
    command: Option<Byte>,
    payload: Option<PayloadValue>,
    transmitOptions: Option<Byte>)

  /**
   * `context[RawPayload] || context[Payload]` as a byte array, the message the
   * framer and the transport server send: a Buffer or an array is truthy even
   * when empty, so Payload is used only when there is no RawPayload. A number
   * is no byte array, so a scalar Payload gives no message.
   */
  function OutboundMessage(c: Request): (m: Option<seq<Byte>>)
    ensures c.raw.Some? ==> m == c.raw
    ensures c.raw.None? ==> (m.Some? <==> c.payload.Some? && c.payload.value.Bytes?)
    ensures c.raw.None? && m.Some? ==> m.value == c.payload.value.bytes
  {
    if c.raw.Some? then c.raw
    else if c.payload.Some? && c.payload.value.Bytes? then Some(c.payload.value.bytes)
    else None
  }

  /** A JavaScript truthiness test on an optional byte: absent and 0 are both false. */
  predicate Truthy(b: Option<Byte>)
  {
    b.Some? && b.value != 0
  }
}
