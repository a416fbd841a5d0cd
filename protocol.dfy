/**
 * Byte codes, name tables and the XOR checksum of the Z-Wave Serial API host
 * interface, as the gateway's protocol constants define them.
 */
module Protocol {
  import opened Wrappers

  /** One byte on the serial link. */
  type Byte = bv8

  // Serial frame types: the first byte of every frame.
  const SOF: Byte := 0x01
  const ACK: Byte := 0x06
  const NAK: Byte := 0x15
  const CAN: Byte := 0x18

  // Serial message types: byte 2 of an SOF frame.
  const REQUEST: Byte := 0x00
  const RESPONSE: Byte := 0x01

  // The serial function classes (byte 3 of an SOF frame) the engine dispatches on.
  const SERIAL_API_GET_INIT_DATA: Byte := 0x02
  const APPLICATION_COMMAND_HANDLER: Byte := 0x04
  const GET_CONTROLLER_CAPABILITIES: Byte := 0x05
  const SERIAL_API_SET_TIMEOUTS: Byte := 0x06
  const SERIAL_GET_CAPABILITIES: Byte := 0x07
  const SEND_DATA: Byte := 0x13
  const GET_VERSION: Byte := 0x15
  const GET_HOME_ID: Byte := 0x20
  const MEMORY_GET_BUFFER: Byte := 0x23
  const READ_MEMORY: Byte := 0x23
  const GET_NODE_PROTOCOL_INFO: Byte := 0x41
  const APPLICATION_UPDATE: Byte := 0x49
  const REQUEST_NODE_INFO: Byte := 0x60

  // ApplicationUpdate states: payload byte 0 of an ApplicationUpdate frame.
  const NODE_INFO_RECEIVED: Byte := 0x84
  const NODE_INFO_REQ_FAILED: Byte := 0x81

  // Flags of the SerialApiGetInitData response, payload byte 1.
  const INIT_SLAVE_API: Byte := 0x01
  const INIT_TIMER_SUPPORT: Byte := 0x02
  const INIT_IS_SECONDARY_CONTROLLER: Byte := 0x04
  const INIT_IS_STATIC_UPDATE_CONTROLLER: Byte := 0x08

  // Flags of the GetControllerCapabilities response, payload byte 0.
  const CAPS_IS_SECONDARY_CONTROLLER: Byte := 0x01
  const CAPS_IS_ON_OTHER_NETWORK: Byte := 0x02
  const CAPS_IS_SIS_PRESENT: Byte := 0x04
  const CAPS_IS_REAL_PRIMARY: Byte := 0x08
  const CAPS_IS_STATIC_UPDATE_CONTROLLER: Byte := 0x10

  // Node capability masks of the GetNodeProtocolInfo response, payload bytes 0 and 1.
  const NODE_LISTENING: Byte := 0x80
  const NODE_ROUTING: Byte := 0x40
  const NODE_VERSION: Byte := 0x07
  const NODE_FREQUENTLY_LISTENING: Byte := 0x60
  const NODE_BEAMING: Byte := 0x10
  const NODE_SECURITY: Byte := 0x01

  // Transmit options of a SendData frame.
  const TRANSMIT_OPTIONS_NONE: Byte := 0x00

  // The command class and the commands the node codec decodes.
  const MANUFACTURER_SPECIFIC: Byte := 0x72
  const MANUFACTURER_SPECIFIC_REPORT: Byte := 0x05
  const DEVICE_SPECIFIC_REPORT: Byte := 0x07

  /*
   * Name tables: the `properties` object literal of each enumeration, entry by
   * entry and in the same order. Where a literal lists a key twice, JavaScript
   * keeps the entry written last; the earlier one appears here only as a comment.
   */

  /** Display names of the serial function classes. */
  function SerialFunctionClassName(b: Byte): Option<string>
  {
    match b
    case 0x00 => Some("None")
    case 0x02 => Some("SerialApiGetInitData")
    case 0x03 => Some("SerialApiApplNodeInformation")
    case 0x04 => Some("ApplicationCommandHandler")
    case 0x05 => Some("GetControllerCapabilities")
    case 0x06 => Some("SerialApiSetTimeouts")
    case 0x07 => Some("SerialGetCapabilities")
    case 0x08 => Some("SerialApiSoftReset")
    case 0x10 => Some("SetRFReceiveMode")
    case 0x11 => Some("SetSleepMode")
    case 0x12 => Some("SendNodeInformation")
    case 0x13 => Some("SendData")
    case 0x14 => Some("SendDataMulti")
    case 0x15 => Some("GetVersion")
    case 0x16 => Some("SendDataAbort")
    case 0x17 => Some("RFPowerLevelSet")
    case 0x18 => Some("SendDataMeta")
    case 0x20 => Some("MemoryGetId")
    case 0x21 => Some("MemoryGetByte")
    case 0x22 => Some("MemoryPutByte")
    // 0x23 is listed again below; "MemoryGetBuffer" is overwritten
    case 0x24 => Some("MemoryPutBuffer")
    case 0x23 => Some("ReadMemory")
    case 0x30 => Some("ClockSet")
    case 0x31 => Some("ClockGet")
    case 0x32 => Some("ClockCompare")
    case 0x33 => Some("RtcTimerCreate")
    case 0x34 => Some("RtcTimerRead")
    case 0x35 => Some("RtcTimerDelete")
    case 0x36 => Some("RtcTimerCall")
    case 0x41 => Some("GetNodeProtocolInfo")
    case 0x42 => Some("SetDefault")
    case 0x44 => Some("ReplicationCommandComplete")
    case 0x45 => Some("ReplicationSendData")
    case 0x46 => Some("AssignReturnRoute")
    case 0x47 => Some("DeleteReturnRoute")
    case 0x48 => Some("RequestNodeNeighborUpdate")
    case 0x49 => Some("ApplicationUpdate")
    case 0x4a => Some("AddNodeToNetwork")
    case 0x4b => Some("RemoveNodeFromNetwork")
    case 0x4c => Some("CreateNewPrimary")
    case 0x4d => Some("ControllerChange")
    case 0x50 => Some("SetLearnMode")
    case 0x51 => Some("AssignSucReturnRoute")
    case 0x52 => Some("EnableSuc")
    case 0x53 => Some("RequestNetworkUpdate")
    case 0x54 => Some("SetSucNodeId")
    case 0x55 => Some("DeleteSucReturnRoute")
    case 0x56 => Some("GetSucNodeId")
    case 0x57 => Some("SendSucId")
    case 0x59 => Some("RediscoveryNeeded")
    case 0x60 => Some("RequestNodeInfo")
    case 0x61 => Some("RemoveFailedNodeId")
    case 0x62 => Some("IsFailedNode")
    case 0x63 => Some("ReplaceFailedNode")
    case 0x70 => Some("TimerStart")
    case 0x71 => Some("TimerRestart")
    case 0x72 => Some("TimerCancel")
    case 0x73 => Some("TimerCall")
    case 0x80 => Some("GetRoutingTableLine")
    case 0x81 => Some("GetTXCounter")
    case 0x82 => Some("ResetTXCounter")
    case 0x83 => Some("StoreNodeInfo")
    case 0x84 => Some("StoreHomeId")
    case 0x90 => Some("LockRouteResponse")
    case 0x91 => Some("SendDataRouteDemo")
    case 0x95 => Some("SerialApiTest")
    case 0xa0 => Some("SerialApiSlaveNodeInfo")
    case 0xa1 => Some("ApplicationSlaveCommandHandler")
    case 0xa2 => Some("SendSlaveNodeInfo")
    case 0xa3 => Some("SendSlaveData")
    case 0xa4 => Some("SetSlaveLearnMode")
    case 0xa5 => Some("GetVirtualNodes")
    case 0xa6 => Some("IsVirtualNode")
    case 0xd0 => Some("SetPromiscuousMode")
    case 0xd1 => Some("PromiscuousApplicationCommandHandler")
    case _ => None
  }
  /** Names of the command classes. */
  function CommandClassName(b: Byte): Option<string>
  {
    match b
    // 0x71 is listed again below; "Alarm" is overwritten
    case 0x5d => Some("Antitheft")
    case 0x57 => Some("ApplicationCapability")
    case 0x22 => Some("ApplicationStatus")
    case 0x85 => Some("Association")
    case 0x9b => Some("AssociationCommandConfiguration")
    case 0x59 => Some("AssociationGrpInfo")
    case 0x95 => Some("AvContentDirectoryMd")
    case 0x97 => Some("AvContentSearchMd")
    case 0x96 => Some("AvRendererStatus")
    case 0x99 => Some("AvTaggingMd")
    case 0x66 => Some("BarrierOperator")
    case 0x20 => Some("Basic")
    case 0x36 => Some("BasicTariffInfo")
    case 0x50 => Some("BasicWindowCovering")
    case 0x80 => Some("Battery")
    case 0x5b => Some("CentralScene")
    case 0x2a => Some("ChimneyFan")
    case 0x46 => Some("ClimateControlSchedule")
    case 0x81 => Some("Clock")
    case 0x70 => Some("Configuration")
    case 0x21 => Some("ControllerReplication")
    case 0x56 => Some("Crc16Encap")
    case 0x3a => Some("DcpConfig")
    case 0x3b => Some("DcpMonitor")
    case 0x5a => Some("DeviceResetLocally")
    case 0x65 => Some("Dmx")
    case 0x62 => Some("DoorLock")
    case 0x4c => Some("DoorLockLogging")
    case 0x90 => Some("EnergyProduction")
    case 0x6f => Some("EntryControl")
    case 0x7a => Some("FirmwareUpdateMd")
    case 0x8c => Some("GeographicLocation")
    case 0x7b => Some("GroupingName")
    case 0x82 => Some("Hail")
    case 0x39 => Some("HrvControl")
    case 0x37 => Some("HrvStatus")
    case 0x6d => Some("HumidityControlMode")
    case 0x6e => Some("HumidityControlOperatingState")
    case 0x64 => Some("HumidityControlSetpoint")
    case 0x74 => Some("InclusionController")
    case 0x87 => Some("Indicator")
    case 0x5c => Some("IpAssociation")
    case 0x9a => Some("IpConfiguration")
    case 0x6b => Some("Irrigation")
    case 0x89 => Some("Language")
    case 0x76 => Some("Lock")
    case 0x69 => Some("Mailbox")
    case 0x91 => Some("ManufacturerProprietary")
    case 0x72 => Some("ManufacturerSpecific")
    case 0xef => Some("Mark")
    case 0x32 => Some("Meter")
    case 0x35 => Some("MeterPulse")
    case 0x3c => Some("MeterTblConfig")
    case 0x3d => Some("MeterTblMonitor")
    case 0x3e => Some("MeterTblPush")
    case 0x51 => Some("MtpWindowCovering")
    // 0x60 is listed again below; "MultiChannel" is overwritten
    // 0x8e is listed again below; "MultiChannelAssociation" is overwritten
    case 0x8f => Some("MultiCmd")
    case 0x60 => Some("MultiInstance")
    case 0x8e => Some("MultiInstanceAssociation")
    case 0x4d => Some("NetworkManagementBasic")
    case 0x34 => Some("NetworkManagementInclusion")
    case 0x67 => Some("NetworkManagementInstallationMaintenance")
    case 0x54 => Some("NetworkManagementPrimary")
    case 0x52 => Some("NetworkManagementProxy")
    case 0x77 => Some("NodeNaming")
    case 0xf0 => Some("NonInteroperable")
    case 0x00 => Some("NoOperation")
    case 0x71 => Some("Notification")
    case 0x73 => Some("Powerlevel")
    case 0x3f => Some("Prepayment")
    case 0x41 => Some("PrepaymentEncapsulation")
    case 0x88 => Some("Proprietary")
    case 0x75 => Some("Protection")
    case 0x48 => Some("RateTblConfig")
    case 0x49 => Some("RateTblMonitor")
    case 0x7d => Some("RemoteAssociation")
    case 0x7c => Some("RemoteAssociationActivate")
    case 0x2b => Some("SceneActivation")
    case 0x2c => Some("SceneActuatorConf")
    case 0x2d => Some("SceneControllerConf")
    case 0x53 => Some("Schedule")
    case 0x4e => Some("ScheduleEntryLock")
    case 0x93 => Some("ScreenAttributes")
    case 0x92 => Some("ScreenMd")
    case 0x98 => Some("Security")
    case 0x9f => Some("Security2")
    case 0x24 => Some("SecurityPanelMode")
    case 0x2e => Some("SecurityPanelZone")
    case 0x2f => Some("SecurityPanelZoneSensor")
    case 0x9c => Some("SensorAlarm")
    case 0x30 => Some("SensorBinary")
    case 0x9e => Some("SensorConfiguration")
    case 0x31 => Some("SensorMultilevel")
    case 0x9d => Some("SilenceAlarm")
    case 0x94 => Some("SimpleAvControl")
    case 0x6c => Some("Supervision")
    case 0x27 => Some("SwitchAll")
    case 0x25 => Some("SwitchBinary")
    case 0x33 => Some("SwitchColor")
    case 0x26 => Some("SwitchMultilevel")
    case 0x28 => Some("SwitchToggleBinary")
    case 0x29 => Some("SwitchToggleMultilevel")
    case 0x4a => Some("TariffConfig")
    case 0x4b => Some("TariffTblMonitor")
    case 0x44 => Some("ThermostatFanMode")
    case 0x45 => Some("ThermostatFanState")
    case 0x38 => Some("ThermostatHeating")
    case 0x40 => Some("ThermostatMode")
    case 0x42 => Some("ThermostatOperatingState")
    case 0x47 => Some("ThermostatSetback")
    case 0x43 => Some("ThermostatSetpoint")
    case 0x8a => Some("Time")
    case 0x8b => Some("TimeParameters")
    case 0x55 => Some("TransportService")
    case 0x63 => Some("UserCode")
    case 0x86 => Some("Version")
    case 0x84 => Some("WakeUp")
    case 0x6a => Some("WindowCovering")
    case 0x02 => Some("ZensorNet")
    case 0x23 => Some("Zip")
    case 0x4f => Some("Zip6lowpan")
    case 0x5f => Some("ZipGateway")
    case 0x68 => Some("ZipNaming")
    case 0x58 => Some("ZipNd")
    case 0x61 => Some("ZipPortal")
    case 0x5e => Some("ZwaveplusInfo")
    case _ => None
  }
  /** Names of the basic device classes. */
  function BasicClassName(b: Byte): Option<string>
  {
    match b
    case 0x00 => Some("Unknown")
    case 0x01 => Some("Controller")
    case 0x02 => Some("StaticController")
    case 0x03 => Some("Slave")
    case 0x04 => Some("RoutingSlave")
    case _ => None
  }
  /** Names of the generic device classes. */
  function GenericClassName(b: Byte): Option<string>
  {
    match b
    case 0x00 => Some("Unknown")
    case 0x01 => Some("PortableRemote")
    case 0x02 => Some("StaticController")
    case 0x03 => Some("AVControlPoint")
    case 0x04 => Some("RoutingSlave")
    case 0x06 => Some("Display")
    case 0x07 => Some("GarageDoor")
    case 0x08 => Some("Thermostat")
    case 0x09 => Some("WindowCovering")
    case 0x0f => Some("RepeaterSlave")
    case 0x10 => Some("SwitchBinary")
    case 0x11 => Some("SwitchMultiLevel")
    case 0x12 => Some("SwitchRemote")
    case 0x13 => Some("SwitchToggle")
    case 0x14 => Some("ZIPGateway")
    case 0x15 => Some("ZIPNode")
    case 0x16 => Some("Ventilation")
    case 0x18 => Some("RemoteSwitch2")
    case 0x20 => Some("SensorBinary")
    case 0x21 => Some("SensorMultiLevel")
    case 0x22 => Some("WaterControl")
    // 0x30 is listed again below; "MeterPulse" is overwritten
    case 0x30 => Some("Meter")
    case 0x40 => Some("EntryControl")
    case 0x50 => Some("SemiInteroperable")
    case 0xa1 => Some("AlarmSensor")
    case 0xff => Some("NonInteroperable")
    case _ => None
  }
  /** Names of the ApplicationUpdate states. */
  function ApplicationUpdateName(b: Byte): Option<string>
  {
    match b
    case 0x84 => Some("NodeInfoReceived")
    case 0x82 => Some("NodeInfoReqDone")
    case 0x81 => Some("NodeInfoReqFailed")
    case 0x80 => Some("RoutingPending")
    case 0x40 => Some("NewIdAssigned")
    case 0x20 => Some("DeleteDone")
    case 0x10 => Some("SucId")
    case _ => None
  }
  /** Names of the Z-Wave library types a controller reports. */
  function LibraryTypeName(b: Byte): Option<string>
  {
    match b
    case 0x00 => Some("NoLib")
    case 0x01 => Some("ControllerStaticLib")
    case 0x02 => Some("ControllerLib")
    case 0x03 => Some("SlaveEnhancedLib")
    case 0x04 => Some("SlaveLib")
    case 0x05 => Some("InstallerLib")
    case 0x06 => Some("SlaveRoutingLib")
    case 0x07 => Some("ControllerBridgeLib")
    case _ => None
  }
  /** Names of the ManufacturerSpecific commands. */
  function ManufacturerSpecificCommandName(b: Byte): Option<string>
  {
    match b
    case 0x04 => Some("Get")
    case 0x05 => Some("Report")
    case 0x06 => Some("DeviceSpecificGet")
    case 0x07 => Some("DeviceSpecificReport")
    case _ => None
  }
  /** Names of the specific device classes, grouped by generic class. */
  function SpecificClassGroupName(g: Byte, s: Byte): Option<string>
  {
    match g
    case 0x01 =>
      (match s
      case 1 => Some("PortableRemoteController")
      case 2 => Some("PortableSceneController")
      case 3 => Some("PortableInstallerTool")
      case 4 => Some("AVRemoteController")
      case 5 => Some("SimpleRemoteController")
      case _ => None)
    case 0x02 =>
      (match s
      case 1 => Some("PCController")
      case 2 => Some("SceneController")
      case 3 => Some("StaticInstallerTool")
      case 4 => Some("SetTopBoxController")
      case 5 => Some("SubSystemController")
      case 6 => Some("TVController")
      case 7 => Some("Gateway")
      case _ => None)
    case 0x03 =>
      (match s
      case 4 => Some("SatelliteReceiver")
      case 17 => Some("SatelliteReceiverV2")
      case 18 => Some("Doorbell")
      case _ => None)
    case 0x06 =>
      (match s
      case 1 => Some("SimpleDisplay")
      case _ => None)
    case 0x08 =>
      (match s
      case 1 => Some("HeatingThermostat")
      case 2 => Some("GeneralThermostat")
      case 3 => Some("SetbackScheduleThermostat")
      case 4 => Some("SetpointThermostat")
      case 5 => Some("SetbackThermostat")
      case 6 => Some("GeneralThermostatV2")
      case _ => None)
    case 0x0f =>
      (match s
      case 1 => Some("BasicRepeaterSlave")
      case _ => None)
    case 0x10 =>
      (match s
      case 1 => Some("BinaryPowerSwitch")
      case 2 => Some("BinarySceneSwitch(Discontinued")
      case 3 => Some("BinarySceneSwitch")
      case 4 => Some("PowerStripDevice")
      case 5 => Some("SirenSwitch")
      case 6 => Some("ValveSwitch")
      case _ => None)
    case 0x11 =>
      (match s
      case 1 => Some("MultilevelPowerSwitch")
      case 2 => Some("MultilevelSceneSwitch(Discontinued")
      case 3 => Some("MultipositionMotor")
      case 4 => Some("MultilevelSceneSwitch")
      case 5 => Some("MotorControlClassA")
      case 6 => Some("MotorControlClassB")
      case 7 => Some("MotorControlClassC")
      case _ => None)
    case 0x12 =>
      (match s
      case 1 => Some("BinaryRemoteSwitch")
      case 2 => Some("MultilevelRemoteSwitch")
      case 3 => Some("BinaryToggleRemoteSwitch")
      case 4 => Some("MultilevelToggleRemoteSwitch")
      case _ => None)
    case 0x13 =>
      (match s
      case 1 => Some("BinaryToggleSwitch")
      case 2 => Some("MultilevelToggleSwitch")
      case _ => None)
    case 0x14 =>
      (match s
      case 1 => Some("ZIPTunnelingGateway")
      case 2 => Some("ZIPAdvancedGateway")
      case _ => None)
    case 0x15 =>
      (match s
      case 1 => Some("ZIPTunnelingNode")
      case 2 => Some("ZIPAdvancedNode")
      case _ => None)
    case 0x16 =>
      (match s
      case 1 => Some("ResidentialHeatRecoveryVentilation")
      case _ => None)
    case 0x20 =>
      (match s
      case 1 => Some("RoutingBinarySensor")
      case _ => None)
    case 0x21 =>
      (match s
      case 1 => Some("RoutingMultilevelSensor")
      case _ => None)
    case 0x31 =>
      (match s
      case 1 => Some("SimpleMeter")
      case 2 => Some("AdvancedEnergyControl")
      case 3 => Some("WholeHomeMeterSimple")
      case _ => None)
    case 0x40 =>
      (match s
      case 1 => Some("DoorLock")
      case 2 => Some("AdvancedDoorLock")
      case 3 => Some("SecureKeypadDoorLock")
      case 7 => Some("SecureBarrierAddon")
      case 10 => Some("SecureLockBox")
      case _ => None)
    case 0x50 =>
      (match s
      case 1 => Some("EnergyProduction")
      case _ => None)
    case 0xa1 =>
      (match s
      case 1 => Some("BasicRoutingAlarmSensor")
      case 2 => Some("RoutingAlarmSensor")
      case 3 => Some("BasicZensorAlarmSensor")
      case 4 => Some("ZensorAlarmSensor")
      case 5 => Some("AdvancedZensorAlarmSensor")
      case 6 => Some("BasicRoutingSmokeSensor")
      case 7 => Some("RoutingSmokeSensor")
      case 8 => Some("BasicZensorSmokeSensor")
      case 9 => Some("ZensorSmokeSensor")
      case 10 => Some("AdvancedZensorSmokeSensor")
      case _ => None)
    case _ => None
  }

  /** Looks a byte the frame may lack up in a name table; an absent byte has no name. */
  function NameAt(table: Byte -> Option<string>, b: Option<Byte>): Option<string>
  {
    if b.Some? then table(b.value) else None
  }

  /**
   * The name of specific device class `s` within generic class `g`; where the
   * two-level table has no entry, the name of the generic class stands in.
   */
  function SpecificClassName(g: Option<Byte>, s: Option<Byte>): (r: Option<string>)
    ensures g.Some? && s.Some? && SpecificClassGroupName(g.value, s.value).Some?
            ==> r == SpecificClassGroupName(g.value, s.value)
    ensures (g.None? || s.None? || SpecificClassGroupName(g.value, s.value).None?)
            ==> r == NameAt(GenericClassName, g)
  {
    if g.Some? && s.Some? && SpecificClassGroupName(g.value, s.value).Some?
    then SpecificClassGroupName(g.value, s.value)
    else NameAt(GenericClassName, g)
  }

  /** Where an object literal repeats a key, lookups see the entry written last. */
  lemma DuplicateKeysKeepLastEntry()
    ensures SerialFunctionClassName(MEMORY_GET_BUFFER) == Some("ReadMemory")
    ensures GenericClassName(0x30) == Some("Meter")
  {
  }

  /** The command class table repeats three keys; each reads as its later entry. */
  lemma CommandClassDuplicates()
    ensures CommandClassName(0x71) == Some("Notification")
    ensures CommandClassName(0x60) == Some("MultiInstance")
    ensures CommandClassName(0x8e) == Some("MultiInstanceAssociation")
  {
  }

  /** Code 0x20 is enumerated as GetHomeId but displayed as MemoryGetId. */
  lemma GetHomeIdDisplayName()
    ensures GET_HOME_ID == 0x20
    ensures SerialFunctionClassName(GET_HOME_ID) == Some("MemoryGetId")
  {
  }

  lemma DeviceClassExamples()
    ensures BasicClassName(0x04) == Some("RoutingSlave")
    ensures GenericClassName(0x10) == Some("SwitchBinary")
    ensures SpecificClassName(Some(0x10), Some(0x01)) == Some("BinaryPowerSwitch")
    // Generic class 0x30 has no group of specific classes (the table groups meters under 0x31).
    ensures SpecificClassName(Some(0x30), Some(0x01)) == Some("Meter")
  {
  }

  /*
   * The XOR checksum. generateChecksum starts from byte 1 and folds in bytes
   * 2 .. length-2, then complements; stored in a Buffer, `~ret` keeps its low
   * eight bits, which is the bv8 complement.
   */

  /** XOR of every byte of s, accumulated from the left. */
  function XorAll(s: seq<Byte>): Byte
  {
    if s == [] then 0 else XorAll(s[..|s| - 1]) ^ s[|s| - 1]
  }

  /**
   * One past the last byte generateChecksum folds into a message of n bytes:
   * byte n-2 for n >= 3; a two-byte message has only byte 1, its checksum slot.
   */
  function ChecksumEnd(n: nat): nat
    requires n >= 2
  {
    if n == 2 then 2 else n - 1
  }

  /** The byte generateChecksum yields for message m (callers pass messages longer than one byte). */
  function Checksum(m: seq<Byte>): Byte
    requires |m| >= 2
  {
    !XorAll(m[1..ChecksumEnd(|m|)])
  }

  /** m with its last byte replaced by its checksum, as the framer writes it. */
  function Filled(m: seq<Byte>): seq<Byte>
    requires |m| >= 2
  {
    m[..|m| - 1] + [Checksum(m)]
  }

  /** An SOF frame's trailer is correct: bytes 1 .. end XOR to 0xFF. */
  predicate ChecksumValid(m: seq<Byte>)
    requires |m| >= 2
  {
    XorAll(m[1..]) == 0xFF
  }

  method GenerateChecksum(m: seq<Byte>) returns (c: Byte)
    requires |m| >= 2
    ensures c == Checksum(m)
  {
    var ret := m[1];
    var i := 1;
    XorAllFirst(m);
    while i < |m| - 2
      invariant 1 <= i < ChecksumEnd(|m|)
      invariant ret == XorAll(m[1..i + 1])
    {
      XorAllStep(m, i);
      ret := ret ^ m[i + 1];
      i := i + 1;
    }
    ChecksumOfFold(m, i, ret);
    c := !ret;
  }

  lemma XorAllFirst(m: seq<Byte>)
    requires |m| >= 2
    ensures XorAll(m[1..2]) == m[1]
  {
    assert m[1..2] == [m[1]];
    XorAllSingle(m[1]);
  }

  /** Once the fold has reached the checksum's last byte, its complement is the checksum. */
  lemma ChecksumOfFold(m: seq<Byte>, i: nat, ret: Byte)
    requires |m| >= 2 && 1 <= i && i + 1 == ChecksumEnd(|m|) && ret == XorAll(m[1..i + 1])
    ensures !ret == Checksum(m)
  {
  }

  lemma XorAllStep(m: seq<Byte>, i: nat)
    requires 1 <= i && i + 1 < |m|
    ensures XorAll(m[1..i + 2]) == XorAll(m[1..i + 1]) ^ m[i + 1]
  {
    assert m[1..i + 2] == m[1..i + 1] + [m[i + 1]];
    XorAllSnoc(m[1..i + 1], m[i + 1]);
  }

  lemma XorAllSnoc(s: seq<Byte>, x: Byte)
    ensures XorAll(s + [x]) == XorAll(s) ^ x
  {
    assert (s + [x])[..|s|] == s;
  }

  /** For frames of three or more bytes the checksum is the complement of the XOR of bytes 1 .. length-2. */
  lemma ChecksumCoversInterior(m: seq<Byte>)
    requires |m| >= 3
    ensures Checksum(m) == 0xFF ^ XorAll(m[1..|m| - 1])
  {
    var x := XorAll(m[1..|m| - 1]);
    assert !x == 0xFF ^ x;
  }

  /** Neither the lead byte nor the checksum slot influences the checksum. */
  lemma ChecksumIgnoresEnds(m: seq<Byte>, m': seq<Byte>)
    requires |m| == |m'| >= 3
    requires m[1..|m| - 1] == m'[1..|m| - 1]
    ensures Checksum(m) == Checksum(m')
  {
  }

  /** Filling in the checksum a second time changes nothing. */
  lemma FilledIdempotent(m: seq<Byte>)
    requires |m| >= 3
    ensures |Filled(m)| == |m|
    ensures Checksum(Filled(m)) == Checksum(m)
    ensures Filled(Filled(m)) == Filled(m)
  {
    var f := Filled(m);
    assert f[1..|f| - 1] == m[1..|m| - 1];
  }

  /** After the fill, bytes 1 .. length-1 XOR to 0xFF. */
  lemma FilledIsValid(m: seq<Byte>)
    requires |m| >= 3
    ensures ChecksumValid(Filled(m))
  {
    var f := Filled(m);
    var x := XorAll(m[1..|m| - 1]);
    assert f[1..] == m[1..|m| - 1] + [!x];
    XorAllSnoc(m[1..|m| - 1], !x);
    assert x ^ !x == 0xFF;
  }

  /** A frame's trailer passes the receive-side test exactly when it holds the checksum of the rest. */
  lemma ChecksumValidIff(m: seq<Byte>)
    requires |m| >= 3
    ensures ChecksumValid(m) <==> m[|m| - 1] == Checksum(m)
  {
    var x := XorAll(m[1..|m| - 1]);
    var t := m[|m| - 1];
    assert m[1..] == m[1..|m| - 1] + [t];
    XorAllSnoc(m[1..|m| - 1], t);
    XorComplement(x, t);
  }

  lemma XorComplement(x: Byte, t: Byte)
    ensures (x ^ t == 0xFF) <==> (t == !x)
  {
  }

  lemma XorAllSingle(x: Byte)
    ensures XorAll([x]) == x
  {
    assert [x][..0] == [];
  }

  /** On a two-byte message the fold covers the checksum slot itself, so a second fill flips it back. */
  lemma TwoByteFillNotIdempotent(m: seq<Byte>)
    requires |m| == 2
    ensures Checksum(m) == !m[1]
    ensures Checksum(Filled(m)) != Checksum(m)
  {
    assert ChecksumEnd(|m|) == 2;
    XorAllSingle(m[1]);
    assert m[1..2] == [m[1]];
    var f := Filled(m);
    assert f == [m[0], !m[1]];
    assert f[1..2] == [!m[1]];
    XorAllSingle(!m[1]);
    assert !!m[1] != !m[1];
  }
}
