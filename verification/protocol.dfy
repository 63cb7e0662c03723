/** The emulator's command/response protocol as a function of the device
    state (eilik_emulator.py: `process_command`, `_create_response` and the
    ten `cmd_*` handlers). The class in emulator.dfy performs the same steps
    in place and is proved against the functions here. */
module Protocol {
  import opened Bytes
  import opened ServoBank

  /** The frame magic, sent little-endian: 55 AA. */
  const MAGIC: u16 := 0xAA55

  // Response types. BUSY (0x84) and READY (0x85) are named by the source
  // but no handler ever sends them.
  const ACK: byte := 0x80
  const NACK: byte := 0x81
  const DATA: byte := 0x82
  const ERROR: byte := 0x83

  // The command table.
  const DEVICE_INFO: byte := 0x01
  const FIRMWARE_UPDATE: byte := 0x02
  const PARAMETER_READ: byte := 0x03
  const PARAMETER_WRITE: byte := 0x04
  const SERVO_CONTROL: byte := 0x05
  const SENSOR_READ: byte := 0x06
  const CALIBRATION: byte := 0x07
  const RESET: byte := 0x08
  const BOOTLOADER_MODE: byte := 0x09
  const FLASH_WRITE: byte := 0x0A

  predicate KnownCommand(code: byte)
  {
    DEVICE_INFO <= code <= FLASH_WRITE
  }

  const DEVICE_ID := "EILIK_EMU_001"
  const FIRMWARE_VERSION := "1.0.0"
  const HARDWARE_VERSION: u16 := 0x0100

  /** Everything a command can read or change: the servo bank, the
      bootloader flag and the accumulated firmware bytes. */
  datatype EmuState = EmuState(servos: seq<ServoState>, bootloaderMode: bool, firmwareData: seq<byte>)

  predicate Valid(st: EmuState)
  {
    ValidBank(st.servos)
  }

  /** The state `EilikEmulator()` starts in. */
  function Initial(): (st: EmuState)
    ensures Valid(st) && !st.bootloaderMode && st.firmwareData == []
  {
    EmuState(InitialBank(), false, [])
  }

  /** The state after a command and the bytes sent back. */
  datatype Reply = Reply(state: EmuState, response: seq<byte>)

  /** A frame: magic 55 AA, a type or command byte, a length byte that
      equals the number of payload bytes that follow. */
  predicate IsFrame(r: seq<byte>)
  {
    |r| >= 4 && r[0] == 0x55 && r[1] == 0xAA && r[3] == |r| - 4
  }

  /** `struct.pack('<HBB', 0xAA55, code, len(payload)) + payload`: the
      layout of every response (`_create_response`) and of the command
      frames clients send. A payload over 255 bytes makes `struct.pack`
      raise; no handler produces one. */
  function EncodeFrame(code: byte, payload: seq<byte>): (r: seq<byte>)
    requires |payload| <= 255
    ensures IsFrame(r) && r[2] == code && r[4..] == payload
  {
    Le16(MAGIC) + [code, |payload|] + payload
  }

  /** A response carrying an ASCII text. */
  function Message(kind: byte, text: string): (r: seq<byte>)
    requires |text| <= 255
    ensures IsFrame(r) && r[2] == kind && r[4..] == Ascii(text)
  {
    EncodeFrame(kind, Ascii(text))
  }

  datatype Frame = Frame(code: byte, declared: byte, payload: seq<byte>)

  datatype FrameError = TooShort | BadMagic

  /** The header checks and payload slice at the top of `process_command`.
      A declared length beyond the bytes present is not an error: the
      payload is whatever follows the header, up to the declared length. */
  function ParseFrame(data: seq<byte>): (r: Result<Frame, FrameError>)
    ensures r == Err(TooShort) <==> |data| < 4
    ensures r == Err(BadMagic) <==> |data| >= 4 && (data[0] != 0x55 || data[1] != 0xAA)
    ensures r.Ok? ==> r.value.code == data[2] && r.value.declared == data[3]
    ensures r.Ok? ==> r.value.payload == data[4..Min(|data|, 4 + data[3] as int)]
  {
    if |data| < 4 then Err(TooShort)
    else if DecodeLe16(data[0], data[1]) != MAGIC then Err(BadMagic)
    else
      var length := data[3];
      Ok(Frame(data[2], length, if length > 0 then data[4..Min(|data|, 4 + length as int)] else []))
  }

  /** Parsing an encoded frame gives back its code and its whole payload. */
  lemma ParseEncodeRoundTrip(code: byte, payload: seq<byte>)
    requires |payload| <= 255
    ensures ParseFrame(EncodeFrame(code, payload)) == Ok(Frame(code, |payload|, payload))
  {
    var f := EncodeFrame(code, payload);
    assert Min(|f|, 4 + f[3] as int) == |f|;
    assert f[4..|f|] == payload;
  }

  // ---- Encoders ------------------------------------------------------------

  /** `struct.pack('<16s8sHH', device_id, firmware_version, 0x0100, 0)`. */
  function DeviceInfoPayload(): (p: seq<byte>)
    ensures |p| == 28
  {
    PadTo(Ascii(DEVICE_ID), 16) + PadTo(Ascii(FIRMWARE_VERSION), 8) + Le16(HARDWARE_VERSION) + Le16(0)
  }

  /** A servo's 10-byte status entry, `struct.pack('<BBHHBBBB', ...)`. */
  function StatusRecord(s: ServoState): (rec: seq<byte>)
    ensures |rec| == 10
  {
    [s.id, s.status] + Le16(s.position) + Le16(s.target) + [s.speed, s.torque, s.temperature, s.voltage.tenths]
  }

  /** The fields a status entry reports. */
  datatype StatusView = StatusView(
    id: int, status: int, position: int, target: int,
    speed: int, torque: int, temperature: int, voltageTenths: int)

  function ViewOf(s: ServoState): StatusView
  {
    StatusView(s.id, s.status, s.position, s.target, s.speed, s.torque, s.temperature, s.voltage.tenths)
  }

  /** `struct.unpack('<BBHHBBBB', rec)`, as a client reads a status entry. */
  function DecodeStatus(rec: seq<byte>): StatusView
    requires |rec| == 10
  {
    StatusView(rec[0], rec[1], DecodeLe16(rec[2], rec[3]), DecodeLe16(rec[4], rec[5]),
               rec[6], rec[7], rec[8], rec[9])
  }

  /** A status entry decodes back to the servo's fields. */
  lemma StatusRecordRoundTrip(s: ServoState)
    ensures DecodeStatus(StatusRecord(s)) == ViewOf(s)
  {
    Le16RoundTrip(s.position);
    Le16RoundTrip(s.target);
  }

  /** The PARAMETER_READ table: the servos' status entries in bank order. */
  function ServoTable(servos: seq<ServoState>): (t: seq<byte>)
    ensures |t| == 10 * |servos|
  {
    if servos == [] then [] else ServoTable(servos[..|servos| - 1]) + StatusRecord(servos[|servos| - 1])
  }

  /** Bytes 10i to 10i+9 of the table are servo i's status entry. */
  lemma {:induction false} ServoTableEntry(servos: seq<ServoState>, i: nat)
    requires i < |servos|
    ensures ServoTable(servos)[10 * i..10 * i + 10] == StatusRecord(servos[i])
  {
    var n := |servos|;
    var front := servos[..n - 1];
    assert ServoTable(servos) == ServoTable(front) + StatusRecord(servos[n - 1]);
    if i < n - 1 {
      ServoTableEntry(front, i);
      assert servos[i] == front[i];
    }
  }

  /** One servo's SENSOR_READ entry, `struct.pack('<BBf', id, temperature, voltage)`. */
  function SensorRecord(s: ServoState): (rec: seq<byte>)
    ensures |rec| == 6
  {
    [s.id, s.temperature] + Le32(s.voltage.single)
  }

  /** The fields a client reads back from a sensor entry. */
  datatype SensorView = SensorView(id: int, temperature: int, voltageBits: int)

  /** `struct.unpack('<BBf', rec)`, the float kept as its bit pattern. */
  function DecodeSensor(rec: seq<byte>): SensorView
    requires |rec| == 6
  {
    SensorView(rec[0], rec[1], DecodeLe32(rec[2], rec[3], rec[4], rec[5]))
  }

  /** A sensor entry unpacks to the servo's id, its temperature and the
      single-precision pattern of its voltage. */
  lemma SensorRecordRoundTrip(s: ServoState)
    ensures DecodeSensor(SensorRecord(s)) == SensorView(s.id, s.temperature, s.voltage.single)
  {
    Le32RoundTrip(s.voltage.single);
  }

  function SensorTable(servos: seq<ServoState>): (t: seq<byte>)
    ensures |t| == 6 * |servos|
  {
    if servos == [] then [] else SensorTable(servos[..|servos| - 1]) + SensorRecord(servos[|servos| - 1])
  }

  /** Bytes 6i to 6i+5 of the sensor table are servo i's sensor entry. */
  lemma {:induction false} SensorTableEntry(servos: seq<ServoState>, i: nat)
    requires i < |servos|
    ensures SensorTable(servos)[6 * i..6 * i + 6] == SensorRecord(servos[i])
  {
    var n := |servos|;
    var front := servos[..n - 1];
    assert SensorTable(servos) == SensorTable(front) + SensorRecord(servos[n - 1]);
    if i < n - 1 {
      SensorTableEntry(front, i);
      assert servos[i] == front[i];
    }
  }

  // ---- Handlers ------------------------------------------------------------

  function CmdDeviceInfo(st: EmuState): Reply
  {
    Reply(st, EncodeFrame(DATA, DeviceInfoPayload()))
  }

  function CmdFirmwareUpdate(st: EmuState, payload: seq<byte>): Reply
  {
    if payload == [] then Reply(st, Message(NACK, "No firmware data"))
    else Reply(st.(firmwareData := st.firmwareData + payload), Message(ACK, "Firmware data received"))
  }

  function CmdParameterRead(st: EmuState, payload: seq<byte>): Reply
    requires Valid(st)
  {
    if |payload| < 2 then Reply(st, Message(ERROR, "Invalid parameter address"))
    else if DecodeLe16(payload[0], payload[1]) == 0 then Reply(st, EncodeFrame(DATA, ServoTable(st.servos)))
    else Reply(st, Message(ERROR, "Invalid parameter address"))
  }

  /** The servo PARAMETER_WRITE updates: target from bytes 1-2 (little-endian),
      speed from byte 3, torque from byte 4 of the data after the address. */
  function WriteParameters(s: ServoState, data: seq<byte>): ServoState
    requires |data| >= 5
  {
    s.(target := DecodeLe16(data[1], data[2]), speed := data[3], torque := data[4], moving := true)
  }

  function CmdParameterWrite(st: EmuState, payload: seq<byte>): Reply
    requires Valid(st)
  {
    if |payload| < 4 then Reply(st, Message(ERROR, "Invalid parameter data"))
    else
      var data := payload[2..];
      if DecodeLe16(payload[0], payload[1]) == 0 && data[0] < SERVO_COUNT && |data| >= 8 then
        var id := data[0];
        Reply(st.(servos := st.servos[id := WriteParameters(st.servos[id], data)]),
              Message(ACK, "Parameter written"))
      else
        Reply(st, Message(ERROR, "Invalid parameter"))
  }

  function CmdServoControl(st: EmuState, payload: seq<byte>): Reply
    requires Valid(st)
  {
    if |payload| < 4 then Reply(st, Message(ERROR, "Invalid servo command"))
    else if payload[0] >= SERVO_COUNT then Reply(st, Message(ERROR, "Invalid servo ID"))
    else
      var id := payload[0];
      var s := st.servos[id];
      if payload[1] == 0x01 then
        Reply(st.(servos := st.servos[id := s.(target := DecodeLe16(payload[2], payload[3]), moving := true)]),
              Message(ACK, "Position set"))
      else if payload[1] == 0x02 then
        Reply(st.(servos := st.servos[id := s.(speed := payload[2])]), Message(ACK, "Speed set"))
      else if payload[1] == 0x03 then
        Reply(st, EncodeFrame(DATA, StatusRecord(s)))
      else
        Reply(st, Message(ERROR, "Invalid servo command"))
  }

  function CmdSensorRead(st: EmuState): Reply
    requires Valid(st)
  {
    Reply(st, EncodeFrame(DATA, SensorTable(st.servos)))
  }

  function CmdCalibration(st: EmuState): Reply
  {
    Reply(st, Message(ACK, "Calibration started"))
  }

  /** What RESET does to one servo. */
  function ResetServo(s: ServoState): ServoState
  {
    s.(position := 500, target := 500, moving := false)
  }

  function ResetBank(servos: seq<ServoState>): (r: seq<ServoState>)
    ensures |r| == |servos| && forall i :: 0 <= i < |r| ==> r[i] == ResetServo(servos[i])
  {
    seq(|servos|, i requires 0 <= i < |servos| => ResetServo(servos[i]))
  }

  function CmdReset(st: EmuState): Reply
  {
    Reply(st.(servos := ResetBank(st.servos)), Message(ACK, "Reset completed"))
  }

  function CmdBootloaderMode(st: EmuState): Reply
  {
    Reply(st.(bootloaderMode := true), Message(ACK, "Bootloader mode"))
  }

  /** The flash bytes themselves are only counted by the source, never stored. */
  function CmdFlashWrite(st: EmuState): Reply
  {
    if !st.bootloaderMode then Reply(st, Message(ERROR, "Not in bootloader mode"))
    else Reply(st, Message(ACK, "Flash write successful"))
  }

  /** The command table: code to handler, anything else "Unknown command". */
  function Dispatch(st: EmuState, code: byte, payload: seq<byte>): (r: Reply)
    requires Valid(st)
    ensures Valid(r.state) && IsFrame(r.response)
    ensures r.response[2] in {ACK, NACK, DATA, ERROR}
    ensures !KnownCommand(code) ==> r == Reply(st, Message(ERROR, "Unknown command"))
  {
    if code == DEVICE_INFO then CmdDeviceInfo(st)
    else if code == FIRMWARE_UPDATE then CmdFirmwareUpdate(st, payload)
    else if code == PARAMETER_READ then CmdParameterRead(st, payload)
    else if code == PARAMETER_WRITE then CmdParameterWrite(st, payload)
    else if code == SERVO_CONTROL then CmdServoControl(st, payload)
    else if code == SENSOR_READ then CmdSensorRead(st)
    else if code == CALIBRATION then CmdCalibration(st)
    else if code == RESET then CmdReset(st)
    else if code == BOOTLOADER_MODE then CmdBootloaderMode(st)
    else if code == FLASH_WRITE then CmdFlashWrite(st)
    else Reply(st, Message(ERROR, "Unknown command"))
  }

  /** `process_command`: every input, however malformed, gets a well-formed
      response frame of type ACK, NACK, DATA or ERROR, and the servo bank
      keeps its eight servos. */
  function Process(st: EmuState, data: seq<byte>): (r: Reply)
    requires Valid(st)
    ensures Valid(r.state) && IsFrame(r.response)
    ensures r.response[2] in {ACK, NACK, DATA, ERROR}
  {
    match ParseFrame(data)
    case Err(TooShort) => Reply(st, Message(ERROR, "Invalid packet"))
    case Err(BadMagic) => Reply(st, Message(ERROR, "Invalid header"))
    case Ok(f) => Dispatch(st, f.code, f.payload)
  }
}
