/** The `EilikEmulator` object itself (eilik_emulator.py): a bank of eight
    servo records updated in place, the bootloader flag and the firmware
    buffer. Every method is proved to leave the object in the state, and to
    answer with the bytes, that the functions of module Protocol prescribe. */
module Emulator {
  import opened Bytes
  import opened ServoBank
  import opened Protocol

  /** One entry of `get_servo_status`: the servo's fields other than its id
      and its status flags. */
  datatype ServoReport = ServoReport(
    position: u16,
    target: u16,
    speed: byte,
    torque: byte,
    temperature: byte,
    voltage: Voltage,
    moving: bool)

  class EilikEmulator {
    var servos: array<ServoState>
    var bootloaderMode: bool
    var firmwareData: seq<byte>

    ghost predicate Valid()
      reads this, servos
    {
      ValidBank(servos[..])
    }

    /** The object's state as the protocol functions see it. */
    function State(): EmuState
      reads this, servos
    {
      EmuState(servos[..], bootloaderMode, firmwareData)
    }

    /** `EilikEmulator()`: eight default servos with ids 0..7, bootloader
        mode off, an empty firmware buffer. */
    constructor()
      ensures Valid() && State() == Initial() && fresh(servos)
    {
      var bank := new ServoState[SERVO_COUNT](_ => DefaultServo(0));
      for i := 0 to SERVO_COUNT
        invariant forall j :: 0 <= j < i ==> bank[j] == DefaultServo(j)
      {
        bank[i] := DefaultServo(i);
      }
      servos := bank;
      bootloaderMode := false;
      firmwareData := [];
      assert bank[..] == InitialBank();
    }

    /** `cmd_firmware_update`: `firmware_data.extend(payload)`. */
    method FirmwareUpdate(payload: seq<byte>) returns (response: seq<byte>)
      requires Valid()
      modifies this
      ensures Valid() && servos == old(servos)
      ensures Reply(State(), response) == CmdFirmwareUpdate(old(State()), payload)
    {
      if |payload| == 0 {
        return Message(NACK, "No firmware data");
      }
      firmwareData := firmwareData + payload;
      response := Message(ACK, "Firmware data received");
    }

    /** `cmd_parameter_write`: the addressed record's target, speed and
        torque are overwritten and it starts moving. */
    method ParameterWrite(payload: seq<byte>) returns (response: seq<byte>)
      requires Valid()
      modifies servos
      ensures Valid()
      ensures Reply(State(), response) == CmdParameterWrite(old(State()), payload)
    {
      if |payload| < 4 {
        return Message(ERROR, "Invalid parameter data");
      }
      var address := DecodeLe16(payload[0], payload[1]);
      var data := payload[2..];
      if address == 0 && data[0] < SERVO_COUNT && |data| >= 8 {
        var id := data[0];
        var s := servos[id];
        s := s.(target := DecodeLe16(data[1], data[2]));
        s := s.(speed := data[3]);
        s := s.(torque := data[4]);
        s := s.(moving := true);
        servos[id] := s;
        return Message(ACK, "Parameter written");
      }
      response := Message(ERROR, "Invalid parameter");
    }

    /** `cmd_servo_control`: set position, set speed or read one status
        entry of the addressed servo. */
    method ServoControl(payload: seq<byte>) returns (response: seq<byte>)
      requires Valid()
      modifies servos
      ensures Valid()
      ensures Reply(State(), response) == CmdServoControl(old(State()), payload)
    {
      if |payload| < 4 {
        return Message(ERROR, "Invalid servo command");
      }
      var id := payload[0];
      var command := payload[1];
      if id >= SERVO_COUNT {
        return Message(ERROR, "Invalid servo ID");
      }
      if command == 0x01 {
        servos[id] := servos[id].(target := DecodeLe16(payload[2], payload[3]), moving := true);
        response := Message(ACK, "Position set");
      } else if command == 0x02 {
        servos[id] := servos[id].(speed := payload[2]);
        response := Message(ACK, "Speed set");
      } else if command == 0x03 {
        response := EncodeFrame(DATA, StatusRecord(servos[id]));
      } else {
        response := Message(ERROR, "Invalid servo command");
      }
    }

    /** `cmd_reset`: every servo is re-centred, one record at a time. */
    method Reset() returns (response: seq<byte>)
      requires Valid()
      modifies servos
      ensures Valid()
      ensures Reply(State(), response) == CmdReset(old(State()))
    {
      for i := 0 to servos.Length
        invariant forall j :: 0 <= j < i ==> servos[j] == ResetServo(old(servos[j]))
        invariant forall j :: i <= j < servos.Length ==> servos[j] == old(servos[j])
      {
        servos[i] := servos[i].(position := 500, target := 500, moving := false);
      }
      assert servos[..] == ResetBank(old(servos[..]));
      response := Message(ACK, "Reset completed");
    }

    /** `cmd_bootloader_mode`. */
    method EnterBootloader() returns (response: seq<byte>)
      requires Valid()
      modifies this
      ensures Valid() && servos == old(servos)
      ensures Reply(State(), response) == CmdBootloaderMode(old(State()))
    {
      bootloaderMode := true;
      response := Message(ACK, "Bootloader mode");
    }

    /** `process_command`: parse the header, route through the command
        table, and answer every input with one response frame. The handlers
        that only read the state are the pure encoders of module Protocol. */
    method ProcessCommand(data: seq<byte>) returns (response: seq<byte>)
      requires Valid()
      modifies this, servos
      ensures Valid() && servos == old(servos)
      ensures Reply(State(), response) == Process(old(State()), data)
    {
      match ParseFrame(data)
      case Err(TooShort) =>
        response := Message(ERROR, "Invalid packet");
      case Err(BadMagic) =>
        response := Message(ERROR, "Invalid header");
      case Ok(frame) =>
        var command := frame.code;
        var payload := frame.payload;
        if command == DEVICE_INFO {
          response := CmdDeviceInfo(State()).response;
        } else if command == FIRMWARE_UPDATE {
          response := FirmwareUpdate(payload);
        } else if command == PARAMETER_READ {
          response := CmdParameterRead(State(), payload).response;
        } else if command == PARAMETER_WRITE {
          response := ParameterWrite(payload);
        } else if command == SERVO_CONTROL {
          response := ServoControl(payload);
        } else if command == SENSOR_READ {
          response := CmdSensorRead(State()).response;
        } else if command == CALIBRATION {
          response := CmdCalibration(State()).response;
        } else if command == RESET {
          response := Reset();
        } else if command == BOOTLOADER_MODE {
          response := EnterBootloader();
        } else if command == FLASH_WRITE {
          response := CmdFlashWrite(State()).response;
        } else {
          response := Message(ERROR, "Unknown command");
        }
    }

    /** One pass of the `_servo_simulation` loop: each servo in turn moves,
        heats or cools, and takes a fresh voltage reading. The random draws
        are the parameter `draws`, one per servo. */
    method Tick(draws: seq<TickDraw>)
      requires Valid() && |draws| == SERVO_COUNT
      modifies servos
      ensures Valid()
      ensures servos[..] == TickBank(old(servos[..]), draws)
    {
      for i := 0 to servos.Length
        invariant forall j :: 0 <= j < i ==> servos[j] == TickServo(old(servos[j]), draws[j])
        invariant forall j :: i <= j < servos.Length ==> servos[j] == old(servos[j])
      {
        var s := servos[i];
        var d := draws[i];
        if s.moving && s.position != s.target {
          var diff := s.target - s.position;
          var step := s.speed / 10;
          if Abs(diff) <= step {
            s := s.(position := s.target, moving := false);
          } else {
            s := s.(position := if diff > 0 then s.position + step else s.position - step);
          }
        }
        if s.moving {
          s := s.(temperature := Min(80, s.temperature + d.heat));
        } else {
          s := s.(temperature := Max(20, s.temperature - d.cool));
        }
        s := s.(voltage := d.voltage);
        servos[i] := s;
      }
      TickBankKeepsBankValid(old(servos[..]), draws);
    }

    /** `get_servo_status`: a report per servo id, built one servo at a
        time. */
    method ServoStatus() returns (status: map<int, ServoReport>)
      requires Valid()
      ensures forall i :: i in status <==> 0 <= i < SERVO_COUNT
      ensures forall i :: 0 <= i < SERVO_COUNT ==>
        var s := servos[i];
        status[i] == ServoReport(s.position, s.target, s.speed, s.torque, s.temperature, s.voltage, s.moving)
    {
      status := map[];
      for i := 0 to servos.Length
        invariant forall j :: j in status <==> 0 <= j < i
        invariant forall j :: 0 <= j < i ==>
          var s := servos[j];
          status[j] == ServoReport(s.position, s.target, s.speed, s.torque, s.temperature, s.voltage, s.moving)
      {
        var s := servos[i];
        status := status[i := ServoReport(s.position, s.target, s.speed, s.torque, s.temperature, s.voltage, s.moving)];
      }
    }
  }
}
