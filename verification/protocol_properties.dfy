/** What the emulator promises its clients, stated over whole frames as a
    client sends them (eilik_emulator.py, `process_command` and handlers). */
module ProtocolProperties {
  import opened Bytes
  import opened ServoBank
  import opened Protocol

  /** Input shorter than four bytes, a wrong magic or an unmapped command
      byte each get their own ERROR text and change nothing. */
  lemma RejectedInputChangesNothing(st: EmuState, data: seq<byte>)
    requires Valid(st)
    requires |data| < 4 || data[0] != 0x55 || data[1] != 0xAA || !KnownCommand(data[2])
    ensures Process(st, data).state == st
    ensures Process(st, data).response ==
      if |data| < 4 then Message(ERROR, "Invalid packet")
      else if data[0] != 0x55 || data[1] != 0xAA then Message(ERROR, "Invalid header")
      else Message(ERROR, "Unknown command")
  {
  }

  /** The handler of a well-framed command sees `data[4:4+length]`; when
      the declared length runs past the end of the input the payload is
      silently cut short rather than the frame rejected. */
  lemma HandlerSeesTruncatedPayload(st: EmuState, data: seq<byte>)
    requires Valid(st) && |data| >= 4 && data[0] == 0x55 && data[1] == 0xAA
    ensures Process(st, data) == Dispatch(st, data[2], data[4..Min(|data|, 4 + data[3] as int)])
    ensures data[3] as int > |data| - 4 ==> Process(st, data) == Dispatch(st, data[2], data[4..])
  {
  }

  /** A frame as a client encodes it reaches the handler its code selects,
      with its whole payload. */
  lemma Routed(st: EmuState, code: byte, p: seq<byte>)
    requires Valid(st) && |p| <= 255
    ensures Process(st, EncodeFrame(code, p)) == Dispatch(st, code, p)
  {
    ParseEncodeRoundTrip(code, p);
  }

  /** DEVICE_INFO answers with DATA and 28 bytes: the device id null-padded
      to 16, the firmware version null-padded to 8, hardware version 0x0100
      and zero flags, both little-endian. */
  lemma DeviceInfoResponse(st: EmuState)
    requires Valid(st)
    ensures Process(st, [0x55, 0xAA, 0x01, 0x00]) == Reply(st, EncodeFrame(DATA,
      [0x45, 0x49, 0x4C, 0x49, 0x4B, 0x5F, 0x45, 0x4D, 0x55, 0x5F, 0x30, 0x30, 0x31, 0, 0, 0,
       0x31, 0x2E, 0x30, 0x2E, 0x30, 0, 0, 0,
       0x00, 0x01, 0x00, 0x00]))
  {
    assert [0x55, 0xAA, 0x01, 0x00] == EncodeFrame(DEVICE_INFO, []);
    Routed(st, DEVICE_INFO, []);
    DeviceInfoBytes();
  }

  /** The DEVICE_INFO payload, byte by byte. */
  lemma DeviceInfoBytes()
    ensures DeviceInfoPayload() ==
      [0x45, 0x49, 0x4C, 0x49, 0x4B, 0x5F, 0x45, 0x4D, 0x55, 0x5F, 0x30, 0x30, 0x31, 0, 0, 0,
       0x31, 0x2E, 0x30, 0x2E, 0x30, 0, 0, 0,
       0x00, 0x01, 0x00, 0x00]
  {
    var id: seq<byte> := [0x45, 0x49, 0x4C, 0x49, 0x4B, 0x5F, 0x45, 0x4D, 0x55, 0x5F, 0x30, 0x30, 0x31];
    var version: seq<byte> := [0x31, 0x2E, 0x30, 0x2E, 0x30];
    assert Ascii(DEVICE_ID) == id;
    assert Ascii(FIRMWARE_VERSION) == version;
    assert PadTo(id, 16) == id + [0, 0, 0];
    assert PadTo(version, 8) == version + [0, 0, 0];
  }

  /** A non-empty FIRMWARE_UPDATE chunk is appended to the buffer and
      acknowledged; an empty one is refused with NACK and changes nothing. */
  lemma FirmwareUpdateAccumulates(st: EmuState, chunk: seq<byte>)
    requires Valid(st)
    ensures chunk == [] ==>
      CmdFirmwareUpdate(st, chunk) == Reply(st, Message(NACK, "No firmware data"))
    ensures chunk != [] ==>
      CmdFirmwareUpdate(st, chunk) ==
      Reply(st.(firmwareData := st.firmwareData + chunk), Message(ACK, "Firmware data received"))
  {
  }

  /** FLASH_WRITE is refused outside bootloader mode and acknowledged in
      it; either way nothing is stored. */
  lemma FlashWriteGatedByBootloader(st: EmuState)
    requires Valid(st)
    ensures CmdFlashWrite(st).state == st
    ensures CmdFlashWrite(st).response ==
      if st.bootloaderMode then Message(ACK, "Flash write successful")
      else Message(ERROR, "Not in bootloader mode")
  {
  }

  /** A FLASH_WRITE frame, whatever its payload, is acknowledged exactly in
      bootloader mode. */
  lemma FlashWriteFrameAcked(st: EmuState, chunk: seq<byte>)
    requires Valid(st) && |chunk| <= 255
    ensures Process(st, EncodeFrame(FLASH_WRITE, chunk)).response[2] == ACK <==> st.bootloaderMode
  {
    Routed(st, FLASH_WRITE, chunk);
    FlashWriteGatedByBootloader(st);
  }

  /** A well-framed command with code 0x09. */
  predicate IsBootloaderCommand(frame: seq<byte>)
  {
    |frame| >= 4 && frame[0] == 0x55 && frame[1] == 0xAA && frame[2] == BOOTLOADER_MODE
  }

  /** The bootloader flag is set by BOOTLOADER_MODE and by nothing else, and
      no command clears it. */
  lemma BootloaderFlagStep(st: EmuState, data: seq<byte>)
    requires Valid(st)
    ensures Process(st, data).state.bootloaderMode <==> st.bootloaderMode || IsBootloaderCommand(data)
  {
  }

  /** The state after a sequence of frames, processed in order. */
  function Run(st: EmuState, frames: seq<seq<byte>>): (r: EmuState)
    requires Valid(st)
    ensures Valid(r)
  {
    if frames == [] then st else Process(Run(st, frames[..|frames| - 1]), frames[|frames| - 1]).state
  }

  /** After any run of frames the device is in bootloader mode exactly when
      it was before or one of the frames was BOOTLOADER_MODE. */
  lemma {:induction false} BootloaderModeAfterRun(st: EmuState, frames: seq<seq<byte>>)
    requires Valid(st)
    ensures Run(st, frames).bootloaderMode <==>
      st.bootloaderMode || exists k :: 0 <= k < |frames| && IsBootloaderCommand(frames[k])
  {
    if frames != [] {
      var n := |frames|;
      var earlier := frames[..n - 1];
      BootloaderModeAfterRun(st, earlier);
      BootloaderFlagStep(Run(st, earlier), frames[n - 1]);
      if exists k :: 0 <= k < |earlier| && IsBootloaderCommand(earlier[k]) {
        var k :| 0 <= k < |earlier| && IsBootloaderCommand(earlier[k]);
        assert IsBootloaderCommand(frames[k]);
      }
      if exists k :: 0 <= k < n && IsBootloaderCommand(frames[k]) {
        var k :| 0 <= k < n && IsBootloaderCommand(frames[k]);
        if k < n - 1 {
          assert IsBootloaderCommand(earlier[k]);
        }
      }
    }
  }

  /** Starting from power-on, a FLASH_WRITE is acknowledged only if some
      earlier frame switched to bootloader mode. */
  lemma FlashWriteNeedsEarlierBootloaderMode(frames: seq<seq<byte>>, chunk: seq<byte>)
    requires |chunk| <= 255
    ensures Process(Run(Initial(), frames), EncodeFrame(FLASH_WRITE, chunk)).response[2] == ACK <==>
      exists k :: 0 <= k < |frames| && IsBootloaderCommand(frames[k])
  {
    var st := Run(Initial(), frames);
    BootloaderModeAfterRun(Initial(), frames);
    FlashWriteFrameAcked(st, chunk);
  }

  /** PARAMETER_READ at address 0 returns the 80-byte table of the eight
      status entries; a shorter payload or any other address is an ERROR.
      Nothing changes either way. */
  lemma ParameterReadReturnsTable(st: EmuState, p: seq<byte>)
    requires Valid(st)
    ensures CmdParameterRead(st, p).state == st
    ensures |p| >= 2 && p[0] == 0 && p[1] == 0 ==>
      CmdParameterRead(st, p).response == EncodeFrame(DATA, ServoTable(st.servos)) &&
      |ServoTable(st.servos)| == 80
    ensures !(|p| >= 2 && p[0] == 0 && p[1] == 0) ==>
      CmdParameterRead(st, p).response == Message(ERROR, "Invalid parameter address")
  {
  }

  /** SENSOR_READ, whatever its payload, answers DATA with the 48-byte table
      of the eight sensor entries and changes nothing. */
  lemma SensorReadReturnsTable(st: EmuState, p: seq<byte>)
    requires Valid(st) && |p| <= 255
    ensures Process(st, EncodeFrame(SENSOR_READ, p)) == Reply(st, EncodeFrame(DATA, SensorTable(st.servos)))
    ensures |SensorTable(st.servos)| == 48
  {
    Routed(st, SENSOR_READ, p);
  }

  /** PARAMETER_WRITE succeeds exactly for address 0, a servo id below 8 and
      at least eight data bytes after the address; it then sets that servo's
      target, speed and torque and starts it moving, touching nothing else.
      Any other payload is an ERROR that changes nothing. */
  lemma ParameterWriteEffect(st: EmuState, p: seq<byte>)
    requires Valid(st)
    ensures Valid(CmdParameterWrite(st, p).state)
    ensures var r := CmdParameterWrite(st, p);
      if |p| >= 10 && p[0] == 0 && p[1] == 0 && p[2] < SERVO_COUNT then
        && r.response == Message(ACK, "Parameter written")
        && r.state.bootloaderMode == st.bootloaderMode
        && r.state.firmwareData == st.firmwareData
        && r.state.servos[p[2]] == st.servos[p[2]].(target := DecodeLe16(p[3], p[4]), speed := p[5], torque := p[6], moving := true)
        && (forall j :: 0 <= j < SERVO_COUNT && j != p[2] ==> r.state.servos[j] == st.servos[j])
      else
        && r.state == st
        && r.response == Message(ERROR, if |p| < 4 then "Invalid parameter data" else "Invalid parameter")
  {
    if |p| >= 4 {
      assert DecodeLe16(p[0], p[1]) == 0 <==> p[0] == 0 && p[1] == 0;
      var data := p[2..];
      assert data[0] == p[2];
      if |p| >= 10 && p[0] == 0 && p[1] == 0 && p[2] < SERVO_COUNT {
        assert WriteParameters(st.servos[p[2]], data) ==
          st.servos[p[2]].(target := DecodeLe16(p[3], p[4]), speed := p[5], torque := p[6], moving := true);
      }
    }
  }

  /** SERVO_CONTROL demands four payload bytes for every sub-command. On a
      valid servo id, sub-command 1 sets the target (no range check) and
      starts the servo moving, 2 sets its speed, 3 reads its status entry;
      anything else is an ERROR. Only the addressed servo changes. */
  lemma ServoControlEffect(st: EmuState, p: seq<byte>)
    requires Valid(st)
    ensures var r := CmdServoControl(st, p);
      && r.state.bootloaderMode == st.bootloaderMode
      && r.state.firmwareData == st.firmwareData
      && (|p| < 4 ==> r == Reply(st, Message(ERROR, "Invalid servo command")))
      && (|p| >= 4 && p[0] >= SERVO_COUNT ==> r == Reply(st, Message(ERROR, "Invalid servo ID")))
      && (|p| >= 4 && p[0] < SERVO_COUNT ==>
            && (forall j :: 0 <= j < SERVO_COUNT && j != p[0] ==> r.state.servos[j] == st.servos[j])
            && (p[1] == 1 ==>
                  && r.response == Message(ACK, "Position set")
                  && r.state.servos[p[0]] == st.servos[p[0]].(target := DecodeLe16(p[2], p[3]), moving := true))
            && (p[1] == 2 ==>
                  && r.response == Message(ACK, "Speed set")
                  && r.state.servos[p[0]] == st.servos[p[0]].(speed := p[2]))
            && (p[1] == 3 ==> r == Reply(st, EncodeFrame(DATA, StatusRecord(st.servos[p[0]]))))
            && (p[1] !in {1, 2, 3} ==> r == Reply(st, Message(ERROR, "Invalid servo command"))))
  {
  }

  /** The frame the emulator's demo and the test system send as "set servo 0
      to 750": `<HBBH` packs 0x0001 as the bytes 01 00, so it addresses
      servo 1 with sub-command 0 and is refused. */
  lemma DemoServoFrameRejected(st: EmuState)
    requires Valid(st)
    ensures Process(st, [0x55, 0xAA, 0x05, 0x04, 0x01, 0x00, 0xEE, 0x02]) ==
      Reply(st, Message(ERROR, "Invalid servo command"))
  {
    assert [0x55, 0xAA, 0x05, 0x04, 0x01, 0x00, 0xEE, 0x02] == EncodeFrame(SERVO_CONTROL, [0x01, 0x00, 0xEE, 0x02]);
    Routed(st, SERVO_CONTROL, [0x01, 0x00, 0xEE, 0x02]);
    ServoControlEffect(st, [0x01, 0x00, 0xEE, 0x02]);
  }

  /** The frame that does set servo 0 to 750: servo id 00, sub-command 01. */
  lemma IntendedServoFrameSetsPosition(st: EmuState)
    requires Valid(st)
    ensures Process(st, [0x55, 0xAA, 0x05, 0x04, 0x00, 0x01, 0xEE, 0x02]) ==
      Reply(st.(servos := st.servos[0 := st.servos[0].(target := 750, moving := true)]), Message(ACK, "Position set"))
  {
    assert [0x55, 0xAA, 0x05, 0x04, 0x00, 0x01, 0xEE, 0x02] == EncodeFrame(SERVO_CONTROL, [0x00, 0x01, 0xEE, 0x02]);
    Routed(st, SERVO_CONTROL, [0x00, 0x01, 0xEE, 0x02]);
    ServoControlEffect(st, [0x00, 0x01, 0xEE, 0x02]);
  }

  /** RESET puts every servo at position 500, target 500, not moving, and
      leaves every other field as it was. */
  lemma ResetCentersAllServos(st: EmuState)
    requires Valid(st)
    ensures var r := CmdReset(st);
      && r.response == Message(ACK, "Reset completed")
      && r.state.bootloaderMode == st.bootloaderMode && r.state.firmwareData == st.firmwareData
      && forall j :: 0 <= j < SERVO_COUNT ==>
           r.state.servos[j] == st.servos[j].(position := 500, target := 500, moving := false)
  {
  }
}
