# Eilik emulator, custom firmware and analysis scans in Dafny

This project models the core of the EilikCFW tools for the Eilik desktop
robot:

- **The device emulator** (`eilik_emulator.py`):
  - the framed request/response protocol: magic `55 AA`, a command byte, a length byte, then the payload;
  - the ten command handlers, which act on a bank of eight simulated servos, a bootloader flag and a firmware buffer;
  - the per-tick servo movement and thermal simulation.
- **The custom firmware object `CFWFirmware`** (`cfw_design.py`):
  - the guarded servo write and the built-in animations and behaviours;
  - custom move sequences, the safety-limit editor and the debug log;
  - the binary firmware image with its checksum.
- **The analysis scans** (`cfw_tools.py`, `firmware_extractor.py`):
  - non-overlapping `find` loops over the loaded executable bytes;
  - the context windows they cut around each match;
  - the embedded-resource table;
  - the printable-string extractor.

The code takes two forms:

- **Values with lemmas.** Each command handler, each CFW operation and each scan is a function over values. Its properties are proved as lemmas.
- **Classes.** `Emulator.EilikEmulator` and `CfwFirmware.CFWFirmware` are classes whose servo banks are arrays updated in place. Each method is proved to yield exactly the state and result that the corresponding function prescribes.
- **Loops.** The scan loops and the string loop are methods with loop invariants, proved equal to their specification functions.

Modules:

- `Bytes`: bytes, little-endian packing, byte sums.
- `ServoBank`: the emulator's servo record and tick law.
- `Protocol` and `ProtocolProperties`: framing and command handlers.
- `Emulator`: the emulator object.
- `Cfw` and `CfwFirmware`: the CFW operations and object.
- `FirmwareImage`: `generate_firmware_binary`.
- `Search`: the shared `find` scan.
- `CfwTools` and `FirmwareExtractor`: the analysis scans.

Two behaviours of the code worth knowing:

- **Declared length longer than the payload.** Such a frame is not rejected: `process_command` passes on whatever bytes are present (`eilik_emulator.py:105-107`); see `ProtocolProperties.HandlerSeesTruncatedPayload`.
- **Firmware checksum.** The stored checksum is the byte sum of the unpatched image (`cfw_design.py:374-375`), while `main` prints the byte sum of the patched image (`cfw_design.py:425`). The two differ; see `FirmwareImage.DefaultImageChecksum`.

## Model

| member | source | states |
|---|---|---|
| ServoBank.InitialBank | eilik_emulator.py:16-26 | the initial bank has eight servos, the one at index i with id i |
| ServoBank.Move | eilik_emulator.py:74-82 | a moving servo steps toward its target without overshooting: its position stays between the old position and the target, and the gap never grows; target, speed and id are kept; a servo that is not moving is unchanged |
| ServoBank.TickServo | eilik_emulator.py:73-90 | one tick: the movement step; while moving, the temperature rises by at most 2 and is capped at 80; while idle it falls by at most 1 and is floored at 20; the voltage takes the fresh reading; all other fields are kept |
| ServoBank.TickBank | eilik_emulator.py:73-90 | every servo of the bank is ticked with its own draw |
| ServoBank.TickBankKeepsBankValid | eilik_emulator.py:73-90 | a tick keeps eight servos with ids 0..7 |
| ServoBank.SnapsIffWithinStep | eilik_emulator.py:76-82 | a moving servo stops, landing on its target, exactly when it is within one step (`speed // 10`) of it; otherwise the gap shrinks by exactly one step |
| ServoBank.SlowServoStalls | eilik_emulator.py:77-82 | a servo with speed below 10 has step 0 and never reaches a target it is away from |
| ServoBank.SettledServoUnchanged | eilik_emulator.py:75-82 | a servo already at its target keeps its position and its moving flag |
| ServoBank.TemperatureStaysInBand | eilik_emulator.py:85-88 | a temperature in [20, 80] stays there over any run of ticks |
| ServoBank.ApproachesUpward | eilik_emulator.py:74-82 | while more than k steps away, after k ticks the servo has moved up exactly k steps and is still moving |
| ServoBank.ConvergesInHundredTicks | eilik_emulator.py:74-82 | speed 100 from 0 to 1000: still moving after each of the first 99 ticks; on the target and stopped after tick 100 |
| Protocol.Initial | eilik_emulator.py:29-68 | the emulator starts with a valid bank, bootloader mode off and an empty firmware buffer |
| Protocol.EncodeFrame | eilik_emulator.py:121-126 | a response is magic 55 AA, the type byte, the payload length, then the payload |
| Protocol.Message | eilik_emulator.py:121-126 | a text response is a frame whose payload is the text's bytes |
| Protocol.ParseFrame | eilik_emulator.py:97-107 | under 4 bytes is TooShort; a wrong magic is BadMagic; otherwise the result has the command byte, the length byte and `data[4:4+length]` cut to the input |
| Protocol.ParseEncodeRoundTrip | eilik_emulator.py:97-126 | parsing an encoded frame returns its code, its length and its payload |
| Protocol.DeviceInfoPayload | eilik_emulator.py:128-136 | the DEVICE_INFO payload is 28 bytes |
| Protocol.StatusRecord | eilik_emulator.py:160-169 | a servo status entry (`<BBHHBBBB`) is 10 bytes |
| Protocol.StatusRecordRoundTrip | eilik_emulator.py:160-169 | unpacking an entry with `<BBHHBBBB` returns id, status, position, target, speed, torque, temperature and voltage×10 of the servo |
| Protocol.ServoTable | eilik_emulator.py:158-171 | the parameter table is 10 bytes per servo |
| Protocol.ServoTableEntry | eilik_emulator.py:158-171 | bytes 10i..10i+10 of the table are servo i's entry |
| Protocol.SensorRecord | eilik_emulator.py:241-253 | a sensor entry (`<BBf`) is 6 bytes |
| Protocol.SensorRecordRoundTrip | eilik_emulator.py:247-251 | unpacking a sensor entry with `<BBf` returns the servo's id, its temperature and the single-precision bit pattern of its voltage |
| Protocol.SensorTable | eilik_emulator.py:241-253 | the sensor table is 6 bytes per servo |
| Protocol.SensorTableEntry | eilik_emulator.py:243-251 | bytes 6i..6i+6 of the sensor table are servo i's sensor entry |
| Protocol.ResetBank | eilik_emulator.py:260-268 | every servo is re-centred |
| Protocol.Dispatch | eilik_emulator.py:112-119 | every handler keeps the bank valid and answers with one well-formed frame of type ACK, NACK, DATA or ERROR (BUSY and READY are never sent); an unmapped code gets ERROR "Unknown command" and changes nothing |
| Protocol.Process | eilik_emulator.py:95-119 | `process_command` keeps the bank valid and answers every input with one well-formed frame of type ACK, NACK, DATA or ERROR |
| ProtocolProperties.RejectedInputChangesNothing | eilik_emulator.py:97-119 | a short input, a wrong magic or an unknown command gets its own ERROR text and changes no state |
| ProtocolProperties.HandlerSeesTruncatedPayload | eilik_emulator.py:105-114 | the handler receives `data[4:4+length]`; a declared length past the end of the input gives the rest of the input, not an error |
| ProtocolProperties.Routed | eilik_emulator.py:42-53 | a client-encoded frame reaches the handler its code selects, with its whole payload |
| ProtocolProperties.DeviceInfoResponse | eilik_emulator.py:128-136 | DEVICE_INFO answers with DATA and the exact 28 bytes, changing nothing |
| ProtocolProperties.DeviceInfoBytes | eilik_emulator.py:128-136 | the payload byte by byte: "EILIK_EMU_001" padded to 16, "1.0.0" padded to 8, 0x0100 and 0 little-endian |
| ProtocolProperties.FirmwareUpdateAccumulates | eilik_emulator.py:138-147 | a non-empty chunk is appended and ACKed; an empty chunk is NACKed and changes nothing |
| ProtocolProperties.FlashWriteGatedByBootloader | eilik_emulator.py:276-282 | FLASH_WRITE is ACKed in bootloader mode and refused outside it; nothing is stored |
| ProtocolProperties.FlashWriteFrameAcked | eilik_emulator.py:276-282 | a FLASH_WRITE frame is ACKed if and only if in bootloader mode |
| ProtocolProperties.BootloaderFlagStep | eilik_emulator.py:270-274 | after one input the flag is set if and only if it was set already or the input was a well-framed BOOTLOADER_MODE command |
| ProtocolProperties.Run | eilik_emulator.py:95-119 | processing frames in order keeps the bank valid |
| ProtocolProperties.BootloaderModeAfterRun | eilik_emulator.py:270-274 | after any run, bootloader mode is on if and only if it was on before or some frame was BOOTLOADER_MODE |
| ProtocolProperties.FlashWriteNeedsEarlierBootloaderMode | eilik_emulator.py:270-282 | from power-on, a FLASH_WRITE is ACKed if and only if an earlier frame entered bootloader mode |
| ProtocolProperties.ParameterReadReturnsTable | eilik_emulator.py:149-173 | address 0 returns the 80-byte table; a short payload or another address is an ERROR; the state is unchanged either way |
| ProtocolProperties.SensorReadReturnsTable | eilik_emulator.py:241-253 | SENSOR_READ, whatever its payload, answers DATA with the 48-byte sensor table and changes no state |
| ProtocolProperties.ParameterWriteEffect | eilik_emulator.py:175-196 | success exactly for address 0, servo id below 8 and at least 10 payload bytes (extra bytes are ignored): the servo's target, speed and torque are set and it starts moving, and nothing else changes; otherwise there is no change and the error text depends on the case |
| ProtocolProperties.ServoControlEffect | eilik_emulator.py:198-239 | every case of SERVO_CONTROL: fewer than 4 bytes, a bad id, set position (no range check), set speed, read status, an unknown sub-command; no other servo and neither flag nor buffer changes |
| ProtocolProperties.DemoServoFrameRejected | eilik_emulator.py:347-349 | the demo's "set servo 0 to 750" frame is refused with "Invalid servo command" |
| ProtocolProperties.IntendedServoFrameSetsPosition | eilik_emulator.py:198-218 | the frame with servo id 0 and sub-command 1 sets servo 0's target to 750 and starts it moving |
| ProtocolProperties.ResetCentersAllServos | eilik_emulator.py:260-268 | RESET puts each servo at position and target 500, not moving, and keeps every other field, the flag and the buffer |
| Emulator.EilikEmulator.constructor | eilik_emulator.py:29-68 | the object starts in `Protocol.Initial()` |
| Emulator.EilikEmulator.FirmwareUpdate | eilik_emulator.py:138-147 | new state and response are those of `Protocol.CmdFirmwareUpdate` |
| Emulator.EilikEmulator.ParameterWrite | eilik_emulator.py:175-196 | the in-place record update equals `Protocol.CmdParameterWrite` |
| Emulator.EilikEmulator.ServoControl | eilik_emulator.py:198-239 | the in-place record update equals `Protocol.CmdServoControl` |
| Emulator.EilikEmulator.Reset | eilik_emulator.py:260-268 | the servo-by-servo loop yields `Protocol.CmdReset` |
| Emulator.EilikEmulator.EnterBootloader | eilik_emulator.py:270-274 | sets the flag as `Protocol.CmdBootloaderMode` does |
| Emulator.EilikEmulator.ProcessCommand | eilik_emulator.py:95-119 | new state and response equal `Protocol.Process` of the old state, so every `ProtocolProperties` lemma holds of the object |
| Emulator.EilikEmulator.Tick | eilik_emulator.py:70-93 | one simulation pass updates the array to `TickBank` of the old bank |
| Emulator.EilikEmulator.ServoStatus | eilik_emulator.py:284-297 | the map has exactly the keys 0..7, each holding that servo's fields |
| Cfw.InitialServos | cfw_design.py:65-81 | eight entries keyed 0..7 |
| Cfw.Log | cfw_design.py:159-170 | exactly one entry is appended; servos are unchanged |
| Cfw.Written | cfw_design.py:198-207 | an accepted write sets the target; speed above 100 becomes exactly 100, otherwise it is kept (no lower bound); acceleration above 50 becomes exactly 50, otherwise it is kept; moving is set; every other field is kept |
| Cfw.SetServoPosition | cfw_design.py:184-210 | accepted if and only if the id exists and the position is within the limits; only that servo changes; one log entry: ERROR for a bad id, WARNING for out of range, INFO on success |
| Cfw.ApplyWrites | cfw_design.py:222-225 | writes never change the number of servos |
| Cfw.ApplyWritesFrame | cfw_design.py:184-210 | a run of writes changes only targets, speeds, accelerations and moving flags, and logs one entry per write |
| Cfw.AcceptsAfterWrites | cfw_design.py:187-196 | acceptance of a write does not depend on earlier writes |
| Cfw.LastAcceptedWriteWins | cfw_design.py:184-210 | the last accepted write to a servo decides its final entry |
| Cfw.UnwrittenServoUnchanged | cfw_design.py:184-210 | a servo no accepted write names is unchanged |
| Cfw.RejectedWriteChangesNoServo | cfw_design.py:187-196 | a rejected write changes no servo, and the log grows by one entry |
| Cfw.RepeatedWriteIdempotent | cfw_design.py:184-210 | repeating an accepted write changes no servo further |
| Cfw.AnimationWrites | cfw_design.py:222-225 | one write per keyframe, in order, at speed 50 and acceleration 10 |
| Cfw.PlayAnimation | cfw_design.py:212-227 | true if and only if the name is known; an unknown name changes no servo |
| Cfw.AnimationsEndCentred | cfw_design.py:83-127 | each of wave, dance and stretch leaves every servo it moves with target 500, speed 50, acceleration 10 and moving; every other servo is untouched |
| Cfw.AnimationServoEnd | cfw_design.py:83-127 | the per-servo form of the previous row |
| Cfw.WaveEnd | cfw_design.py:86-94 | end state of wave, per servo |
| Cfw.DanceEnd | cfw_design.py:95-112 | end state of dance, per servo |
| Cfw.DanceMovedEnd | cfw_design.py:107-110 | servos 0-3 end at 500 after dance |
| Cfw.StretchEnd | cfw_design.py:113-126 | end state of stretch, per servo |
| Cfw.StretchMovedEnd | cfw_design.py:119-124 | servos 0-3 end at 500 after stretch |
| Cfw.ClosingKeyframeDecides | cfw_design.py:222-225 | the last keyframe naming a servo decides its end state |
| Cfw.BehaviorWrites | cfw_design.py:239-247 | one write per movement: the drawn position, the movement's speed, acceleration 10 |
| Cfw.SetBehavior | cfw_design.py:229-249 | true if and only if the name is known; an unknown name changes no servo |
| Cfw.BehaviorTargetsInRange | cfw_design.py:129-157 | under default limits, each movement's servo ends with the drawn target inside the movement's range, at its speed, moving |
| Cfw.MoveWrites | cfw_design.py:312-320 | at most one write per entry |
| Cfw.MoveWritesSkipsAnonymous | cfw_design.py:312-320 | the number of writes is the number of entries with a servo key; with no such entry there are no writes |
| Cfw.MoveWritesCount | cfw_design.py:312-320 | one write per entry that names a servo |
| Cfw.MoveWriteOfEntry | cfw_design.py:312-319 | a named entry issues its own write, placed after those of the named entries before it: its servo, its position or 500, its speed or 50, acceleration 10 (the default at line 185) |
| Cfw.NoLaterWriteNames | cfw_design.py:312-320 | the writes of entries that never name servo k never name it |
| Cfw.CustomMove | cfw_design.py:308-324 | always true; the number of servos is kept |
| Cfw.CustomMoveLog | cfw_design.py:308-324 | the log gains the step-count entry and then one entry per named entry |
| Cfw.CustomMoveLeavesUnnamedServo | cfw_design.py:312-320 | a servo no entry names keeps its entry |
| Cfw.CustomMoveLastEntryDecides | cfw_design.py:312-320 | the last entry naming a servo, with a position inside the limits, decides its end state: that position (default 500), its speed (default 50, capped at 100), acceleration 10, moving |
| Cfw.SetSafetyLimits | cfw_design.py:287-306 | true if and only if the servo exists; an unknown id changes nothing and logs nothing; otherwise only that servo changes and one INFO entry is logged |
| Cfw.SafetyLimitsOverwriteSuppliedKeys | cfw_design.py:294-303 | each supplied key takes its new value and each absent key keeps its old one; nothing else of the servo changes |
| Cfw.InvertedLimitsRefuseEveryPosition | cfw_design.py:287-306 | min above max is stored unchecked; after that the servo refuses every position |
| Cfw.DebugTail | cfw_design.py:326-328 | `debug_log[-limit:]`: a suffix of the log of length min(limit, size), or the whole log when limit ≤ 0 |
| Cfw.ClearDebugLog | cfw_design.py:330-333 | exactly one entry remains, the INFO entry recording the clear |
| Cfw.CountMovingBounds | cfw_design.py:265-283 | moving count ≤ servos; 0 if and only if none moves; full if and only if all move |
| CfwFirmware.ApplyWritesSnoc | cfw_design.py:222-225 | one more write extends the run |
| CfwFirmware.CFWFirmware.constructor | cfw_design.py:65-81 | object starts with `Cfw.InitialServos()` and an empty log |
| CfwFirmware.CFWFirmware.LogDebug | cfw_design.py:159-170 | appends exactly one entry, of any level (the three the firmware uses or any other name) and any message, including caller text |
| CfwFirmware.CFWFirmware.SetServoPosition | cfw_design.py:184-210 | in-place write equals `Cfw.SetServoPosition` |
| CfwFirmware.CFWFirmware.PlayAnimation | cfw_design.py:212-227 | equals `Cfw.PlayAnimation` |
| CfwFirmware.CFWFirmware.PlayFrames | cfw_design.py:222-225 | the keyframe loop applies `AnimationWrites` in order |
| CfwFirmware.CFWFirmware.SetBehavior | cfw_design.py:229-249 | equals `Cfw.SetBehavior` |
| CfwFirmware.CFWFirmware.ApplyMovements | cfw_design.py:239-247 | the movement loop applies `BehaviorWrites` in order |
| CfwFirmware.CFWFirmware.CustomMove | cfw_design.py:308-324 | equals `Cfw.CustomMove`, so the defaults, the log growth and the end states of the `Cfw.CustomMove*` lemmas hold of the object |
| CfwFirmware.CFWFirmware.SetSafetyLimits | cfw_design.py:287-306 | the key-by-key update equals `Cfw.SetSafetyLimits` |
| CfwFirmware.CFWFirmware.ClearDebugLog | cfw_design.py:330-333 | equals `Cfw.ClearDebugLog` |
| CfwFirmware.CFWFirmware.MovingServos | cfw_design.py:263-283 | the counting loop returns `CountMoving` of the bank, at most 8 |
| FirmwareImage.Header | cfw_design.py:338-344 | the header is 12 bytes |
| FirmwareImage.ConfigBlock | cfw_design.py:347-353 | the configuration block is 20 bytes |
| FirmwareImage.ServoRecord | cfw_design.py:358-367 | a servo record is 10 bytes |
| FirmwareImage.ServoRecords | cfw_design.py:356-368 | the section exists if and only if every record fits its `struct` slots; it is then 10 bytes per servo |
| FirmwareImage.ServoRecordAt | cfw_design.py:356-368 | record k is at offset 10k of the section |
| FirmwareImage.Unpatched | cfw_design.py:371 | the image exists if and only if the servo section does |
| FirmwareImage.Patch | cfw_design.py:374-375 | patching keeps the length |
| FirmwareImage.ImageLayout | cfw_design.py:335-377 | an image exists if and only if all records fit; it is 32+10n bytes; it holds the magic, version 00 01, zero flags and reserved bytes, then the configuration block |
| FirmwareImage.ImageRecordAt | cfw_design.py:356-375 | servo k's record is at offset 32+10k of the finished image |
| FirmwareImage.PatchKeepsTail | cfw_design.py:375 | patching changes only bytes 8 and 9 |
| FirmwareImage.ChecksumCoversImage | cfw_design.py:374-375 | bytes 8-9 hold, little-endian, the byte sum mod 2^16 of the image with those bytes zeroed |
| FirmwareImage.PatchedSum | cfw_design.py:374-375 | the finished image sums to the stored checksum plus the checksum's own two bytes |
| FirmwareImage.DefaultImageChecksum | cfw_design.py:335-377 | the default image is 112 bytes and stores checksum 0x1052, while the sum `main` prints (line 425) is 0x10B4 |
| Search.Find | cfw_tools.py:46 | `find` returns -1 or an in-range position at or after the start |
| Search.FindSound | cfw_tools.py:46 | `find` returns the first occurrence at or after the start, and -1 if and only if there is none |
| Search.MatchesAtIsOccurrence | cfw_tools.py:46 | byte-wise comparison agrees with the slice comparison |
| Search.OccurrencesSound | cfw_tools.py:43-54 | every reported position is a true occurrence, in increasing, non-overlapping order |
| Search.OccurrencesCover | cfw_tools.py:43-54 | every occurrence is reported or overlaps the report before it |
| Search.Slice | cfw_tools.py:50-52 | Python slicing with clamped bounds: its length and its elements |
| Search.AroundContextHoldsMatch | cfw_tools.py:50-52 | the window holds the match at most `radius` bytes in, and is at most 2·radius longer |
| Search.AheadContextStartsWithMatch | firmware_extractor.py:165 | `data[pos:pos+n]` has length min(n, rest) and starts with the match |
| Search.HitsSound | cfw_tools.py:43-54 | each report of one pattern is a true occurrence with its rule's context; reports do not overlap |
| Search.HitsCover | cfw_tools.py:43-54 | no occurrence is missed except inside an earlier report |
| Search.AllHitsSound | cfw_tools.py:43-54 | each report of a multi-pattern scan is a true occurrence of a listed pattern with its context |
| Search.AroundReport | cfw_tools.py:43-54 | the k-th report: its pattern is listed, the occurrence is true, and the window is the clamped slice and holds the match |
| Search.AheadReport | firmware_extractor.py:155-167 | the k-th report: its pattern is listed, the occurrence is true, and the block is as long as the data allows and starts with the match |
| Search.GroupedInListOrder | cfw_tools.py:43-54 | with distinct patterns, all reports of an earlier pattern precede those of a later one |
| Search.ScanPattern | cfw_tools.py:44-54 | the `while True` / `find` loop returns exactly `Hits` |
| Search.ScanPatterns | cfw_tools.py:43-54 | the loop over patterns returns exactly `AllHits` |
| CfwTools.FindPythonModules | cfw_tools.py:27-56 | no result if and only if nothing (or nothing non-empty) is loaded; otherwise the reports of the five module names with 50-byte windows |
| CfwTools.ModuleReportsHoldTheirName | cfw_tools.py:43-54 | each module report is a true occurrence of a listed name, whose window holds it and is at most 100 bytes longer |
| CfwTools.Text | cfw_tools.py:76 | `chr` of each byte, same length and codes |
| CfwTools.CurrentRunIsSuffix | cfw_tools.py:74-80 | the string being collected is the maximal printable suffix of the bytes seen |
| CfwTools.KeptStringsAreLongText | cfw_tools.py:74-80 | every kept string has more than 4 characters, all printable |
| CfwTools.FinalFilterIsNoOp | cfw_tools.py:78-82 | the final length filter removes nothing |
| CfwTools.StringsAreLongText | cfw_tools.py:69-82 | every returned string has at least 5 printable characters |
| CfwTools.TrailingRunDropped | cfw_tools.py:74-82 | a printable run at the very end of the data is never returned |
| CfwTools.StringsConcat | cfw_tools.py:74-82 | strings are returned in order: splitting after a non-printable byte concatenates the results |
| CfwTools.TerminatedRun | cfw_tools.py:74-82 | a printable run closed by a non-printable byte is returned, as text, if and only if it is longer than 4 |
| CfwTools.ExtractStrings | cfw_tools.py:69-82 | the byte loop followed by the filter returns exactly `Strings(data)` |
| FirmwareExtractor.SearchForFirmwareFiles | firmware_extractor.py:29-65 | no result if and only if nothing (or nothing non-empty) is loaded; otherwise the reports of the ten fragments with 100-byte windows |
| FirmwareExtractor.FileReportsHoldTheirFragment | firmware_extractor.py:46-63 | each report is a true occurrence of a fragment, whose window holds it and is at most 200 bytes longer |
| FirmwareExtractor.OneEntryPerOccurrence | firmware_extractor.py:80-100 | when every signature has a kind, there is one entry per report, with the report's position, bytes and signature kind |
| FirmwareExtractor.ExtractEmbeddedResources | firmware_extractor.py:67-102 | the loop over signatures returns exactly `EmbeddedResources` |
| FirmwareExtractor.SignaturesHaveKinds | firmware_extractor.py:72-76 | both PK signatures take the ZIP branch and 1F 8B 08 the GZIP branch, so no report is dropped |
| FirmwareExtractor.ResourceEntry | firmware_extractor.py:92-120 | entry k is at a true occurrence of a listed signature; its kind follows the signature's first bytes; it holds `data[pos:pos+1000]` |
| FirmwareExtractor.AnalyzeFirmwareStructure | firmware_extractor.py:140-169 | the loop over headers returns exactly the four headers' reports with 50-byte blocks |
| FirmwareExtractor.IndicatorsStartWithHeader | firmware_extractor.py:155-167 | each indicator is a true occurrence of a header; its block is min(50, rest) bytes and starts with the header |

## Left out

- **Threads and time.**
  - The emulator's background simulation thread, its `running` flag and the 100 ms sleep are not modelled. `Emulator.EilikEmulator.Tick` is one pass of the loop body.
  - The random draws (heating 0..2, cooling 0..1, the voltage reading) are parameters.
- **Voltages.**
  - Floating-point voltages are not modelled as numbers. The emulator carries a voltage as its wire forms: tenths for the status entry, and an IEEE single bit pattern for the sensor entry.
  - The CFW side keeps safety voltages in tenths.
  - The float arithmetic linking these forms is not modelled.
- **Exceptions.** The emulator's exception branch (`eilik_emulator.py:115-117`) is not modelled. Every handler path here is total on well-framed input, and the servo fields hold only values that `struct.pack` accepts.
- **Console and clock.**
  - Console printing is not modelled.
  - Log timestamps are not modelled. The messages the firmware formats itself are structured values rather than formatted text; a caller's own message is kept as its text (`Note`), and a level other than INFO, WARNING or ERROR as its name (`Named`).
- **Not modelled:**
  - `simulate_behavior` and the `get_firmware_info` dictionary;
  - the unused `connected` and `running` fields;
  - `get_performance_metrics`' averages (floating point). Only its moving-servo count is modelled.
- **Animation timing.** Animation `time` and `duration` fields only matter for sleeping and are dropped. The same goes for `custom_move`'s `delay`.
- **Version strings.** The version strings of the device info and the CFW configuration are ASCII.
- **Other repository code.** These functions are not part of this model:
  - `search_for_update_urls` (regular expressions);
  - `load_executable` and `analyze_communication` (file I/O and counting only);
  - the repository's other analysis scripts.
- **Executable bytes.** The loaded bytes are a parameter.
  - `extract_embedded_resources`, `analyze_firmware_structure` and `extract_strings` would raise on an analyser with nothing loaded. The model gives them loaded bytes.
  - `find_python_modules` and `search_for_firmware_files` return `None` on no data or empty data, and their models do too.
- **Report rendering.** Report patterns are kept as bytes. `pattern.decode()` and `header.hex()` would render them as text.
- Cfw.DebugTail: `get_debug_log` is modelled as this function only, not as a method of the object.
- ServoBank.ApproachesUpward: only the upward approach is proved. Downward movement is symmetric and not stated.

## Findings

| source | as written | input that shows it | evidently intended | confidence | as-written member | corrected member |
|---|---|---|---|---|---|---|
| eilik_emulator.py:347-349 and cfw_test_system.py:61-63 | the "set servo 0 position" frame packs servo id and sub-command together as one little-endian `H` of value 0x0001, which puts 01 in the servo-id byte and 00 in the sub-command byte | `55 AA 05 04 01 00 EE 02` is answered ERROR "Invalid servo command" | servo id 00, sub-command 01 (`55 AA 05 04 00 01 EE 02`), which sets servo 0's target to 750 | high (by proof; not executed) | ProtocolProperties.DemoServoFrameRejected | ProtocolProperties.IntendedServoFrameSetsPosition |
