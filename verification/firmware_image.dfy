/** The custom firmware image `generate_firmware_binary` builds
    (cfw_design.py): a 12-byte header `<4sHHHH`, a 20-byte configuration
    block `<16sBBBB`, one 10-byte record `<BBHHBBBB` per servo, and an
    additive 16-bit checksum patched in at offsets 8-9. */
module FirmwareImage {
  import opened Bytes
  import opened Cfw

  /** `CFWConfig`; the feature list is not part of the image. */
  datatype CfwConfig = CfwConfig(
    version: string,
    magic: seq<byte>,
    debugMode: bool,
    enhancedServo: bool,
    customAnimations: bool,
    remoteDebug: bool)

  /** `CFWConfig()`: version "CFW-1.0.0", magic "CFW_", every flag on. */
  const DEFAULT_CONFIG := CfwConfig("CFW-1.0.0", [0x43, 0x46, 0x57, 0x5F], true, true, true, true)

  const IMAGE_VERSION: u16 := 0x0100
  const HEADER_SIZE := 12
  const CONFIG_SIZE := 20
  const RECORD_SIZE := 10

  /** `struct.pack('<4sHHHH', magic, 0x0100, 0, 0, 0)`: magic, version,
      flags, checksum placeholder, reserved. */
  function Header(magic: seq<byte>): (h: seq<byte>)
    ensures |h| == HEADER_SIZE
  {
    PadTo(magic, 4) + Le16(IMAGE_VERSION) + Le16(0) + Le16(0) + Le16(0)
  }

  /** A Python bool packed with `B`. */
  function Flag(b: bool): byte
  {
    if b then 1 else 0
  }

  /** `struct.pack('<16sBBBB', version.encode(), ...)`. */
  function ConfigBlock(c: CfwConfig): (block: seq<byte>)
    ensures |block| == CONFIG_SIZE
  {
    PadTo(Ascii(c.version), 16) + [Flag(c.debugMode), Flag(c.enhancedServo), Flag(c.customAnimations), Flag(c.remoteDebug)]
  }

  /** Every field of the servo's record fits its `struct` slot; otherwise
      `struct.pack` raises and no image is produced. */
  predicate Fits(s: CfwServo)
  {
    0 <= s.id < 0x100 && 0 <= s.status < 0x100
    && 0 <= s.limits.min < 0x1_0000 && 0 <= s.limits.max < 0x1_0000
    && 0 <= s.safety.maxTemp < 0x100
    && 0 <= s.safety.maxVoltage < 0x100 && 0 <= s.safety.minVoltage < 0x100
  }

  /** `struct.pack('<BBHHBBBB', id, status, min, max, max_temp,
      max_voltage * 10, min_voltage * 10, 0)`. */
  function ServoRecord(s: CfwServo): (rec: seq<byte>)
    requires Fits(s)
    ensures |rec| == RECORD_SIZE
  {
    [s.id, s.status] + Le16(s.limits.min) + Le16(s.limits.max)
      + [s.safety.maxTemp, s.safety.maxVoltage, s.safety.minVoltage, 0]
  }

  /** The servo section, records in key order; None if a record cannot be
      packed. */
  function ServoRecords(servos: seq<CfwServo>): (r: Option<seq<byte>>)
    ensures r.Some? <==> forall k :: 0 <= k < |servos| ==> Fits(servos[k])
    ensures r.Some? ==> |r.value| == RECORD_SIZE * |servos|
  {
    if servos == [] then Some([])
    else
      var last := servos[|servos| - 1];
      var init := ServoRecords(servos[..|servos| - 1]);
      if init.None? || !Fits(last) then None
      else Some(init.value + ServoRecord(last))
  }

  /** Record k sits at offset 10k of the servo section. */
  lemma {:induction false} ServoRecordAt(servos: seq<CfwServo>, k: nat)
    requires ServoRecords(servos).Some? && k < |servos|
    ensures ServoRecords(servos).value[RECORD_SIZE * k..RECORD_SIZE * k + RECORD_SIZE] == ServoRecord(servos[k])
  {
    var n := |servos|;
    var init := servos[..n - 1];
    assert ServoRecords(init).Some? by {
      assert forall j :: 0 <= j < |init| ==> init[j] == servos[j];
    }
    if k < n - 1 {
      ServoRecordAt(init, k);
      assert init[k] == servos[k];
    }
  }

  /** The image before its checksum is patched in. */
  function Unpatched(c: CfwConfig, servos: seq<CfwServo>): (r: Option<seq<byte>>)
    ensures r.Some? <==> ServoRecords(servos).Some?
  {
    var records := ServoRecords(servos);
    if records.None? then None else Some(Header(c.magic) + ConfigBlock(c) + records.value)
  }

  /** `firmware[:8] + struct.pack('<H', sum(firmware) & 0xFFFF) + firmware[10:]`. */
  function Patch(f: seq<byte>): (r: seq<byte>)
    requires |f| >= 10
    ensures |r| == |f|
  {
    f[..8] + Le16(Sum(f) % 0x1_0000) + f[10..]
  }

  /** `generate_firmware_binary`. */
  function GenerateFirmwareBinary(c: CfwConfig, servos: seq<CfwServo>): Option<seq<byte>>
  {
    var f := Unpatched(c, servos);
    if f.None? then None else Some(Patch(f.value))
  }

  /** An image exists exactly when every record fits; it is 32 + 10n bytes
      long and starts with the header (magic, version 0x0100, zero flags
      and reserved fields) and the configuration block. */
  lemma ImageLayout(c: CfwConfig, servos: seq<CfwServo>)
    ensures GenerateFirmwareBinary(c, servos).Some? <==> forall k :: 0 <= k < |servos| ==> Fits(servos[k])
    ensures GenerateFirmwareBinary(c, servos).Some? ==>
      var img := GenerateFirmwareBinary(c, servos).value;
      && |img| == HEADER_SIZE + CONFIG_SIZE + RECORD_SIZE * |servos|
      && img[..4] == PadTo(c.magic, 4)
      && img[4..6] == [0x00, 0x01] && img[6..8] == [0, 0] && img[10..12] == [0, 0]
      && img[12..32] == ConfigBlock(c)
  {
    if GenerateFirmwareBinary(c, servos).Some? {
      var f := Unpatched(c, servos).value;
      var img := GenerateFirmwareBinary(c, servos).value;
      var h := Header(c.magic);
      assert f == h + ConfigBlock(c) + ServoRecords(servos).value;
      assert h[4..6] == [0x00, 0x01] && h[6..8] == [0, 0] && h[10..12] == [0, 0];
      assert f[..12] == h && f[12..32] == ConfigBlock(c);
      assert img[..8] == f[..8] && img[10..] == f[10..];
      assert img[..4] == f[..4] == PadTo(c.magic, 4);
      assert img[4..6] == f[4..6] && img[6..8] == f[6..8];
      assert img[10..12] == f[10..12] && img[12..32] == f[12..32];
    }
  }

  /** The record of servo k is at offset 32 + 10k of the image. */
  lemma ImageRecordAt(c: CfwConfig, servos: seq<CfwServo>, k: nat)
    requires GenerateFirmwareBinary(c, servos).Some? && k < |servos|
    ensures var img := GenerateFirmwareBinary(c, servos).value;
      |img| == 32 + RECORD_SIZE * |servos|
      && img[32 + RECORD_SIZE * k..32 + RECORD_SIZE * k + RECORD_SIZE] == ServoRecord(servos[k])
  {
    var f := Unpatched(c, servos).value;
    var front := Header(c.magic) + ConfigBlock(c);
    var records := ServoRecords(servos).value;
    var lo := RECORD_SIZE * k;
    ServoRecordAt(servos, k);
    assert f == front + records && |front| == 32;
    SliceAfterPrefix(front, records, lo, lo + RECORD_SIZE);
    PatchKeepsTail(f, 32 + lo, 32 + lo + RECORD_SIZE);
  }

  lemma SliceAfterPrefix(x: seq<byte>, y: seq<byte>, i: nat, j: nat)
    requires i <= j <= |y|
    ensures (x + y)[|x| + i..|x| + j] == y[i..j]
  {
    forall m | i <= m < j
      ensures (x + y)[|x| + m] == y[m]
    {
    }
  }

  /** Replacing bytes 8 and 9 of `f` by `cs` keeps every later byte. */
  lemma SpliceKeepsTail(f: seq<byte>, cs: seq<byte>, i: nat, j: nat)
    requires |cs| == 2 && 10 <= i <= j <= |f|
    ensures (f[..8] + cs + f[10..])[i..j] == f[i..j]
  {
    SliceAfterPrefix(f[..8] + cs, f[10..], i - 10, j - 10);
    assert f[10..][i - 10..j - 10] == f[i..j];
  }

  /** Patching changes bytes 8 and 9 only. */
  lemma PatchKeepsTail(f: seq<byte>, i: nat, j: nat)
    requires 10 <= i <= j <= |f|
    ensures Patch(f)[i..j] == f[i..j]
  {
    var cs := Le16(Sum(f) % 0x1_0000);
    assert Patch(f) == f[..8] + cs + f[10..];
    SpliceKeepsTail(f, cs, i, j);
  }

  /** The image with its checksum field zeroed, as the checksum sees it. */
  function ChecksumInput(img: seq<byte>): seq<byte>
    requires |img| >= 10
  {
    img[..8] + [0, 0] + img[10..]
  }

  /** Bytes 8-9 hold, little-endian, the byte sum modulo 2^16 of the image
      with those two bytes zeroed. */
  lemma ChecksumCoversImage(c: CfwConfig, servos: seq<CfwServo>)
    requires GenerateFirmwareBinary(c, servos).Some?
    ensures var img := GenerateFirmwareBinary(c, servos).value;
      |img| >= 10 && DecodeLe16(img[8], img[9]) == Sum(ChecksumInput(img)) % 0x1_0000
  {
    var f := Unpatched(c, servos).value;
    var img := GenerateFirmwareBinary(c, servos).value;
    assert f[8..10] == [0, 0];
    assert ChecksumInput(img) == f;
    Le16RoundTrip(Sum(f) % 0x1_0000);
  }

  /** The byte sum of a patched image is the stored checksum plus its own
      two bytes, so it differs from the stored value whenever the checksum
      is not zero. */
  lemma PatchedSum(f: seq<byte>)
    requires |f| >= 10 && f[8] == 0 && f[9] == 0
    ensures Sum(Patch(f)) == Sum(f) + Patch(f)[8] + Patch(f)[9]
  {
    var cs := Le16(Sum(f) % 0x1_0000);
    assert Patch(f) == f[..8] + cs + f[10..];
    SpliceSum(f, cs);
  }

  /** The byte sum after writing `cs` over the two zero bytes 8 and 9. */
  lemma SpliceSum(f: seq<byte>, cs: seq<byte>)
    requires |f| >= 10 && f[8] == 0 && f[9] == 0 && |cs| == 2
    ensures Sum(f[..8] + cs + f[10..]) == Sum(f) + cs[0] + cs[1]
  {
    assert f == f[..8] + f[8..10] + f[10..];
    SumAppend(f[..8] + f[8..10], f[10..]);
    SumAppend(f[..8], f[8..10]);
    SumAppend(f[..8] + cs, f[10..]);
    SumAppend(f[..8], cs);
    assert f[8..10] == [0, 0];
    SumOf2(0, 0);
    SumOf2(cs[0], cs[1]);
    assert cs == [cs[0], cs[1]];
  }

  // ---- The default image ---------------------------------------------------

  lemma SumOf2(a: byte, b: byte)
    ensures Sum([a, b]) == a + b
  {
    var one: seq<byte> := [a];
    var two: seq<byte> := [a, b];
    assert one[..0] == [];
    assert Sum(one) == a;
    assert two[..1] == one;
  }

  lemma SumOf4(a: byte, b: byte, c: byte, d: byte)
    ensures Sum([a, b, c, d]) == a + b + c + d
  {
    assert [a, b, c, d][..3] == [a, b, c];
    assert [a, b, c][..2] == [a, b];
    SumOf2(a, b);
  }

  lemma DefaultHeaderSum()
    ensures Sum(Header(DEFAULT_CONFIG.magic)) == 320
  {
    assert Header(DEFAULT_CONFIG.magic) == [0x43, 0x46, 0x57, 0x5F] + [0x00, 0x01, 0, 0] + [0, 0, 0, 0];
    SumOf4(0x43, 0x46, 0x57, 0x5F);
    SumOf4(0x00, 0x01, 0, 0);
    SumOf4(0, 0, 0, 0);
    SumAppend([0x43, 0x46, 0x57, 0x5F], [0x00, 0x01, 0, 0]);
    SumAppend([0x43, 0x46, 0x57, 0x5F] + [0x00, 0x01, 0, 0], [0, 0, 0, 0]);
  }

  lemma DefaultConfigSum()
    ensures Sum(ConfigBlock(DEFAULT_CONFIG)) == 510
  {
    var version: seq<byte> := [0x43, 0x46, 0x57, 0x2D, 0x31, 0x2E, 0x30, 0x2E, 0x30];
    assert Ascii(DEFAULT_CONFIG.version) == version;
    assert PadTo(version, 16) == version + [0, 0, 0, 0, 0, 0, 0];
    var p1: seq<byte> := [0x43, 0x46, 0x57, 0x2D];
    var p2: seq<byte> := [0x31, 0x2E, 0x30, 0x2E];
    var p3: seq<byte> := [0x30, 0, 0, 0];
    var p4: seq<byte> := [0, 0, 0, 0];
    var p5: seq<byte> := [1, 1, 1, 1];
    assert ConfigBlock(DEFAULT_CONFIG) == p1 + p2 + p3 + p4 + p5;
    SumOf4(0x43, 0x46, 0x57, 0x2D);
    SumOf4(0x31, 0x2E, 0x30, 0x2E);
    SumOf4(0x30, 0, 0, 0);
    SumOf4(0, 0, 0, 0);
    SumOf4(1, 1, 1, 1);
    SumAppend(p1, p2);
    SumAppend(p1 + p2, p3);
    SumAppend(p1 + p2 + p3, p4);
    SumAppend(p1 + p2 + p3 + p4, p5);
  }

  /** The record of default servo i sums to i + 415 (limits 0 and 1000,
      safety 80, 60, 40). */
  lemma DefaultRecordSum(i: int)
    requires 0 <= i < CFW_SERVO_COUNT
    ensures Fits(DefaultCfwServo(i)) && Sum(ServoRecord(DefaultCfwServo(i))) == i + 415
  {
    var p1: seq<byte> := [i, 0, 0, 0];
    var p2: seq<byte> := [0xE8, 0x03, 80, 60];
    var p3: seq<byte> := [40, 0];
    assert ServoRecord(DefaultCfwServo(i)) == p1 + p2 + p3;
    SumOf4(i, 0, 0, 0);
    SumOf4(0xE8, 0x03, 80, 60);
    SumOf2(40, 0);
    SumAppend(p1, p2);
    SumAppend(p1 + p2, p3);
  }

  lemma {:induction false} DefaultRecordsSum(n: nat)
    requires n <= CFW_SERVO_COUNT
    ensures ServoRecords(InitialServos()[..n]).Some?
    ensures 2 * Sum(ServoRecords(InitialServos()[..n]).value) == 830 * n + n * (n - 1)
  {
    var s := InitialServos()[..n];
    if n > 0 {
      DefaultRecordsSum(n - 1);
      assert s[..n - 1] == InitialServos()[..n - 1];
      DefaultRecordSum(n - 1);
      SumAppend(ServoRecords(InitialServos()[..n - 1]).value, ServoRecord(s[n - 1]));
      assert n * (n - 1) == (n - 1) * (n - 2) + 2 * (n - 1);
    }
  }

  /** Before patching, the default image sums to 0x1052. */
  lemma DefaultUnpatchedSum()
    ensures Unpatched(DEFAULT_CONFIG, InitialServos()).Some?
    ensures Sum(Unpatched(DEFAULT_CONFIG, InitialServos()).value) == 0x1052
  {
    var servos := InitialServos();
    DefaultRecordsSum(CFW_SERVO_COUNT);
    assert servos[..CFW_SERVO_COUNT] == servos;
    var records := ServoRecords(servos).value;
    DefaultHeaderSum();
    DefaultConfigSum();
    SumAppend(Header(DEFAULT_CONFIG.magic), ConfigBlock(DEFAULT_CONFIG));
    SumAppend(Header(DEFAULT_CONFIG.magic) + ConfigBlock(DEFAULT_CONFIG), records);
  }

  /** The default image is 112 bytes; its stored checksum is 0x1052, while
      the byte sum of the finished image, the value `main` reports as the
      checksum, is 0x10B4. */
  lemma DefaultImageChecksum()
    ensures GenerateFirmwareBinary(DEFAULT_CONFIG, InitialServos()).Some?
    ensures var img := GenerateFirmwareBinary(DEFAULT_CONFIG, InitialServos()).value;
      && |img| == 112
      && img[8] == 0x52 && img[9] == 0x10
      && Sum(img) % 0x1_0000 == 0x10B4
  {
    DefaultUnpatchedSum();
    var f := Unpatched(DEFAULT_CONFIG, InitialServos()).value;
    assert |f| == 112 && f[8] == 0 && f[9] == 0;
    var img := Patch(f);
    assert Le16(0x1052) == [0x52, 0x10];
    assert img == f[..8] + [0x52, 0x10] + f[10..];
    PatchedSum(f);
  }
}
