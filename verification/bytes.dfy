/** Byte-level vocabulary shared by the emulator protocol, the firmware image
    builder and the binary scanners: fixed-width integers, little-endian
    packing as Python's `struct` does it with the `<` prefix, byte sums and
    null-padded fixed-width strings. */
module Bytes {

  type byte = x: int | 0 <= x < 0x100
  type u16 = x: int | 0 <= x < 0x1_0000
  type u32 = x: int | 0 <= x < 0x1_0000_0000

  datatype Option<T> = None | Some(value: T)

  datatype Result<T, E> = Ok(value: T) | Err(error: E)

  function Min(a: int, b: int): int { if a <= b then a else b }

  function Max(a: int, b: int): int { if a >= b then a else b }

  function Abs(x: int): nat { if x < 0 then -x else x }

  /** `struct.pack('<H', v)`: low byte first. */
  function Le16(v: u16): (r: seq<byte>)
    ensures |r| == 2
  {
    [v % 0x100, v / 0x100]
  }

  /** `struct.unpack('<H', bytes([lo, hi]))[0]`. */
  function DecodeLe16(lo: byte, hi: byte): u16
  {
    lo + 0x100 * hi
  }

  lemma Le16RoundTrip(v: u16)
    ensures DecodeLe16(Le16(v)[0], Le16(v)[1]) == v
  {
  }

  lemma DecodeLe16RoundTrip(lo: byte, hi: byte)
    ensures Le16(DecodeLe16(lo, hi)) == [lo, hi]
  {
  }

  /** `struct.pack('<I', v)` (also the byte order `struct.pack('<f', x)` uses
      for the bit pattern v of a single-precision float). */
  function Le32(v: u32): (r: seq<byte>)
    ensures |r| == 4
  {
    Le16(v % 0x1_0000) + Le16(v / 0x1_0000)
  }

  /** `struct.unpack('<I', bytes([b0, b1, b2, b3]))[0]`. */
  function DecodeLe32(b0: byte, b1: byte, b2: byte, b3: byte): u32
  {
    DecodeLe16(b0, b1) + 0x1_0000 * DecodeLe16(b2, b3)
  }

  lemma Le32RoundTrip(v: u32)
    ensures DecodeLe32(Le32(v)[0], Le32(v)[1], Le32(v)[2], Le32(v)[3]) == v
  {
    Le16RoundTrip(v % 0x1_0000);
    Le16RoundTrip(v / 0x1_0000);
  }

  /** Python's `sum(bs)` over a byte string. */
  function Sum(s: seq<byte>): nat
  {
    if s == [] then 0 else Sum(s[..|s| - 1]) + s[|s| - 1]
  }

  lemma {:induction false} SumAppend(a: seq<byte>, b: seq<byte>)
    ensures Sum(a + b) == Sum(a) + Sum(b)
  {
    if b == [] {
      assert a + b == a;
    } else {
      assert (a + b)[..|a + b| - 1] == a + b[..|b| - 1];
      SumAppend(a, b[..|b| - 1]);
    }
  }

  function Zeros(n: nat): (r: seq<byte>)
    ensures |r| == n && forall i :: 0 <= i < n ==> r[i] == 0
  {
    seq(n, _ => 0)
  }

  /** `struct.pack('<Ns', s)`: the string truncated to, or null-padded up to,
      exactly n bytes. */
  function PadTo(s: seq<byte>, n: nat): (r: seq<byte>)
    ensures |r| == n
    ensures |s| <= n ==> r[..|s|] == s && r[|s|..] == Zeros(n - |s|)
    ensures |s| > n ==> r == s[..n]
  {
    if |s| >= n then s[..n] else s + Zeros(n - |s|)
  }

  /** `s.encode()` for the ASCII texts the system encodes (device identity,
      version strings, status messages): one byte per character. */
  function Ascii(s: string): (r: seq<byte>)
    ensures |r| == |s|
  {
    seq(|s|, i requires 0 <= i < |s| => (s[i] as int) % 0x100)
  }
}
