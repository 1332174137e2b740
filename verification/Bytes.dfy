// Fixed-width unsigned numbers in byte buffers: what DataView and Uint8Array do.
module Bytes {

  type byte = x: int | 0 <= x < 256

  // DataView.setUint16 and setUint32 keep the low bits of the number they are given.
  function Low16(v: int): nat { v % 0x1_0000 }

  function Low32(v: int): nat { v % 0x1_0000_0000 }

  // Math.round: the nearest integer, halves going up.
  function Round(x: real): int { (x + 0.5).Floor }

  function LE16(v: int): (r: seq<byte>)
    ensures |r| == 2
  {
    var n := Low16(v);
    [n % 256, n / 256]
  }

  function LE32(v: int): (r: seq<byte>)
    ensures |r| == 4
  {
    var n := Low32(v);
    [n % 256, n / 256 % 256, n / 0x1_0000 % 256, n / 0x100_0000]
  }

  function BE32(v: int): (r: seq<byte>)
    ensures |r| == 4
  {
    var n := Low32(v);
    [n / 0x100_0000, n / 0x1_0000 % 256, n / 256 % 256, n % 256]
  }

  function ReadLE16(b: seq<byte>): nat
    requires |b| == 2
  {
    b[0] as nat + 256 * (b[1] as nat)
  }

  function ReadLE32(b: seq<byte>): nat
    requires |b| == 4
  {
    b[0] as nat + 256 * (b[1] as nat) + 0x1_0000 * (b[2] as nat) + 0x100_0000 * (b[3] as nat)
  }

  function ReadBE32(b: seq<byte>): nat
    requires |b| == 4
  {
    0x100_0000 * (b[0] as nat) + 0x1_0000 * (b[1] as nat) + 256 * (b[2] as nat) + b[3] as nat
  }

  lemma {:induction false} FourDigits(n: nat)
    ensures n == n % 256 + 256 * (n / 256 % 256) + 0x1_0000 * (n / 0x1_0000 % 256) + 0x100_0000 * (n / 0x100_0000)
  {
    assert n / 0x1_0000 == n / 256 / 256;
    assert n / 0x100_0000 == n / 256 / 256 / 256;
  }

  /** A reader gets back the low bits of what was written, in either byte order. */
  lemma ReadBackLE16(v: int)
    ensures ReadLE16(LE16(v)) == Low16(v)
  {
  }

  lemma ReadBackLE32(v: int)
    ensures ReadLE32(LE32(v)) == Low32(v)
  {
    FourDigits(Low32(v));
  }

  lemma ReadBackBE32(v: int)
    ensures ReadBE32(BE32(v)) == Low32(v)
  {
    FourDigits(Low32(v));
  }

  lemma Low32Fits(v: int)
    ensures 0 <= v < 0x1_0000_0000 <==> Low32(v) == v
  {
  }

  lemma Low32AtMost(v: nat)
    ensures Low32(v) <= v
  {
  }

  // Uint8Array.set(src, offset), within bounds.
  method Set(a: array<byte>, src: seq<byte>, offset: nat)
    requires offset + |src| <= a.Length
    modifies a
    ensures a[..] == old(a[..offset]) + src + old(a[offset + |src|..])
  {
    forall i | 0 <= i < |src| {
      a[offset + i] := src[i];
    }
  }
}
