/** FNV-1a 64 and the key material hash built on it (crates/sdkwork-web-core/src/hashing.rs). */
module Fnv {
  import opened Bits

  const FNV_OFFSET_BASIS: nat := 0xcbf29ce484222325
  const FNV_PRIME: nat := 0x00000100000001B3
  /** The inverse of the prime modulo 2^64; it exists because the prime is odd. */
  const FNV_PRIME_INVERSE: nat := 0xce965057aff6957b

  type Word = x: int | 0 <= x < TWO_64

  function WrappingMul(a: Word, b: Word): (r: Word) {
    (a * b) % TWO_64
  }

  lemma Pow2Of64()
    ensures Pow2(64) == TWO_64 && Pow2(8) == 256
  {
    assert Pow2(8) == 256;
    assert Pow2(16) == 65536;
    assert Pow2(24) == 0x100_0000;
    assert Pow2(32) == 0x1_0000_0000;
    assert Pow2(40) == 0x100_0000_0000;
    assert Pow2(48) == 0x1_0000_0000_0000;
    assert Pow2(56) == 0x100_0000_0000_0000;
  }

  /** One round: xor the byte into the low bits, then multiply by the prime modulo 2^64. */
  function Absorb(hash: Word, b: byte): (r: Word) {
    Pow2Of64();
    XorRange(hash, b, 64);
    WrappingMul(BitXor(hash, b), FNV_PRIME)
  }

  function Fold(hash: Word, bytes: seq<byte>): Word
    decreases |bytes|
  {
    if bytes == [] then hash else Fold(Absorb(hash, bytes[0]), bytes[1..])
  }

  function Hash(bytes: seq<byte>): Word {
    Fold(FNV_OFFSET_BASIS, bytes)
  }

  /** The loop of `fnv1a64`. */
  method Fnv1a64(bytes: seq<byte>) returns (hash: Word)
    ensures hash == Hash(bytes)
  {
    hash := FNV_OFFSET_BASIS;
    for i := 0 to |bytes|
      invariant Fold(hash, bytes[i..]) == Hash(bytes)
    {
      Pow2Of64();
      XorRange(hash, bytes[i], 64);
      assert bytes[i..][0] == bytes[i] && bytes[i..][1..] == bytes[i + 1..];
      hash := BitXor(hash, bytes[i]);
      hash := WrappingMul(hash, FNV_PRIME);
    }
  }

  /** Multiplying by the prime can be undone: the multiplication is a bijection on 64-bit words. */
  lemma MulUndo(h: Word)
    ensures WrappingMul(WrappingMul(h, FNV_PRIME), FNV_PRIME_INVERSE) == h
  {
    ModUndo(h, FNV_PRIME, FNV_PRIME_INVERSE, (FNV_PRIME * FNV_PRIME_INVERSE - 1) / TWO_64, TWO_64);
  }

  /** A round determines the hash it started from, and the byte it absorbed. */
  lemma AbsorbInjective(g: Word, h: Word, a: byte, b: byte)
    ensures Absorb(g, a) == Absorb(h, a) <==> g == h
    ensures Absorb(h, a) == Absorb(h, b) <==> a == b
  {
    Pow2Of64();
    XorRange(g, a, 64); XorRange(h, a, 64); XorRange(h, b, 64);
    MulUndo(BitXor(g, a)); MulUndo(BitXor(h, a)); MulUndo(BitXor(h, b));
    XorInvolution(g, a); XorInvolution(h, a);
    XorCommutes(h, a); XorCommutes(h, b);
    XorInvolution(a, h); XorInvolution(b, h);
  }

  lemma {:induction false} FoldInjective(g: Word, h: Word, s: seq<byte>)
    ensures Fold(g, s) == Fold(h, s) <==> g == h
    decreases |s|
  {
    if s != [] {
      AbsorbInjective(g, h, s[0], s[0]);
      FoldInjective(Absorb(g, s[0]), Absorb(h, s[0]), s[1..]);
    }
  }

  lemma {:induction false} FoldConcat(h: Word, x: seq<byte>, s: seq<byte>)
    ensures Fold(h, x + s) == Fold(Fold(h, x), s)
    decreases |x|
  {
    if x == [] {
      assert x + s == s;
    } else {
      assert (x + s)[1..] == x[1..] + s;
      FoldConcat(Absorb(h, x[0]), x[1..], s);
    }
  }

  /** Appending one suffix neither merges nor separates two hashes. */
  lemma HashSeparation(x: seq<byte>, y: seq<byte>, s: seq<byte>)
    ensures Hash(x + s) == Hash(y + s) <==> Hash(x) == Hash(y)
  {
    FoldConcat(FNV_OFFSET_BASIS, x, s);
    FoldConcat(FNV_OFFSET_BASIS, y, s);
    FoldInjective(Hash(x), Hash(y), s);
  }

  // -- hexadecimal rendering ----------------------------------------------------------------

  function HexDigit(d: nat): (c: char)
    requires d < 16
    ensures HexValue(c) == d
  {
    if d < 10 then ('0' as int + d) as char else ('a' as int + d - 10) as char
  }

  function HexValue(c: char): int {
    if '0' <= c <= '9' then c as int - '0' as int else c as int - 'a' as int + 10
  }

  /** `{:0width$x}` for a value of at most `width` hexadecimal digits. */
  function Hex(v: nat, width: nat): (s: string)
    ensures |s| == width
  {
    if width == 0 then "" else Hex(v / 16, width - 1) + [HexDigit(v % 16)]
  }

  /** Reading the digits back. */
  function Unhex(s: string): int {
    if s == "" then 0 else Unhex(s[..|s| - 1]) * 16 + HexValue(s[|s| - 1])
  }

  function HashKeyMaterial(material: seq<byte>): string {
    Hex(Hash(material), 16)
  }

  lemma {:induction false} HexRoundTrip(v: nat, width: nat)
    requires v < Pow16(width)
    ensures Unhex(Hex(v, width)) == v
    decreases width
  {
    if width > 0 {
      HexRoundTrip(v / 16, width - 1);
      assert Hex(v, width)[..width - 1] == Hex(v / 16, width - 1);
    }
  }

  function Pow16(n: nat): nat {
    if n == 0 then 1 else 16 * Pow16(n - 1)
  }

  /** Rendered keys are equal exactly when the hashes are. */
  lemma KeyIsHash(x: seq<byte>, y: seq<byte>)
    ensures HashKeyMaterial(x) == HashKeyMaterial(y) <==> Hash(x) == Hash(y)
  {
    assert Pow16(8) == 0x1_0000_0000;
    assert Pow16(16) == TWO_64;
    HexRoundTrip(Hash(x), 16);
    HexRoundTrip(Hash(y), 16);
  }

  /** Equal-length materials that differ in one byte never share a key. */
  lemma OneByteSeparates(p: seq<byte>, a: byte, b: byte, s: seq<byte>)
    ensures HashKeyMaterial(p + [a] + s) == HashKeyMaterial(p + [b] + s) <==> a == b
  {
    KeyIsHash(p + [a] + s, p + [b] + s);
    HashSeparation(p + [a], p + [b], s);
    FoldConcat(FNV_OFFSET_BASIS, p, [a]);
    FoldConcat(FNV_OFFSET_BASIS, p, [b]);
    assert Fold(Hash(p), [a]) == Absorb(Hash(p), a);
    assert Fold(Hash(p), [b]) == Absorb(Hash(p), b);
    AbsorbInjective(Hash(p), Hash(p), a, b);
  }

  /**
   * What FNV-1a is: the offset basis for no bytes, and for one more byte the byte is xored in first and the
   * product with the prime is taken modulo 2^64 after that.
   */
  lemma HashSnoc(x: seq<byte>, b: byte)
    ensures Hash([]) == 14695981039346656037
    ensures Hash(x + [b]) == BitXor(Hash(x), b) * 1099511628211 % 18446744073709551616
  {
    FoldConcat(FNV_OFFSET_BASIS, x, [b]);
    assert Fold(Hash(x), [b]) == Absorb(Hash(x), b);
  }
}
