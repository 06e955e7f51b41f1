/** The key hash and the probe positions, tied to numbers of their own: what FNV-1a guarantees of single bytes. */
module Hashing {
  import opened Bytes
  import opened Bits
  import opened Bloom

  // ----- the low byte -----

  lemma XorSelf(a: bits, b: bits)
    requires |a| == |b|
    ensures Xor(Xor(a, b), b) == a
  {
  }

  /** Folding the same byte in twice changes nothing. */
  lemma XorTwice(h: nat, b: byte)
    requires h < U64
    ensures XorByte(XorByte(h, b), b) == h
  {
    Pow2Widths();
    BitsRoundTrip(h, 64);
    BitsUnique(Xor(ToBits(h, 64), ToBits(b, 64)));
    XorSelf(ToBits(h, 64), ToBits(b, 64));
    hide ToBits, FromBits, Xor;
  }

  lemma {:induction false} ZeroBits(w: nat)
    ensures ToBits(0, w) == Zeros(w)
  {
    if w != 0 {
      ZeroBits(w - 1);
      assert [false] + Zeros(w - 1) == Zeros(w);
    }
  }

  lemma XorZeros(a: bits)
    ensures Xor(a, Zeros(|a|)) == a
  {
  }

  /** A zero byte folded in changes nothing. */
  lemma XorZero(h: nat)
    requires h < U64
    ensures XorByte(h, 0) == h
  {
    Pow2Widths();
    BitsRoundTrip(h, 64);
    ZeroBits(64);
    XorZeros(ToBits(h, 64));
    hide ToBits, FromBits, Xor, Zeros;
  }

  /** Different bytes lead to different values, and so do different values before the same byte. */
  lemma XorInjective(h: nat, b: byte, h': nat, b': byte)
    requires h < U64 && h' < U64 && XorByte(h, b) == XorByte(h', b')
    ensures b == b' ==> h == h'
    ensures h == h' ==> b == b'
  {
    XorTwice(h, b);
    XorTwice(h', b');
    if h == h' { SameFold(h, b, b'); }
  }

  lemma SameFold(h: nat, b: byte, b': byte)
    requires h < U64 && XorByte(h, b) == XorByte(h, b')
    ensures b == b'
  {
    var x, y, z := ToBits(h, 64), ToBits(b, 64), ToBits(b', 64);
    BitsUnique(Xor(x, y));
    BitsUnique(Xor(x, z));
    Pow2Widths();
    BitsRoundTrip(b, 64);
    BitsRoundTrip(b', 64);
    hide ToBits, FromBits;
    assert Xor(x, y) == Xor(x, z);
    forall i | 0 <= i < 64 ensures y[i] == z[i] { assert Xor(x, y)[i] == Xor(x, z)[i]; }
    assert y == z;
  }

  // ----- multiplying by an odd number -----

  /** An odd factor cancels out of a multiple of a power of two. */
  lemma {:induction false} OddCancels(k: nat, d: int, p: nat, q: int) returns (e: int)
    requires p % 2 == 1 && d * p == Pow2(k) * q
    ensures d == Pow2(k) * e
    decreases k
  {
    if k == 0 {
      e := d;
    } else {
      var h := Pow2(k - 1);
      MulAssoc(h, q);
      EvenFactor(d, p, h * q);
      HalveProduct(d / 2, p, h * q);
      e := OddCancels(k - 1, d / 2, p, q);
      MulAssoc(h, e);
    }
  }

  lemma MulAssoc(h: nat, q: int)
    ensures 2 * h * q == 2 * (h * q)
  {
  }

  lemma EvenFactor(d: int, p: nat, m: int)
    requires p % 2 == 1 && d * p == 2 * m
    ensures d % 2 == 0
  {
    OddProduct(d / 2, p / 2);
  }

  lemma OddProduct(a: int, b: int)
    ensures (2 * a + 1) * (2 * b + 1) == 2 * (2 * (a * b) + a + b) + 1
  {
  }

  lemma HalveProduct(e: int, p: nat, m: int)
    requires 2 * e * p == 2 * m
    ensures e * p == m
  {
  }

  /** Multiplication by the prime modulo 2^64 loses nothing. */
  lemma PrimeInjective(x: nat, y: nat)
    requires x < U64 && y < U64 && x * FNV_PRIME % U64 == y * FNV_PRIME % U64
    ensures x == y
  {
    var q := SameResidue(x * FNV_PRIME, y * FNV_PRIME, U64);
    Pow2Widths();
    assert (y - x) * FNV_PRIME == U64 * q;
    var e := OddCancels(64, y - x, FNV_PRIME, q);
  }

  // ----- whole keys -----

  lemma HashSnoc(s: bytes, b: byte)
    ensures Hash(s + [b]) == XorByte(Hash(s), b) * FNV_PRIME % U64
  {
    assert (s + [b])[..|s|] == s;
  }

  /** The same bytes appended never make different hashes equal. */
  lemma {:induction false} SuffixInjective(a: bytes, b: bytes, s: bytes)
    requires Hash(a + s) == Hash(b + s)
    ensures Hash(a) == Hash(b)
  {
    hide Hash, XorByte;
    if s == [] {
      assert a + s == a && b + s == b;
    } else {
      var n := |s| - 1;
      assert a + s == a + s[..n] + [s[n]] && b + s == b + s[..n] + [s[n]];
      HashSnoc(a + s[..n], s[n]);
      HashSnoc(b + s[..n], s[n]);
      PrimeInjective(XorByte(Hash(a + s[..n]), s[n]), XorByte(Hash(b + s[..n]), s[n]));
      XorInjective(Hash(a + s[..n]), s[n], Hash(b + s[..n]), s[n]);
      SuffixInjective(a, b, s[..n]);
    }
  }

  /** Keys that differ in exactly one byte never share a hash. */
  lemma OneByteDiffers(head: bytes, x: byte, y: byte, tail: bytes)
    requires x != y
    ensures Hash(head + [x] + tail) != Hash(head + [y] + tail)
  {
    hide Hash, XorByte;
    if Hash(head + [x] + tail) == Hash(head + [y] + tail) {
      SuffixInjective(head + [x], head + [y], tail);
      HashSnoc(head, x);
      HashSnoc(head, y);
      PrimeInjective(XorByte(Hash(head), x), XorByte(Hash(head), y));
      XorInjective(Hash(head), x, Hash(head), y);
    }
  }

  /** Of nothing the hash is the offset basis; a zero byte multiplies by the prime. */
  lemma FnvConstants(key: bytes)
    ensures Hash([]) == 0xcbf2_9ce4_8422_2325
    ensures Hash(key + [0]) == Hash(key) * 0x100_0000_01b3 % 0x1_0000_0000_0000_0000
  {
    HashSnoc(key, 0);
    XorZero(Hash(key));
  }

  // ----- probes and size -----

  /** The seven probes are the low half of the hash plus multiples of the high half made odd. */
  lemma ProbesAre(key: bytes, m: nat)
    requires 0 < m
    ensures |Positions(key, 7, m)| == 7
    ensures forall i :: 0 <= i < 7 ==>
      Positions(key, 7, m)[i] == (Hash(key) % 0x1_0000_0000 + i * (2 * (Hash(key) / 0x2_0000_0000) + 1)) % m
  {
    var h := Hash(key);
    StepIs(h);
    hide Step, Probe;
    forall i | 0 <= i < 7 ensures Positions(key, 7, m)[i] == (h % 0x1_0000_0000 + i * (2 * (h / 0x2_0000_0000) + 1)) % m {
      ProbeNeverWraps(h, i, m);
    }
  }

  lemma StepIs(h: nat)
    ensures Step(h) == 2 * (h / 0x2_0000_0000) + 1 && Base(h) == h % 0x1_0000_0000
  {
  }

  /** The field is the least number of bytes with ten bits a key and at least sixty-four. */
  lemma SizeIsLeast(n: nat)
    ensures 8 * Size(n) >= 10 * n && 8 * Size(n) >= 64
    ensures 8 * (Size(n) - 1) < 10 * n || 8 * (Size(n) - 1) < 64
    ensures PROBES == 7
  {
  }

  /** Bit `k` of a byte, counted from the low end. */
  lemma {:induction false} BitValue(n: nat, w: nat, k: nat)
    requires k < w
    ensures ToBits(n, w)[k] == (n / Pow2(k) % 2 == 1)
    decreases k
  {
    if k == 0 {
      assert Pow2(0) == 1;
    } else {
      BitValue(n / 2, w - 1, k - 1);
      HalfParts(n, Pow2(k - 1));
    }
  }

  /** A probe `p` asks for bit `p % 8`, counted from the low end, of byte `p / 8`. */
  lemma ProbeBit(field: bytes, p: nat)
    requires p < 8 * |field|
    ensures Has(field, p) <==> field[p / 8] / Pow2(p % 8) % 2 == 1
  {
    BitValue(field[p / 8], 8, p % 8);
  }
}
