/** Machine words as bit sequences, least significant bit first. */
module Bits {
  import opened Bytes

  type bits = seq<bool>

  function Pow2(w: nat): (p: nat)
    ensures 0 < p
  {
    if w == 0 then 1 else 2 * Pow2(w - 1)
  }

  function ToBits(n: nat, w: nat): (b: bits)
    ensures |b| == w
  {
    if w == 0 then [] else [n % 2 == 1] + ToBits(n / 2, w - 1)
  }

  function FromBits(b: bits): (n: nat)
    ensures n < Pow2(|b|)
  {
    if b == [] then 0 else (if b[0] then 1 else 0) + 2 * FromBits(b[1..])
  }

  function Xor(a: bits, b: bits): (x: bits)
    requires |a| == |b|
    ensures |x| == |a|
  {
    seq(|a|, i requires 0 <= i < |a| => a[i] != b[i])
  }

  function Not(a: bits): (x: bits)
    ensures |x| == |a|
  {
    seq(|a|, i requires 0 <= i < |a| => !a[i])
  }

  function Zeros(n: nat): (z: bits)
    ensures |z| == n && forall i :: 0 <= i < n ==> !z[i]
  {
    seq(n, _ => false)
  }

  lemma {:induction false} BitsRoundTrip(n: nat, w: nat)
    requires n < Pow2(w)
    ensures FromBits(ToBits(n, w)) == n
  {
    if w != 0 { BitsRoundTrip(n / 2, w - 1); }
  }

  lemma {:induction false} BitsUnique(b: bits)
    ensures ToBits(FromBits(b), |b|) == b
  {
    if b != [] {
      BitsUnique(b[1..]);
      assert b == [b[0]] + b[1..];
    }
  }

  lemma {:induction false} TopBit(n: nat, w: nat)
    requires 0 < w && Pow2(w - 1) <= n < Pow2(w)
    ensures ToBits(n, w)[w - 1]
  {
    if w == 1 {
      assert n == 1;
    } else {
      TopBit(n / 2, w - 1);
    }
  }

  lemma Pow2Widths()
    ensures Pow2(8) == 256 && Pow2(31) == 0x8000_0000 && Pow2(32) == U32 && Pow2(64) == U64
  {
    assert Pow2(4) == 16;
    assert Pow2(8) == 256;
    Pow2Adds(8, 8); Pow2Adds(16, 8); Pow2Adds(24, 7); Pow2Adds(16, 16); Pow2Adds(32, 32);
    assert Pow2(7) == 128;
  }

  lemma {:induction false} Pow2Adds(m: nat, n: nat)
    ensures Pow2(m + n) == Pow2(m) * Pow2(n)
  {
    if n != 0 { Pow2Adds(m, n - 1); }
  }

  // ----- single bits of a byte -----

  /** `b & (1 << k) != 0`. */
  function TestBit(b: byte, k: nat): bool
    requires k < 8
  {
    ToBits(b, 8)[k]
  }

  /** `b | (1 << k)`. */
  function SetBit(b: byte, k: nat): byte
    requires k < 8
  {
    Pow2Widths();
    FromBits(ToBits(b, 8)[k := true])
  }

  lemma SetThenTest(b: byte, k: nat, j: nat)
    requires k < 8 && j < 8
    ensures TestBit(SetBit(b, k), j) == (j == k || TestBit(b, j))
  {
    BitsUnique(ToBits(b, 8)[k := true]);
  }

  // ----- division -----

  lemma DivModUnique(n: nat, d: nat, q: nat, r: nat)
    requires 0 < d && r < d && n == d * q + r
    ensures n / d == q && n % d == r
  {
    Quotient(n, d);
    if q < n / d { AtLeastOnce(d, n / d - q); } else if q > n / d { AtLeastOnce(d, q - n / d); }
  }

  lemma Quotient(n: nat, d: nat)
    requires 0 < d
    ensures n == d * (n / d) + n % d
  {
  }

  lemma AtLeastOnce(d: nat, k: nat)
    requires 0 < k
    ensures d * k >= d
  {
  }

  /** Halving before dividing. */
  lemma HalfParts(n: nat, p: nat)
    requires 0 < p
    ensures n % (2 * p) % 2 == n % 2 && n % (2 * p) / 2 == n / 2 % p && n / 2 / p == n / (2 * p)
  {
    var q, r := n / 2 / p, n / 2 % p;
    assert n / 2 == q * p + r;
    assert n == (2 * p) * q + (2 * r + n % 2);
    DivModUnique(n, 2 * p, q, 2 * r + n % 2);
  }
}
