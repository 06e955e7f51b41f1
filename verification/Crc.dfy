/** CRC-32 of section 3.2.9 of IEEE 802.3, reflected form, and the bursts it must detect. */
module Crc {
  import opened Bytes
  import opened Bits

  /** The 32-bit register, lowest bit first. */
  type register = r: bits | |r| == 32 witness Zeros(32)

  const POLYNOMIAL: register := WordBits(0xEDB8_8320, 32)
  const INITIAL: register := WordBits(0xFFFF_FFFF, 32)

  function Low(c: bv32): bool {
    c & 1 == 1
  }

  function Half(c: bv32): bv32 {
    c >> 1
  }

  /** The low `w` bits of a machine word. */
  function WordBits(c: bv32, w: nat): (b: bits)
    ensures |b| == w
  {
    if w == 0 then [] else [Low(c)] + WordBits(Half(c), w - 1)
  }

  /** A short run of bits as a register, zero extended. */
  function Extend(b: bits): register
    requires |b| <= 32
  {
    b + Zeros(32 - |b|)
  }

  /** One shift: the low bit falls out and, when it was set, the polynomial is folded in. */
  function Shift(c: register, p: register): register {
    var shifted: register := c[1..] + [false];
    if c[0] then Xor(shifted, p) else shifted
  }

  function ShiftN(c: register, n: nat, p: register): register {
    if n == 0 then c else Shift(ShiftN(c, n - 1, p), p)
  }

  /** The register after `data`, starting from `c`, for the polynomial `p`. */
  function Register(c: register, data: bytes, p: register): register {
    if data == [] then c
    else ShiftN(Xor(Register(c, data[..|data| - 1], p), Extend(ToBits(data[|data| - 1], 8))), 8, p)
  }

  function Checksum(data: bytes): (crc: nat)
    ensures crc < U32
  {
    Pow2Widths();
    FromBits(Not(Register(INITIAL, data, POLYNOMIAL)))
  }

  /** The checksum as two nested loops compute it. */
  method Crc32(data: bytes) returns (crc: nat)
    ensures crc == Checksum(data)
  {
    var c := INITIAL;
    for i := 0 to |data|
      invariant c == Register(INITIAL, data[..i], POLYNOMIAL)
    {
      assert data[..i + 1][..i] == data[..i];
      c := Xor(c, Extend(ToBits(data[i], 8)));
      ghost var fed := c;
      for n := 0 to 8
        invariant c == ShiftN(fed, n, POLYNOMIAL)
      {
        var lsb := c[0];
        c := c[1..] + [false];
        if lsb {
          c := Xor(c, POLYNOMIAL);
        }
      }
    }
    assert data[..|data|] == data;
    crc := FromBits(Not(c));
  }

  // ----- linearity and injectivity of the shift -----

  lemma ShiftLinear(a: register, b: register, p: register)
    ensures Shift(Xor(a, b), p) == Xor(Shift(a, p), Shift(b, p))
  {
  }

  /** Nothing is lost by a shift: the polynomial's top bit records the bit that fell out. */
  lemma ShiftInjective(a: register, b: register, p: register)
    requires p[31] && Shift(a, p) == Shift(b, p)
    ensures a == b
  {
    assert Shift(a, p)[31] == a[0] && Shift(b, p)[31] == b[0];
    forall i | 0 < i < 32 ensures a[i] == b[i] {
      assert Shift(a, p)[i - 1] == (a[i] != (a[0] && p[i - 1]));
      assert Shift(b, p)[i - 1] == (b[i] != (b[0] && p[i - 1]));
    }
  }

  function Halves(c: bv32, n: nat): bv32 {
    if n == 0 then c else Halves(Half(c), n - 1)
  }

  lemma {:induction false} WordAt(c: bv32, w: nat, i: nat)
    requires i < w
    ensures WordBits(c, w)[i] == Low(Halves(c, i))
    decreases i
  {
    hide Low, Half;
    if i != 0 { WordAt(Half(c), w - 1, i - 1); }
  }

  lemma {:induction false} HalvesAdd(c: bv32, m: nat, n: nat)
    ensures Halves(c, m + n) == Halves(Halves(c, m), n)
    decreases m
  {
    hide Half;
    if m != 0 { HalvesAdd(Half(c), m - 1, n); }
  }

  lemma HalvesFour(c: bv32)
    ensures Halves(c, 4) == Half(Half(Half(Half(c)))) && Halves(c, 3) == Half(Half(Half(c)))
  {
    hide Half;
    HalvesAdd(c, 1, 3);
    HalvesAdd(Half(c), 1, 2);
    HalvesAdd(Half(Half(c)), 1, 1);
    HalvesAdd(Half(Half(Half(c))), 1, 0);
  }

  lemma HalvesOctet(c: bv32)
    ensures Halves(c, 8) == ShiftedByOctet(c) && Halves(c, 7) == Half(Half(Half(Half(Half(Half(Half(c)))))))
  {
    HalvesAdd(c, 4, 4);
    HalvesAdd(c, 4, 3);
    HalvesFour(c);
    HalvesFour(Half(Half(Half(Half(c)))));
    hide Half, Halves;
  }

  function ShiftedByOctet(c: bv32): bv32 {
    Half(Half(Half(Half(Half(Half(Half(Half(c))))))))
  }

  lemma OctetShift(c: bv32)
    ensures ShiftedByOctet(c) == c >> 8
    ensures Half(Half(Half(Half(Half(Half(Half(c))))))) == c >> 7
  {
  }

  /** A word's top bit. */
  lemma WordTop(c: bv32)
    ensures WordBits(c, 32)[31] == Low((((c >> 8) >> 8) >> 8) >> 7)
  {
    WordAt(c, 32, 31);
    hide Low, Half, Halves, WordBits, ShiftedByOctet;
    HalvesAdd(c, 8, 23);
    HalvesOctet(c);
    OctetShift(c);
    var a := c >> 8;
    HalvesAdd(a, 8, 15);
    HalvesOctet(a);
    OctetShift(a);
    var b := a >> 8;
    HalvesAdd(b, 8, 7);
    HalvesOctet(b);
    OctetShift(b);
    var d := b >> 8;
    HalvesOctet(d);
    OctetShift(d);
  }

  lemma PolynomialTopBit()
    ensures POLYNOMIAL[31]
  {
    WordTop(0xEDB8_8320);
    hide WordBits;
  }

  lemma {:induction false} ShiftNLinear(a: register, b: register, n: nat, p: register)
    ensures ShiftN(Xor(a, b), n, p) == Xor(ShiftN(a, n, p), ShiftN(b, n, p))
  {
    if n != 0 {
      ShiftNLinear(a, b, n - 1, p);
      ShiftLinear(ShiftN(a, n - 1, p), ShiftN(b, n - 1, p), p);
    }
  }

  lemma {:induction false} ShiftNInjective(a: register, b: register, n: nat, p: register)
    requires p[31] && ShiftN(a, n, p) == ShiftN(b, n, p)
    ensures a == b
  {
    if n != 0 {
      ShiftInjective(ShiftN(a, n - 1, p), ShiftN(b, n - 1, p), p);
      ShiftNInjective(a, b, n - 1, p);
    }
  }

  lemma {:induction false} ShiftNAdds(c: register, m: nat, n: nat, p: register)
    ensures ShiftN(ShiftN(c, m, p), n, p) == ShiftN(c, m + n, p)
  {
    if n != 0 { ShiftNAdds(c, m, n - 1, p); }
  }

  /** Shifting out zeros is a plain right shift. */
  lemma {:induction false} ShiftZeros(c: register, n: nat, p: register)
    requires n <= 32 && forall i :: 0 <= i < n ==> !c[i]
    ensures ShiftN(c, n, p) == c[n..] + Zeros(n)
  {
    if n != 0 { ShiftZeros(c, n - 1, p); }
  }

  lemma XorCancel(u: register, v: register, x: register)
    requires Xor(u, x) == Xor(v, x)
    ensures u == v
  {
    forall i | 0 <= i < 32 ensures u[i] == v[i] {
      assert Xor(u, x)[i] == Xor(v, x)[i];
    }
  }

  // ----- bursts -----

  lemma {:induction false} RegisterConcat(c: register, a: bytes, b: bytes, p: register)
    ensures Register(c, a + b, p) == Register(Register(c, a, p), b, p)
  {
    if b == [] {
      assert a + b == a;
    } else {
      var n := |b| - 1;
      assert (a + b)[..|a + b| - 1] == a + b[..n];
      RegisterConcat(c, a, b[..n], p);
    }
  }

  lemma {:induction false} RegisterInjective(c: register, d: register, data: bytes, p: register)
    requires p[31] && Register(c, data, p) == Register(d, data, p)
    ensures c == d
  {
    if data != [] {
      var n := |data| - 1;
      var u, v, x := Register(c, data[..n], p), Register(d, data[..n], p), Extend(ToBits(data[n], 8));
      ShiftNInjective(Xor(u, x), Xor(v, x), 8, p);
      XorCancel(u, v, x);
      RegisterInjective(c, d, data[..n], p);
    }
  }

  /** The bits of a window of bytes, first byte lowest. */
  function Window(w: bytes): (b: bits)
    ensures |b| == 8 * |w|
  {
    if w == [] then [] else ToBits(w[0], 8) + Window(w[1..])
  }

  lemma {:induction false} WindowInjective(v: bytes, w: bytes)
    requires |v| == |w| && Window(v) == Window(w)
    ensures v == w
  {
    if v != [] {
      hide *;
      WindowHead(v);
      WindowHead(w);
      Pow2Widths();
      BitsRoundTrip(v[0], 8);
      BitsRoundTrip(w[0], 8);
      WindowInjective(v[1..], w[1..]);
      assert v == [v[0]] + v[1..] && w == [w[0]] + w[1..];
    }
  }

  lemma WindowHead(v: bytes)
    requires v != []
    ensures 8 <= |Window(v)| && Window(v)[..8] == ToBits(v[0], 8) && Window(v)[8..] == Window(v[1..])
  {
    hide ToBits;
  }

  /** The bits of `w` moved up by one byte. */
  function Lift(w: bytes): register
    requires |w| <= 3
  {
    Zeros(8) + Window(w) + Zeros(24 - |Window(w)|)
  }

  lemma LiftWindow(c: register, w: bytes, p: register)
    requires 0 < |w| <= 4
    ensures Xor(Xor(c, Extend(ToBits(w[0], 8))), Lift(w[1..])) == Xor(c, Extend(Window(w)))
    ensures ShiftN(Lift(w[1..]), 8, p) == Extend(Window(w[1..]))
  {
    ShiftZeros(Lift(w[1..]), 8, p);
    assert Lift(w[1..])[8..] + Zeros(8) == Extend(Window(w[1..]));
  }

  lemma RegisterOne(c: register, b: byte, p: register)
    ensures Register(c, [b], p) == ShiftN(Xor(c, Extend(ToBits(b, 8))), 8, p)
  {
    assert [b][..0] == [];
    assert Register(c, [], p) == c;
  }

  /** Feeding a window of up to four bytes is one xor with the whole window followed by that many shifts. */
  lemma {:induction false} RegisterWindow(c: register, w: bytes, p: register)
    requires |w| <= 4
    ensures Register(c, w, p) == ShiftN(Xor(c, Extend(Window(w))), 8 * |w|, p)
    decreases |w|
  {
    if w == [] {
      assert Xor(c, Zeros(32)) == c;
    } else {
      var rest := w[1..];
      var first := Xor(c, Extend(ToBits(w[0], 8)));
      assert w == [w[0]] + rest;
      RegisterConcat(c, [w[0]], rest, p);
      RegisterOne(c, w[0], p);
      RegisterWindow(ShiftN(first, 8, p), rest, p);
      LiftWindow(c, w, p);
      ShiftNLinear(first, Lift(rest), 8, p);
      ShiftNAdds(Xor(c, Extend(Window(w))), 8, 8 * |rest|, p);
    }
  }

  lemma SameWindow(c: register, v: bytes, w: bytes, p: register)
    requires p[31] && |v| == |w| <= 4 && Register(c, v, p) == Register(c, w, p)
    ensures v == w
  {
    RegisterWindow(c, v, p);
    RegisterWindow(c, w, p);
    var x, y := Extend(Window(v)), Extend(Window(w));
    ShiftNInjective(Xor(c, x), Xor(c, y), 8 * |v|, p);
    assert Xor(c, x) == Xor(x, c) && Xor(c, y) == Xor(y, c);
    XorCancel(x, y, c);
    assert x[..8 * |v|] == Window(v) && y[..8 * |v|] == Window(w);
    WindowInjective(v, w);
  }

  lemma RegisterSplit(c: register, head: bytes, v: bytes, w: bytes, tail: bytes, p: register)
    requires p[31] && |v| == |w| <= 4
    requires Register(c, head + (v + tail), p) == Register(c, head + (w + tail), p)
    ensures v == w
  {
    var d := Register(c, head, p);
    RegisterConcat(c, head, v + tail, p);
    RegisterConcat(c, head, w + tail, p);
    RegisterConcat(d, v, tail, p);
    RegisterConcat(d, w, tail, p);
    RegisterInjective(Register(d, v, p), Register(d, w, p), tail, p);
    SameWindow(d, v, w, p);
  }

  lemma SplitAt(a: bytes, start: nat, end: nat)
    requires start <= end <= |a|
    ensures a == a[..start] + (a[start..end] + a[end..])
  {
  }

  lemma BurstMovesRegister(c: register, a: bytes, b: bytes, start: nat, p: register)
    requires p[31] && |a| == |b| && start <= |a| && Register(c, a, p) == Register(c, b, p)
    requires forall i :: 0 <= i < |a| && !(start <= i < start + 4) ==> a[i] == b[i]
    ensures a == b
  {
    var end := if start + 4 <= |a| then start + 4 else |a|;
    SplitAt(a, start, end);
    SplitAt(b, start, end);
    assert a[..start] == b[..start] && a[end..] == b[end..];
    RegisterSplit(c, a[..start], a[start..end], b[start..end], a[end..], p);
  }

  lemma ComplementInjective(u: register, v: register)
    requires FromBits(Not(u)) == FromBits(Not(v))
    ensures u == v
  {
    BitsUnique(Not(u));
    BitsUnique(Not(v));
    assert Not(Not(u)) == u && Not(Not(v)) == v;
  }

  /** Strings that agree outside one window of four consecutive bytes, and differ, have different checksums. */
  lemma BurstDetected(a: bytes, b: bytes, start: nat)
    requires |a| == |b| && start <= |a| && a != b
    requires forall i :: 0 <= i < |a| && !(start <= i < start + 4) ==> a[i] == b[i]
    ensures Checksum(a) != Checksum(b)
  {
    if Checksum(a) == Checksum(b) {
      PolynomialTopBit();
      ComplementInjective(Register(INITIAL, a, POLYNOMIAL), Register(INITIAL, b, POLYNOMIAL));
      BurstMovesRegister(INITIAL, a, b, start, POLYNOMIAL);
    }
  }
}
