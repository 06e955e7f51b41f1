/** The checksum pinned to the standard: the residue, which only its polynomial and initial value have. */
module CrcResidue {
  import opened Bytes
  import opened Bits
  import opened Crc

  // ----- shifting machine words -----

  function Fold(a: bv32, b: bv32): bv32 {
    a ^ b
  }

  function Step(c: bv32, p: bv32): bv32 {
    if Low(c) then Fold(Half(c), p) else Half(c)
  }

  lemma FoldHead(a: bv32, b: bv32)
    ensures Low(Fold(a, b)) == (Low(a) != Low(b)) && Half(Fold(a, b)) == Fold(Half(a), Half(b))
  {
  }

  lemma XorHead(a: bool, s: bits, b: bool, t: bits)
    requires |s| == |t|
    ensures Xor([a] + s, [b] + t) == [a != b] + Xor(s, t)
  {
  }

  lemma WordHead(c: bv32, w: nat)
    ensures WordBits(c, w + 1) == [Low(c)] + WordBits(Half(c), w)
  {
    hide Low, Half;
  }

  lemma {:induction false} XorWords(a: bv32, b: bv32, w: nat)
    ensures Xor(WordBits(a, w), WordBits(b, w)) == WordBits(Fold(a, b), w)
    decreases w
  {
    hide Low, Half, Fold;
    if w == 0 {
      assert Xor([], []) == [];
    } else {
      hide WordBits, Xor;
      FoldHead(a, b);
      XorWords(Half(a), Half(b), w - 1);
      WordHead(a, w - 1);
      WordHead(b, w - 1);
      WordHead(Fold(a, b), w - 1);
      XorHead(Low(a), WordBits(Half(a), w - 1), Low(b), WordBits(Half(b), w - 1));
    }
  }

  lemma {:induction false} WordPrefix(c: bv32, w: nat)
    ensures WordBits(c, w + 1)[..w] == WordBits(c, w)
    decreases w
  {
    hide Low, Half;
    if w != 0 {
      WordPrefix(Half(c), w - 1);
      WordHead(c, w);
      WordHead(c, w - 1);
    }
  }

  lemma HalfTop(c: bv32)
    ensures !Low((((Half(c) >> 8) >> 8) >> 8) >> 7)
  {
  }

  lemma HalfWord(c: bv32)
    ensures WordBits(c, 32)[1..] + [false] == WordBits(Half(c), 32)
  {
    hide Low, Half, WordBits;
    WordHead(c, 31);
    WordPrefix(Half(c), 31);
    WordTop(Half(c));
    HalfTop(c);
    var h := WordBits(Half(c), 32);
    assert h == h[..31] + [h[31]];
  }

  lemma ShiftWord(c: bv32, p: bv32)
    ensures Shift(WordBits(c, 32), WordBits(p, 32)) == WordBits(Step(c, p), 32)
  {
    hide Low, Half, Fold, WordBits, Xor;
    WordHead(c, 31);
    HalfWord(c);
    XorWords(Half(c), p, 32);
  }

  function Steps(c: bv32, n: nat, p: bv32): bv32 {
    if n == 0 then c else Step(Steps(c, n - 1, p), p)
  }

  lemma {:induction false} ShiftNWord(c: bv32, n: nat, p: bv32)
    ensures ShiftN(WordBits(c, 32), n, WordBits(p, 32)) == WordBits(Steps(c, n, p), 32)
  {
    hide WordBits, Shift, Step;
    if n != 0 {
      ShiftNWord(c, n - 1, p);
      ShiftWord(Steps(c, n - 1, p), p);
    }
  }

  function FourSteps(c: bv32, p: bv32): bv32 {
    Step(Step(Step(Step(c, p), p), p), p)
  }

  lemma StepsByFour(c: bv32, n: nat, p: bv32)
    ensures Steps(c, n + 4, p) == FourSteps(Steps(c, n, p), p)
  {
    hide Step;
    assert Steps(c, n + 2, p) == Step(Steps(c, n + 1, p), p);
    assert Steps(c, n + 4, p) == Step(Steps(c, n + 3, p), p);
  }

  /** Thirty-two shifts of all ones. */
  lemma OnesShifted()
    ensures Steps(0xFFFF_FFFF, 32, 0xEDB8_8320) == 0xDEBB_20E3
  {
    var c: bv32, p: bv32 := 0xFFFF_FFFF, 0xEDB8_8320;
    StepsByFour(c, 0, p);
    StepsByFour(c, 4, p);
    StepsByFour(c, 8, p);
    StepsByFour(c, 12, p);
    StepsByFour(c, 16, p);
    StepsByFour(c, 20, p);
    StepsByFour(c, 24, p);
    StepsByFour(c, 28, p);
    assert Steps(c, 0, p) == c;
    hide Steps;
    EightFours(Steps(c, 4, p), Steps(c, 8, p), Steps(c, 12, p), Steps(c, 16, p), Steps(c, 20, p), Steps(c, 24, p),
               Steps(c, 28, p), Steps(c, 32, p));
  }

  lemma EightFours(c1: bv32, c2: bv32, c3: bv32, c4: bv32, c5: bv32, c6: bv32, c7: bv32, c8: bv32)
    requires var p: bv32 := 0xEDB8_8320;
      && c1 == FourSteps(0xFFFF_FFFF, p) && c2 == FourSteps(c1, p) && c3 == FourSteps(c2, p) && c4 == FourSteps(c3, p)
      && c5 == FourSteps(c4, p) && c6 == FourSteps(c5, p) && c7 == FourSteps(c6, p) && c8 == FourSteps(c7, p)
    ensures c8 == 0xDEBB_20E3
  {
  }

  // ----- words as numbers -----

  lemma WordBit(c: bv32, w: nat)
    ensures FromBits(WordBits(c, w + 1)) == (if Low(c) then 1 else 0) + 2 * FromBits(WordBits(Half(c), w))
  {
    hide Low, Half, WordBits;
    WordHead(c, w);
    assert ([Low(c)] + WordBits(Half(c), w))[1..] == WordBits(Half(c), w);
  }

  function Pair(c: bv32): nat {
    (if Low(c) then 1 else 0) + (if Low(Half(c)) then 2 else 0)
  }

  function Digit(c: bv32): nat {
    Pair(c) + 4 * Pair(Half(Half(c)))
  }

  lemma WordDigit(c: bv32, q: bv32, w: nat, d: nat)
    requires Half(Half(Half(Half(c)))) == q && Digit(c) == d
    ensures FromBits(WordBits(c, w + 4)) == d + 16 * FromBits(WordBits(q, w))
  {
    hide Low, Half, WordBits, FromBits;
    WordBit(c, w + 3);
    WordBit(Half(c), w + 2);
    WordBit(Half(Half(c)), w + 1);
    WordBit(Half(Half(Half(c))), w);
  }

  predicate DigitOf(c: bv32, q: bv32, d: nat) {
    Half(Half(Half(Half(c)))) == q && Digit(c) == d
  }

  lemma ResidueDigits()
    ensures DigitOf(0x2144_DF1C, 0x214_4DF1, 0xC) && DigitOf(0x214_4DF1, 0x21_44DF, 0x1)
    ensures DigitOf(0x21_44DF, 0x2_144D, 0xF) && DigitOf(0x2_144D, 0x2144, 0xD)
    ensures DigitOf(0x2144, 0x214, 0x4) && DigitOf(0x214, 0x21, 0x4) && DigitOf(0x21, 0x2, 0x1) && DigitOf(0x2, 0, 0x2)
  {
  }

  lemma NextDigit(c: bv32, q: bv32, w: nat, d: nat, v: nat)
    requires DigitOf(c, q, d) && FromBits(WordBits(q, w)) == v
    ensures FromBits(WordBits(c, w + 4)) == d + 16 * v
  {
    WordDigit(c, q, w, d);
    hide Digit, Half, WordBits, FromBits;
  }

  lemma ResidueValue()
    ensures FromBits(WordBits(0x2144_DF1C, 32)) == 0x2144_DF1C
  {
    assert FromBits(WordBits(0, 0)) == 0;
    ResidueDigits();
    hide *;
    NextDigit(0x2, 0, 0, 0x2, 0);
    NextDigit(0x21, 0x2, 4, 0x1, 0x2);
    NextDigit(0x214, 0x21, 8, 0x4, 0x21);
    NextDigit(0x2144, 0x214, 12, 0x4, 0x214);
    NextDigit(0x2_144D, 0x2144, 16, 0xD, 0x2144);
    NextDigit(0x21_44DF, 0x2_144D, 20, 0xF, 0x2_144D);
    NextDigit(0x214_4DF1, 0x21_44DF, 24, 0x1, 0x21_44DF);
    NextDigit(0x2144_DF1C, 0x214_4DF1, 28, 0xC, 0x214_4DF1);
  }

  lemma {:induction false} ZeroValue(w: nat)
    ensures FromBits(WordBits(0, w)) == 0
  {
    if w != 0 {
      WordBit(0, w - 1);
      ZeroValue(w - 1);
    }
  }

  // ----- all ones -----

  lemma OnesDigit(c: bv32, q: bv32, w: nat)
    requires Low(c) && Low(Half(c)) && Low(Half(Half(c))) && Low(Half(Half(Half(c)))) && Half(Half(Half(Half(c)))) == q
    ensures WordBits(c, w + 4) == [true, true, true, true] + WordBits(q, w)
  {
    hide Low, Half, WordBits;
    WordHead(c, w + 3);
    WordHead(Half(c), w + 2);
    WordHead(Half(Half(c)), w + 1);
    WordHead(Half(Half(Half(c))), w);
  }

  lemma InitialOnes()
    ensures forall i :: 0 <= i < 32 ==> INITIAL[i]
  {
    hide WordBits;
    OnesDigit(0xFFFF_FFFF, 0xFFF_FFFF, 28);
    OnesDigit(0xFFF_FFFF, 0xFF_FFFF, 24);
    OnesDigit(0xFF_FFFF, 0xF_FFFF, 20);
    OnesDigit(0xF_FFFF, 0xFFFF, 16);
    OnesDigit(0xFFFF, 0xFFF, 12);
    OnesDigit(0xFFF, 0xFF, 8);
    OnesDigit(0xFF, 0xF, 4);
    OnesDigit(0xF, 0, 0);
  }

  lemma NotIsXor(r: register)
    ensures Not(r) == Xor(r, INITIAL) && Xor(r, Not(r)) == INITIAL
  {
    InitialOnes();
  }

  lemma NotWord(c: bv32)
    ensures Not(WordBits(c, 32)) == WordBits(Fold(c, 0xFFFF_FFFF), 32)
  {
    NotIsXor(WordBits(c, 32));
    hide WordBits, Xor, Not, Low, Half, Fold;
    XorWords(c, 0xFFFF_FFFF, 32);
  }

  /** Of nothing the checksum is zero. */
  lemma ChecksumOfNothing()
    ensures Checksum([]) == 0
  {
    NotWord(0xFFFF_FFFF);
    ZeroValue(32);
    hide WordBits, FromBits, Not;
  }

  // ----- the residue -----

  /** A number's `k` low bytes, the lowest first. */
  function LE(n: nat, k: nat): (b: bytes)
    ensures |b| == k
  {
    if k == 0 then [] else [n % 256] + LE(n / 256, k - 1)
  }

  /** The value of the low `a` bits of a number, and that of the others. */
  function LowPart(n: nat, a: nat): nat {
    if a == 0 then 0 else n % 2 + 2 * LowPart(n / 2, a - 1)
  }

  function HighPart(n: nat, a: nat): nat {
    if a == 0 then n else HighPart(n / 2, a - 1)
  }

  lemma TwoParts(n: nat)
    ensures LowPart(n, 2) == n % 4 && HighPart(n, 2) == n / 4
  {
    PairParts(n, 0);
  }

  lemma FourParts(n: nat)
    ensures LowPart(n, 4) == n % 16 && HighPart(n, 4) == n / 16
  {
    hide *;
    PairParts(n, 2);
    TwoParts(n / 4);
  }

  lemma SixParts(n: nat)
    ensures LowPart(n, 6) == n % 64 && HighPart(n, 6) == n / 64
  {
    hide *;
    PairParts(n, 4);
    FourParts(n / 4);
  }

  lemma OctetParts(n: nat)
    ensures LowPart(n, 8) == n % 256 && HighPart(n, 8) == n / 256
  {
    hide *;
    PairParts(n, 6);
    SixParts(n / 4);
  }

  lemma PairParts(n: nat, a: nat)
    ensures LowPart(n, a + 2) == n % 4 + 4 * LowPart(n / 4, a) && HighPart(n, a + 2) == HighPart(n / 4, a)
  {
    assert n / 2 / 2 == n / 4 && n % 2 + 2 * (n / 2 % 2) == n % 4;
    assert LowPart(n, a + 2) == n % 2 + 2 * LowPart(n / 2, a + 1);
    assert HighPart(n, a + 2) == HighPart(n / 2, a + 1);
  }

  lemma {:induction false} SplitBits(n: nat, a: nat, b: nat)
    ensures ToBits(n, a + b) == ToBits(LowPart(n, a), a) + ToBits(HighPart(n, a), b)
  {
    if a != 0 {
      SplitBits(n / 2, a - 1, b);
      SplitStep(n, a, b, LowPart(n, a), LowPart(n / 2, a - 1), HighPart(n, a));
    }
  }

  lemma SplitStep(n: nat, a: nat, b: nat, low: nat, rest: nat, high: nat)
    requires 0 < a && low % 2 == n % 2 && low / 2 == rest
    requires ToBits(n / 2, a - 1 + b) == ToBits(rest, a - 1) + ToBits(high, b)
    ensures ToBits(n, a + b) == ToBits(low, a) + ToBits(high, b)
  {
    BitsHead(n, a + b);
    BitsHead(low, a);
    hide ToBits;
    Assoc([n % 2 == 1], ToBits(rest, a - 1), ToBits(high, b));
  }

  lemma BitsHead(n: nat, w: nat)
    requires 0 < w
    ensures ToBits(n, w) == [n % 2 == 1] + ToBits(n / 2, w - 1)
  {
  }

  /** Low byte first, the window of a number's bytes holds the number's own bits. */
  lemma {:induction false} WindowOfLE(n: nat, k: nat)
    ensures Window(LE(n, k)) == ToBits(n, 8 * k)
  {
    if k != 0 {
      var b := LE(n, k);
      assert b[0] == n % 256 && b[1..] == LE(n / 256, k - 1);
      WindowOfLE(n / 256, k - 1);
      SplitBits(n, 8, 8 * (k - 1));
      OctetParts(n);
      hide ToBits;
    }
  }

  lemma AfterChecksum(r: register)
    ensures Register(r, LE(FromBits(Not(r)), 4), POLYNOMIAL) == ShiftN(INITIAL, 32, POLYNOMIAL)
  {
    hide *;
    var w := LE(FromBits(Not(r)), 4);
    RegisterWindow(r, w, POLYNOMIAL);
    WindowOfLE(FromBits(Not(r)), 4);
    BitsUnique(Not(r));
    NotIsXor(r);
    WholeRegister(Not(r));
  }

  lemma WholeRegister(r: register)
    ensures Extend(r) == r
  {
  }

  lemma ResidueBits()
    ensures FromBits(Not(ShiftN(INITIAL, 32, POLYNOMIAL))) == 0x2144_DF1C
  {
    ShiftNWord(0xFFFF_FFFF, 32, 0xEDB8_8320);
    OnesShifted();
    NotWord(0xDEBB_20E3);
    ResidueValue();
    hide Register, WordBits, ToBits, FromBits, Not, ShiftN, Steps;
  }

  /** A string followed by its own checksum, low byte first, always has the same one. */
  lemma Residue(data: bytes)
    ensures Checksum(data + LE(Checksum(data), 4)) == 0x2144_DF1C
  {
    hide Register, Not, FromBits, ShiftN, LE, POLYNOMIAL, INITIAL;
    var r := Register(INITIAL, data, POLYNOMIAL);
    RegisterConcat(INITIAL, data, LE(FromBits(Not(r)), 4), POLYNOMIAL);
    AfterChecksum(r);
    ResidueBits();
  }
}
