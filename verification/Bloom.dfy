/** The Bloom filter of a table: probe positions by double hashing, no false negatives, bounded load. */
module Bloom {
  import opened Bytes
  import opened Bits

  const FNV_OFFSET: nat := 0xcbf2_9ce4_8422_2325
  const FNV_PRIME: nat := 0x0000_0100_0000_01b3
  const BITS_PER_KEY: nat := 10
  const PROBES: nat := 7

  /** A filter as held in memory and in the file: the bit field and the number of probes. */
  datatype Filter = Filter(field: bytes, k: nat)

  // ----- FNV-1a -----

  function XorByte(h: nat, b: byte): (x: nat)
    ensures x < U64
  {
    Pow2Widths();
    FromBits(Xor(ToBits(h, 64), ToBits(b, 64)))
  }

  function Hash(data: bytes): (h: nat)
    ensures h < U64
  {
    if data == [] then FNV_OFFSET
    else XorByte(Hash(data[..|data| - 1]), data[|data| - 1]) * FNV_PRIME % U64
  }

  method Hash64(data: bytes) returns (h: nat)
    ensures h == Hash(data)
  {
    h := FNV_OFFSET;
    assert data[..0] == [];
    for i := 0 to |data|
      invariant h == Hash(data[..i])
    {
      assert data[..i + 1][..i] == data[..i];
      h := XorByte(h, data[i]);
      h := h * FNV_PRIME % U64;
    }
    assert data[..|data|] == data;
  }

  // ----- probe positions -----

  function Base(h: nat): nat {
    h % U32
  }

  /** The upper half of the hash with its lowest bit forced on. */
  function Step(h: nat): (s: nat)
    ensures s % 2 == 1
    ensures h < U64 ==> s < U32
  {
    var half := h / U32;
    if half % 2 == 1 then half else half + 1
  }

  /** The `i`-th probe of a filter of `m` bits, in 64-bit wrapping arithmetic. */
  function Probe(h: nat, i: nat, m: nat): (p: nat)
    requires 0 < m
    ensures p < m
  {
    (Base(h) + i * Step(h) % U64) % U64 % m
  }

  function Positions(key: bytes, k: nat, m: nat): (ps: seq<nat>)
    requires 0 < m
    ensures |ps| == k && forall i :: 0 <= i < k ==> ps[i] == Probe(Hash(key), i, m)
  {
    seq(k, i requires 0 <= i => Probe(Hash(key), i, m))
  }

  lemma MulMonotone(a: nat, b: nat, c: nat, d: nat)
    requires a <= c && b <= d
    ensures a * b <= c * d
  {
    assert a * b <= c * b <= c * d;
  }

  /** For any probe count that fits the file's 32-bit field, neither the product nor the sum wraps. */
  lemma ProbeNeverWraps(h: nat, i: nat, m: nat)
    requires h < U64 && i < U32 - 1 && 0 < m
    ensures Base(h) + i * Step(h) < U64
    ensures Probe(h, i, m) == (Base(h) + i * Step(h)) % m
  {
    MulMonotone(i, Step(h), U32 - 2, U32 - 1);
    ModTwice(Base(h), i * Step(h), m);
  }

  lemma ModTwice(b: nat, x: nat, m: nat)
    requires b + x < U64 && 0 < m
    ensures (b + x % U64) % U64 % m == (b + x) % m
  {
  }

  /** Two of the seven probes never meet: their distance is an odd multiple of at most six, the modulus one of eight. */
  lemma ProbesDistinct(h: nat, i: nat, j: nat, m: nat)
    requires h < U64 && i < j < PROBES && 0 < m && m % 8 == 0
    ensures Probe(h, i, m) != Probe(h, j, m)
  {
    ProbeNeverWraps(h, i, m);
    ProbeNeverWraps(h, j, m);
    ArithmeticDistinct(Base(h), Step(h), i, j, m);
  }

  lemma ArithmeticDistinct(b: nat, s: nat, i: nat, j: nat, m: nat)
    requires i < j < i + 8 && s % 2 == 1 && 0 < m && m % 8 == 0
    ensures (b + i * s) % m != (b + j * s) % m
  {
    var x, y := b + i * s, b + j * s;
    if x % m == y % m {
      var q := SameResidue(x, y, m);
      MulDistributes(j, i, s);
      var e := m / 8;
      assert q * m == q * (8 * e) == 8 * (q * e);
      OddNeedsEight(j - i, s, q * e);
    }
  }

  lemma SameResidue(x: nat, y: nat, m: nat) returns (q: int)
    requires 0 < m && x % m == y % m
    ensures y - x == q * m
  {
    q := y / m - x / m;
    MulDistributes(y / m, x / m, m);
  }

  lemma MulDistributes(a: int, b: int, c: int)
    ensures (a - b) * c == a * c - b * c
  {
  }

  lemma OddNeedsEight(d: int, s: int, q: int)
    requires 0 < d < 8 && s % 2 == 1
    ensures d * s != 8 * q
  {
    if d == 1 {} else if d == 2 {} else if d == 3 {} else if d == 4 {} else if d == 5 {} else if d == 6 {} else {
      assert d == 7;
    }
  }

  // ----- the bit field -----

  predicate Has(field: bytes, p: nat)
    requires p < 8 * |field|
  {
    TestBit(field[p / 8], p % 8)
  }

  function Mark(field: bytes, p: nat): (r: bytes)
    requires p < 8 * |field|
    ensures |r| == |field|
  {
    field[p / 8 := SetBit(field[p / 8], p % 8)]
  }

  function MarkAll(field: bytes, ps: seq<nat>): (r: bytes)
    requires forall i :: 0 <= i < |ps| ==> ps[i] < 8 * |field|
    ensures |r| == |field|
  {
    if ps == [] then field else Mark(MarkAll(field, ps[..|ps| - 1]), ps[|ps| - 1])
  }

  function AddKeys(field: bytes, k: nat, keys: seq<bytes>): (r: bytes)
    requires field != []
    ensures |r| == |field|
  {
    if keys == [] then field
    else
      var n := |keys| - 1;
      MarkAll(AddKeys(field, k, keys[..n]), Positions(keys[n], k, 8 * |field|))
  }

  predicate Probed(key: bytes, k: nat, m: nat, q: nat)
    requires 0 < m
  {
    q in Positions(key, k, m)
  }

  predicate MaybeContains(f: Filter, key: bytes)
    requires f.field != []
  {
    var ps := Positions(key, f.k, 8 * |f.field|);
    forall i :: 0 <= i < |ps| ==> Has(f.field, ps[i])
  }

  lemma MarkHas(field: bytes, p: nat, q: nat)
    requires p < 8 * |field| && q < 8 * |field|
    ensures Has(Mark(field, p), q) == (p == q || Has(field, q))
  {
    SetThenTest(field[p / 8], p % 8, q % 8);
  }

  lemma {:induction false} MarkAllHas(field: bytes, ps: seq<nat>, q: nat)
    requires q < 8 * |field| && forall i :: 0 <= i < |ps| ==> ps[i] < 8 * |field|
    ensures Has(MarkAll(field, ps), q) == (q in ps || Has(field, q))
  {
    if ps != [] {
      var n := |ps| - 1;
      MarkAllHas(field, ps[..n], q);
      MarkHas(MarkAll(field, ps[..n]), ps[n], q);
      assert ps == ps[..n] + [ps[n]];
    }
  }

  predicate ProbedByAny(keys: seq<bytes>, k: nat, m: nat, q: nat)
    requires 0 < m
  {
    exists i :: 0 <= i < |keys| && Probed(keys[i], k, m, q)
  }

  lemma ProbedByLast(keys: seq<bytes>, k: nat, m: nat, q: nat)
    requires 0 < m && keys != []
    ensures var n := |keys| - 1;
      ProbedByAny(keys, k, m, q) <==> ProbedByAny(keys[..n], k, m, q) || Probed(keys[n], k, m, q)
  {
    var n := |keys| - 1;
    if ProbedByAny(keys, k, m, q) {
      var i :| 0 <= i < |keys| && Probed(keys[i], k, m, q);
      assert i < n ==> keys[..n][i] == keys[i];
    }
    if ProbedByAny(keys[..n], k, m, q) {
      var i :| 0 <= i < n && Probed(keys[..n][i], k, m, q);
      assert keys[..n][i] == keys[i];
    }
  }

  /** Exactly the bits probed by some added key, and those set before, are set. */
  lemma {:induction false} AddKeysHas(field: bytes, k: nat, keys: seq<bytes>, q: nat)
    requires field != [] && q < 8 * |field|
    ensures Has(AddKeys(field, k, keys), q) <==> Has(field, q) || ProbedByAny(keys, k, 8 * |field|, q)
  {
    if keys != [] {
      var n := |keys| - 1;
      AddKeysHas(field, k, keys[..n], q);
      MarkAllHas(AddKeys(field, k, keys[..n]), Positions(keys[n], k, 8 * |field|), q);
      ProbedByLast(keys, k, 8 * |field|, q);
    }
  }

  /** Whatever was added before or after it, an added key tests positive. */
  lemma NoFalseNegatives(field: bytes, k: nat, keys: seq<bytes>, key: bytes)
    requires field != [] && key in keys
    ensures MaybeContains(Filter(AddKeys(field, k, keys), k), key)
  {
    var ps := Positions(key, k, 8 * |field|);
    forall i | 0 <= i < k ensures Has(AddKeys(field, k, keys), ps[i]) {
      AddKeysHas(field, k, keys, ps[i]);
      assert Probed(key, k, 8 * |field|, ps[i]);
    }
  }

  // ----- sizing and building -----

  /** Bytes allotted to `n` keys: ten bits a key, never under 64 bits, rounded up. */
  function Size(n: nat): (size: nat)
    ensures 8 <= size && BITS_PER_KEY * n <= 8 * size
  {
    var want := n * BITS_PER_KEY;
    ((if want < 64 then 64 else want) + 7) / 8
  }

  function Empty(n: nat): (field: bytes)
    ensures |field| == Size(n) && field != []
  {
    seq(Size(n), _ => 0)
  }

  function FilterOf(keys: seq<bytes>): (f: Filter)
    ensures f.field != []
  {
    Filter(AddKeys(Empty(|keys|), PROBES, keys), PROBES)
  }

  /** Sets the bits of one key in place. */
  method Add(field: array<byte>, k: nat, key: bytes)
    requires 0 < field.Length
    modifies field
    ensures field[..] == MarkAll(old(field[..]), Positions(key, k, 8 * field.Length))
  {
    var h := Hash64(key);
    ghost var ps := Positions(key, k, 8 * field.Length);
    ghost var was := field[..];
    assert ps[..0] == [];
    for i := 0 to k
      invariant field[..] == MarkAll(was, ps[..i])
    {
      var bit := Probe(h, i, 8 * field.Length);
      assert ps[..i + 1][..i] == ps[..i];
      field[bit / 8] := SetBit(field[bit / 8], bit % 8);
      assert field[..] == Mark(MarkAll(was, ps[..i]), bit);
    }
    assert ps[..k] == ps;
  }

  method Build(keys: seq<bytes>) returns (f: Filter)
    ensures f == FilterOf(keys)
  {
    var field := new byte[Size(|keys|)](_ => 0);
    assert field[..] == Empty(|keys|);
    assert keys[..0] == [];
    for i := 0 to |keys|
      invariant field[..] == AddKeys(Empty(|keys|), PROBES, keys[..i])
    {
      assert keys[..i + 1][..i] == keys[..i];
      Add(field, PROBES, keys[i]);
    }
    assert keys[..|keys|] == keys;
    f := Filter(field[..], PROBES);
  }

  // ----- load -----

  function OnBits(field: bytes): set<nat> {
    set q: nat | q < 8 * |field| && Has(field, q)
  }

  lemma {:induction false} CardUnion(ps: seq<nat>, s: set<nat>)
    ensures |Elements(ps) + s| <= |ps| + |s|
  {
    if ps == [] {
      assert Elements(ps) + s == s;
    } else {
      var n := |ps| - 1;
      CardUnion(ps[..n], s);
      assert Elements(ps) + s == Elements(ps[..n]) + s + {ps[n]};
    }
  }

  lemma MarkAllCount(field: bytes, ps: seq<nat>)
    requires forall i :: 0 <= i < |ps| ==> ps[i] < 8 * |field|
    ensures |OnBits(MarkAll(field, ps))| <= |ps| + |OnBits(field)|
  {
    forall q: nat | q < 8 * |field| ensures Has(MarkAll(field, ps), q) == (q in ps || Has(field, q)) {
      MarkAllHas(field, ps, q);
    }
    assert OnBits(MarkAll(field, ps)) == Elements(ps) + OnBits(field);
    CardUnion(ps, OnBits(field));
  }

  lemma {:induction false} AddKeysCount(field: bytes, k: nat, keys: seq<bytes>)
    requires field != []
    ensures |OnBits(AddKeys(field, k, keys))| <= |OnBits(field)| + |keys| * k
  {
    if keys != [] {
      var n := |keys| - 1;
      AddKeysCount(field, k, keys[..n]);
      MarkAllCount(AddKeys(field, k, keys[..n]), Positions(keys[n], k, 8 * |field|));
      MulDistributes(|keys|, 1, k);
    }
  }

  /** `n` keys set at most `7n` of at least `10n` bits, so at least three bits in ten stay clear. */
  lemma LoadBound(keys: seq<bytes>)
    ensures var f := FilterOf(keys);
      && |OnBits(f.field)| <= PROBES * |keys|
      && BITS_PER_KEY * |keys| <= 8 * |f.field|
      && 10 * (8 * |f.field| - |OnBits(f.field)|) >= 3 * (8 * |f.field|)
  {
    var zero := Empty(|keys|);
    forall q: nat | q < 8 * |zero| ensures !Has(zero, q) { ZeroBit(8, q % 8); }
    assert OnBits(zero) == {};
    AddKeysCount(zero, PROBES, keys);
  }

  lemma {:induction false} ZeroBit(w: nat, k: nat)
    requires k < w
    ensures !ToBits(0, w)[k]
  {
    if k != 0 { ZeroBit(w - 1, k - 1); }
  }

  /** One key alone sets exactly seven bits. */
  lemma SevenBitsPerKey(key: bytes, m: nat)
    requires 0 < m && m % 8 == 0
    ensures |Elements(Positions(key, PROBES, m))| == PROBES
  {
    var ps := Positions(key, PROBES, m);
    forall i, j | 0 <= i < j < PROBES ensures ps[i] != ps[j] {
      ProbesDistinct(Hash(key), i, j, m);
      assert ps[i] == Probe(Hash(key), i, m) && ps[j] == Probe(Hash(key), j, m);
    }
    DistinctCount(ps);
  }
}
