/** Byte strings, big-endian integers, and the lexicographic key order. */
module Bytes {

  datatype Option<+T> = None | Some(value: T)

  datatype Error = DecodeError | IoError | UnexpectedValue

  datatype Result<+T> = Ok(value: T) | Err(error: Error) {
    predicate IsFailure() {
      Err?
    }

    function PropagateFailure<U>(): Result<U>
      requires Err?
    {
      Err(error)
    }

    function Extract(): T
      requires Ok?
    {
      value
    }
  }

  type byte = x: int | 0 <= x < 256
  type bytes = seq<byte>

  const U32: nat := 0x1_0000_0000
  const U64: nat := 0x1_0000_0000_0000_0000

  // ----- big-endian integers -----

  function Pow256(w: nat): (p: nat)
    ensures 0 < p
  {
    if w == 0 then 1 else 256 * Pow256(w - 1)
  }

  lemma Pow256Widths()
    ensures Pow256(4) == U32 && Pow256(8) == U64
  {
    assert Pow256(2) == 0x1_0000;
    assert Pow256(4) == 0x1_0000_0000;
    assert Pow256(6) == 0x1_0000_0000_0000;
  }

  /** The `w` low-order bytes of `n`, most significant first. Higher digits are cut off, as by a narrowing cast. */
  function BE(n: nat, w: nat): (s: bytes)
    ensures |s| == w
  {
    if w == 0 then [] else BE(n / 256, w - 1) + [n % 256]
  }

  function FromBE(s: bytes): (n: nat)
    ensures n < Pow256(|s|)
  {
    if s == [] then 0 else FromBE(s[..|s| - 1]) * 256 + s[|s| - 1]
  }

  lemma {:induction false} BERoundTrip(n: nat, w: nat)
    requires n < Pow256(w)
    ensures FromBE(BE(n, w)) == n
  {
    if w != 0 {
      BERoundTrip(n / 256, w - 1);
      assert BE(n, w)[..w - 1] == BE(n / 256, w - 1);
    }
  }

  lemma {:induction false} BEUnique(s: bytes)
    ensures BE(FromBE(s), |s|) == s
  {
    if s != [] {
      BEUnique(s[..|s| - 1]);
      assert s == s[..|s| - 1] + [s[|s| - 1]];
    }
  }

  lemma U32RoundTrip(n: nat)
    requires n < U32
    ensures FromBE(BE(n, 4)) == n
  {
    Pow256Widths();
    BERoundTrip(n, 4);
  }

  lemma U64RoundTrip(n: nat)
    requires n < U64
    ensures FromBE(BE(n, 8)) == n
  {
    Pow256Widths();
    BERoundTrip(n, 8);
  }

  // ----- finding a piece inside a buffer -----

  /** `piece` stands in `buf` at offset `c`. */
  predicate At(buf: bytes, c: nat, piece: bytes)
  {
    c + |piece| <= |buf| && buf[c..c + |piece|] == piece
  }

  lemma AtConcat(buf: bytes, c: nat, left: bytes, right: bytes)
    ensures At(buf, c, left + right) <==> At(buf, c, left) && At(buf, c + |left|, right)
  {
    if c + |left| + |right| <= |buf| {
      var whole := buf[c..c + |left| + |right|];
      assert whole[..|left|] == buf[c..c + |left|];
      assert whole[|left|..] == buf[c + |left|..c + |left| + |right|];
      if At(buf, c, left + right) {
        assert (left + right)[..|left|] == left && (left + right)[|left|..] == right;
      }
      assert whole == whole[..|left|] + whole[|left|..];
    }
  }

  lemma AtBound(buf: bytes, c: nat, piece: bytes)
    requires At(buf, c, piece)
    ensures c + |piece| <= |buf|
  {
  }

  // ----- cursor readers: the value at `c`, or an error past the end -----

  function ReadUint(buf: bytes, c: nat, width: nat): (r: Result<nat>)
    ensures r.Ok? <==> c + width <= |buf|
    ensures r.Ok? ==> r.value < Pow256(width)
  {
    if c + width > |buf| then Err(DecodeError) else Ok(FromBE(buf[c..c + width]))
  }

  function ReadBytes(buf: bytes, c: nat, len: nat): (r: Result<bytes>)
    ensures r.Ok? <==> c + len <= |buf|
    ensures r.Ok? ==> |r.value| == len
  {
    if c + len > |buf| then Err(DecodeError) else Ok(buf[c..c + len])
  }

  lemma ReadUintAt(buf: bytes, c: nat, n: nat, width: nat)
    requires n < Pow256(width) && At(buf, c, BE(n, width))
    ensures ReadUint(buf, c, width) == Ok(n)
  {
    BERoundTrip(n, width);
  }

  lemma ReadBytesAt(buf: bytes, c: nat, piece: bytes)
    requires At(buf, c, piece)
    ensures ReadBytes(buf, c, |piece|) == Ok(piece)
  {
  }

  // ----- the key order -----

  /** Strict lexicographic order on byte strings. */
  predicate Less(a: bytes, b: bytes)
  {
    b != [] && (a == [] || a[0] < b[0] || (a[0] == b[0] && Less(a[1..], b[1..])))
  }

  predicate Leq(a: bytes, b: bytes)
  {
    !Less(b, a)
  }

  lemma {:induction false} LessTotal(a: bytes, b: bytes)
    ensures Less(a, b) || Less(b, a) || a == b
    ensures !(Less(a, b) && Less(b, a))
    ensures a == b ==> !Less(a, b)
  {
    if a != [] && b != [] {
      LessTotal(a[1..], b[1..]);
      if a[0] == b[0] && a[1..] == b[1..] {
        assert a == [a[0]] + a[1..] && b == [b[0]] + b[1..];
      }
    }
  }

  lemma {:induction false} LessTransitive(a: bytes, b: bytes, c: bytes)
    requires Less(a, b) && Less(b, c)
    ensures Less(a, c)
  {
    if a != [] {
      if a[0] == b[0] == c[0] {
        LessTransitive(a[1..], b[1..], c[1..]);
      }
    }
  }

  lemma LeqLessTransitive(a: bytes, b: bytes, c: bytes)
    ensures Leq(a, b) && Less(b, c) ==> Less(a, c)
    ensures Less(a, b) && Leq(b, c) ==> Less(a, c)
    ensures Leq(a, b) && Leq(b, c) ==> Leq(a, c)
  {
    LessTotal(a, b);
    LessTotal(b, c);
    LessTotal(a, c);
    if Less(a, b) && Less(b, c) { LessTransitive(a, b, c); }
    if Less(b, c) && Less(c, a) { LessTransitive(b, c, a); }
    if Less(c, a) && Less(a, b) { LessTransitive(c, a, b); }
  }

  // ----- sequences -----

  lemma Assoc<T>(a: seq<T>, b: seq<T>, c: seq<T>)
    ensures a + b + c == a + (b + c)
  {
  }

  lemma MoveHead<T>(a: seq<T>, s: seq<T>)
    requires s != []
    ensures a + s == a + [s[0]] + s[1..]
  {
  }

  lemma Uncons<T>(s: seq<T>)
    requires s != []
    ensures s == [s[0]] + s[1..]
  {
  }

  function Elements<T>(s: seq<T>): set<T> {
    set x | x in s
  }

  predicate Distinct<T(==)>(s: seq<T>) {
    forall i, j :: 0 <= i < j < |s| ==> s[i] != s[j]
  }

  lemma {:induction false} DistinctCount<T>(s: seq<T>)
    requires Distinct(s)
    ensures |Elements(s)| == |s|
  {
    if s != [] {
      var n := |s| - 1;
      DistinctCount(s[..n]);
      assert Elements(s) == Elements(s[..n]) + {s[n]};
    }
  }
}
