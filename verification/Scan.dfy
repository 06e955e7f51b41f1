/** Key bounds, when a table can be skipped, and what a range scan must return. */
module Scan {
  import opened Bytes
  import opened Codec
  import opened Records
  import opened SsTable
  import opened Layers

  datatype Bound = Unbounded | Included(key: bytes) | Excluded(key: bytes)

  predicate InBounds(key: bytes, lo: Bound, hi: Bound) {
    var aboveLo := match lo
      case Unbounded => true
      case Included(b) => !Less(key, b)
      case Excluded(b) => Less(b, key);
    var belowHi := match hi
      case Unbounded => true
      case Included(b) => !Less(b, key)
      case Excluded(b) => Less(key, b);
    aboveLo && belowHi
  }

  /** Neither is the table's last key below the bounds nor its first above them. */
  predicate RangeOverlaps(min: bytes, max: bytes, lo: Bound, hi: Bound) {
    var maxBelowLo := match lo
      case Unbounded => false
      case Included(b) => Less(max, b)
      case Excluded(b) => !Less(b, max);
    var minAboveHi := match hi
      case Unbounded => false
      case Included(b) => Less(b, min)
      case Excluded(b) => !Less(min, b);
    !maxBelowLo && !minAboveHi
  }

  /** Bounds an ordered map accepts: start not above end, and not both excluding the same key. */
  predicate Ordered(lo: Bound, hi: Bound) {
    lo.Unbounded? || hi.Unbounded? ||
    (!Less(hi.key, lo.key) && !(lo.key == hi.key && lo.Excluded? && hi.Excluded?))
  }

  lemma OverlapSound(min: bytes, max: bytes, lo: Bound, hi: Bound, k: bytes)
    requires Leq(min, k) && Leq(k, max) && InBounds(k, lo, hi)
    ensures RangeOverlaps(min, max, lo, hi)
  {
    hide Less;
    if !lo.Unbounded? {
      LeqLessTransitive(k, max, lo.key);
      LeqLessTransitive(lo.key, k, max);
    }
    if !hi.Unbounded? {
      LeqLessTransitive(hi.key, min, k);
      LeqLessTransitive(min, k, hi.key);
    }
  }

  function Restrict(m: Layer, lo: Bound, hi: Bound): Layer {
    map k | k in m && InBounds(k, lo, hi) :: m[k]
  }

  lemma RestrictOverlay(a: Layer, b: Layer, lo: Bound, hi: Bound)
    ensures Restrict(a + b, lo, hi) == Restrict(a, lo, hi) + Restrict(b, lo, hi)
  {
    hide InBounds;
  }

  /** Skipping a table whose key range misses the bounds loses nothing. */
  lemma SkipLosesNothing(es: seq<Record>, lo: Bound, hi: Bound)
    requires Ascending(es) && es != [] && !RangeOverlaps(es[0].key, es[|es| - 1].key, lo, hi)
    ensures Restrict(MapOf(es), lo, hi) == map[]
  {
    hide Less, InBounds, RangeOverlaps, MapOf;
    forall k | k in MapOf(es) ensures !InBounds(k, lo, hi) {
      if InBounds(k, lo, hi) {
        if Less(k, es[0].key) || Less(es[|es| - 1].key, k) { OutOfRange(es, k); }
        OverlapSound(es[0].key, es[|es| - 1].key, lo, hi, k);
      }
    }
  }

  /** Inserting the next record, if it is in bounds, into what the bounds leave of the ones before. */
  lemma RestrictNext(es: seq<Record>, k: nat, lo: Bound, hi: Bound)
    requires k < |es|
    ensures Restrict(MapOf(es[..k + 1]), lo, hi) ==
      if InBounds(es[k].key, lo, hi) then Restrict(MapOf(es[..k]), lo, hi)[es[k].key := es[k].entry]
      else Restrict(MapOf(es[..k]), lo, hi)
  {
    hide InBounds;
    assert es[..k + 1][..k] == es[..k];
  }

  datatype Pair = Pair(key: bytes, value: Value)

  ghost predicate AscendingPairs(out: seq<Pair>) {
    forall i, j :: 0 <= i < j < |out| ==> Less(out[i].key, out[j].key)
  }

  /** In strictly ascending key order, exactly the visible pairs within the bounds. */
  ghost predicate ScanIs(out: seq<Pair>, visible: map<bytes, Value>, lo: Bound, hi: Bound) {
    && AscendingPairs(out)
    && forall p: Pair :: p in out <==> InBounds(p.key, lo, hi) && Get(visible, p.key) == Some(p.value)
  }

  /** The values among sorted records, in their order. */
  function Values(es: seq<Record>): seq<Pair> {
    if es == [] then []
    else
      var n := |es| - 1;
      if es[n].entry.Present? then Values(es[..n]) + [Pair(es[n].key, es[n].entry.value)] else Values(es[..n])
  }

  lemma {:induction false} ValuesAre(es: seq<Record>)
    requires Ascending(es)
    ensures AscendingPairs(Values(es))
    ensures forall p: Pair :: p in Values(es) <==> Get(MapOf(es), p.key) == Some(Present(p.value))
  {
    if es == [] {
      NoValues(es);
    } else {
      hide *;
      var n := |es| - 1;
      AscendingFront(es);
      ValuesAre(es[..n]);
      MapOfLast(es);
      LastIsNew(es);
      ValuesLast(es);
      forall p | p in Values(es[..n]) ensures Less(p.key, es[n].key) { BelowLast(es, p.key); }
      if es[n].entry.Present? { AppendPair(Values(es[..n]), Pair(es[n].key, es[n].entry.value)); }
      forall p: Pair ensures p in Values(es) <==> Get(MapOf(es), p.key) == Some(Present(p.value)) {
        GetAfter(MapOf(es[..n]), es[n].key, es[n].entry, p.key);
        GetNone(MapOf(es[..n]), es[n].key);
      }
    }
  }

  lemma NoValues(es: seq<Record>)
    requires es == []
    ensures AscendingPairs(Values(es))
    ensures forall p: Pair :: p in Values(es) <==> Get(MapOf(es), p.key) == Some(Present(p.value))
  {
    hide Less;
  }

  lemma AscendingFront(es: seq<Record>)
    requires Ascending(es) && es != []
    ensures Ascending(es[..|es| - 1])
  {
    hide Less;
  }

  lemma ValuesLast(es: seq<Record>)
    requires es != []
    ensures var n := |es| - 1;
      Values(es) == Values(es[..n]) + if es[n].entry.Present? then [Pair(es[n].key, es[n].entry.value)] else []
  {
  }

  lemma LastIsNew(es: seq<Record>)
    requires Ascending(es) && es != []
    ensures es[|es| - 1].key !in MapOf(es[..|es| - 1])
  {
    hide MapOf, Less;
    var n := |es| - 1;
    MapOfKeys(es[..n], es[n].key);
    forall i | 0 <= i < n ensures es[..n][i].key != es[n].key { LessTotal(es[i].key, es[n].key); }
  }

  lemma BelowLast(es: seq<Record>, k: bytes)
    requires Ascending(es) && es != [] && Get(MapOf(es[..|es| - 1]), k).Some?
    ensures Less(k, es[|es| - 1].key)
  {
    hide MapOf, Less;
    var n := |es| - 1;
    MapOfKeys(es[..n], k);
    var i :| 0 <= i < n && es[..n][i].key == k;
  }

  lemma AppendPair(out: seq<Pair>, p: Pair)
    requires AscendingPairs(out) && forall q :: q in out ==> Less(q.key, p.key)
    ensures AscendingPairs(out + [p])
  {
    hide Less;
  }

  lemma GetAfter(m: Layer, key: bytes, e: Entry, k: bytes)
    ensures Get(m[key := e], k) == if k == key then Some(e) else Get(m, k)
  {
  }

  lemma GetNone(m: Layer, k: bytes)
    ensures Get(m, k) == None <==> k !in m
  {
  }

  lemma MapOfLast(es: seq<Record>)
    requires es != []
    ensures MapOf(es) == MapOf(es[..|es| - 1])[es[|es| - 1].key := es[|es| - 1].entry]
  {
  }

  /** Listing the values of the restricted merge is the range scan. */
  lemma ScanAgreesWithReads(layers: seq<Layer>, es: seq<Record>, lo: Bound, hi: Bound)
    requires Enumerates(es, Restrict(Merge(layers), lo, hi))
    ensures ScanIs(Values(es), View(layers), lo, hi)
  {
    hide InBounds, Merge, Values, MapOf;
    ValuesAre(es);
    forall p: Pair
      ensures Get(MapOf(es), p.key) == Some(Present(p.value)) <==> InBounds(p.key, lo, hi) && Get(View(layers), p.key) == Some(p.value)
    {
      ViewReads(layers, p.key);
    }
  }

  // ----- what bounds mean, by the lists they give -----

  /** Without bounds the scan lists the whole visible map. */
  lemma FullScan(out: seq<Pair>, visible: map<bytes, Value>)
    requires ScanIs(out, visible, Unbounded, Unbounded)
    ensures forall p: Pair :: p in out <==> Get(visible, p.key) == Some(p.value)
    ensures forall k :: k in visible ==> Pair(k, visible[k]) in out
  {
    hide Less;
    forall k | k in visible ensures Pair(k, visible[k]) in out { assert Get(visible, k) == Some(visible[k]); }
  }

  lemma AscendingTail(a: seq<Pair>)
    requires AscendingPairs(a) && a != []
    ensures AscendingPairs(a[1..]) && forall p: Pair :: p in a[1..] <==> p in a && p != a[0]
  {
    hide Less;
    forall i | 0 < i < |a| ensures a[i] != a[0] { LessTotal(a[0].key, a[i].key); }
    forall p: Pair | p in a && p != a[0] ensures p in a[1..] {
      var i :| 0 <= i < |a| && a[i] == p;
      assert a[1..][i - 1] == p;
    }
  }

  lemma FirstIsLeast(a: seq<Pair>, p: Pair)
    requires AscendingPairs(a) && p in a
    ensures p == a[0] || Less(a[0].key, p.key)
  {
    hide Less;
  }

  lemma SomeElement(a: seq<Pair>)
    ensures a != [] ==> exists p :: p in a
  {
    if a != [] { assert a[0] in a; }
  }

  /** An ascending list is determined by what is in it. */
  lemma {:induction false} SameListing(a: seq<Pair>, b: seq<Pair>)
    requires AscendingPairs(a) && AscendingPairs(b) && forall p: Pair :: p in a <==> p in b
    ensures a == b
    decreases |a|
  {
    hide Less, AscendingPairs;
    SomeElement(b);
    if a != [] {
      assert a[0] in a && a[0] in b;
      assert b[0] in b && b[0] in a;
      FirstIsLeast(a, b[0]);
      FirstIsLeast(b, a[0]);
      LessTotal(a[0].key, b[0].key);
      AscendingTail(a);
      AscendingTail(b);
      SameListing(a[1..], b[1..]);
      assert a == [a[0]] + a[1..] && b == [b[0]] + b[1..];
    }
  }

  lemma AscendingConcat(a: seq<Pair>, c: seq<Pair>)
    requires AscendingPairs(a) && AscendingPairs(c)
    requires forall p, q :: p in a && q in c ==> Less(p.key, q.key)
    ensures AscendingPairs(a + c)
  {
    hide Less;
  }

  /** Cutting the bounds below a key cuts the list there: first the keys below it, then the others. */
  lemma SplitBelow(a: seq<Pair>, c: seq<Pair>, all: seq<Pair>, visible: map<bytes, Value>, lo: Bound, b: bytes, hi: Bound)
    requires Ordered(lo, Excluded(b)) && Ordered(Included(b), hi)
    requires ScanIs(a, visible, lo, Excluded(b)) && ScanIs(c, visible, Included(b), hi) && ScanIs(all, visible, lo, hi)
    ensures all == a + c
    ensures (forall p :: p in a ==> Less(p.key, b)) && (forall p :: p in c ==> !Less(p.key, b))
  {
    hide AscendingPairs;
    forall p | p in a ensures Less(p.key, b) {}
    forall p | p in c ensures !Less(p.key, b) {}
    forall p, q | p in a && q in c ensures Less(p.key, q.key) { LeqLessTransitive(p.key, b, q.key); }
    AscendingConcat(a, c);
    forall p: Pair ensures InBounds(p.key, lo, hi) <==> InBounds(p.key, lo, Excluded(b)) || InBounds(p.key, Included(b), hi) {
      CutBelow(p.key, lo, b, hi);
    }
    hide InBounds, Less, Ordered;
    SameListing(all, a + c);
  }

  lemma CutBelow(k: bytes, lo: Bound, b: bytes, hi: Bound)
    requires Ordered(lo, Excluded(b)) && Ordered(Included(b), hi)
    ensures InBounds(k, lo, hi) <==> InBounds(k, lo, Excluded(b)) || InBounds(k, Included(b), hi)
  {
    hide Less;
    LessTotal(k, b);
    if !lo.Unbounded? {
      LessTotal(lo.key, b);
      LessTotal(lo.key, k);
      LeqLessTransitive(lo.key, b, k);
    }
    if !hi.Unbounded? {
      LessTotal(hi.key, b);
      LessTotal(hi.key, k);
      LeqLessTransitive(k, b, hi.key);
    }
  }

  /** The same with the key itself in the first part. */
  lemma SplitAbove(a: seq<Pair>, c: seq<Pair>, all: seq<Pair>, visible: map<bytes, Value>, lo: Bound, b: bytes, hi: Bound)
    requires Ordered(lo, Included(b)) && Ordered(Excluded(b), hi)
    requires ScanIs(a, visible, lo, Included(b)) && ScanIs(c, visible, Excluded(b), hi) && ScanIs(all, visible, lo, hi)
    ensures all == a + c
    ensures (forall p :: p in a ==> !Less(b, p.key)) && (forall p :: p in c ==> Less(b, p.key))
  {
    hide AscendingPairs;
    forall p | p in a ensures !Less(b, p.key) {}
    forall p | p in c ensures Less(b, p.key) {}
    forall p, q | p in a && q in c ensures Less(p.key, q.key) { LeqLessTransitive(p.key, b, q.key); }
    AscendingConcat(a, c);
    forall p: Pair ensures InBounds(p.key, lo, hi) <==> InBounds(p.key, lo, Included(b)) || InBounds(p.key, Excluded(b), hi) {
      CutAbove(p.key, lo, b, hi);
    }
    hide InBounds, Less, Ordered;
    SameListing(all, a + c);
  }

  lemma CutAbove(k: bytes, lo: Bound, b: bytes, hi: Bound)
    requires Ordered(lo, Included(b)) && Ordered(Excluded(b), hi)
    ensures InBounds(k, lo, hi) <==> InBounds(k, lo, Included(b)) || InBounds(k, Excluded(b), hi)
  {
    hide Less;
    LessTotal(k, b);
    if !lo.Unbounded? {
      LessTotal(lo.key, b);
      LessTotal(lo.key, k);
      LeqLessTransitive(lo.key, b, k);
    }
    if !hi.Unbounded? {
      LessTotal(hi.key, b);
      LessTotal(hi.key, k);
      LeqLessTransitive(k, b, hi.key);
    }
  }

  // ----- the overlap test is exact -----

  /** If the bounds admit any key at all, the test succeeds only if some key could lie in both the table's range and the
      bounds. */
  lemma OverlapExact(min: bytes, max: bytes, lo: Bound, hi: Bound, j: bytes) returns (k: bytes)
    requires Leq(min, max) && RangeOverlaps(min, max, lo, hi) && InBounds(j, lo, hi)
    ensures Leq(min, k) && Leq(k, max) && InBounds(k, lo, hi)
  {
    hide Less;
    LessTotal(min, max);
    LessTotal(min, min);
    LessTotal(max, max);
    LessTotal(j, min);
    LessTotal(j, max);
    if Less(j, min) {
      k := min;
      if !lo.Unbounded? { LeqLessTransitive(lo.key, j, min); LessTotal(lo.key, min); }
    } else if Less(max, j) {
      k := max;
      if !hi.Unbounded? { LeqLessTransitive(max, j, hi.key); LessTotal(max, hi.key); }
    } else {
      k := j;
    }
  }
}
