/** The per-table cache of verified data blocks, least recently used first. */
module Cache {
  import opened Bytes

  // ----- the queue -----

  /** The index of the first `o`, or the length when there is none. */
  function Position(q: seq<nat>, o: nat): (i: nat)
    ensures i <= |q| && forall j :: 0 <= j < i ==> q[j] != o
    ensures i < |q| ==> q[i] == o
  {
    if q == [] || q[0] == o then 0 else 1 + Position(q[1..], o)
  }

  /** `q` without its first `o`. */
  function Without(q: seq<nat>, o: nat): (r: seq<nat>)
    ensures |r| == if o in q then |q| - 1 else |q|
  {
    var i := Position(q, o);
    if i < |q| then q[..i] + q[i + 1..] else q
  }

  function Touch(q: seq<nat>, o: nat): (r: seq<nat>)
    ensures |r| == if o in q then |q| else |q| + 1
  {
    Without(q, o) + [o]
  }

  /** One lookup of block `o`: a hit moves it to the back, a miss evicts the front when full and appends. */
  function Access(q: seq<nat>, cap: nat, o: nat): seq<nat> {
    if o in q then Touch(q, o)
    else if cap == 0 then q
    else (if |q| >= cap then q[1..] else q) + [o]
  }

  /** The queue after a whole trace of lookups. */
  function Queue(trace: seq<nat>, cap: nat): seq<nat> {
    if trace == [] then [] else Access(Queue(trace[..|trace| - 1], cap), cap, trace[|trace| - 1])
  }

  /** Every offset of the trace once, in order of last use. */
  function Recency(trace: seq<nat>): seq<nat> {
    if trace == [] then [] else Touch(Recency(trace[..|trace| - 1]), trace[|trace| - 1])
  }

  function LastN(s: seq<nat>, n: nat): seq<nat> {
    if |s| <= n then s else s[|s| - n..]
  }

  function LastUse(trace: seq<nat>, o: nat): (i: nat)
    requires o in trace
    ensures i < |trace| && trace[i] == o && forall j :: i < j < |trace| ==> trace[j] != o
  {
    var n := |trace| - 1;
    if trace[n] == o then n else LastUse(trace[..n], o)
  }

  lemma WithoutInFront(a: seq<nat>, b: seq<nat>, o: nat)
    requires o in a
    ensures Without(a + b, o) == Without(a, o) + b
  {
    hide Position;
    var i := Position(a, o);
    assert i < |a| by {
      var k :| 0 <= k < |a| && a[k] == o;
    }
    SamePosition(a + b, i, o);
    DropsInFront(a, b, i);
  }

  lemma DropsInFront(a: seq<nat>, b: seq<nat>, i: nat)
    requires i < |a|
    ensures (a + b)[..i] + (a + b)[i + 1..] == a[..i] + a[i + 1..] + b
  {
    assert (a + b)[i + 1..] == a[i + 1..] + b;
  }

  lemma WithoutInBack(a: seq<nat>, b: seq<nat>, o: nat)
    requires o !in a
    ensures Without(a + b, o) == a + Without(b, o)
  {
    var i := Position(b, o);
    var s := a + b;
    forall k | 0 <= k < |a| + i ensures s[k] != o {
      if k < |a| { assert s[k] == a[k]; } else { assert s[k] == b[k - |a|]; }
    }
    SamePosition(s, |a| + i, o);
    if i < |b| {
      assert Without(s, o) == s[..|a| + i] + s[|a| + i + 1..];
      assert Without(b, o) == b[..i] + b[i + 1..];
      DropsInBack(a, b, i);
    } else {
      assert Without(s, o) == s && Without(b, o) == b;
    }
  }

  lemma DropsInBack(a: seq<nat>, b: seq<nat>, i: nat)
    requires i < |b|
    ensures (a + b)[..|a| + i] + (a + b)[|a| + i + 1..] == a + (b[..i] + b[i + 1..])
  {
  }

  lemma SamePosition(q: seq<nat>, i: nat, o: nat)
    requires i <= |q| && (forall j :: 0 <= j < i ==> q[j] != o) && (i < |q| ==> q[i] == o)
    ensures Position(q, o) == i
  {
  }

  lemma WithoutElements(q: seq<nat>, o: nat)
    requires Distinct(q)
    ensures Elements(Without(q, o)) == Elements(q) - {o} && Distinct(Without(q, o))
  {
    var i, r := Position(q, o), Without(q, o);
    forall x | x in q && x != o ensures x in r {
      var k :| 0 <= k < |q| && q[k] == x;
      assert r[if k < i then k else k - 1] == x;
    }
  }

  lemma TouchElements(q: seq<nat>, o: nat)
    requires Distinct(q)
    ensures Elements(Touch(q, o)) == Elements(q) + {o} && Distinct(Touch(q, o))
  {
    WithoutElements(q, o);
    var w := Without(q, o);
    assert Elements(w + [o]) == Elements(w) + {o};
    assert forall k :: 0 <= k < |w| ==> w[k] in Elements(w);
  }

  /** `Recency` is what its name says: the trace's offsets, each once, ordered by last use. */
  lemma {:induction false} RecencyIsOrderOfLastUse(trace: seq<nat>)
    ensures Elements(Recency(trace)) == Elements(trace) && Distinct(Recency(trace))
    ensures forall o :: o in Recency(trace) ==> o in trace
    ensures var r := Recency(trace);
      forall i, j :: 0 <= i < j < |r| ==> LastUse(trace, r[i]) < LastUse(trace, r[j])
  {
    if trace != [] {
      var n := |trace| - 1;
      var before, o := trace[..n], trace[n];
      RecencyIsOrderOfLastUse(before);
      TouchElements(Recency(before), o);
      assert Elements(trace) == Elements(before) + {o};
      forall x | x in Recency(trace) ensures x in trace { assert x in Elements(Recency(trace)); }
      WithoutElements(Recency(before), o);
      forall x | x in Without(Recency(before), o) ensures x in before && x != o && LastUse(trace, x) == LastUse(before, x) {
        assert x in Elements(Without(Recency(before), o));
        assert x in Elements(Recency(before));
      }
      WithoutKeepsOrder(before, Recency(before), o);
    }
  }

  ghost predicate ByLastUse(trace: seq<nat>, r: seq<nat>) {
    && (forall x :: x in r ==> x in trace)
    && forall i, j :: 0 <= i < j < |r| ==> LastUse(trace, r[i]) < LastUse(trace, r[j])
  }

  lemma WithoutKeepsOrder(trace: seq<nat>, r: seq<nat>, o: nat)
    requires ByLastUse(trace, r)
    ensures ByLastUse(trace, Without(r, o))
    ensures forall x :: x in Without(r, o) ==> x in r
  {
    var w, p := Without(r, o), Position(r, o);
    forall k | 0 <= k < |w| ensures w[k] == r[if k < p then k else k + 1] && w[k] in r {}
    forall i, j | 0 <= i < j < |w| ensures LastUse(trace, w[i]) < LastUse(trace, w[j]) {
      var i', j' := if i < p then i else i + 1, if j < p then j else j + 1;
      assert w[i] == r[i'] && w[j] == r[j'] && i' < j';
    }
  }

  lemma LastNOfConcat(a: seq<nat>, b: seq<nat>, n: nat)
    ensures |b| == n ==> LastN(a + b, n) == b
    ensures |b| == n + 1 ==> LastN(a + b, n) == b[1..]
  {
    if |b| == n + 1 {
      assert (a + b)[|a| + 1..] == b[1..];
    }
  }

  lemma AccessKeepsSuffix(r: seq<nat>, cap: nat, o: nat)
    requires Distinct(r)
    ensures Access(LastN(r, cap), cap, o) == LastN(Touch(r, o), cap)
  {
    hide Without, Position;
    if |r| <= cap {
      WithoutAbsent(r, o);
    } else {
      AccessWhenFull(r[..|r| - cap], r[|r| - cap..], o);
      assert r == r[..|r| - cap] + r[|r| - cap..];
    }
  }

  lemma AccessWhenFull(front: seq<nat>, q: seq<nat>, o: nat)
    requires Distinct(front + q)
    ensures Access(q, |q|, o) == LastN(Touch(front + q, o), |q|)
  {
    if o in q { HitWhenFull(front, q, o); } else { MissWhenFull(front, q, o); }
  }

  lemma HitWhenFull(front: seq<nat>, q: seq<nat>, o: nat)
    requires Distinct(front + q) && o in q
    ensures LastN(Touch(front + q, o), |q|) == Touch(q, o)
  {
    hide Without, LastN;
    NotInFront(front, q, o);
    WithoutInBack(front, q, o);
    Assoc(front, Without(q, o), [o]);
    LastNOfConcat(front, Touch(q, o), |q|);
  }

  lemma NotInFront(front: seq<nat>, q: seq<nat>, o: nat)
    requires Distinct(front + q) && o in q
    ensures o !in front
  {
    var i :| 0 <= i < |q| && q[i] == o;
    forall j | 0 <= j < |front| ensures front[j] != o {
      assert (front + q)[j] == front[j] && (front + q)[|front| + i] == o;
    }
  }

  lemma MissWhenFull(front: seq<nat>, q: seq<nat>, o: nat)
    requires o !in q
    ensures LastN(Touch(front + q, o), |q|) == (q + [o])[1..]
  {
    if o in front {
      WithoutInFront(front, q, o);
    } else {
      WithoutInBack(front, q, o);
      WithoutAbsent(q, o);
      WithoutAbsent(front, o);
    }
    assert Touch(front + q, o) == Without(front, o) + (q + [o]);
    LastNOfConcat(Without(front, o), q + [o], |q|);
  }

  /** The queue of a cache of any capacity is exactly the last `cap` distinct offsets in order of last use. */
  lemma {:induction false} QueueIsLastDistinct(trace: seq<nat>, cap: nat)
    ensures Queue(trace, cap) == LastN(Recency(trace), cap)
  {
    if trace != [] {
      var n := |trace| - 1;
      QueueIsLastDistinct(trace[..n], cap);
      RecencyIsOrderOfLastUse(trace[..n]);
      AccessKeepsSuffix(Recency(trace[..n]), cap, trace[n]);
    }
  }

  /** A larger cache hits whenever a smaller one does. */
  lemma Inclusion(trace: seq<nat>, small: nat, large: nat, o: nat)
    requires small <= large && o in Queue(trace, small)
    ensures o in Queue(trace, large)
  {
    QueueIsLastDistinct(trace, small);
    QueueIsLastDistinct(trace, large);
    hide *;
    LastNGrows(Recency(trace), small, large, o);
  }

  lemma LastNGrows(r: seq<nat>, small: nat, large: nat, o: nat)
    requires small <= large && o in LastN(r, small)
    ensures o in LastN(r, large)
  {
    var s, l := LastN(r, small), LastN(r, large);
    var i :| 0 <= i < |s| && s[i] == o;
    assert l[|l| - |s| + i] == o;
  }

  lemma PopFront(q: seq<nat>)
    requires Distinct(q) && q != []
    ensures Distinct(q[1..]) && Elements(q[1..]) == Elements(q) - {q[0]}
  {
    assert forall x :: x in q ==> x == q[0] || x in q[1..];
  }

  lemma QueueNext(trace: seq<nat>, cap: nat, o: nat)
    ensures Queue(trace + [o], cap) == Access(Queue(trace, cap), cap, o)
  {
    assert (trace + [o])[..|trace|] == trace;
  }

  lemma InElements(q: seq<nat>, o: nat)
    ensures o in q <==> o in Elements(q)
    ensures q != [] && o !in q ==> o !in q[1..]
  {
  }

  lemma AccessCases(q: seq<nat>, cap: nat, o: nat)
    ensures cap == 0 && q == [] ==> Access(q, cap, o) == q
    ensures o in q ==> Access(q, cap, o) == Touch(q, o)
    ensures cap > 0 && o !in q ==> Access(q, cap, o) == Touch(if |q| >= cap then q[1..] else q, o)
  {
    WithoutAbsent(q, o);
    if q != [] { WithoutAbsent(q[1..], o); }
  }

  // ----- the cache object -----

  class BlockCache {
    var blocks: map<nat, bytes>
    var lru: seq<nat>
    const cap: nat
    /** Every lookup that ended with the block at hand, oldest first. */
    ghost var trace: seq<nat>

    constructor (cap: nat)
      ensures Valid() && blocks == map[] && lru == [] && trace == [] && this.cap == cap
    {
      blocks, lru, this.cap, trace := map[], [], cap, [];
    }

    /** Keys and queue agree, and the queue is what the lookups so far leave. */
    ghost predicate Valid()
      reads this
    {
      blocks.Keys == Elements(lru) && Distinct(lru) && |lru| <= cap && lru == Queue(trace, cap)
    }

    lemma HoldsLastUsed()
      requires Valid()
      ensures lru == LastN(Recency(trace), cap) && blocks.Keys == Elements(LastN(Recency(trace), cap))
    {
      QueueIsLastDistinct(trace, cap);
    }

    method Get(offset: nat) returns (r: Option<bytes>)
      requires Valid()
      modifies this`lru, this`trace
      ensures Valid()
      ensures trace == if offset in blocks then old(trace) + [offset] else old(trace)
      ensures r == if offset in blocks then Some(blocks[offset]) else None
      ensures lru == if offset in blocks then Touch(old(lru), offset) else old(lru)
    {
      if offset !in blocks {
        return None;
      }
      r := Some(blocks[offset]);
      assert offset in Elements(lru);
      TouchElements(lru, offset);
      assert Elements(lru) + {offset} == Elements(lru);
      QueueNext(trace, cap, offset);
      TouchInPlace(offset);
      trace := trace + [offset];
    }

    /** Inserts a block; a new one evicts the least recently used when the cache is full. */
    method Put(offset: nat, data: bytes)
      requires Valid()
      modifies this
      ensures Valid()
      ensures lru == Access(old(lru), cap, offset) && trace == old(trace) + [offset]
      ensures cap == 0 ==> blocks == old(blocks)
      ensures cap > 0 ==> offset in blocks && blocks[offset] == data
      ensures forall o :: o in blocks && o != offset ==> o in old(blocks) && blocks[o] == old(blocks)[o]
    {
      hide *;
      ValidIs();
      QueueNext(trace, cap, offset);
      AccessCases(lru, cap, offset);
      trace := trace + [offset];
      if cap == 0 {
        ValidWhen();
        return;
      }
      DistinctCount(lru);
      assert |blocks.Keys| == |lru|;
      InElements(lru, offset);
      if offset !in blocks && |blocks| >= cap && lru != [] {
        EvictFront();
      }
      InElements(lru, offset);
      TouchElements(lru, offset);
      blocks := blocks[offset := data];
      TouchInPlace(offset);
      ValidWhen();
    }

    lemma ValidIs()
      requires Valid()
      ensures blocks.Keys == Elements(lru) && Distinct(lru) && |lru| <= cap && lru == Queue(trace, cap)
    {
    }

    lemma ValidWhen()
      requires blocks.Keys == Elements(lru) && Distinct(lru) && |lru| <= cap && lru == Queue(trace, cap)
      ensures Valid()
    {
    }

    method EvictFront()
      requires blocks.Keys == Elements(lru) && Distinct(lru) && lru != []
      modifies this`blocks, this`lru
      ensures blocks.Keys == Elements(lru) && Distinct(lru)
      ensures lru == old(lru)[1..] && blocks == old(blocks) - {old(lru)[0]}
    {
      PopFront(lru);
      var evict := lru[0];
      lru := lru[1..];
      blocks := blocks - {evict};
    }

    method TouchInPlace(offset: nat)
      modifies this`lru
      ensures lru == Touch(old(lru), offset)
    {
      var pos := 0;
      while pos < |lru| && lru[pos] != offset
        invariant pos <= |lru| && offset !in lru[..pos]
      {
        pos := pos + 1;
      }
      SamePosition(lru, pos, offset);
      if pos < |lru| {
        lru := lru[..pos] + lru[pos + 1..];
      }
      lru := lru + [offset];
    }
  }

  lemma WithoutAbsent(q: seq<nat>, o: nat)
    ensures o !in q ==> Without(q, o) == q
  {
  }
}
