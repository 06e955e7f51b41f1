/** The public handle to one table: byte values, batches, ranges and prefix scans. */
module TableHandle {
  import opened Bytes
  import opened Codec
  import opened Records
  import opened Layers
  import opened StoreSpec
  import opened Keeping
  import opened Runs
  import opened Store
  import opened Scan
  import opened PrefixRange
  import opened Transaction

  datatype KeyValue = KeyValue(key: bytes, value: bytes)

  // ----- batches of puts -----

  function Puts(entries: seq<KeyValue>): Batch {
    seq(|entries|, i requires 0 <= i < |entries| => Record(entries[i].key, Present(Value.Bytes(entries[i].value))))
  }

  /** The transaction buffer after buffering the puts in order; a later one replaces an earlier one. */
  function Buffered(entries: seq<KeyValue>): Pending {
    if entries == [] then map[]
    else
      var e := entries[|entries| - 1];
      Buffered(entries[..|entries| - 1])[e.key := Some(Value.Bytes(e.value))]
  }

  lemma {:induction false} BufferedIsPuts(entries: seq<KeyValue>)
    ensures AsEntries(Buffered(entries)) == MapOf(Puts(entries))
  {
    if entries == [] {
      assert Puts(entries) == [];
    } else {
      var n := |entries| - 1;
      BufferedIsPuts(entries[..n]);
      assert Puts(entries)[..n] == Puts(entries[..n]);
    }
  }

  /** A batch of puts writes what putting one pair after the other would: the last duplicate wins. */
  lemma LastDuplicateWins(visible: map<bytes, Value>, entries: seq<KeyValue>)
    ensures Write(visible, BatchOf(Buffered(entries))) == Write(visible, Puts(entries))
  {
    hide Write, MapOf, Sorted;
    BufferedIsPuts(entries);
    SortedEnumerates(AsEntries(Buffered(entries)));
    WriteByMap(visible, BatchOf(Buffered(entries)), Puts(entries));
  }

  /** The last pair with a key is what the key holds; keys of no pair are as before. */
  ghost predicate LastOnesStand(entries: seq<KeyValue>, before: map<bytes, Value>, after: map<bytes, Value>) {
    && (forall i :: 0 <= i < |entries| && LastWithKey(entries, i) ==>
         entries[i].key in after && after[entries[i].key] == Value.Bytes(entries[i].value))
    && (forall k :: Untouched(entries, k) ==> Get(after, k) == Get(before, k))
  }

  predicate Untouched(entries: seq<KeyValue>, k: bytes) {
    forall i :: 0 <= i < |entries| ==> entries[i].key != k
  }

  predicate LastWithKey(entries: seq<KeyValue>, i: nat)
    requires i < |entries|
  {
    forall j :: i < j < |entries| ==> entries[j].key != entries[i].key
  }

  lemma {:induction false} PutsStand(entries: seq<KeyValue>, before: map<bytes, Value>)
    ensures LastOnesStand(entries, before, Write(before, Puts(entries)))
  {
    hide Write;
    if entries == [] {
      assert Puts(entries) == [];
      WriteNothing(before);
    } else {
      var n := |entries| - 1;
      PutsStand(entries[..n], before);
      WriteLast(before, entries);
      PutStands(entries, before, Write(before, Puts(entries[..n])));
    }
  }

  lemma WriteNothing(before: map<bytes, Value>)
    ensures Write(before, []) == before
  {
  }

  lemma WriteLast(before: map<bytes, Value>, entries: seq<KeyValue>)
    requires entries != []
    ensures var n := |entries| - 1;
      Write(before, Puts(entries)) == Write(before, Puts(entries[..n]))[entries[n].key := Value.Bytes(entries[n].value)]
  {
    assert Puts(entries)[..|entries| - 1] == Puts(entries[..|entries| - 1]);
  }

  lemma PutStands(entries: seq<KeyValue>, before: map<bytes, Value>, mid: map<bytes, Value>)
    requires entries != [] && LastOnesStand(entries[..|entries| - 1], before, mid)
    ensures var n := |entries| - 1; LastOnesStand(entries, before, mid[entries[n].key := Value.Bytes(entries[n].value)])
  {
    var n := |entries| - 1;
    var after := mid[entries[n].key := Value.Bytes(entries[n].value)];
    hide LastWithKey, Untouched;
    forall i | 0 <= i < |entries| && LastWithKey(entries, i)
      ensures entries[i].key in after && after[entries[i].key] == Value.Bytes(entries[i].value)
    {
      if i < n { LastBefore(entries, i); }
    }
    forall k | Untouched(entries, k) ensures Get(after, k) == Get(before, k) {
      UntouchedBefore(entries, k);
    }
  }

  lemma UntouchedBefore(entries: seq<KeyValue>, k: bytes)
    requires entries != [] && Untouched(entries, k)
    ensures entries[|entries| - 1].key != k && Untouched(entries[..|entries| - 1], k)
  {
  }

  lemma LastBefore(entries: seq<KeyValue>, i: nat)
    requires i < |entries| - 1 && LastWithKey(entries, i)
    ensures var n := |entries| - 1;
      entries[n].key != entries[i].key && entries[..n][i] == entries[i] && LastWithKey(entries[..n], i)
  {
    assert forall j :: i < j < |entries| - 1 ==> entries[..|entries| - 1][j] == entries[j];
  }

  // ----- what scans return -----

  /** Every visible pair selected, in strictly ascending key order, provided all their values are bytes. */
  ghost predicate Lists(r: Result<seq<KeyValue>>, visible: map<bytes, Value>, select: bytes -> bool) {
    match r
    case Ok(out) =>
      && (forall i, j :: 0 <= i < j < |out| ==> Less(out[i].key, out[j].key))
      && (forall e: KeyValue :: e in out <==> select(e.key) && Get(visible, e.key) == Some(Value.Bytes(e.value)))
      && (forall k :: k in visible && select(k) ==> visible[k].Bytes?)
    case Err(e) =>
      e == UnexpectedValue && exists k :: k in visible && select(k) && !visible[k].Bytes?
  }

  lemma ListsScan(out: seq<KeyValue>, pairs: seq<Pair>, visible: map<bytes, Value>, lo: Bound, hi: Bound)
    requires ScanIs(pairs, visible, lo, hi) && |out| == |pairs|
    requires forall i :: 0 <= i < |pairs| ==> pairs[i] == Pair(out[i].key, Value.Bytes(out[i].value))
    ensures Lists(Ok(out), visible, k => InBounds(k, lo, hi))
  {
    hide InBounds, Less;
    forall e: KeyValue ensures e in out <==> Pair(e.key, Value.Bytes(e.value)) in pairs {
      if e in out {
        var i :| 0 <= i < |out| && out[i] == e;
        assert pairs[i] == Pair(e.key, Value.Bytes(e.value));
      }
      if Pair(e.key, Value.Bytes(e.value)) in pairs {
        var i :| 0 <= i < |pairs| && pairs[i] == Pair(e.key, Value.Bytes(e.value));
        assert out[i] == e;
      }
    }
    forall k | k in visible && InBounds(k, lo, hi) ensures visible[k].Bytes? {
      assert Pair(k, visible[k]) in pairs;
      var i :| 0 <= i < |pairs| && pairs[i] == Pair(k, visible[k]);
    }
  }

  lemma PrefixSelects(prefix: bytes, k: bytes)
    ensures var hi := if Upper(prefix).Some? then Excluded(Upper(prefix).value) else Unbounded;
      && (InBounds(k, Included(prefix), hi) <==> prefix <= k)
      && Ordered(Included(prefix), hi)
  {
    hide Upper;
    PrefixRangeExact(prefix, k);
    PrefixRangeExact(prefix, prefix);
    if Upper(prefix).Some? { LessTotal(prefix, Upper(prefix).value); }
  }

  lemma ListsSame(r: Result<seq<KeyValue>>, visible: map<bytes, Value>, p: bytes -> bool, q: bytes -> bool)
    requires Lists(r, visible, p) && forall k :: p(k) <==> q(k)
    ensures Lists(r, visible, q)
  {
    hide Less;
  }

  /** What reading one value as bytes answers. */
  predicate GetIs(r: Result<Option<bytes>>, v: Option<Value>) {
    if v.None? then r == Ok(None)
    else if v.value.Bytes? then r == Ok(Some(v.value.data))
    else r == Err(UnexpectedValue)
  }

  class Table {
    const store: Store

    constructor (store: Store)
      ensures this.store == store
    {
      this.store := store;
    }

    /** The stored bytes, nothing, or an error for a value of another kind; or the store's error on a damaged table. */
    method Get(key: bytes) returns (r: Result<Option<bytes>>)
      requires TablesValid(store.sstables) && DamageDetected(store.device.image, store.sstables)
      modifies set t | t in store.sstables :: t.cache
      ensures TablesValid(store.sstables) && store.Abs() == old(store.Abs())
      ensures r.Err? || GetIs(r, Records.Get(Visible(store.Abs()), key))
      ensures old(store.Valid()) ==> store.Valid() && GetIs(r, Records.Get(Visible(store.Abs()), key))
    {
      hide Visible, Inv, Footprint, TablesValid;
      var v := store.GetValue(key);
      if v.Err? { return Err(v.error); }
      match v.value {
        case None => return Ok(None);
        case Some(value) =>
          if value.Bytes? { return Ok(Some(value.data)); }
          return Err(UnexpectedValue);
      }
    }

    /** All pairs land under one COMMIT; of two with the same key the last one counts. */
    method PutBatch(entries: seq<KeyValue>)
      requires store.Valid() && Legal(store.Abs(), Tx(BatchOf(Buffered(entries))))
      modifies store, store.device
      ensures store.Valid() && store.Abs() == After(old(store.Abs()), Tx(BatchOf(Buffered(entries))))
      ensures Visible(store.Abs()) == Write(Visible(old(store.Abs())), Puts(entries))
      ensures LastOnesStand(entries, Visible(old(store.Abs())), Visible(store.Abs()))
    {
      hide *;
      ghost var st := store.Abs();
      ghost var m := store.StoreFacts();
      var tx := new Transaction(store);
      BufferedNone(entries);
      for i := 0 to |entries|
        modifies tx
        invariant tx.pending == Buffered(entries[..i])
      {
        BufferedNext(entries, i);
        tx.SetValue(entries[i].key, Value.Bytes(entries[i].value));
      }
      assert entries[..|entries|] == entries;
      ghost var batch := BatchOf(Buffered(entries));
      EventLaw(st, Tx(batch));
      OneBatch(batch);
      WriteAllOne(Visible(st), batch);
      LastDuplicateWins(Visible(st), entries);
      PutsStand(entries, Visible(st));
      tx.Commit();
    }

    /** The pairs within the bounds, or an error if one of them is not bytes, or a table is damaged. */
    method RangeBounds(lo: Bound, hi: Bound) returns (r: Result<seq<KeyValue>>)
      requires TablesValid(store.sstables) && DamageDetected(store.device.image, store.sstables) && Ordered(lo, hi)
      ensures r.Ok? || store.Valid() ==> Lists(r, Visible(store.Abs()), k => InBounds(k, lo, hi))
    {
      hide Visible, Inv, Footprint, InBounds, Less, Ordered, TablesValid;
      var scan := store.ScanRange(lo, hi);
      if scan.Err? { return Err(scan.error); }
      var pairs := scan.value;
      var out: seq<KeyValue> := [];
      for i := 0 to |pairs|
        invariant |out| == i && forall j :: 0 <= j < i ==> pairs[j] == Pair(out[j].key, Value.Bytes(out[j].value))
      {
        if !pairs[i].value.Bytes? {
          assert pairs[i] in pairs;
          return Err(UnexpectedValue);
        }
        out := out + [KeyValue(pairs[i].key, pairs[i].value.data)];
      }
      ListsScan(out, pairs, Visible(store.Abs()), lo, hi);
      r := Ok(out);
    }

    /** All pairs of the table. */
    method Scan() returns (r: Result<seq<KeyValue>>)
      requires TablesValid(store.sstables) && DamageDetected(store.device.image, store.sstables)
      ensures r.Ok? || store.Valid() ==> Lists(r, Visible(store.Abs()), k => true)
    {
      hide Visible, Inv, Footprint, Less, TablesValid;
      r := RangeBounds(Unbounded, Unbounded);
      if r.Ok? || store.Valid() {
        ListsSame(r, Visible(store.Abs()), k => InBounds(k, Unbounded, Unbounded), k => true);
      }
    }

    /** The pairs with `start <= key < end`. */
    method Range(start: bytes, end: bytes) returns (r: Result<seq<KeyValue>>)
      requires TablesValid(store.sstables) && DamageDetected(store.device.image, store.sstables) && !Less(end, start)
      ensures r.Ok? || store.Valid() ==> Lists(r, Visible(store.Abs()), k => !Less(k, start) && Less(k, end))
    {
      hide Visible, Inv, Footprint, Less, TablesValid;
      r := RangeBounds(Included(start), Excluded(end));
      if r.Ok? || store.Valid() {
        ListsSame(r, Visible(store.Abs()), k => InBounds(k, Included(start), Excluded(end)),
                  k => !Less(k, start) && Less(k, end));
      }
    }

    /** Exactly the pairs whose key begins with the prefix. */
    method ScanPrefix(prefix: bytes) returns (r: Result<seq<KeyValue>>)
      requires TablesValid(store.sstables) && DamageDetected(store.device.image, store.sstables)
      ensures r.Ok? || store.Valid() ==> Lists(r, Visible(store.Abs()), k => prefix <= k)
    {
      hide Visible, Inv, Footprint, Upper, Less, TablesValid;
      var upper := PrefixUpperBound(prefix);
      var hi := if upper.Some? then Excluded(upper.value) else Unbounded;
      forall k ensures InBounds(k, Included(prefix), hi) <==> prefix <= k { PrefixSelects(prefix, k); }
      PrefixSelects(prefix, prefix);
      r := RangeBounds(Included(prefix), hi);
      if r.Ok? || store.Valid() {
        ListsSame(r, Visible(store.Abs()), k => InBounds(k, Included(prefix), hi), k => prefix <= k);
      }
    }
  }

  lemma BufferedNone(entries: seq<KeyValue>)
    ensures Buffered(entries[..0]) == map[]
  {
  }

  lemma BufferedNext(entries: seq<KeyValue>, i: nat)
    requires i < |entries|
    ensures Buffered(entries[..i + 1]) == Buffered(entries[..i])[entries[i].key := Some(Value.Bytes(entries[i].value))]
  {
    assert entries[..i + 1][..i] == entries[..i];
  }
}
