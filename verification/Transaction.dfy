/** Buffered transactions over a store. */
module Transaction {
  import opened Bytes
  import opened Codec
  import opened Records
  import opened Layers
  import opened StoreSpec
  import opened Keeping
  import opened Runs
  import opened Store

  /** Buffered writes: a value is a put, nothing is a delete. */
  type Pending = map<bytes, Option<Value>>

  function AsEntry(v: Option<Value>): Entry {
    if v.Some? then Present(v.value) else Tombstone
  }

  function AsEntries(pending: Pending): Layer {
    map k | k in pending :: AsEntry(pending[k])
  }

  /** The batch a commit writes: one write per buffered key, in key order. */
  function BatchOf(pending: Pending): Batch {
    Sorted(AsEntries(pending))
  }

  /** What a read inside the transaction answers. */
  function ReadYourWrites(pending: Pending, visible: map<bytes, Value>, key: bytes): Option<Value> {
    if key in pending then pending[key] else Get(visible, key)
  }

  /** Committing makes every key read as it did inside the transaction. */
  lemma CommitAsRead(visible: map<bytes, Value>, pending: Pending, key: bytes)
    ensures Get(Write(visible, BatchOf(pending)), key) == ReadYourWrites(pending, visible, key)
  {
    hide Write, Sorted, MapOf;
    SortedEnumerates(AsEntries(pending));
    WriteIsOverlay(visible, BatchOf(pending), key);
  }

  /** The transaction predicts its own commit, through any flush and compaction the commit triggers. */
  lemma TransactionPredictsCommit(st: State, pending: Pending, key: bytes)
    requires Inv(st) && Legal(st, Tx(BatchOf(pending)))
    ensures Get(Visible(After(st, Tx(BatchOf(pending)))), key) == ReadYourWrites(pending, Visible(st), key)
  {
    hide *;
    var batch := BatchOf(pending);
    EventLaw(st, Tx(batch));
    CommitAsRead(Visible(st), pending, key);
    WriteAllOne(Visible(st), batch);
    OneBatch(batch);
  }

  /** Buffered values are visible, buffered deletes are gone, and other keys are as before. */
  ghost predicate Settled(pending: Pending, before: map<bytes, Value>, after: map<bytes, Value>) {
    && (forall k :: k in pending && pending[k].Some? ==> k in after && after[k] == pending[k].value)
    && (forall k :: k in pending && pending[k].None? ==> k !in after)
    && (forall k :: k !in pending ==> (k in after <==> k in before) && (k in before ==> after[k] == before[k]))
  }

  lemma SettledWhen(pending: Pending, before: map<bytes, Value>, after: map<bytes, Value>)
    requires forall k :: Get(after, k) == ReadYourWrites(pending, before, k)
    ensures Settled(pending, before, after)
  {
    forall k | k in pending && pending[k].Some? ensures k in after && after[k] == pending[k].value {
      assert Get(after, k) == ReadYourWrites(pending, before, k);
    }
    forall k | k in pending && pending[k].None? ensures k !in after {
      assert Get(after, k) == ReadYourWrites(pending, before, k);
    }
    forall k | k !in pending ensures (k in after <==> k in before) && (k in before ==> after[k] == before[k]) {
      assert Get(after, k) == ReadYourWrites(pending, before, k);
    }
  }

  /** A commit writes its keys in ascending order, each once. */
  lemma BatchInKeyOrder(pending: Pending)
    ensures Ascending(BatchOf(pending)) && |BatchOf(pending)| == |pending|
    ensures forall i :: 0 <= i < |BatchOf(pending)| ==> BatchOf(pending)[i].key in pending
  {
    hide Sorted, MapOf;
    SortedEnumerates(AsEntries(pending));
    SortedLength(AsEntries(pending));
    assert AsEntries(pending).Keys == pending.Keys;
    assert |AsEntries(pending).Keys| == |pending.Keys|;
    forall i | 0 <= i < |BatchOf(pending)| ensures BatchOf(pending)[i].key in pending { MapOfAt(BatchOf(pending), i); }
  }

  lemma {:induction false} SortedLength(m: Layer)
    ensures |Sorted(m)| == |m|
    decreases |m|
  {
    if m != map[] {
      assert m.Keys != {};
      var top := Greatest(m.Keys);
      assert (m - {top}).Keys == m.Keys - {top};
      assert |(m - {top}).Keys| == |m.Keys| - 1;
      SortedLength(m - {top});
    }
  }

  lemma OneBatch(batch: Batch)
    ensures Batches(Tx(batch)) == if batch == [] then [] else [batch]
  {
  }

  lemma NoPending(pending: Pending)
    ensures BatchOf(pending) == [] <==> pending == map[]
  {
    SortedEnumerates(AsEntries(pending));
    if pending != map[] {
      var k :| k in pending;
      assert k in AsEntries(pending);
      MapOfKeys(BatchOf(pending), k);
    } else {
      assert AsEntries(pending) == map[];
    }
  }

  class Transaction {
    const store: Store
    var pending: Pending

    constructor (store: Store)
      ensures this.store == store && pending == map[]
    {
      this.store := store;
      pending := map[];
    }

    method SetValue(key: bytes, value: Value)
      modifies this
      ensures pending == old(pending)[key := Some(value)]
    {
      pending := pending[key := Some(value)];
    }

    method DeleteValue(key: bytes)
      modifies this
      ensures pending == old(pending)[key := None]
    {
      pending := pending[key := None];
    }

    /** Its own buffered writes first, then the committed store; only the latter can report damage. */
    method GetValue(key: bytes) returns (r: Result<Option<Value>>)
      requires TablesValid(store.sstables) && DamageDetected(store.device.image, store.sstables)
      modifies set t | t in store.sstables :: t.cache
      ensures TablesValid(store.sstables) && store.Abs() == old(store.Abs())
      ensures r.Err? || r == Ok(ReadYourWrites(pending, Visible(store.Abs()), key))
      ensures key in pending ==> r.Ok?
      ensures old(store.Valid()) ==> store.Valid() && r.Ok?
    {
      if key in pending {
        return Ok(pending[key]);
      }
      hide Visible, Inv, Footprint, TablesValid;
      r := store.GetValue(key);
    }

    /** Logs all buffered writes under one COMMIT and applies them; nothing to do when the buffer is empty. */
    method Commit()
      requires store.Valid() && Legal(store.Abs(), Tx(BatchOf(pending)))
      modifies store, store.device
      ensures store.Valid() && store.Abs() == After(old(store.Abs()), Tx(BatchOf(pending)))
      ensures store.device.history == old(store.device.history) + EventOps(old(store.Abs()), Tx(BatchOf(pending)))
      ensures forall key ::
        Get(Visible(store.Abs()), key) == ReadYourWrites(pending, Visible(old(store.Abs())), key)
      ensures Settled(pending, Visible(old(store.Abs())), Visible(store.Abs()))
    {
      hide *;
      ghost var st := store.Abs();
      ghost var m := store.StoreFacts();
      NoPending(pending);
      EventShape(st, Tx(BatchOf(pending)));
      forall key ensures Get(Visible(After(st, Tx(BatchOf(pending)))), key) == ReadYourWrites(pending, Visible(st), key) {
        TransactionPredictsCommit(st, pending, key);
      }
      SettledWhen(pending, Visible(st), Visible(After(st, Tx(BatchOf(pending)))));
      if |pending| == 0 {
        assert pending == map[];
        return;
      }
      store.CommitAll(BatchOf(pending));
    }

    /** Dropping the buffer leaves the store and the disk alone. */
    method Rollback()
      modifies this
      ensures pending == map[]
    {
      pending := map[];
    }
  }
}
