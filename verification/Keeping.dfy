/** What any history keeps: no visible value is lost or changed, and none appears that was never written. */
module Keeping {
  import opened Bytes
  import opened Codec
  import opened Records
  import opened Layers
  import opened StoreSpec
  import opened StoreLaws

  // ----- many batches -----

  function WriteAll(m: map<bytes, Value>, batches: seq<Batch>): map<bytes, Value> {
    if batches == [] then m else Write(WriteAll(m, batches[..|batches| - 1]), batches[|batches| - 1])
  }

  lemma {:induction false} WriteAllConcat(m: map<bytes, Value>, a: seq<Batch>, b: seq<Batch>)
    ensures WriteAll(m, a + b) == WriteAll(WriteAll(m, a), b)
  {
    hide Write;
    if b == [] {
      assert a + b == a;
    } else {
      var n := |b| - 1;
      assert (a + b)[..|a + b| - 1] == a + b[..n];
      WriteAllConcat(m, a, b[..n]);
    }
  }

  lemma WriteAllOne(m: map<bytes, Value>, batch: Batch)
    ensures WriteAll(m, [batch]) == Write(m, batch) && WriteAll(m, []) == m && Write(m, []) == m
  {
    assert [batch][..0] == [];
  }

  lemma {:induction false} WriteAllCovers(a: map<bytes, Value>, b: map<bytes, Value>, batches: seq<Batch>)
    requires Covers(a, b)
    ensures Covers(WriteAll(a, batches), WriteAll(b, batches))
  {
    hide Write, Covers;
    if batches != [] {
      var n := |batches| - 1;
      WriteAllCovers(a, b, batches[..n]);
      WriteCovers(WriteAll(a, batches[..n]), WriteAll(b, batches[..n]), batches[n]);
    }
  }

  // ----- where a value comes from -----

  /** Some layer holds this value for this key, visible or not. */
  ghost predicate Stored(st: State, k: bytes, v: Value) {
    || Get(st.data, k) == Some(Present(v))
    || exists i :: 0 <= i < |OnDisk(st)| && Get(OnDisk(st)[i].contents, k) == Some(Present(v))
  }

  ghost predicate PutsValue(batch: Batch, k: bytes, v: Value) {
    exists i :: 0 <= i < |batch| && batch[i] == Record(k, Present(v))
  }

  ghost predicate Written(batches: seq<Batch>, k: bytes, v: Value) {
    exists i :: 0 <= i < |batches| && PutsValue(batches[i], k, v)
  }

  /** `r` stores nothing but what `st` stores and the batches wrote. */
  ghost predicate Stems(r: State, st: State, batches: seq<Batch>) {
    forall k, v :: Stored(r, k, v) ==> Stored(st, k, v) || Written(batches, k, v)
  }

  /** From `st` to `r`, having written the batches: every value they leave visible is, and nothing else was made up. */
  ghost predicate Keeps(r: State, st: State, batches: seq<Batch>) {
    Covers(Visible(r), WriteAll(Visible(st), batches)) && Stems(r, st, batches)
  }

  lemma VisibleIsStored(st: State, k: bytes)
    requires k in Visible(st)
    ensures Stored(st, k, Visible(st)[k])
  {
    hide Merge;
    var layers := [st.data] + Stack(st.tables);
    var i := MergeFrom(layers, k);
    if i > 0 { assert layers[i] == OnDisk(st)[i - 1].contents; }
  }

  lemma KeepsExactly(r: State, st: State, batches: seq<Batch>)
    requires Visible(r) == WriteAll(Visible(st), batches) && Stems(r, st, batches)
    ensures Keeps(r, st, batches)
  {
    hide Stems, Visible;
  }

  lemma KeepsTransitive(r: State, mid: State, st: State, a: seq<Batch>, b: seq<Batch>)
    requires Keeps(mid, st, a) && Keeps(r, mid, b)
    ensures Keeps(r, st, a + b)
  {
    hide Stored, PutsValue, Visible;
    WriteAllCovers(Visible(mid), WriteAll(Visible(st), a), b);
    WriteAllConcat(Visible(st), a, b);
    forall k, v | Stored(r, k, v) ensures Stored(st, k, v) || Written(a + b, k, v) {
      if Written(b, k, v) {
        var i :| 0 <= i < |b| && PutsValue(b[i], k, v);
        assert (a + b)[|a| + i] == b[i];
      } else if Written(a, k, v) {
        var i :| 0 <= i < |a| && PutsValue(a[i], k, v);
        assert (a + b)[i] == a[i];
      }
    }
  }

  /** Nothing written: the parts concatenate to nothing. */
  lemma KeepsThrough(r: State, mid: State, st: State, batches: seq<Batch>)
    requires Keeps(mid, st, batches) && Keeps(r, mid, [])
    ensures Keeps(r, st, batches)
  {
    KeepsTransitive(r, mid, st, batches, []);
    assert batches + [] == batches;
  }

  // ----- what each effect stores -----

  /** The same layers, or fewer, store no more. */
  lemma SameLayersStem(r: State, st: State)
    requires r.data == st.data && forall t :: t in OnDisk(r) ==> t in OnDisk(st)
    ensures Stems(r, st, [])
  {
    hide OnDisk;
    forall k, v | Stored(r, k, v) ensures Stored(st, k, v) {
      if i :| 0 <= i < |OnDisk(r)| && Get(OnDisk(r)[i].contents, k) == Some(Present(v)) {
        assert OnDisk(r)[i] in OnDisk(st);
      }
    }
  }

  lemma CommitStems(st: State, batch: Batch)
    requires st.sequence + |batch| < U64
    ensures Stems(CommitBatch(st, batch), st, [batch])
  {
    hide Insert, MapOf, CommitOps;
    var after := CommitBatch(st, batch);
    InsertIsOverlay(st.data, batch);
    assert OnDisk(after) == OnDisk(st);
    forall k, v | Stored(after, k, v) ensures Stored(st, k, v) || Written([batch], k, v) {
      if k in MapOf(batch) && MapOf(batch)[k] == Present(v) {
        MapHasRecord(batch, k);
        assert PutsValue([batch][0], k, v);
      }
    }
  }

  lemma {:induction false} MapHasRecord(batch: Batch, k: bytes)
    requires k in MapOf(batch)
    ensures exists i :: 0 <= i < |batch| && batch[i] == Record(k, MapOf(batch)[k])
  {
    var n := |batch| - 1;
    if batch[n].key != k {
      MapHasRecord(batch[..n], k);
      var i :| 0 <= i < n && batch[..n][i] == Record(k, MapOf(batch[..n])[k]);
      assert batch[i] == Record(k, MapOf(batch)[k]);
    } else {
      assert batch[n] == Record(k, MapOf(batch)[k]);
    }
  }

  lemma MoveStems(st: State)
    ensures Stems(Move(st), st, [])
  {
    MoveShape(st);
    hide Move, OnDisk;
    forall k, v | Stored(Move(st), k, v) ensures Stored(st, k, v) {
      StoredPushed(Move(st), Level(st.nextId, st.data), OnDisk(st), k, v);
    }
  }

  /** Storing with one more level in front. */
  lemma StoredPushed(r: State, t: Level, rest: seq<Level>, k: bytes, v: Value)
    requires OnDisk(r) == [t] + rest && Stored(r, k, v)
    ensures
      || Get(r.data, k) == Some(Present(v)) || Get(t.contents, k) == Some(Present(v))
      || exists i :: 0 <= i < |rest| && Get(rest[i].contents, k) == Some(Present(v))
  {
    hide OnDisk;
    if i :| 0 <= i < |OnDisk(r)| && Get(OnDisk(r)[i].contents, k) == Some(Present(v)) {
      if i > 0 { assert rest[i - 1] == OnDisk(r)[i]; }
    }
  }

  /** A merged table over some of the old ones stores nothing new. */
  lemma MergedStems(r: State, st: State, id: nat, rest: seq<Level>)
    requires r.data == st.data && OnDisk(r) == MergedLevel(st.tables, id) + rest && forall t :: t in rest ==> t in OnDisk(st)
    ensures Stems(r, st, [])
  {
    hide Merge;
    var merged := MergedLevel(st.tables, id);
    if merged == [] {
      assert OnDisk(r) == rest;
      SameLayersStem(r, st);
    } else {
      assert merged == [merged[0]];
      forall k, v | Stored(r, k, v) ensures Stored(st, k, v) {
        StoredPushed(r, merged[0], rest, k, v);
        if Get(merged[0].contents, k) == Some(Present(v)) {
          var i := MergeFrom(Stack(st.tables), k);
          assert OnDisk(st)[i].contents == Stack(st.tables)[i];
        } else if i :| 0 <= i < |rest| && Get(rest[i].contents, k) == Some(Present(v)) {
          assert rest[i] in OnDisk(st);
        }
      }
    }
  }

  lemma SameLayersKeep(r: State, st: State)
    requires r.data == st.data && r.tables == st.tables && r.stale == st.stale
    ensures Keeps(r, st, [])
  {
    hide View, Stems;
    SameLayersStem(r, st);
    WriteAllOne(Visible(st), []);
  }

  lemma CommitKeeps(st: State, batch: Batch)
    requires Inv(st) && Loggable(batch, st.sequence)
    ensures st.sequence + |batch| < U64 && Keeps(CommitBatch(st, batch), st, [batch])
  {
    hide *;
    LoggableRoom(batch, st.sequence);
    CommitLaw(st, batch);
    CommitStems(st, batch);
    WriteAllOne(Visible(st), batch);
    KeepsExactly(CommitBatch(st, batch), st, [batch]);
  }

  lemma MoveKeeps(st: State)
    requires Inv(st) && StorableMap(st.data)
    ensures Keeps(Move(st), st, [])
  {
    hide *;
    MoveLaw(st);
    MoveStems(st);
    WriteAllOne(Visible(st), []);
    KeepsExactly(Move(st), st, []);
  }

  lemma StackConcat(a: seq<Level>, b: seq<Level>)
    ensures Stack(a + b) == Stack(a) + Stack(b)
  {
  }

  lemma OnDiskIs(st: State)
    ensures OnDisk(st) == st.tables + st.stale
  {
  }

  lemma OnDiskAlone(st: State)
    requires st.stale == []
    ensures OnDisk(st) == st.tables
  {
  }

  /** Reopening finds leftover files too. */
  lemma ReopenedKeeps(r: State, st: State)
    requires r.data == st.data && r.tables == OnDisk(st) && r.stale == []
    ensures Keeps(r, st, [])
  {
    hide View, Stems;
    OnDiskAlone(r);
    SameLayersStem(r, st);
    StackConcat(st.tables, st.stale);
    StaleCovers(st.data, Stack(st.tables), Stack(st.stale));
    WriteAllOne(Visible(st), []);
  }

  /** The memtable also written out, before it is cleared. */
  lemma PushedKeeps(r: State, st: State)
    requires r.data == st.data && r.tables == [Level(st.nextId, st.data)] + OnDisk(st) && r.stale == []
    ensures Keeps(r, st, [])
  {
    hide View, Stored;
    OnDiskAlone(r);
    forall k, v | Stored(r, k, v) ensures Stored(st, k, v) { StoredTwice(r, st, k, v); }
    StackPush(Level(st.nextId, st.data), OnDisk(st));
    FlushKeepsView(st.data, Stack(OnDisk(st)));
    StackConcat(st.tables, st.stale);
    StaleCovers(st.data, Stack(st.tables), Stack(st.stale));
    WriteAllOne(Visible(st), []);
  }

  lemma StoredTwice(r: State, st: State, k: bytes, v: Value)
    requires r.data == st.data && OnDisk(r) == [Level(st.nextId, st.data)] + OnDisk(st) && Stored(r, k, v)
    ensures Stored(st, k, v)
  {
    hide OnDisk;
    StoredPushed(r, Level(st.nextId, st.data), OnDisk(st), k, v);
  }

  /** Reopening on a merged table over whatever old files are left. */
  lemma MergedKeeps(r: State, st: State, id: nat, rest: seq<Level>)
    requires r.data == st.data && r.tables == MergedLevel(st.tables, id) + rest && r.stale == []
    requires forall t :: t in rest ==> t in OnDisk(st)
    ensures Keeps(r, st, [])
  {
    hide View, Merged, MergedTable, Stems;
    OnDiskAlone(r);
    MergedStems(r, st, id, rest);
    StackMerged(st.tables, id, rest);
    CleanupCovers(st.data, Stack(st.tables), Stack(rest));
    WriteAllOne(Visible(st), []);
  }

  lemma LeftOnDisk(st: State, j: nat, t: Level)
    requires j <= |Removable(st)| && t in Left(st, j)
    ensures t in OnDisk(st)
  {
    hide Removable;
    SurvivingIn(st.tables, Elements(Removable(st)[..j]), t);
  }

  lemma CompactKeeps(st: State)
    requires Inv(st) && CompactFits(st)
    ensures Keeps(Compact(st), st, [])
  {
    hide *;
    if |st.tables| < 2 {
      NothingToCompact(st);
      SameLayersKeep(st, st);
    } else {
      CompactShape(st);
      CompactLaw(st);
      forall t | t in Left(st, |Removable(st)|) ensures t in OnDisk(st) { LeftOnDisk(st, |Removable(st)|, t); }
      MergedStems(Compact(st), st, st.nextId, Left(st, |Removable(st)|));
      WriteAllOne(Visible(st), []);
      KeepsExactly(Compact(st), st, []);
    }
  }

  lemma FlushKeeps(st: State)
    requires Inv(st) && FlushFits(st)
    ensures Keeps(StoreSpec.Flush(st), st, [])
  {
    hide *;
    FlushShape(st);
    if st.data == map[] {
      SameLayersKeep(st, st);
    } else {
      MoveKeeps(st);
      if |st.tables| + 1 > MAX_SSTABLES {
        MoveLaw(st);
        CompactKeeps(Move(st));
        KeepsThrough(Compact(Move(st)), Move(st), st, []);
      }
    }
  }

  lemma WriteKeeps(st: State, batch: Batch)
    requires Inv(st) && Loggable(batch, st.sequence)
    requires Footprint(Insert(st.data, batch)) >= st.budget ==> FlushFits(CommitBatch(st, batch))
    ensures Keeps(MaybeFlush(CommitBatch(st, batch)), st, [batch])
  {
    hide *;
    LoggableRoom(batch, st.sequence);
    var mid := CommitBatch(st, batch);
    CommitShape(st, batch);
    CommitLaw(st, batch);
    CommitKeeps(st, batch);
    MaybeFlushShape(mid);
    if Footprint(mid.data) >= mid.budget {
      FlushKeeps(mid);
      KeepsThrough(StoreSpec.Flush(mid), mid, st, [batch]);
    }
  }
}
