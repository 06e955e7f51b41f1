/** The memtable budget measured in what a flush would write. */
module Budget {
  import opened Bytes
  import opened Codec
  import opened Records
  import opened Wal
  import opened Disk
  import opened Layers
  import opened StoreSpec
  import opened StoreLaws

  /** An entry counts as its record does, less the nine bytes of the header and the one that tells the kind of value. */
  lemma EntryBytes(k: bytes, e: Entry)
    ensures |EncodeRecord(Record(k, e))| == EntryFootprint(k, e) + 9 + if e.Present? then 1 else 0
  {
    hide BE;
  }

  lemma LiveWithout(m: Layer, k: bytes)
    requires k in m
    ensures |m| == |m - {k}| + 1
    ensures |Live(m)| == |Live(m - {k})| + if m[k].Present? then 1 else 0
  {
    assert m.Keys == (m - {k}).Keys + {k};
    assert |m.Keys| == |(m - {k}).Keys| + 1;
    if m[k].Present? {
      assert Live(m).Keys == Live(m - {k}).Keys + {k};
      assert |Live(m).Keys| == |Live(m - {k}).Keys| + 1;
    } else {
      assert Live(m) == Live(m - {k});
    }
  }

  lemma SortedLast(m: Layer)
    requires m != map[]
    ensures m.Keys != {}
    ensures var k := Greatest(m.Keys);
      k in m && Sorted(m) == Sorted(m - {k}) + [Record(k, m[k])] && Footprint(m) == EntryFootprint(k, m[k]) + Footprint(m - {k})
  {
    assert m.Keys != {};
    hide EntryFootprint;
  }

  /** The memtable's byte count is the size of the records a flush would write, less their fixed parts. */
  lemma {:induction false} MapBytes(m: Layer)
    ensures |BlockBytes(Sorted(m))| == Footprint(m) + 9 * |m| + |Live(m)|
    decreases |m|
  {
    hide Sorted, Footprint, BlockBytes, EncodeRecord, EntryFootprint, Live;
    if m == map[] {
      NothingWritten();
    } else {
      SortedLast(m);
      var k := Greatest(m.Keys);
      LiveWithout(m, k);
      MapBytes(m - {k});
      EntryBytes(k, m[k]);
      BlockBytesConcat(Sorted(m - {k}), [Record(k, m[k])]);
      BlockBytesOne(Record(k, m[k]));
    }
  }

  lemma NothingWritten()
    ensures BlockBytes(Sorted(map[])) == [] && Footprint(map[]) == 0 && Live(map[]) == map[]
  {
  }

  /** After every write with a positive budget, what the memtable would write stays below the budget and ten bytes an
      entry; and an entry whose value alone reaches the budget never stays in memory. */
  lemma BudgetInBytes(st: State, batch: Batch)
    requires Inv(st) && Loggable(batch, st.sequence) && 0 < st.budget
    requires Footprint(Insert(st.data, batch)) >= st.budget ==> FlushFits(CommitBatch(st, batch))
    ensures st.sequence + |batch| < U64
    ensures var after := MaybeFlush(CommitBatch(st, batch));
      && |BlockBytes(Sorted(after.data))| < st.budget + 9 * |after.data| + |Live(after.data)|
      && forall k :: k in after.data && after.data[k].Present? && after.data[k].value.Bytes? ==>
           |k| + |after.data[k].value.data| < st.budget
  {
    hide *;
    WriteLaw(st, batch);
    var m := MaybeFlush(CommitBatch(st, batch)).data;
    MapBytes(m);
    forall k | k in m && m[k].Present? && m[k].value.Bytes? ensures |k| + |m[k].value.data| < st.budget {
      ValueCounts(m, k);
    }
  }

  lemma ValueCounts(m: Layer, k: bytes)
    requires k in m && m[k].Present? && m[k].value.Bytes?
    ensures |k| + |m[k].value.data| <= Footprint(m)
  {
    hide Footprint;
    FootprintWithout(m, k);
  }

  /** The default budget is 4 MiB. */
  lemma DefaultBudget(im: Image)
    ensures Recover(im).Ok? ==> Recover(im).value.budget == 4_194_304
  {
    hide Parse, Replay, LevelsOf;
  }
}
