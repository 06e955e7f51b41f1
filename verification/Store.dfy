/** One open table: the memtable, its log and its immutable tables, updated in place. */
module Store {
  import opened Bytes
  import opened Codec
  import opened Records
  import opened TableFormat
  import opened TableReader
  import opened SsTable
  import opened Disk
  import opened Wal
  import opened Layers
  import opened StoreSpec
  import opened StoreLaws
  import opened Keeping
  import opened Runs
  import opened Scan

  // ----- tables in memory and the levels they stand for -----

  ghost function Levels(ts: seq<SsTable>): (ls: seq<Level>)
    ensures |ls| == |ts| && forall i :: 0 <= i < |ts| ==> ls[i] == Level(ts[i].id, MapOf(ts[i].entries))
  {
    seq(|ts|, i requires 0 <= i < |ts| => Level(ts[i].id, MapOf(ts[i].entries)))
  }

  ghost predicate TableOk(t: SsTable)
    reads t.cache
  {
    t.Valid() && t.table == TableOf(t.entries) && t.entries == Sorted(MapOf(t.entries))
  }

  /** Every table is sound, was built from the sorted run of its map, and has a cache of its own. */
  ghost predicate TablesValid(ts: seq<SsTable>)
    reads set t | t in ts :: t.cache
  {
    && (forall i :: 0 <= i < |ts| ==> TableOk(ts[i]))
    && forall i, j :: 0 <= i < j < |ts| ==> ts[i].cache != ts[j].cache
  }

  /** The file on disk under a table's id is the one written for it, whole. */
  lemma FileIntact(im: Image, m: Mem, ts: seq<SsTable>, stale: seq<Level>, i: nat)
    requires Holds(im, m, Levels(ts) + stale) && i < |ts| && ts[i].entries == Sorted(MapOf(ts[i].entries))
    ensures ts[i].id in im.files && im.files[ts[i].id] == FileOf(ts[i].entries)
    ensures Intact(im.files[ts[i].id], Blocks(ts[i].entries)) && Detected(im.files[ts[i].id], Blocks(ts[i].entries))
  {
    hide Parse, Replay, FilesOf, StorableMap, FileOf, Blocks, Intact, Detected, Sorted, MapOf;
    assert (Levels(ts) + stale)[i] == Levels(ts)[i];
    FilesOfAt(Levels(ts) + stale, i);
    WrittenIsIntact(ts[i].entries);
    IntactIsDetected(FileOf(ts[i].entries), Blocks(ts[i].entries));
  }

  /** What reading a table's file finds; nothing when it is missing. */
  function FileUnder(im: Image, id: nat): bytes {
    if id in im.files then im.files[id] else []
  }

  lemma FileUnderIs(im: Image, id: nat)
    ensures id in im.files ==> FileUnder(im, id) == im.files[id]
  {
  }

  /** Every block of every table reads as written or is rejected. */
  ghost predicate DamageDetected(im: Image, ts: seq<SsTable>) {
    forall i :: 0 <= i < |ts| ==> Detected(FileUnder(im, ts[i].id), Blocks(ts[i].entries))
  }

  ghost predicate AllIntact(im: Image, ts: seq<SsTable>) {
    forall i :: 0 <= i < |ts| ==> Intact(FileUnder(im, ts[i].id), Blocks(ts[i].entries))
  }

  lemma IntactAt(im: Image, ts: seq<SsTable>, i: nat)
    requires AllIntact(im, ts) && i < |ts|
    ensures Intact(FileUnder(im, ts[i].id), Blocks(ts[i].entries))
  {
  }

  /** Every table file is as before, or cut short, or gone. */
  ghost predicate CutFrom(whole: Image, im: Image) {
    forall id :: FileUnder(im, id) <= FileUnder(whole, id)
  }

  /** Cutting or deleting table files leaves every read right or an error. */
  lemma CutFilesDetected(whole: Image, im: Image, ts: seq<SsTable>)
    requires DamageDetected(whole, ts) && CutFrom(whole, im)
    ensures DamageDetected(im, ts)
  {
    hide Detected, Blocks, FileUnder;
    forall i | 0 <= i < |ts| ensures Detected(FileUnder(im, ts[i].id), Blocks(ts[i].entries)) {
      var a, b := FileUnder(whole, ts[i].id), FileUnder(im, ts[i].id);
      assert b == a[..|b|];
      CutDetected(a, |b|, Blocks(ts[i].entries));
    }
  }

  lemma DamageAt(im: Image, ts: seq<SsTable>, i: nat)
    requires DamageDetected(im, ts) && i < |ts|
    ensures Detected(FileUnder(im, ts[i].id), Blocks(ts[i].entries))
  {
  }

  class Store {
    const device: Device
    const wal: Wal
    var data: Layer
    var memtableBytes: nat
    var memtableMaxBytes: nat
    var sequence: nat
    var sstables: seq<SsTable>
    var nextSstableId: nat
    /** The levels of old files that would not be removed. */
    ghost var stale: seq<Level>

    ghost function Abs(): State
      reads this, device
    {
      State(data, memtableMaxBytes, sequence, Levels(sstables), nextSstableId, device.image, stale, device.stuck)
    }

    /** The invariant of the value the object stands for, exact byte accounting, and sound tables. */
    ghost predicate Valid()
      reads this, device, set t | t in sstables :: t.cache
    {
      && wal.device == device
      && memtableBytes == Footprint(data)
      && Inv(Abs())
      && TablesValid(sstables)
    }

    constructor (device: Device)
      ensures this.device == device && wal.device == device && fresh(wal)
      ensures data == map[] && memtableBytes == 0 && memtableMaxBytes == DEFAULT_BUDGET
      ensures sequence == 0 && sstables == [] && nextSstableId == 1 && stale == []
    {
      this.device := device;
      wal := new Wal(device);
      data, memtableBytes, memtableMaxBytes := map[], 0, DEFAULT_BUDGET;
      sequence, sstables, nextSstableId, stale := 0, [], 1, [];
    }

    method SetMemtableBudget(budget: nat)
      requires Valid()
      modifies this`memtableMaxBytes
      ensures Valid() && Abs() == old(Abs()).(budget := budget)
    {
      hide Inv, TablesValid, Footprint;
      BudgetOnly(Abs(), budget, device.stuck);
      memtableMaxBytes := budget;
    }

    /** Adds the new footprint, gives back the replaced one, and never goes below zero. */
    method MemtableInsert(key: bytes, entry: Entry)
      requires memtableBytes == Footprint(data)
      modifies this`data, this`memtableBytes
      ensures data == old(data)[key := entry]
      ensures memtableBytes == Footprint(data)
    {
      hide Footprint, EntryFootprint;
      FootprintInsert(data, key, entry);
      memtableBytes := memtableBytes + EntryFootprint(key, entry);
      if key in data {
        memtableBytes := memtableBytes - EntryFootprint(key, data[key]);
      }
      data := data[key := entry];
    }

    // ----- opening -----

    /** Lists the table files, newest first, and opens each, up to the first that does not parse. */
    method LoadSstables(ghost written: map<nat, Layer>) returns (r: Result<()>)
      requires KnownFiles(device.image.files, written)
      modifies this`sstables, this`nextSstableId
      ensures var found := LevelsBy(device.image.files, written);
        && (found.Err? ==> r == Err(found.error))
        && (found.Ok? ==> r == Ok(()) && Levels(sstables) == found.value && TablesValid(sstables)
                          && DamageDetected(device.image, sstables) && nextSstableId == NextId(found.value))
      ensures forall t :: t in sstables ==> fresh(t.cache)
    {
      hide *;
      var files := device.image.files;
      var ids := DescendingIds(files.Keys);
      ghost var rest := files;
      sstables := [];
      NoTables();
      NoDamage(device.image);
      KnownKeys(files, written);
      PrependNothing(LevelsBy(files, written));
      assert ids[0..] == ids;
      for i := 0 to |ids|
        invariant TablesValid(sstables) && DamageDetected(device.image, sstables)
        invariant |sstables| == i && (i > 0 ==> sstables[0].id == ids[0])
        invariant forall t :: t in sstables ==> fresh(t.cache)
        invariant ids[i..] == DescendingIds(rest.Keys) && forall id :: id in rest ==> id in files && rest[id] == files[id]
        invariant LevelsBy(files, written) == Prepend(Levels(sstables), LevelsBy(rest, written))
      {
        IdsStep(rest, ids, i);
        ghost var m := written[ids[i]];
        var sst := SsTable.Open(ids[i], files[ids[i]], Sorted(m));
        OpenedFile(files, written, ids[i]);
        LevelsStep(rest, written, Levels(sstables));
        if sst.Err? { return Err(sst.error); }
        TableOkIs(sst.value);
        AppendValid(sst.value, sstables);
        AppendDetected(device.image, sst.value, sstables);
        sstables := sstables + [sst.value];
        rest := rest - {ids[i]};
      }
      LevelsEnd(rest, written, Levels(sstables));
      LevelsAre(sstables);
      NextIdIs(Levels(sstables));
      nextSstableId := if |ids| == 0 then 1 else ids[0] + 1;
      r := Ok(());
    }

    /** Applies the entries held back until their COMMIT. */
    method ApplyPending(pending: seq<WalEntry>) returns (r: Result<()>)
      requires memtableBytes == Footprint(data)
      modifies this`data, this`memtableBytes, this`sequence
      ensures memtableBytes == Footprint(data)
      ensures var replayed := Replay(old(Mem(data, sequence)), pending);
        && (replayed.Err? ==> r == Err(replayed.error))
        && (replayed.Ok? ==> r == Ok(()) && Mem(data, sequence) == replayed.value)
    {
      hide Replay, Footprint, ReplayOne;
      ghost var goal := Replay(Mem(data, sequence), pending);
      assert pending[0..] == pending;
      for k := 0 to |pending|
        invariant goal == Replay(Mem(data, sequence), pending[k..])
        invariant memtableBytes == Footprint(data)
      {
        var e := pending[k];
        ReplayHead(Mem(data, sequence), pending[k..]);
        assert pending[k..][1..] == pending[k + 1..];
        ReplayOneIs(Mem(data, sequence), e);
        match e.Op() {
          case Put =>
            if e.value.Some? {
              var value := FromProto(e.value.value);
              if value.Err? { return Err(value.error); }
              MemtableInsert(e.key, Present(value.value));
            }
          case Delete =>
            MemtableInsert(e.key, Tombstone);
          case Commit =>
        }
        sequence := Max(sequence, e.sequence);
      }
      ReplayNothing(Mem(data, sequence));
      r := Ok(());
    }

    /** Replays the committed batches of the log into an empty memtable, in order, each batch at its COMMIT. */
    method ReplayWal() returns (r: Result<()>)
      requires wal.device == device && data == map[] && sequence == 0 && memtableBytes == Footprint(data)
      modifies this`data, this`memtableBytes, this`sequence, device
      ensures device.history == old(device.history) + RecoveryOps(old(device.image))
      ensures device.image == ApplyAll(old(device.image), RecoveryOps(old(device.image)))
      ensures device.stuck == old(device.stuck)
      ensures memtableBytes == Footprint(data)
      ensures var replayed := Replay(FRESH, Parse(old(device.image).wal).Committed());
        && (replayed.Err? ==> r == Err(replayed.error))
        && (replayed.Ok? ==> r == Ok(()) && Mem(data, sequence) == replayed.value)
    {
      hide Parse, Replay, Footprint, ApplyAll, RecoveryOps, ReplayOne, Max;
      var entries := wal.ReadForRecovery();
      CommittedEndsInCommit(old(device.image).wal);
      ghost var goal := Replay(FRESH, entries);
      var pending: seq<WalEntry> := [];
      assert [] + entries[0..] == entries;
      for i := 0 to |entries|
        modifies this`data, this`memtableBytes, this`sequence
        invariant goal == Replay(Mem(data, sequence), pending + entries[i..])
        invariant memtableBytes == Footprint(data)
        invariant pending == [] || (i > 0 && !entries[i - 1].Op().Commit?)
      {
        var entry := entries[i];
        if entry.Op().Commit? {
          ReplayToCommit(Mem(data, sequence), pending, entries, i);
          r := ApplyPending(pending);
          if r.Err? { return; }
          sequence := Max(sequence, entry.sequence);
          pending := [];
        } else {
          ShiftPending(pending, entries, i);
          pending := pending + [entry];
        }
      }
      NothingPending(pending, entries);
      ReplayNothing(Mem(data, sequence));
      r := Ok(());
    }

    /** Opens the table on a device: tables first, then the log on top. `written` says what each table file that parses
        was written for; data blocks may be damaged. */
    static method Open(device: Device, ghost written: map<nat, Layer>) returns (r: Result<Store>)
      requires KnownFiles(device.image.files, written)
      modifies device
      ensures device.history == old(device.history) +
        if LevelsBy(old(device.image).files, written).Ok? then RecoveryOps(old(device.image)) else []
      ensures device.stuck == old(device.stuck)
      ensures var found := RecoverBy(old(device.image), written);
        && (found.Err? ==> r == Err(found.error))
        && (found.Ok? ==> r.Ok? && fresh(r.value) && r.value.device == device)
        && (found.Ok? ==> r.value.Abs() == found.value.(stuck := device.stuck))
        && (found.Ok? ==> TablesValid(r.value.sstables) && DamageDetected(device.image, r.value.sstables))
        && (found.Ok? && Inv(found.value) ==> r.value.Valid())
      ensures WholeFiles(old(device.image).files, written) ==>
        RecoverBy(old(device.image), written) == Recover(old(device.image))
    {
      hide *;
      EmptyFootprint();
      ghost var im := device.image;
      KnownKeys(im.files, written);
      RecoverByIs(im, written);
      if WholeFiles(im.files, written) { WholeLevels(im.files, written); }
      RecoverIs(im);
      var store := new Store(device);
      var loaded := store.LoadSstables(written);
      if loaded.Err? { return Err(loaded.error); }
      var replayed := store.ReplayWal();
      store.AbsIs();
      if replayed.Err? { return Err(replayed.error); }
      SameFiles(im, device.image, store.sstables);
      r := Ok(store);
      if Inv(RecoverBy(im, written).value) {
        StuckAside(RecoverBy(im, written).value, device.stuck);
        store.Rebuild(FRESH);
      }
    }

    // ----- writing -----

    /** Appends every write and one COMMIT to the log, with one fsync. */
    method LogWrites(batch: Batch)
      requires wal.device == device && Loggable(batch, sequence)
      modifies this`sequence, device
      ensures sequence == old(sequence) + |batch| && sequence < U64
      ensures device.history == old(device.history) + CommitOps(batch, old(sequence))
      ensures device.image == ApplyAll(old(device.image), CommitOps(batch, old(sequence)))
      ensures device.stuck == old(device.stuck)
    {
      hide *;
      ghost var s, h, im := sequence, device.history, device.image;
      LoggableRoom(batch, s);
      CommitOpsAre(batch, s);
      ghost var ops := CommitOps(batch, s);
      ApplyNone(im, ops);
      assert h + ops[..0] == h;
      for i := 0 to |batch|
        invariant sequence == s + i
        invariant device.history == h + ops[..i] && device.image == ApplyAll(im, ops[..i])
        invariant device.stuck == old(device.stuck)
      {
        sequence := sequence + 1;
        wal.Append(LogEntry(batch[i], sequence));
        OpsStep(im, h, ops, i);
      }
      wal.WriteCommit(sequence);
      OpsStep(im, h, ops, |batch|);
      OpsStep(im, h, ops, |batch| + 1);
      assert ops[..|batch| + 2] == ops;
      Assoc(h + ops[..|batch|], [ops[|batch|]], [Sync]);
    }

    method InsertAll(batch: Batch)
      requires memtableBytes == Footprint(data)
      modifies this`data, this`memtableBytes
      ensures data == Insert(old(data), batch) && memtableBytes == Footprint(data)
    {
      hide *;
      ghost var mem := data;
      InsertNone(mem, batch);
      for i := 0 to |batch|
        invariant data == Insert(mem, batch[..i]) && memtableBytes == Footprint(data)
      {
        InsertNext(mem, batch, i);
        MemtableInsert(batch[i].key, batch[i].entry);
      }
      assert batch[..|batch|] == batch;
    }

    /** Logs a batch, applies it to the memtable once it is durable, and flushes if the budget is reached. */
    method CommitAll(batch: Batch)
      requires Valid() && batch != [] && Legal(Abs(), Tx(batch))
      modifies this, device
      ensures Valid() && Abs() == After(old(Abs()), Tx(batch))
      ensures device.history == old(device.history) + EventOps(old(Abs()), Tx(batch))
      ensures Visible(Abs()) == Write(Visible(old(Abs())), batch)
      ensures forall t :: t in sstables ==> t in old(sstables) || fresh(t.cache)
    {
      hide *;
      ghost var st := Abs();
      AbsIs();
      ghost var m := StoreFacts();
      EventShape(st, Tx(batch));
      CommitLaw(st, batch);
      EventLaw(st, Tx(batch));
      BatchesIs(batch);
      WriteAllOne(Visible(st), batch);
      CommitShape(st, batch);
      LogWrites(batch);
      InsertAll(batch);
      CommitIs(st, batch);
      AbsIs();
      Rebuild(m);
      MaybeFlush();
      Assoc(old(device.history), CommitOps(batch, st.sequence), MaybeFlushOps(CommitBatch(st, batch)));
    }

    method SetValue(key: bytes, value: Value)
      requires Valid() && Legal(Abs(), Tx([Record(key, Present(value))]))
      modifies this, device
      ensures Valid() && Abs() == After(old(Abs()), Tx([Record(key, Present(value))]))
      ensures device.history == old(device.history) + EventOps(old(Abs()), Tx([Record(key, Present(value))]))
      ensures Visible(Abs()) == Visible(old(Abs()))[key := value]
      ensures forall t :: t in sstables ==> t in old(sstables) || fresh(t.cache)
    {
      hide *;
      WriteOne(Visible(Abs()), Record(key, Present(value)));
      CommitAll([Record(key, Present(value))]);
    }

    /** Writes a tombstone, whether or not the key exists. */
    method DeleteValue(key: bytes)
      requires Valid() && Legal(Abs(), Tx([Record(key, Tombstone)]))
      modifies this, device
      ensures Valid() && Abs() == After(old(Abs()), Tx([Record(key, Tombstone)]))
      ensures device.history == old(device.history) + EventOps(old(Abs()), Tx([Record(key, Tombstone)]))
      ensures Visible(Abs()) == Visible(old(Abs())) - {key}
      ensures forall t :: t in sstables ==> t in old(sstables) || fresh(t.cache)
    {
      hide *;
      WriteOne(Visible(Abs()), Record(key, Tombstone));
      CommitAll([Record(key, Tombstone)]);
    }

    // ----- flushing -----

    /** Writes the memtable as the newest table, then empties memtable and log, in that order. */
    method MoveToTable()
      requires Valid() && StorableMap(data)
      modifies this, device
      ensures Valid() && Abs() == Move(old(Abs())) && device.history == old(device.history) + MoveOps(old(Abs()))
      ensures forall t :: t in sstables ==> t in old(sstables) || fresh(t.cache)
    {
      hide *;
      ghost var st := Abs();
      AbsIs();
      ghost var m := StoreFacts();
      MoveLaw(st);
      MoveIs(st);
      SortedEnumerates(data);
      EnumeratesIs(Sorted(data), data);
      StorableIs(data);
      var id := nextSstableId;
      var file, table := TableFormat.Flush(Sorted(data));
      device.Do(WriteFile(id, file));
      nextSstableId := nextSstableId + 1;
      var sst := new SsTable(id, table, Sorted(data));
      TableOkIs(sst);
      PushValid(sst, sstables);
      sstables := [sst] + sstables;
      data := map[];
      memtableBytes := 0;
      wal.Clear();
      EmptyFootprint();
      AbsIs();
      Rebuild(FRESH);
    }

    /** Moves the memtable, unless it is empty, into a table of its own, and compacts when there are then too many. */
    method Flush()
      requires Valid() && FlushFits(Abs())
      modifies this, device
      ensures Valid() && Abs() == StoreSpec.Flush(old(Abs()))
      ensures device.history == old(device.history) + FlushOps(old(Abs()))
      ensures forall t :: t in sstables ==> t in old(sstables) || fresh(t.cache)
    {
      hide *;
      ghost var st := Abs();
      AbsIs();
      FlushShape(st);
      MoveShape(st);
      if |data| == 0 {
        assert data == map[];
        return;
      }
      MoveToTable();
      AbsIs();
      MaybeCompact();
      Assoc(old(device.history), MoveOps(st), MaybeCompactOps(Move(st)));
      FlushIs(st);
    }

    method MaybeFlush()
      requires Valid() && (memtableBytes >= memtableMaxBytes ==> FlushFits(Abs()))
      modifies this, device
      ensures Valid() && Abs() == StoreSpec.MaybeFlush(old(Abs()))
      ensures device.history == old(device.history) + MaybeFlushOps(old(Abs()))
      ensures forall t :: t in sstables ==> t in old(sstables) || fresh(t.cache)
    {
      hide *;
      AbsIs();
      ghost var m := StoreFacts();
      MaybeFlushShape(Abs());
      if memtableBytes >= memtableMaxBytes {
        Flush();
      }
    }

    // ----- compacting -----

    method MaybeCompact()
      requires Valid() && (|sstables| > 8 ==> CompactFits(Abs()))
      modifies this, device
      ensures Valid() && Abs() == StoreSpec.MaybeCompact(old(Abs()))
      ensures device.history == old(device.history) + MaybeCompactOps(old(Abs()))
      ensures forall t :: t in sstables ==> t in old(sstables) || fresh(t.cache)
    {
      hide *;
      AbsIs();
      MaybeCompactIs(Abs());
      if |sstables| > 8 {
        ReadsIntact();
        var done := Compact();
      }
    }

    /** The layered merge of all tables, or the error of a damaged one. */
    method MergeTables() returns (r: Result<Layer>)
      requires TablesValid(sstables) && DamageDetected(device.image, sstables)
      ensures r.Err? || r == Ok(Merge(Stack(Levels(sstables))))
      ensures AllIntact(device.image, sstables) ==> r.Ok?
    {
      hide *;
      ghost var ls := Levels(sstables);
      LevelsAre(sstables);
      var merged: Layer := map[];
      MergeNone(ls);
      for i := |sstables| downto 0
        invariant merged == Merge(Stack(ls[i..]))
      {
        DamageAt(device.image, sstables, i);
        if AllIntact(device.image, sstables) { IntactAt(device.image, sstables, i); }
        var read := ReadTable(i);
        if read.Err? { return Err(read.error); }
        var all := read.value;
        ghost var below := merged;
        InsertNone(below, all);
        for k := 0 to |all|
          invariant merged == Insert(below, all[..k])
        {
          InsertNext(below, all, k);
          merged := merged[all[k].key := all[k].entry];
        }
        assert all[..|all|] == all;
        InsertIsOverlay(below, all);
        MergeNext(ls, i);
      }
      assert ls[0..] == ls;
      r := Ok(merged);
    }

    /** All entries of one table, or an error when its file is damaged or gone. */
    method ReadTable(i: nat) returns (r: Result<seq<Record>>)
      requires i < |sstables| && TablesValid(sstables)
      requires Detected(FileUnder(device.image, sstables[i].id), Blocks(sstables[i].entries))
      ensures r.Err? || r == Ok(sstables[i].entries)
      ensures Intact(FileUnder(device.image, sstables[i].id), Blocks(sstables[i].entries)) ==> r == Ok(sstables[i].entries)
    {
      hide *;
      TablesOk(sstables);
      TableOkFacts(sstables[i]);
      sstables[i].ValidUsable();
      r := sstables[i].ReadAllEntries(FileUnder(device.image, sstables[i].id));
    }

    /** The merged map becomes the only table, or no table at all when nothing is left. */
    method InstallMerged(merged: Layer)
      requires merged != map[] ==> StorableMap(merged)
      modifies this`sstables, this`nextSstableId, device
      ensures TablesValid(sstables)
      ensures forall t :: t in sstables ==> fresh(t.cache)
      ensures Levels(sstables) == if merged == map[] then [] else [Level(old(nextSstableId), merged)]
      ensures nextSstableId == old(nextSstableId) + |Levels(sstables)|
      ensures var ops := if merged == map[] then [] else [WriteFile(old(nextSstableId), FileFor(merged))];
        device.history == old(device.history) + ops && device.image == ApplyAll(old(device.image), ops)
      ensures device.stuck == old(device.stuck)
    {
      hide *;
      NoTables();
      if |merged| == 0 {
        assert merged == map[];
        sstables := [];
        ApplyOne(device.image, Sync);
      } else {
        assert merged != map[];
        SortedEnumerates(merged);
        EnumeratesIs(Sorted(merged), merged);
        StorableIs(merged);
        var id := nextSstableId;
        var file, table := TableFormat.Flush(Sorted(merged));
        ApplyOne(device.image, WriteFile(id, file));
        device.Do(WriteFile(id, file));
        nextSstableId := nextSstableId + 1;
        var sst := new SsTable(id, table, Sorted(merged));
        TableOkIs(sst);
        PushValid(sst, []);
        sstables := [sst] + [];
      }
    }

    /** Removes each file in turn, ignoring failures. */
    method RemoveFiles(ids: seq<nat>)
      modifies device
      ensures device.history == old(device.history) + Removals(Unstuck(ids, device.stuck))
      ensures device.image == ApplyAll(old(device.image), Removals(Unstuck(ids, device.stuck)))
      ensures device.stuck == old(device.stuck)
    {
      hide *;
      ghost var h, im, stuck := device.history, device.image, device.stuck;
      NothingUnstuck(im, h, stuck);
      assert ids[..0] == [];
      for k := 0 to |ids|
        invariant device.stuck == stuck
        invariant device.history == h + Removals(Unstuck(ids[..k], stuck))
        invariant device.image == ApplyAll(im, Removals(Unstuck(ids[..k], stuck)))
      {
        device.Remove(ids[k]);
        UnstuckNext(im, h, ids, k, stuck);
      }
      assert ids[..|ids|] == ids;
    }

    /** Merges all tables into one without tombstones, then removes the old files, newest first, as far as they let
        themselves be removed. A damaged table stops it before it has changed anything. */
    method Compact() returns (r: Result<()>)
      requires TablesValid(sstables) && DamageDetected(device.image, sstables) && CompactFits(Abs())
      modifies this, device
      ensures r.Err? ==> Abs() == old(Abs()) && device.history == old(device.history) && sstables == old(sstables)
      ensures r.Ok? ==>
        Abs() == StoreSpec.Compact(old(Abs())) && device.history == old(device.history) + CompactOps(old(Abs()))
      ensures TablesValid(sstables) && forall t :: t in sstables ==> t in old(sstables) || fresh(t.cache)
      ensures old(Valid()) ==> r.Ok? && Valid()
    {
      hide *;
      ghost var st := Abs();
      ghost var m, whole := FRESH, Valid();
      AbsIs();
      if whole {
        ReadsIntact();
        m := StoreFacts();
        CompactLaw(st);
      }
      r := Ok(());
      if |sstables| < 2 {
        NothingToCompact(st);
        return;
      }
      CompactIs(st);
      LevelsAre(sstables);
      IdsAre(st.tables);
      var all := MergeTables();
      if all.Err? { return Err(all.error); }
      var merged := DropTombstones(all.value);
      var oldIds := seq(|sstables|, i requires 0 <= i < |sstables| reads this => sstables[i].id);
      assert oldIds == Ids(st.tables);
      InstallMerged(merged);
      ghost var written := device.history[|old(device.history)|..];
      RemoveFiles(oldIds);
      stale := Left(st, |Removable(st)|);
      ApplyAllConcat(st.disk, written, Removals(Removable(st)));
      Assoc(old(device.history), written, Removals(Removable(st)));
      AbsIs();
      assert Abs() == StoreSpec.Compact(st);
      if whole { Rebuild(m); }
    }

    // ----- reading -----

    /** Memtable first, then the tables from newest to oldest; the first that mentions the key decides. Data blocks
        damaged under an open store, and missing files, cause an error or no change of the answer. */
    method GetValue(key: bytes) returns (r: Result<Option<Value>>)
      requires TablesValid(sstables) && DamageDetected(device.image, sstables)
      modifies set t | t in sstables :: t.cache
      ensures TablesValid(sstables) && Abs() == old(Abs())
      ensures r.Err? || r == Ok(Records.Get(Visible(Abs()), key))
      ensures old(Valid()) ==> Valid() && r == Ok(Records.Get(Visible(Abs()), key))
    {
      hide *;
      AbsIs();
      ghost var whole := Valid();
      ghost var m := FRESH;
      if whole {
        ReadsIntact();
        m := StoreFacts();
      }
      ReadTop(Abs(), key);
      if key in data {
        ReadIs(data[key]);
        match data[key] {
          case Present(v) => return Ok(Some(v));
          case Tombstone => return Ok(None);
        }
      }
      for i := 0 to |sstables|
        invariant TablesValid(sstables) && Abs() == old(Abs())
        invariant whole ==> AllIntact(device.image, sstables)
        invariant Records.Get(Visible(Abs()), key) == Read(Records.Get(Merge(Stack(Levels(sstables)[i..])), key))
      {
        DamageAt(device.image, sstables, i);
        if whole { IntactAt(device.image, sstables, i); }
        var entry := TableGet(i, key);
        assert Abs() == old(Abs());
        AbsIs();
        if entry.Err? { return Err(entry.error); }
        LevelsAre(sstables);
        ReadNext(Levels(sstables), i, key);
        if entry.value.Some? {
          if whole { Rebuild(m); }
          ReadIs(entry.value.value);
          match entry.value.value {
            case Present(v) => return Ok(Some(v));
            case Tombstone => return Ok(None);
          }
        }
      }
      AbsIs();
      LevelsAre(sstables);
      ReadEnd(Levels(sstables), key);
      ReadIs(Tombstone);
      if whole { Rebuild(m); }
      return Ok(None);
    }

    /** The visible pairs within the bounds: tables oldest to newest, then the memtable, newest value per key. */
    method ScanRange(lo: Bound, hi: Bound) returns (r: Result<seq<Pair>>)
      requires TablesValid(sstables) && DamageDetected(device.image, sstables) && Ordered(lo, hi)
      ensures r.Err? || ScanIs(r.value, Visible(Abs()), lo, hi)
      ensures Valid() ==> r.Ok?
    {
      hide *;
      AbsIs();
      if Valid() { ReadsIntact(); }
      ghost var ls := Levels(sstables);
      LevelsAre(sstables);
      var merged: Layer := map[];
      MergeNone(ls);
      RestrictNone(lo, hi);
      for i := |sstables| downto 0
        invariant merged == Restrict(Merge(Stack(ls[i..])), lo, hi)
        invariant Valid() ==> AllIntact(device.image, sstables)
      {
        var t := sstables[i];
        MergeNext(ls, i);
        RestrictOverlay(Merge(Stack(ls[i + 1..])), ls[i].contents, lo, hi);
        TableFacts(i);
        KeyRangeIs(t);
        if t.table.minKey.Some? && t.table.maxKey.Some?
           && !RangeOverlaps(t.table.minKey.value, t.table.maxKey.value, lo, hi)
        {
          SkipLosesNothing(t.entries, lo, hi);
          assert merged + map[] == merged;
          continue;
        }
        DamageAt(device.image, sstables, i);
        if Valid() { IntactAt(device.image, sstables, i); }
        var all := ReadTable(i);
        if all.Err? { return Err(all.error); }
        merged := AddInBounds(merged, all.value, lo, hi);
      }
      assert ls[0..] == ls;
      SortedEnumerates(data);
      EnumeratesIs(Sorted(data), data);
      merged := AddInBounds(merged, Sorted(data), lo, hi);
      VisibleIs(Abs());
      RestrictOverlay(Merge(Stack(ls)), data, lo, hi);
      SortedEnumerates(merged);
      MergeFirst(data, Stack(ls));
      ScanAgreesWithReads([data] + Stack(ls), Sorted(merged), lo, hi);
      var out := CollectValues(Sorted(merged));
      r := Ok(out);
    }

    /** One table's answer, or an error when its file is damaged or gone; only that table's cache moves. */
    method TableGet(i: nat, key: bytes) returns (r: Result<Option<Entry>>)
      requires i < |sstables| && TablesValid(sstables)
      requires Detected(FileUnder(device.image, sstables[i].id), Blocks(sstables[i].entries))
      modifies sstables[i].cache
      ensures TablesValid(sstables)
      ensures r.Err? || r == Ok(Records.Get(MapOf(sstables[i].entries), key))
      ensures Intact(FileUnder(device.image, sstables[i].id), Blocks(sstables[i].entries)) ==>
        r == Ok(Records.Get(MapOf(sstables[i].entries), key))
    {
      hide *;
      TablesOk(sstables);
      TableOkFacts(sstables[i]);
      sstables[i].NothingSkipped(key);
      sstables[i].ValidUsable();
      r := sstables[i].Get(FileUnder(device.image, sstables[i].id), key);
      TableOkIs(sstables[i]);
      forall j | 0 <= j < |sstables| ensures TableOk(sstables[j]) {
        if j != i { assert old(TableOk(sstables[j])); }
      }
      TablesValidIs(sstables);
    }

    /** From a store at rest, whatever table files are cut short or deleted, reads are right or errors. */
    lemma CutFilesReadable(im: Image)
      requires Valid() && CutFrom(device.image, im)
      ensures TablesValid(sstables) && DamageDetected(im, sstables)
    {
      hide Inv, Footprint, TablesValid, DamageDetected, CutFrom;
      ReadsIntact();
      CutFilesDetected(device.image, im, sstables);
    }

    lemma ReadsIntact()
      requires Valid()
      ensures TablesValid(sstables) && DamageDetected(device.image, sstables)
      ensures AllIntact(device.image, sstables)
    {
      hide Inv, Holds, Footprint, Intact, Detected, Blocks, FileUnder;
      var m := Unpack(Abs());
      forall i | 0 <= i < |sstables|
        ensures Intact(FileUnder(device.image, sstables[i].id), Blocks(sstables[i].entries))
        ensures Detected(FileUnder(device.image, sstables[i].id), Blocks(sstables[i].entries))
      {
        TableFacts(i);
        FileIntact(device.image, m, sstables, stale, i);
        FileUnderIs(device.image, sstables[i].id);
      }
    }

    ghost method StoreFacts() returns (m: Mem)
      requires Valid()
      ensures m.data == data && Holds(device.image, m, Levels(sstables) + stale) && TablesValid(sstables)
      ensures Abs().data == data && Abs().tables == Levels(sstables) && Abs().disk == device.image
      ensures memtableBytes == Footprint(data) && wal.device == device && Inv(Abs())
    {
      hide Inv, Holds, TablesValid, Footprint;
      m := Unpack(Abs());
    }

    lemma TableFacts(i: nat)
      requires TablesValid(sstables) && i < |sstables|
      ensures TableOk(sstables[i]) && sstables[i].entries == Sorted(MapOf(sstables[i].entries))
    {
      hide Sorted, MapOf;
    }

    lemma AbsIs()
      ensures Abs() == State(data, memtableMaxBytes, sequence, Levels(sstables), nextSstableId, device.image, stale, device.stuck)
      ensures |Levels(sstables)| == |sstables|
    {
    }

    lemma Rebuild(m: Mem)
      requires TablesValid(sstables) && Inv(Abs()) && memtableBytes == Footprint(data) && wal.device == device
      ensures Valid()
    {
      hide Inv, TablesValid, Footprint;
    }
  }

  lemma ReadTop(st: State, key: bytes)
    ensures key in st.data ==> Records.Get(Visible(st), key) == Read(Some(st.data[key]))
    ensures key !in st.data ==> Records.Get(Visible(st), key) == Read(Records.Get(Merge(Stack(st.tables[0..])), key))
  {
    assert st.tables[0..] == st.tables;
    MergeFirst(st.data, Stack(st.tables));
    ViewReads([st.data] + Stack(st.tables), key);
  }

  lemma ReadNext(ls: seq<Level>, i: nat, key: bytes)
    requires i < |ls|
    ensures Records.Get(Merge(Stack(ls[i..])), key) ==
      var here := Records.Get(ls[i].contents, key);
      if here.Some? then here else Records.Get(Merge(Stack(ls[i + 1..])), key)
  {
    assert ls[i..] == [ls[i]] + ls[i + 1..];
    StackPush(ls[i], ls[i + 1..]);
    MergeFirst(ls[i].contents, Stack(ls[i + 1..]));
  }

  lemma ReadIs(e: Entry)
    ensures Read(Some(e)) == if e.Present? then Some(e.value) else None
    ensures Read(None) == None
  {
  }

  lemma ReadEnd(ls: seq<Level>, key: bytes)
    ensures Records.Get(Merge(Stack(ls[|ls|..])), key) == None
  {
    assert Stack(ls[|ls|..]) == [];
  }

  lemma MoveIs(st: State)
    ensures Move(st) == State(map[], st.budget, st.sequence, [Level(st.nextId, st.data)] + st.tables, st.nextId + 1,
                              Apply(Apply(st.disk, WriteFile(st.nextId, FileOf(Sorted(st.data)))), Clear), st.stale, st.stuck)
    ensures MoveOps(st) == [WriteFile(st.nextId, FileOf(Sorted(st.data)))] + [Clear]
  {
    hide FileOf, Sorted;
    MoveShape(st);
  }

  lemma EnumeratesIs(es: seq<Record>, m: Layer)
    requires Enumerates(es, m)
    ensures Ascending(es) && MapOf(es) == m
  {
  }

  lemma StorableIs(m: Layer)
    requires StorableMap(m)
    ensures Storable(Sorted(m)) && FileFor(m) == FileOf(Sorted(m))
  {
  }

  lemma LevelsAre(ts: seq<SsTable>)
    ensures |Levels(ts)| == |ts| && forall i :: 0 <= i < |ts| ==> Levels(ts)[i] == Level(ts[i].id, MapOf(ts[i].entries))
  {
  }

  /** A table with a cache of its own may be put in front of the others. */
  lemma PushValid(t: SsTable, ts: seq<SsTable>)
    requires TablesValid(ts) && TableOk(t)
    requires forall i :: 0 <= i < |ts| ==> ts[i].cache != t.cache
    ensures TablesValid([t] + ts)
    ensures Levels([t] + ts) == [Level(t.id, MapOf(t.entries))] + Levels(ts)
  {
    hide Sorted, MapOf, TableOk;
  }

  lemma TablesOk(ts: seq<SsTable>)
    requires TablesValid(ts)
    ensures forall i :: 0 <= i < |ts| ==> TableOk(ts[i])
    ensures forall i, j :: 0 <= i < j < |ts| ==> ts[i].cache != ts[j].cache
  {
    hide TableOk;
  }

  lemma TablesValidIs(ts: seq<SsTable>)
    requires forall i :: 0 <= i < |ts| ==> TableOk(ts[i])
    requires forall i, j :: 0 <= i < j < |ts| ==> ts[i].cache != ts[j].cache
    ensures TablesValid(ts)
  {
    hide TableOk;
  }

  lemma TableOkFacts(t: SsTable)
    requires TableOk(t)
    ensures t.Valid() && t.table == TableOf(t.entries) && t.entries == Sorted(MapOf(t.entries))
  {
    hide Sorted, MapOf, TableOf;
  }

  lemma TableOkIs(t: SsTable)
    requires t.Valid() && t.table == TableOf(t.entries) && t.entries == Sorted(MapOf(t.entries))
    ensures TableOk(t)
  {
  }

  lemma NoTables()
    ensures Levels([]) == [] && TablesValid([])
  {
  }

  lemma FlushIs(st: State)
    requires st.data != map[]
    ensures StoreSpec.Flush(st) == StoreSpec.MaybeCompact(Move(st))
    ensures FlushOps(st) == MoveOps(st) + MaybeCompactOps(Move(st))
  {
  }

  lemma MaybeCompactIs(st: State)
    ensures StoreSpec.MaybeCompact(st) == if |st.tables| > 8 then StoreSpec.Compact(st) else st
    ensures MaybeCompactOps(st) == if |st.tables| > 8 then CompactOps(st) else []
  {
    hide StoreSpec.Compact, CompactOps;
  }

  lemma MergeNone(ls: seq<Level>)
    ensures Merge(Stack(ls[|ls|..])) == map[]
  {
    assert Stack(ls[|ls|..]) == [];
  }

  lemma MergeNext(ls: seq<Level>, i: nat)
    requires i < |ls|
    ensures Merge(Stack(ls[i..])) == Merge(Stack(ls[i + 1..])) + ls[i].contents
  {
    assert ls[i..] == [ls[i]] + ls[i + 1..];
    StackPush(ls[i], ls[i + 1..]);
    MergeFirst(ls[i].contents, Stack(ls[i + 1..]));
  }

  lemma InsertNone(mem: Layer, all: seq<Record>)
    ensures Insert(mem, all[..0]) == mem
  {
  }

  lemma InsertNext(mem: Layer, all: seq<Record>, k: nat)
    requires k < |all|
    ensures Insert(mem, all[..k + 1]) == Insert(mem, all[..k])[all[k].key := all[k].entry]
  {
    assert all[..k + 1][..k] == all[..k];
  }

  lemma IdsAre(ls: seq<Level>)
    ensures |Ids(ls)| == |ls| && forall i :: 0 <= i < |ls| ==> Ids(ls)[i] == ls[i].id
  {
  }

  lemma CompactIs(st: State)
    requires |st.tables| >= 2
    ensures CompactFits(st) ==> StorableMap(Merged(st.tables))
    ensures Merged(st.tables) == DropTombstones(Merge(Stack(st.tables)))
    ensures var merged := Merged(st.tables);
      var level := if merged == map[] then [] else [Level(st.nextId, merged)];
      && CompactOps(st) == (if merged == map[] then [] else [WriteFile(st.nextId, FileFor(merged))]) + Removals(Removable(st))
      && Removable(st) == Unstuck(Ids(st.tables), st.stuck)
      && StoreSpec.Compact(st) == State(st.data, st.budget, st.sequence, level, st.nextId + |level|,
                                        ApplyAll(st.disk, CompactOps(st)), Left(st, |Removable(st)|), st.stuck)
  {
    hide FileFor, Merge, DropTombstones, StorableMap, Left, Unstuck, Ids;
  }

  lemma NothingUnstuck(im: Image, h: seq<DiskOp>, stuck: set<nat>)
    ensures Removals(Unstuck([], stuck)) == [] && h + [] == h && ApplyAll(im, []) == im
  {
  }

  lemma {:induction false} UnstuckSnoc(ids: seq<nat>, id: nat, stuck: set<nat>)
    ensures Unstuck(ids + [id], stuck) == Unstuck(ids, stuck) + if id in stuck then [] else [id]
  {
    if ids == [] {
      assert [] + [id] == [id] && [id][1..] == [];
    } else {
      assert (ids + [id])[0] == ids[0] && (ids + [id])[1..] == ids[1..] + [id];
      UnstuckSnoc(ids[1..], id, stuck);
    }
  }

  lemma UnstuckNext(im: Image, h: seq<DiskOp>, ids: seq<nat>, k: nat, stuck: set<nat>)
    requires k < |ids|
    ensures var before, after := Removals(Unstuck(ids[..k], stuck)), Removals(Unstuck(ids[..k + 1], stuck));
      && (ids[k] in stuck ==> after == before)
      && (ids[k] !in stuck ==> h + after == h + before + [RemoveFile(ids[k])])
      && (ids[k] !in stuck ==> ApplyAll(im, after) == Apply(ApplyAll(im, before), RemoveFile(ids[k])))
  {
    hide Unstuck, Apply;
    var gone, op := Unstuck(ids[..k], stuck), RemoveFile(ids[k]);
    assert ids[..k + 1] == ids[..k] + [ids[k]];
    UnstuckSnoc(ids[..k], ids[k], stuck);
    if ids[k] in stuck {
      assert gone + [] == gone;
    } else {
      assert Removals(gone + [ids[k]]) == Removals(gone) + [op];
      ApplyAllConcat(im, Removals(gone), [op]);
      ApplyOne(ApplyAll(im, Removals(gone)), op);
    }
  }

  lemma StuckAside(st: State, stuck: set<nat>)
    requires Inv(st)
    ensures Inv(st.(stuck := stuck))
  {
    BudgetOnly(st, st.budget, stuck);
    hide Inv;
    assert st.(budget := st.budget, stuck := stuck) == st.(stuck := stuck);
  }

  // ----- helpers of the scan -----

  method AddInBounds(merged: Layer, all: seq<Record>, lo: Bound, hi: Bound) returns (r: Layer)
    ensures r == merged + Restrict(MapOf(all), lo, hi)
  {
    hide *;
    r := merged;
    RestrictNone(lo, hi);
    NoRecords(all);
    assert merged + map[] == merged;
    for k := 0 to |all|
      invariant r == merged + Restrict(MapOf(all[..k]), lo, hi)
    {
      RestrictNext(all, k, lo, hi);
      if InBounds(all[k].key, lo, hi) {
        r := r[all[k].key := all[k].entry];
      }
    }
    assert all[..|all|] == all;
  }

  method CollectValues(es: seq<Record>) returns (out: seq<Pair>)
    ensures out == Values(es)
  {
    out := [];
    for k := 0 to |es|
      invariant out == Values(es[..k])
    {
      assert es[..k + 1][..k] == es[..k];
      if es[k].entry.Present? {
        out := out + [Pair(es[k].key, es[k].entry.value)];
      }
    }
    assert es[..|es|] == es;
  }

  lemma RestrictNone(lo: Bound, hi: Bound)
    ensures Restrict(map[], lo, hi) == map[]
  {
  }

  lemma NoRecords(all: seq<Record>)
    ensures MapOf(all[..0]) == map[]
  {
  }

  lemma KeyRangeIs(t: SsTable)
    requires TableOk(t)
    ensures Ascending(t.entries)
    ensures t.table.minKey.Some? ==> t.entries != []
    ensures t.table.minKey.Some? && t.table.maxKey.Some? ==>
      t.table.minKey.value == t.entries[0].key && t.table.maxKey.value == t.entries[|t.entries| - 1].key
  {
    hide Fits, Index, Blocks, Sound, Sorted, MapOf;
  }

  lemma VisibleIs(st: State)
    ensures Visible(st) == View([st.data] + Stack(st.tables))
  {
  }

  // ----- helpers of the log -----

  lemma CommitOpsAre(batch: Batch, s: nat)
    requires s + |batch| < U64
    ensures var ops := CommitOps(batch, s);
      && |ops| == |batch| + 2
      && (forall i :: 0 <= i < |batch| ==> ops[i] == DiskOp.Append(Frame(LogEntry(batch[i], s + 1 + i))))
      && ops[|batch|] == DiskOp.Append(Frame(CommitEntry(s + |batch|)))
      && ops[|batch| + 1] == Sync
  {
    hide Frame;
  }

  lemma OpsStep(im: Image, h: seq<DiskOp>, ops: seq<DiskOp>, i: nat)
    requires i < |ops|
    ensures ApplyAll(im, ops[..i + 1]) == Apply(ApplyAll(im, ops[..i]), ops[i])
    ensures h + ops[..i + 1] == h + ops[..i] + [ops[i]]
  {
    hide Apply;
    assert ops[..i + 1][..i] == ops[..i];
  }

  lemma BatchesIs(batch: Batch)
    ensures batch != [] ==> Batches(Tx(batch)) == [batch]
  {
  }

  lemma CommitIs(st: State, batch: Batch)
    requires st.sequence + |batch| < U64
    ensures CommitBatch(st, batch) == State(Insert(st.data, batch), st.budget, st.sequence + |batch|, st.tables, st.nextId,
                                            ApplyAll(st.disk, CommitOps(batch, st.sequence)), st.stale, st.stuck)
  {
    hide Insert, CommitOps;
  }

  lemma WriteOne(m: map<bytes, Value>, w: Record)
    ensures Write(m, [w]) == match w.entry case Present(v) => m[w.key := v] case Tombstone => m - {w.key}
  {
    assert [w][..0] == [];
  }

  // ----- helpers of opening -----

  /** Each table file was written for the map given and is whole or damaged in its data blocks only, or does not parse. */
  ghost predicate KnownFiles(files: map<nat, bytes>, written: map<nat, Layer>) {
    files.Keys <= written.Keys &&
    forall id :: id in files && ParseTable(files[id]).Ok? ==> WrittenFor(files[id], written[id])
  }

  ghost predicate WrittenFor(file: bytes, m: Layer) {
    StorableMap(m) && (file == FileFor(m) || DataDamaged(Sorted(m), file))
  }

  ghost predicate WholeFiles(files: map<nat, bytes>, written: map<nat, Layer>) {
    files.Keys <= written.Keys && forall id :: id in files && ParseTable(files[id]).Ok? ==>
      StorableMap(written[id]) && files[id] == FileFor(written[id])
  }

  /** The table files found in a directory, newest first, as what they were written for. */
  ghost function LevelsBy(files: map<nat, bytes>, written: map<nat, Layer>): Result<seq<Level>>
    requires files.Keys <= written.Keys
    decreases |files|
  {
    if files == map[] then Ok([])
    else
      assert files.Keys != {};
      var id := MaxOf(files.Keys);
      assert (files - {id}).Keys == files.Keys - {id};
      assert |(files - {id}).Keys| < |files.Keys|;
      var table :- ParseTable(files[id]);
      var rest :- LevelsBy(files - {id}, written);
      Ok([Level(id, written[id])] + rest)
  }

  ghost function RecoverBy(im: Image, written: map<nat, Layer>): Result<State>
    requires im.files.Keys <= written.Keys
  {
    var tables :- LevelsBy(im.files, written);
    var mem :- Replay(FRESH, Parse(im.wal).Committed());
    Ok(State(mem.data, DEFAULT_BUDGET, mem.sequence, tables, NextId(tables), ApplyAll(im, RecoveryOps(im)), [], {}))
  }

  /** Whole files are found to hold what they were written for. */
  lemma {:induction false} WholeLevels(files: map<nat, bytes>, written: map<nat, Layer>)
    requires WholeFiles(files, written)
    ensures LevelsBy(files, written) == LevelsOf(files)
    decreases |files|
  {
    hide ParseTable, Contents, StorableMap, FileFor;
    if files != map[] {
      assert files.Keys != {};
      var id := MaxOf(files.Keys);
      assert (files - {id}).Keys == files.Keys - {id};
      assert |(files - {id}).Keys| < |files.Keys|;
      WholeLevels(files - {id}, written);
      if ParseTable(files[id]).Ok? { FileForRoundTrip(written[id]); }
    }
  }

  /** A disk that holds tables has whole files, each written for its table. */
  lemma HeldFilesKnown(im: Image, m: Mem, tables: seq<Level>) returns (written: map<nat, Layer>)
    requires Holds(im, m, tables)
    ensures KnownFiles(im.files, written) && WholeFiles(im.files, written)
  {
    hide Parse, Replay, FileFor, StorableMap, ParseTable, FilesOf, DataDamaged;
    written := map id | id in im.files :: LevelAt(tables, id);
    forall id | id in im.files ensures StorableMap(written[id]) && im.files[id] == FileFor(written[id]) {
      FilesOfKeys(tables, id);
      var i :| 0 <= i < |tables| && tables[i].id == id;
      LevelAtIs(tables, i);
      FilesOfAt(tables, i);
    }
  }

  function LevelAt(tables: seq<Level>, id: nat): Layer {
    if tables == [] then map[] else if tables[0].id == id then tables[0].contents else LevelAt(tables[1..], id)
  }

  lemma {:induction false} LevelAtIs(tables: seq<Level>, i: nat)
    requires Descending(tables) && i < |tables|
    ensures LevelAt(tables, tables[i].id) == tables[i].contents
  {
    if i > 0 { LevelAtIs(tables[1..], i - 1); }
  }

  /** Whatever a crash in any call leaves, and however often the reopening is interrupted, the store can be opened on it:
      its files are known and whole, so opening is the recovery of which the crash theorems speak. */
  lemma CrashedOpens(st: State, ev: Event, j: nat, cut: nat, again: seq<nat>) returns (written: map<nat, Layer>)
    requires Inv(st) && CrashPoint(st, ev, j, cut) && RetriesPossible(Crashed(st, ev, j, cut), again)
    ensures var im := Interrupted(Crashed(st, ev, j, cut), again);
      && KnownFiles(im.files, written) && WholeFiles(im.files, written)
      && RecoverBy(im, written) == Recover(im) && Recover(im).Ok? && Inv(Recover(im).value)
  {
    hide *;
    var im := Interrupted(Crashed(st, ev, j, cut), again);
    var r := EventCrash(st, ev, j, cut);
    CrashedSynced(st, ev, j, cut);
    InterruptedRecovers(Crashed(st, ev, j, cut), again);
    var m := Unpack(r);
    written := HeldFilesKnown(r.disk, m, OnDisk(r));
    RecoveredFiles(im);
    KnownKeys(im.files, written);
    WholeLevels(im.files, written);
    RecoverByIs(im, written);
    RecoverIs(im);
  }

  /** Recovery leaves the table files alone. */
  lemma RecoveredFiles(im: Image)
    ensures Recover(im).Ok? ==> Recover(im).value.disk.files == im.files
  {
    hide Parse, Replay, LevelsOf;
    TruncateFiles(im);
  }

  /** Opening finds every file, greatest id first, or fails: it skips none that does not parse. */
  lemma {:induction false} AllFilesFound(files: map<nat, bytes>)
    requires LevelsOf(files).Ok?
    ensures forall id :: id in files ==> ParseTable(files[id]).Ok?
    ensures Ids(LevelsOf(files).value) == DescendingIds(files.Keys)
    decreases |files|
  {
    hide ParseTable, Contents;
    if files != map[] {
      assert files.Keys != {};
      var id := MaxOf(files.Keys);
      assert (files - {id}).Keys == files.Keys - {id};
      assert |(files - {id}).Keys| < |files.Keys|;
      AllFilesFound(files - {id});
      forall other | other in files ensures ParseTable(files[other]).Ok? {
        if other != id { assert other in files - {id} && (files - {id})[other] == files[other]; }
      }
      var rest := LevelsOf(files - {id}).value;
      assert Ids([Level(id, Contents(files[id]))] + rest) == [id] + Ids(rest);
    } else {
      assert files.Keys == {};
    }
  }

  lemma TruncateFiles(im: Image)
    ensures ApplyAll(im, RecoveryOps(im)).files == im.files
  {
    hide Parse;
    ApplyOne(im, Truncate(Parse(im.wal).end));
  }

  lemma KnownKeys(files: map<nat, bytes>, written: map<nat, Layer>)
    requires KnownFiles(files, written)
    ensures files.Keys <= written.Keys
  {
  }

  lemma OpenedFile(files: map<nat, bytes>, written: map<nat, Layer>, id: nat)
    requires KnownFiles(files, written) && id in files
    ensures var file, m := files[id], written[id];
      ParseTable(file).Ok? ==>
        && Storable(Sorted(m)) && ParseTable(file) == Ok(TableOf(Sorted(m))) && MapOf(Sorted(m)) == m
        && Detected(file, Blocks(Sorted(m)))
  {
    var file, m := files[id], written[id];
    hide StorableMap, FileFor, DataDamaged, ParseTable, Storable, MapOf, TableOf, Detected, Blocks, Sorted;
    if ParseTable(file).Ok? {
      StorableIs(m);
      StorableAscends(Sorted(m));
      SortedEnumerates(m);
      EnumeratesIs(Sorted(m), m);
      if file == FileFor(m) {
        FileForRoundTrip(m);
        WrittenIsIntact(Sorted(m));
        IntactIsDetected(file, Blocks(Sorted(m)));
      } else {
        DataDamageOpens(Sorted(m), file);
      }
    }
  }

  lemma NoDamage(im: Image)
    ensures DamageDetected(im, [])
  {
  }

  lemma AppendDetected(im: Image, t: SsTable, ts: seq<SsTable>)
    requires DamageDetected(im, ts) && t.id in im.files && Detected(im.files[t.id], Blocks(t.entries))
    ensures DamageDetected(im, ts + [t])
  {
    hide Detected, Blocks;
  }

  lemma SameFiles(a: Image, b: Image, ts: seq<SsTable>)
    requires DamageDetected(a, ts) && b == ApplyAll(a, RecoveryOps(a))
    ensures DamageDetected(b, ts)
  {
    hide RecoveryOps, Detected, Blocks;
    TruncateFiles(a);
  }

  function Prepend(ls: seq<Level>, r: Result<seq<Level>>): Result<seq<Level>> {
    if r.Err? then r else Ok(ls + r.value)
  }

  lemma PrependNothing(r: Result<seq<Level>>)
    ensures Prepend([], r) == r
  {
    if r.Ok? { assert [] + r.value == r.value; }
  }

  lemma IdsStep(rest: map<nat, bytes>, ids: seq<nat>, i: nat)
    requires i < |ids| && ids[i..] == DescendingIds(rest.Keys)
    ensures rest != map[] && ids[i] in rest && ids[i] == MaxOf(rest.Keys)
    ensures ids[i + 1..] == DescendingIds((rest - {ids[i]}).Keys)
  {
    assert ids[i..][0] == ids[i] && ids[i..][1..] == ids[i + 1..];
    assert rest.Keys != {};
    assert (rest - {ids[i]}).Keys == rest.Keys - {ids[i]};
  }

  lemma LevelsStep(rest: map<nat, bytes>, written: map<nat, Layer>, ls: seq<Level>)
    requires rest != map[] && rest.Keys <= written.Keys
    ensures rest.Keys != {}
    ensures var id := MaxOf(rest.Keys);
      && (ParseTable(rest[id]).Err? ==> Prepend(ls, LevelsBy(rest, written)) == Err(ParseTable(rest[id]).error))
      && (ParseTable(rest[id]).Ok? ==>
          Prepend(ls, LevelsBy(rest, written)) == Prepend(ls + [Level(id, written[id])], LevelsBy(rest - {id}, written)))
  {
    hide ParseTable;
    assert rest.Keys != {};
    var id := MaxOf(rest.Keys);
    if ParseTable(rest[id]).Ok? && LevelsBy(rest - {id}, written).Ok? {
      Assoc(ls, [Level(id, written[id])], LevelsBy(rest - {id}, written).value);
    }
  }

  lemma LevelsEnd(rest: map<nat, bytes>, written: map<nat, Layer>, ls: seq<Level>)
    requires DescendingIds(rest.Keys) == []
    ensures rest.Keys <= written.Keys && Prepend(ls, LevelsBy(rest, written)) == Ok(ls)
  {
    assert rest.Keys == {};
    assert rest == map[];
    assert ls + [] == ls;
  }

  lemma AppendValid(t: SsTable, ts: seq<SsTable>)
    requires TablesValid(ts) && TableOk(t)
    requires forall i :: 0 <= i < |ts| ==> ts[i].cache != t.cache
    ensures TablesValid(ts + [t])
    ensures Levels(ts + [t]) == Levels(ts) + [Level(t.id, MapOf(t.entries))]
  {
    hide Sorted, MapOf, TableOk;
  }

  lemma NextIdIs(tables: seq<Level>)
    ensures NextId(tables) == if |tables| == 0 then 1 else tables[0].id + 1
  {
  }

  /** What stands before the last COMMIT ends with one. */
  lemma {:induction false} CommittedEndsInCommit(b: bytes)
    ensures var es := Parse(b).Committed(); es == [] || es[|es| - 1].Op().Commit?
    decreases |b|
  {
    hide One, FrameLen, HasFrame;
    var p := Parse(b);
    if p.count != 0 {
      SomeFrame(b);
      var n := FrameLen(b);
      OneIs(b[8..n], n);
      CommittedEndsInCommit(b[n..]);
      var q := Parse(b[n..]);
      if q.count > 0 {
        assert p.Committed() == One(b[8..n], n).entries + q.Committed();
      }
    }
  }

  lemma OneIs(payload: bytes, n: nat)
    ensures var one := One(payload, n);
      && (one.count > 0 ==> |one.entries| == 1 && one.count == 1 && one.entries[0].Op().Commit?)
  {
  }

  /** Replaying up to and including the next COMMIT. */
  lemma ReplayToCommit(m: Mem, pending: seq<WalEntry>, entries: seq<WalEntry>, i: nat)
    requires i < |entries| && entries[i].Op().Commit?
    ensures var mid, all := Replay(m, pending), Replay(m, pending + entries[i..]);
      && (mid.Err? ==> all == Err(mid.error))
      && (mid.Ok? ==> all == Replay(Mem(mid.value.data, Max(mid.value.sequence, entries[i].sequence)), [] + entries[i + 1..]))
  {
    hide Replay, ReplayOne, Max;
    ReplayConcat(m, pending, entries[i..]);
    assert entries[i..][1..] == [] + entries[i + 1..];
    if Replay(m, pending).Ok? {
      ReplayHead(Replay(m, pending).value, entries[i..]);
      ReplayOneIs(Replay(m, pending).value, entries[i]);
    }
  }

  lemma NothingPending(pending: seq<WalEntry>, entries: seq<WalEntry>)
    requires pending == [] || (entries != [] && !entries[|entries| - 1].Op().Commit?)
    requires entries == [] || entries[|entries| - 1].Op().Commit?
    ensures pending + entries[|entries|..] == []
  {
  }

  lemma ShiftPending(pending: seq<WalEntry>, entries: seq<WalEntry>, i: nat)
    requires i < |entries|
    ensures pending + entries[i..] == pending + [entries[i]] + entries[i + 1..]
  {
  }

  lemma ReplayHead(m: Mem, es: seq<WalEntry>)
    requires es != []
    ensures Replay(m, es) ==
      var one := ReplayOne(m, es[0]);
      if one.Err? then Err(one.error) else Replay(one.value, es[1..])
  {
    hide ReplayOne;
  }

  lemma ReplayNothing(m: Mem)
    ensures Replay(m, []) == Ok(m)
  {
  }

  lemma ReplayOneIs(m: Mem, e: WalEntry)
    ensures var s := Max(m.sequence, e.sequence);
      && (e.Op().Commit? || (e.Op().Put? && e.value.None?) ==> ReplayOne(m, e) == Ok(Mem(m.data, s)))
      && (e.Op().Delete? ==> ReplayOne(m, e) == Ok(Mem(m.data[e.key := Tombstone], s)))
      && (e.Op().Put? && e.value.Some? ==>
          var v := FromProto(e.value.value);
          && (v.Err? ==> ReplayOne(m, e) == Err(v.error))
          && (v.Ok? ==> ReplayOne(m, e) == Ok(Mem(m.data[e.key := Present(v.value)], s))))
  {
  }

  lemma RecoverIs(im: Image)
    ensures var tables, replayed := LevelsOf(im.files), Replay(FRESH, Parse(im.wal).Committed());
      && (tables.Err? ==> Recover(im) == Err(tables.error))
      && (tables.Ok? && replayed.Err? ==> Recover(im) == Err(replayed.error))
      && (tables.Ok? && replayed.Ok? ==>
          Recover(im) == Ok(State(replayed.value.data, DEFAULT_BUDGET, replayed.value.sequence, tables.value,
                                  NextId(tables.value), ApplyAll(im, RecoveryOps(im)), [], {})))
  {
    hide Replay, Parse, LevelsOf, RecoveryOps;
  }

  lemma RecoverByIs(im: Image, written: map<nat, Layer>)
    requires im.files.Keys <= written.Keys
    ensures var tables, replayed := LevelsBy(im.files, written), Replay(FRESH, Parse(im.wal).Committed());
      && (tables.Err? ==> RecoverBy(im, written) == Err(tables.error))
      && (tables.Ok? && replayed.Err? ==> RecoverBy(im, written) == Err(replayed.error))
      && (tables.Ok? && replayed.Ok? ==>
          RecoverBy(im, written) == Ok(State(replayed.value.data, DEFAULT_BUDGET, replayed.value.sequence, tables.value,
                                             NextId(tables.value), ApplyAll(im, RecoveryOps(im)), [], {})))
  {
    hide Replay, Parse, LevelsBy, RecoveryOps;
  }
}
