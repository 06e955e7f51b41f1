/** What every operation keeps: the invariant, the visible map, and the bounds. */
module StoreLaws {
  import opened Bytes
  import opened Codec
  import opened Records
  import opened Disk
  import opened Wal
  import opened Layers
  import opened StoreSpec

  lemma Unpack(st: State) returns (m: Mem)
    requires Inv(st)
    ensures m.data == st.data && m.sequence <= st.sequence && Holds(st.disk, m, OnDisk(st))
    ensures st.disk.synced == |st.disk.wal| && BelowNext(OnDisk(st), st.nextId)
    ensures SequencesOk(Parse(st.disk.wal).entries, st.sequence)
  {
    hide Holds, Parse, SequencesOk, BelowNext;
    var replayed: nat :| replayed <= st.sequence && Holds(st.disk, Mem(st.data, replayed), OnDisk(st));
    m := Mem(st.data, replayed);
  }

  lemma Pack(st: State, m: Mem)
    requires m.data == st.data && m.sequence <= st.sequence && Holds(st.disk, m, OnDisk(st))
    requires st.disk.synced == |st.disk.wal| && BelowNext(OnDisk(st), st.nextId)
    requires SequencesOk(Parse(st.disk.wal).entries, st.sequence)
    ensures Inv(st)
  {
    hide Holds, Parse, SequencesOk, BelowNext;
    assert m == Mem(st.data, m.sequence);
  }

  // ----- committing -----

  /** What the log gets of a batch: opcode 0 for a put and 1 for a delete, numbered on from the last sequence number,
      then opcode 2 with the number of the last write. */
  lemma BatchLogged(batch: Batch, s: nat, i: nat)
    requires s + |batch| < U64 && i <= |batch|
    ensures var es := LogBatch(batch, s);
      && |es| == |batch| + 1
      && es[i] ==
        if i == |batch| then WalEntry(2, [], None, s + i, 0)
        else
          match batch[i].entry
          case Present(v) => WalEntry(0, batch[i].key, Some(ValueMessage(Some(v))), s + i + 1, 0)
          case Tombstone => WalEntry(1, batch[i].key, None, s + i + 1, 0)
  {
  }

  lemma {:induction false} LogOfConcat(a: seq<WalEntry>, b: seq<WalEntry>)
    ensures LogOf(a + b) == LogOf(a) + LogOf(b)
  {
    hide Frame;
    if a == [] {
      assert a + b == b;
    } else {
      LogOfConcat(a[1..], b);
      LogOfFrontOf(a, b);
      Assoc(Frame(a[0]), LogOf(a[1..]), LogOf(b));
    }
  }

  lemma LogOfFrontOf(a: seq<WalEntry>, b: seq<WalEntry>)
    requires a != []
    ensures LogOf(a + b) == Frame(a[0]) + LogOf(a[1..] + b)
  {
    hide Frame;
    assert (a + b)[1..] == a[1..] + b;
  }

  lemma LogOfOne(e: WalEntry)
    ensures LogOf([e]) == Frame(e)
  {
    hide Frame;
    assert LogOf([]) == [];
  }

  lemma {:induction false} AppendsApply(im: Image, es: seq<WalEntry>)
    ensures ApplyAll(im, Appends(es)) == im.(wal := im.wal + LogOf(es))
  {
    hide Frame, LogOf;
    if es == [] {
      LogOfEmpty(es);
      assert im.wal + [] == im.wal;
      assert Appends(es) == [];
    } else {
      var n := |es| - 1;
      AppendsApply(im, es[..n]);
      assert es == es[..n] + [es[n]];
      LogOfConcat(es[..n], [es[n]]);
      LogOfOne(es[n]);
      assert Appends(es)[..n] == Appends(es[..n]);
      Assoc(im.wal, LogOf(es[..n]), Frame(es[n]));
    }
  }

  lemma CommitImage(im: Image, batch: Batch, s: nat)
    requires s + |batch| < U64
    ensures var wal := im.wal + LogOf(LogBatch(batch, s));
      ApplyAll(im, CommitOps(batch, s)) == Image(wal, |wal|, im.files)
  {
    hide LogOf, LogBatch;
    var es := LogBatch(batch, s);
    AppendsApply(im, es);
    ApplyAllConcat(im, Appends(es), [Sync]);
    ApplyOne(ApplyAll(im, Appends(es)), Sync);
  }

  lemma LogBatchIsBatch(batch: Batch, s: nat)
    requires Loggable(batch, s)
    ensures IsBatch(LogBatch(batch, s))
  {
    hide Framable;
  }

  lemma {:induction false} ReplayEntries(m: Mem, batch: Batch, s: nat)
    requires s + |batch| < U64 && m.sequence <= s
    ensures Replay(m, Entries(batch, s)) == Ok(Mem(Insert(m.data, batch), if batch == [] then m.sequence else s + |batch|))
    decreases |batch|
  {
    if batch != [] {
      var n := |batch| - 1;
      var last := LogEntry(batch[n], s + 1 + n);
      ReplayEntries(m, batch[..n], s);
      assert Entries(batch, s) == Entries(batch[..n], s) + [last];
      ReplayConcat(m, Entries(batch[..n], s), [last]);
      ReplayLast(Mem(Insert(m.data, batch[..n]), if n == 0 then m.sequence else s + n), batch[n], s + 1 + n);
    }
  }

  lemma ReplayLast(m: Mem, w: Record, s: uint64)
    requires m.sequence <= s
    ensures Replay(m, [LogEntry(w, s)]) == Ok(Mem(m.data[w.key := w.entry], s))
  {
    assert [LogEntry(w, s)][1..] == [];
    ReplayEntry(m, w, s);
    hide ReplayOne, LogEntry;
  }

  lemma ReplayEntry(m: Mem, w: Record, s: uint64)
    requires m.sequence <= s
    ensures ReplayOne(m, LogEntry(w, s)) == Ok(Mem(m.data[w.key := w.entry], s))
  {
  }

  lemma ReplayBatch(m: Mem, batch: Batch, s: nat)
    requires s + |batch| < U64 && m.sequence <= s
    ensures Replay(m, LogBatch(batch, s)) == Ok(Mem(Insert(m.data, batch), s + |batch|))
  {
    hide Insert;
    ReplayEntries(m, batch, s);
    ReplayConcat(m, Entries(batch, s), [CommitEntry(s + |batch|)]);
    assert [CommitEntry(s + |batch|)][1..] == [];
  }

  lemma {:induction false} ReplayBounds(m: Mem, es: seq<WalEntry>)
    requires Replay(m, es).Ok?
    ensures m.sequence <= Replay(m, es).value.sequence
    ensures forall i :: 0 <= i < |es| ==> es[i].sequence <= Replay(m, es).value.sequence
    decreases |es|
  {
    if es != [] {
      var next := ReplayOne(m, es[0]).value;
      ReplayBounds(next, es[1..]);
      forall i | 0 <= i < |es| ensures es[i].sequence <= Replay(m, es).value.sequence {
        if i > 0 { assert es[i] == es[1..][i - 1]; }
      }
    }
  }

  lemma SequencesAppend(es: seq<WalEntry>, batch: Batch, s: nat)
    requires SequencesOk(es, s) && s + |batch| < U64
    ensures SequencesOk(es + LogBatch(batch, s), s + |batch|)
  {
    var more := LogBatch(batch, s);
    var all := es + more;
    forall i | 0 <= i < |batch| ensures more[i].sequence == s + 1 + i {}
    forall i, j | 0 <= i < j < |all| && !all[i].Op().Commit? && !all[j].Op().Commit?
      ensures all[i].sequence < all[j].sequence
    {
    }
  }

  /** The log after a whole batch on top of a clean one. */
  lemma BatchHolds(im: Image, m: Mem, tables: seq<Level>, batch: Batch, s: nat)
    requires Holds(im, m, tables) && Loggable(batch, s) && m.sequence <= s
    ensures Holds(ApplyAll(im, CommitOps(batch, s)), Mem(Insert(m.data, batch), s + |batch|), tables)
    ensures Parse(ApplyAll(im, CommitOps(batch, s)).wal).entries == Parse(im.wal).entries + LogBatch(batch, s)
  {
    hide Parse, LogOf, LogBatch, Insert, Replay, CommitOps, FilesOf, AllStorable, Loggable, IsBatch;
    LoggableRoom(batch, s);
    var es := LogBatch(batch, s);
    CommitImage(im, batch, s);
    LogBatchIsBatch(batch, s);
    CleanLog(im.wal);
    NoAdoption(im.wal, es);
    ReplayBatch(m, batch, s);
    ReplayConcat(FRESH, Parse(im.wal).entries, es);
  }

  lemma LoggableRoom(batch: Batch, s: nat)
    requires Loggable(batch, s)
    ensures s + |batch| < U64
  {
  }

  /** A log that ends at its last COMMIT holds nothing uncommitted. */
  lemma CleanLog(wal: bytes)
    requires Parse(wal).end == |wal|
    ensures Parse(wal).entries == Parse(wal).Committed() && wal[..Parse(wal).end] == wal && Framed(wal)
  {
    hide Parse, Framed;
    CommittedPrefix(wal);
    WholePrefix(wal);
  }

  lemma WholePrefix(wal: bytes)
    ensures wal[..|wal|] == wal
  {
  }

  /** A commit keeps the invariant and writes exactly its batch to the visible map. */
  lemma CommitLaw(st: State, batch: Batch)
    requires Inv(st) && Loggable(batch, st.sequence)
    ensures Inv(CommitBatch(st, batch))
    ensures Visible(CommitBatch(st, batch)) == Write(Visible(st), batch)
  {
    hide *;
    LoggableRoom(batch, st.sequence);
    var m := Unpack(st);
    CommitShape(st, batch);
    CommitImage(st.disk, batch, st.sequence);
    BatchHolds(st.disk, m, OnDisk(st), batch, st.sequence);
    SequencesAppend(Parse(st.disk.wal).entries, batch, st.sequence);
    Pack(CommitBatch(st, batch), Mem(Insert(m.data, batch), st.sequence + |batch|));
    InsertWrites(st.data, Stack(st.tables), batch);
  }

  lemma CommitShape(st: State, batch: Batch)
    requires st.sequence + |batch| < U64
    ensures var after := CommitBatch(st, batch);
      && after.data == Insert(st.data, batch) && after.sequence == st.sequence + |batch|
      && after.tables == st.tables && after.nextId == st.nextId && after.budget == st.budget
      && after.disk == ApplyAll(st.disk, CommitOps(batch, st.sequence))
      && after.stale == st.stale && after.stuck == st.stuck && OnDisk(after) == OnDisk(st)
      && Visible(after) == View([Insert(st.data, batch)] + Stack(st.tables))
    ensures Visible(st) == View([st.data] + Stack(st.tables))
  {
    hide Insert, CommitOps, View;
  }

  // ----- flushing -----

  lemma FilesOfPush(t: Level, rest: seq<Level>)
    ensures FilesOf([t] + rest) == FilesOf(rest)[t.id := FileFor(t.contents)]
  {
    hide FileFor;
    assert ([t] + rest)[1..] == rest;
  }

  lemma DescendingPush(t: Level, rest: seq<Level>)
    requires Descending(rest) && AllStorable(rest) && StorableMap(t.contents)
    requires forall i :: 0 <= i < |rest| ==> rest[i].id < t.id
    ensures Descending([t] + rest) && AllStorable([t] + rest)
  {
    hide StorableMap;
  }

  lemma StackPush(t: Level, rest: seq<Level>)
    ensures Stack([t] + rest) == [t.contents] + Stack(rest)
  {
  }

  lemma EmptyLog()
    ensures Parse([]) == NOTHING && Replay(FRESH, []) == Ok(FRESH) && NOTHING.Committed() == []
  {
  }

  /** Right after the new table file is written: the log still repeats what the table holds. */
  lemma WrittenHolds(im: Image, m: Mem, tables: seq<Level>, id: nat)
    requires Holds(im, m, tables) && BelowNext(tables, id) && StorableMap(m.data)
    ensures Holds(Apply(im, WriteFile(id, FileFor(m.data))), m, [Level(id, m.data)] + tables)
  {
    hide FileFor, Parse, Replay, FilesOf, StorableMap, AllStorable;
    FilesOfPush(Level(id, m.data), tables);
    DescendingPush(Level(id, m.data), tables);
  }

  lemma ClearedHolds(im: Image, m: Mem, tables: seq<Level>)
    requires Holds(im, m, tables)
    ensures Holds(Apply(im, Clear), FRESH, tables)
  {
    hide Parse, Replay, FilesOf, AllStorable;
    EmptyLog();
  }

  lemma ApplyTwo(im: Image, a: DiskOp, b: DiskOp)
    ensures ApplyAll(im, [a, b]) == Apply(Apply(im, a), b)
  {
    hide Apply;
    ApplyOne(im, a);
    assert [a, b][..1] == [a];
  }

  lemma MoveShape(st: State)
    ensures var after := Move(st);
      && after.data == map[] && after.tables == [Level(st.nextId, st.data)] + st.tables
      && after.nextId == st.nextId + 1 && after.budget == st.budget && after.sequence == st.sequence
      && after.disk == Apply(Apply(st.disk, WriteFile(st.nextId, FileFor(st.data))), Clear)
      && after.disk.wal == [] && after.disk.synced == 0
      && after.stale == st.stale && after.stuck == st.stuck && OnDisk(after) == [Level(st.nextId, st.data)] + OnDisk(st)
      && Visible(after) == View([map[]] + ([st.data] + Stack(st.tables)))
      && Visible(st) == View([st.data] + Stack(st.tables))
  {
    hide FileFor, View;
    ApplyTwo(st.disk, WriteFile(st.nextId, FileFor(st.data)), Clear);
    StackPush(Level(st.nextId, st.data), st.tables);
    Assoc([Level(st.nextId, st.data)], st.tables, st.stale);
  }

  lemma BelowPush(t: Level, tables: seq<Level>)
    requires BelowNext(tables, t.id)
    ensures BelowNext([t] + tables, t.id + 1)
  {
  }

  lemma MoveLaw(st: State)
    requires Inv(st) && StorableMap(st.data)
    ensures Inv(Move(st)) && Visible(Move(st)) == Visible(st)
  {
    hide *;
    var m := Unpack(st);
    MoveShape(st);
    EmptyLog();
    EmptySequences(st.sequence);
    WrittenHolds(st.disk, m, OnDisk(st), st.nextId);
    ClearedHolds(Apply(st.disk, WriteFile(st.nextId, FileFor(st.data))), m, OnDisk(Move(st)));
    BelowPush(Level(st.nextId, st.data), OnDisk(st));
    Pack(Move(st), FRESH);
    FlushKeepsView(st.data, Stack(st.tables));
  }

  lemma EmptySequences(bound: nat)
    ensures SequencesOk(NOTHING.entries, bound) && FRESH == Mem(map[], 0)
  {
  }

  // ----- compacting -----

  lemma {:induction false} SurvivingFiles(tables: seq<Level>, gone: set<nat>, bound: nat)
    requires Descending(tables) && AllStorable(tables) && forall i :: 0 <= i < |tables| ==> tables[i].id < bound
    ensures FilesOf(Surviving(tables, gone)) == FilesOf(tables) - gone
    ensures Descending(Surviving(tables, gone)) && AllStorable(Surviving(tables, gone))
    ensures forall i :: 0 <= i < |Surviving(tables, gone)| ==> Surviving(tables, gone)[i].id < bound
  {
    hide FileFor, StorableMap;
    if tables != [] {
      Uncons(tables);
      var t, rest := tables[0], tables[1..];
      SurvivingFiles(rest, gone, t.id);
      FilesOfKeys(rest, t.id);
      if t.id !in gone {
        FilesOfPush(t, Surviving(rest, gone));
        DescendingPush(t, Surviving(rest, gone));
      }
    }
  }

  lemma {:induction false} SurvivingConcat(a: seq<Level>, b: seq<Level>, gone: set<nat>)
    ensures Surviving(a + b, gone) == Surviving(a, gone) + Surviving(b, gone)
  {
    if a == [] {
      assert a + b == b;
    } else {
      assert (a + b)[0] == a[0] && (a + b)[1..] == a[1..] + b;
      SurvivingConcat(a[1..], b, gone);
    }
  }

  lemma {:induction false} SurvivingAll(tables: seq<Level>, gone: set<nat>)
    requires forall i :: 0 <= i < |tables| ==> tables[i].id !in gone
    ensures Surviving(tables, gone) == tables
  {
    if tables != [] {
      SurvivingAll(tables[1..], gone);
      Uncons(tables);
    }
  }

  lemma {:induction false} SurvivingIn(tables: seq<Level>, gone: set<nat>, t: Level)
    ensures t in Surviving(tables, gone) <==> t in tables && t.id !in gone
  {
    if tables != [] {
      SurvivingIn(tables[1..], gone, t);
      Uncons(tables);
    }
  }

  lemma {:induction false} RemovalsApply(im: Image, removed: seq<nat>)
    ensures ApplyAll(im, Removals(removed)) == im.(files := im.files - Elements(removed))
  {
    var ops := Removals(removed);
    if removed == [] {
      assert ops == [];
    } else {
      var n := |removed| - 1;
      RemovalsApply(im, removed[..n]);
      assert ops[..n] == Removals(removed[..n]);
      assert removed == removed[..n] + [removed[n]];
    }
  }

  /** Whatever files are removed, the image holds the levels of the others. */
  lemma SurvivorsHold(im: Image, m: Mem, tables: seq<Level>, removed: seq<nat>, bound: nat)
    requires Holds(im, m, tables) && forall i :: 0 <= i < |tables| ==> tables[i].id < bound
    ensures var after := ApplyAll(im, Removals(removed));
      && Holds(after, m, Surviving(tables, Elements(removed)))
      && after.wal == im.wal && after.synced == im.synced
  {
    hide Parse, Replay, FilesOf, AllStorable;
    RemovalsApply(im, removed);
    SurvivingFiles(tables, Elements(removed), bound);
  }

  lemma {:induction false} UnstuckFrom(ids: seq<nat>, stuck: set<nat>, id: nat)
    ensures id in Unstuck(ids, stuck) <==> id in ids && id !in stuck
  {
    if ids != [] {
      UnstuckFrom(ids[1..], stuck, id);
      Uncons(ids);
    }
  }

  /** Only files of tables in use are removed. */
  lemma RemovedInUse(st: State, j: nat, id: nat)
    requires j <= |Removable(st)| && id in Elements(Removable(st)[..j])
    ensures exists i :: 0 <= i < |st.tables| && st.tables[i].id == id
  {
    UnstuckFrom(Ids(st.tables), st.stuck, id);
    var i :| 0 <= i < |Ids(st.tables)| && Ids(st.tables)[i] == id;
    assert st.tables[i].id == id;
  }

  /** The disk once the merged table, if there is one, is written. */
  function MergedImage(st: State): Image {
    if Merged(st.tables) == map[] then st.disk else Apply(st.disk, WriteFile(st.nextId, FileFor(Merged(st.tables))))
  }

  lemma MergedHolds(st: State, m: Mem)
    requires Holds(st.disk, m, OnDisk(st)) && BelowNext(OnDisk(st), st.nextId) && StorableMap(Merged(st.tables))
    ensures Holds(MergedImage(st), m, MergedLevel(st.tables, st.nextId) + OnDisk(st))
    ensures BelowNext(MergedLevel(st.tables, st.nextId) + OnDisk(st), st.nextId + |MergedLevel(st.tables, st.nextId)|)
    ensures MergedImage(st).wal == st.disk.wal && MergedImage(st).synced == st.disk.synced
  {
    hide FileFor, Parse, Replay, FilesOf, StorableMap, AllStorable, Merged, OnDisk;
    if Merged(st.tables) == map[] {
      assert [] + OnDisk(st) == OnDisk(st);
    } else {
      var t := Level(st.nextId, Merged(st.tables));
      FilesOfPush(t, OnDisk(st));
      DescendingPush(t, OnDisk(st));
    }
  }

  lemma CompactOpsAre(st: State)
    requires |st.tables| >= 2
    ensures CompactOps(st) == MergeOps(st) + Removals(Removable(st)) && |MergeOps(st)| <= 1
    ensures ApplyAll(st.disk, MergeOps(st)) == MergedImage(st)
    ensures |CompactOps(st)| == |MergeOps(st)| + |Removable(st)|
  {
    hide FileFor, Merged, Removable;
    if Merged(st.tables) != map[] { ApplyOne(st.disk, MergeOps(st)[0]); }
  }

  lemma RemovalsPrefix(ids: seq<nat>, j: nat)
    requires j <= |ids|
    ensures |Removals(ids)| == |ids| && Removals(ids)[..j] == Removals(ids[..j])
  {
  }

  lemma PrefixPast<T>(a: seq<T>, b: seq<T>, j: nat)
    requires j <= |b|
    ensures (a + b)[..|a| + j] == a + b[..j]
  {
  }

  /** The state of the disk after any prefix of a compaction's effects. */
  lemma CompactPrefix(st: State, j: nat)
    requires |st.tables| >= 2 && j <= |Removable(st)|
    ensures |CompactOps(st)| == |MergeOps(st)| + |Removable(st)|
    ensures ApplyAll(st.disk, CompactOps(st)[..|MergeOps(st)| + j]) == ApplyAll(MergedImage(st), Removals(Removable(st)[..j]))
  {
    hide *;
    CompactOpsAre(st);
    RemovalsPrefix(Removable(st), j);
    PrefixPast(MergeOps(st), Removals(Removable(st)), j);
    ApplyAllConcat(st.disk, MergeOps(st), Removals(Removable(st)[..j]));
  }

  lemma DescendingParts(a: seq<Level>, b: seq<Level>)
    requires Descending(a + b)
    ensures Descending(b)
    ensures forall i, j :: 0 <= i < |a| && 0 <= j < |b| ==> a[i].id > b[j].id
  {
    var all := a + b;
    forall i, j | 0 <= i < |a| && 0 <= j < |b| ensures a[i].id > b[j].id {
      assert all[i] == a[i] && all[|a| + j] == b[j];
    }
    forall i, j | 0 <= i < j < |b| ensures b[i].id > b[j].id {
      assert all[|a| + i] == b[i] && all[|a| + j] == b[j];
    }
  }

  lemma LeftSurvives(st: State, merged: seq<Level>, j: nat)
    requires j <= |Removable(st)| && Descending(merged + OnDisk(st))
    ensures Surviving(merged + OnDisk(st), Elements(Removable(st)[..j])) == merged + Left(st, j)
  {
    hide Removable, Surviving, Elements;
    var gone := Elements(Removable(st)[..j]);
    forall id | id in gone ensures exists t :: 0 <= t < |st.tables| && st.tables[t].id == id { RemovedInUse(st, j, id); }
    DescendingParts(merged, OnDisk(st));
    DescendingParts(st.tables, st.stale);
    forall i, t | 0 <= i < |merged| && 0 <= t < |st.tables| ensures merged[i].id > st.tables[t].id {
      assert OnDisk(st)[t] == st.tables[t];
    }
    SurvivingConcat(merged, OnDisk(st), gone);
    SurvivingConcat(st.tables, st.stale, gone);
    SurvivingAll(merged, gone);
    SurvivingAll(st.stale, gone);
  }

  /** After the merged table, if any, is written and `j` old files are gone. */
  lemma LeftHolds(st: State, m: Mem, j: nat)
    requires Holds(st.disk, m, OnDisk(st)) && BelowNext(OnDisk(st), st.nextId) && StorableMap(Merged(st.tables))
    requires |st.tables| >= 2 && j <= |Removable(st)|
    ensures |CompactOps(st)| == |MergeOps(st)| + |Removable(st)|
    ensures var im := ApplyAll(st.disk, CompactOps(st)[..|MergeOps(st)| + j]);
      && Holds(im, m, MergedLevel(st.tables, st.nextId) + Left(st, j))
      && im.wal == st.disk.wal && im.synced == st.disk.synced
    ensures BelowNext(MergedLevel(st.tables, st.nextId) + Left(st, j), st.nextId + |MergedLevel(st.tables, st.nextId)|)
  {
    hide *;
    var merged := MergedLevel(st.tables, st.nextId);
    var next := st.nextId + |merged|;
    MergedHolds(st, m);
    HoldsDescending(MergedImage(st), m, merged + OnDisk(st));
    BelowIs(merged + OnDisk(st), next);
    SurvivorsHold(MergedImage(st), m, merged + OnDisk(st), Removable(st)[..j], next);
    LeftSurvives(st, merged, j);
    CompactPrefix(st, j);
    SurvivingBelow(merged + OnDisk(st), Elements(Removable(st)[..j]), next);
  }

  lemma HoldsDescending(im: Image, m: Mem, tables: seq<Level>)
    requires Holds(im, m, tables)
    ensures Descending(tables)
  {
  }

  lemma BelowIs(tables: seq<Level>, next: nat)
    requires BelowNext(tables, next)
    ensures forall i :: 0 <= i < |tables| ==> tables[i].id < next
  {
  }

  lemma SurvivingBelow(tables: seq<Level>, gone: set<nat>, next: nat)
    requires BelowNext(tables, next)
    ensures BelowNext(Surviving(tables, gone), next)
  {
    var left := Surviving(tables, gone);
    forall i | 0 <= i < |left| ensures left[i].id < next { SurvivingIn(tables, gone, left[i]); }
  }

  lemma StackMerged(tables: seq<Level>, id: nat, rest: seq<Level>)
    ensures Stack(MergedLevel(tables, id) + rest) == MergedTable(Stack(tables)) + Stack(rest)
  {
    hide Merge, DropTombstones;
  }

  /** Compaction keeps the invariant and, whatever the memtable holds, the visible map. */
  lemma CompactLaw(st: State)
    requires Inv(st) && CompactFits(st)
    ensures Inv(Compact(st)) && Visible(Compact(st)) == Visible(st)
  {
    hide *;
    if |st.tables| >= 2 {
      var m := Unpack(st);
      CompactShape(st);
      LeftHolds(st, m, |Removable(st)|);
      Pack(Compact(st), m);
      CompactKeepsView(st.data, Stack(st.tables));
    } else {
      NothingToCompact(st);
    }
  }

  lemma NothingToCompact(st: State)
    requires |st.tables| < 2
    ensures Compact(st) == st && CompactOps(st) == []
  {
  }

  lemma CompactShape(st: State)
    requires |st.tables| >= 2 && CompactFits(st)
    ensures StorableMap(Merged(st.tables))
    ensures var after := Compact(st);
      && after.data == st.data && after.tables == MergedLevel(st.tables, st.nextId) && after.sequence == st.sequence
      && after.nextId == st.nextId + |MergedLevel(st.tables, st.nextId)| && after.budget == st.budget && |after.tables| <= 1
      && after.stale == Left(st, |Removable(st)|) && after.stuck == st.stuck
      && OnDisk(after) == MergedLevel(st.tables, st.nextId) + Left(st, |Removable(st)|)
      && after.disk == ApplyAll(st.disk, CompactOps(st)[..|MergeOps(st)| + |Removable(st)|])
      && Visible(after) == View([st.data] + MergedTable(Stack(st.tables)))
    ensures Visible(st) == View([st.data] + Stack(st.tables))
  {
    hide *;
    CompactFields(st);
    CompactOpsAre(st);
    CompactVisible(st);
    WholeOps(CompactOps(st));
  }

  lemma CompactFields(st: State)
    requires |st.tables| >= 2
    ensures CompactFits(st) ==> StorableMap(Merged(st.tables))
    ensures var after := Compact(st);
      && after.data == st.data && after.tables == MergedLevel(st.tables, st.nextId) && after.sequence == st.sequence
      && after.nextId == st.nextId + |MergedLevel(st.tables, st.nextId)| && after.budget == st.budget
      && after.stale == Left(st, |Removable(st)|) && after.stuck == st.stuck && OnDisk(after) == after.tables + after.stale
      && after.disk == ApplyAll(st.disk, CompactOps(st))
  {
    hide CompactOps, MergedLevel, Left, Removable, ApplyAll, StorableMap, Merged;
  }

  lemma WholeOps(ops: seq<DiskOp>)
    ensures ops[..|ops|] == ops
  {
  }

  lemma CompactVisible(st: State)
    requires |st.tables| >= 2
    ensures Visible(Compact(st)) == View([st.data] + MergedTable(Stack(st.tables)))
    ensures Visible(st) == View([st.data] + Stack(st.tables))
    ensures |MergedLevel(st.tables, st.nextId)| <= 1
  {
    hide CompactOps, Removable, Left, View, MergedTable, Merged;
    var merged := MergedLevel(st.tables, st.nextId);
    StackMerged(st.tables, st.nextId, []);
    assert merged + [] == merged;
    assert MergedTable(Stack(st.tables)) + Stack([]) == MergedTable(Stack(st.tables));
  }

  /** A compaction leaves no table if the tables showed nothing, and else one new table that holds just what they showed. */
  lemma CompactLeaves(st: State)
    requires |st.tables| >= 2
    ensures View(Stack(st.tables)) == map[] <==> Compact(st).tables == []
    ensures forall i :: 0 <= i < |Compact(st).tables| ==>
      var made := Compact(st).tables[i];
      i == 0 && made.id == st.nextId && Live(made.contents) == View(Stack(st.tables)) && made.contents.Keys == Live(made.contents).Keys
  {
    CompactFields(st);
    hide Compact, CompactOps, Merge, Removable, Left, DropTombstones, Live, Stack;
    DropKeepsLive(Merge(Stack(st.tables)));
  }

  lemma DropKeepsLive(m: Layer)
    ensures Live(DropTombstones(m)) == Live(m) && DropTombstones(m).Keys == Live(m).Keys
    ensures DropTombstones(m) == map[] <==> Live(m) == map[]
  {
    var d, l := DropTombstones(m), Live(m);
    assert d.Keys == l.Keys;
    assert d == map[] <==> d.Keys == {};
    assert l == map[] <==> l.Keys == {};
  }

  /** Up to eight tables pile up; the flush that would make nine leaves at most one. */
  lemma TablesAfterFlush(st: State)
    requires st.data != map[]
    ensures |st.tables| < 8 ==> |Flush(st).tables| == |st.tables| + 1 && Flush(st).tables[1..] == st.tables
    ensures |st.tables| >= 8 ==> |Flush(st).tables| <= 1
  {
    FlushShape(st);
    hide Flush, Compact, MoveOps, FlushOps, CompactOps;
    if |st.tables| >= 8 { CompactFields(Move(st)); }
  }

  /** Flushing, with the compaction it may trigger, keeps the invariant and the visible map. */
  lemma FlushLaw(st: State)
    requires Inv(st) && FlushFits(st)
    ensures Inv(Flush(st)) && Visible(Flush(st)) == Visible(st)
    ensures st.data != map[] ==> Flush(st).data == map[] && |Flush(st).tables| <= MAX_SSTABLES
  {
    hide *;
    FlushShape(st);
    if st.data != map[] {
      MoveLaw(st);
      MoveShape(st);
      if |Move(st).tables| > MAX_SSTABLES {
        CompactLaw(Move(st));
        var m := Unpack(Move(st));
        CompactShape(Move(st));
      }
    }
  }

  lemma FlushShape(st: State)
    ensures st.data == map[] ==> Flush(st) == st && FlushOps(st) == []
    ensures st.data != map[] && |st.tables| + 1 <= MAX_SSTABLES ==> Flush(st) == Move(st) && FlushOps(st) == MoveOps(st)
    ensures st.data != map[] && |st.tables| + 1 > MAX_SSTABLES ==>
      && Flush(st) == Compact(Move(st)) && FlushOps(st) == MoveOps(st) + CompactOps(Move(st))
      && |Move(st).tables| >= 2
    ensures FlushFits(st) && st.data != map[] ==> StorableMap(st.data)
    ensures FlushFits(st) && st.data != map[] && |st.tables| + 1 > MAX_SSTABLES ==> CompactFits(Move(st))
    ensures MAX_SSTABLES == 8
    ensures Flush(st).budget == st.budget && (|Move(st).tables| == |st.tables| + 1)
  {
    hide MoveOps, CompactOps, StorableMap, CompactFits;
    assert MoveOps(st) + [] == MoveOps(st);
  }

  lemma EmptyFootprint()
    ensures Footprint(map[]) == 0
  {
  }

  /** A write with its automatic flush: the batch is applied, and a positive budget is respected afterwards. */
  lemma WriteLaw(st: State, batch: Batch)
    requires Inv(st) && Loggable(batch, st.sequence)
    requires Footprint(Insert(st.data, batch)) >= st.budget ==> FlushFits(CommitBatch(st, batch))
    ensures st.sequence + |batch| < U64
    ensures var after := MaybeFlush(CommitBatch(st, batch));
      && Inv(after)
      && Visible(after) == Write(Visible(st), batch)
      && (0 < st.budget ==> Footprint(after.data) < st.budget)
  {
    hide *;
    LoggableRoom(batch, st.sequence);
    var mid := CommitBatch(st, batch);
    CommitShape(st, batch);
    CommitLaw(st, batch);
    MaybeFlushShape(mid);
    FlushShape(mid);
    EmptyFootprint();
    if Footprint(mid.data) >= st.budget {
      FlushLaw(mid);
    }
  }

  lemma MaybeFlushShape(st: State)
    ensures MaybeFlush(st) == if Footprint(st.data) >= st.budget then Flush(st) else st
    ensures MaybeFlushOps(st) == if Footprint(st.data) >= st.budget then FlushOps(st) else []
  {
    hide Footprint, Flush, FlushOps;
  }
}
