/** Runs from a new table on which a deleted key comes back: power lost inside a compaction, or a removal that failed. */
module Resurrection {
  import opened Bytes
  import opened Codec
  import opened Records
  import opened TableFormat
  import opened Disk
  import opened Wal
  import opened Layers
  import opened StoreSpec
  import opened StoreLaws
  import opened Keeping
  import opened Runs
  import opened Capacity

  // ----- writing one small table after another -----

  predicate Short(w: Record) {
    |w.key| < 0x1000 && |ValueBytes(w.entry)| < 0x1000
  }

  lemma ShortIsLoggable(w: Record, s: nat)
    requires Short(w) && s < 100
    ensures Loggable([w], s)
  {
    assert LogBatch([w], s) == [LogEntry(w, s + 1), CommitEntry(s + 1)];
    hide BE;
  }

  lemma OneInserted(w: Record)
    ensures Insert(map[], [w]) == map[w.key := w.entry]
  {
    assert [w][..0] == [];
  }

  lemma OneSorted(w: Record)
    ensures Sorted(map[w.key := w.entry]) == [w] && Sorted(map[]) == []
  {
    var m := map[w.key := w.entry];
    assert m.Keys == {w.key};
    assert m - {w.key} == map[];
    assert Greatest(m.Keys) == w.key;
  }

  lemma OneStorable(w: Record)
    requires Short(w)
    ensures StorableMap(map[w.key := w.entry]) && StorableMap(map[])
  {
    hide Fits, Sorted, ValueBytes, EncodeRecord;
    OneSorted(w);
    OneRecordFits(w);
    NothingLeft([], [], []);
    FitsWhen([]);
  }

  lemma OneFootprint(w: Record)
    requires Short(w)
    ensures Footprint(map[w.key := w.entry]) < DEFAULT_BUDGET
  {
    EmptyFootprint();
    FootprintInsert(map[], w.key, w.entry);
    assert map[][w.key := w.entry] == map[w.key := w.entry];
    hide Footprint;
  }

  /** An empty memtable over few tables, early in the log's numbering. */
  ghost predicate Early(st: State) {
    Inv(st) && st.data == map[] && |st.tables| <= 1 && st.sequence < 10 && st.budget == DEFAULT_BUDGET
  }

  /** One write, then a flush: the write becomes the newest table. */
  function Flushed(w: Record): seq<Step> {
    [Done(Tx([w])), Done(FlushNow)]
  }

  lemma WriteLeavesItInMemory(st: State, w: Record)
    requires Early(st) && Short(w)
    ensures Legal(st, Tx([w]))
    ensures var mid := After(st, Tx([w]));
      && Inv(mid) && mid.data == map[w.key := w.entry] && mid.tables == st.tables && mid.nextId == st.nextId && mid.stale == st.stale && mid.stuck == st.stuck
      && mid.sequence == st.sequence + 1 && mid.budget == st.budget
  {
    EarlyFacts(st);
    hide *;
    ShortIsLoggable(w, st.sequence);
    OneInserted(w);
    OneFootprint(w);
    CommitShape(st, [w]);
    WriteLegal(st, w);
    EventShape(st, Tx([w]));
    MaybeFlushShape(CommitBatch(st, [w]));
    EventLaw(st, Tx([w]));
  }

  lemma EarlyFacts(st: State)
    requires Early(st)
    ensures Inv(st) && st.data == map[] && |st.tables| <= 1 && st.sequence < 10 && st.budget == DEFAULT_BUDGET && U64 > 1000
  {
    hide Inv;
  }

  lemma WriteLegal(st: State, w: Record)
    requires Loggable([w], st.sequence) && Footprint(Insert(st.data, [w])) < st.budget
    ensures Legal(st, Tx([w]))
  {
    hide Loggable, Footprint, Insert, FlushFits;
  }

  lemma FlushLegal(st: State)
    requires StorableMap(st.data) && |st.tables| <= 1
    ensures FlushFits(st) && Legal(st, FlushNow)
  {
    hide StorableMap, CompactFits;
  }

  lemma {:induction false} FlushedRun(st: State, w: Record)
    requires Early(st) && Short(w)
    ensures LegalRun(st, Flushed(w))
    ensures var after := Final(st, Flushed(w));
      && Inv(after) && after.data == map[] && after.tables == [Level(st.nextId, map[w.key := w.entry])] + st.tables
      && after.nextId == st.nextId + 1 && after.stale == st.stale && after.stuck == st.stuck
      && after.sequence == st.sequence + 1 && after.budget == st.budget && after.disk.wal == []
  {
    EarlyFacts(st);
    var mid := FlushedMiddle(st, w);
    hide *;
    TwoDone(st, Tx([w]), FlushNow);
    FlushedIs(w);
  }

  lemma FlushedIs(w: Record)
    ensures Flushed(w) == [Done(Tx([w])), Done(FlushNow)]
  {
  }

  lemma FlushedMiddle(st: State, w: Record) returns (mid: State)
    requires Early(st) && Short(w)
    ensures Legal(st, Tx([w])) && mid == After(st, Tx([w])) && Legal(mid, FlushNow)
    ensures var after := After(mid, FlushNow);
      && Inv(after) && after.data == map[] && after.tables == [Level(st.nextId, map[w.key := w.entry])] + st.tables
      && after.nextId == st.nextId + 1 && after.stale == st.stale && after.stuck == st.stuck
      && after.sequence == st.sequence + 1 && after.budget == st.budget && after.disk.wal == []
  {
    EarlyFacts(st);
    hide *;
    WriteLeavesItInMemory(st, w);
    mid := After(st, Tx([w]));
    OneStorable(w);
    FlushLegal(mid);
    EventShape(mid, FlushNow);
    FlushShape(mid);
    MoveShape(mid);
    EventLaw(mid, FlushNow);
    assert w.key in mid.data;
  }

  lemma TwoDone(st: State, a: Event, b: Event)
    requires Legal(st, a) && Legal(After(st, a), b)
    ensures LegalRun(st, [Done(a), Done(b)]) && Final(st, [Done(a), Done(b)]) == After(After(st, a), b)
  {
    hide Legal, After;
    var run, rest := [Done(a), Done(b)], [Done(b)];
    assert run[1..] == rest && rest[1..] == [];
    assert Possible(st, run[0]) && Next(st, run[0]) == After(st, a);
    var mid := After(st, a);
    assert Possible(mid, rest[0]) && Next(mid, rest[0]) == After(mid, b);
    assert LegalRun(Next(mid, rest[0]), []);
    assert LegalRun(mid, rest) && Final(mid, rest) == After(mid, b);
  }

  lemma {:induction false} RunConcat(st: State, a: seq<Step>, b: seq<Step>)
    requires LegalRun(st, a) && LegalRun(Final(st, a), b)
    ensures LegalRun(st, a + b) && Final(st, a + b) == Final(Final(st, a), b)
    decreases |a|
  {
    hide Possible, Next;
    if a == [] {
      assert a + b == b;
    } else {
      assert (a + b)[0] == a[0] && (a + b)[1..] == a[1..] + b;
      RunConcat(Next(st, a[0]), a[1..], b);
    }
  }

  /** Put a key, flush, delete it, flush. */
  function PutThenDelete(k: bytes, v: Value): seq<Step> {
    Flushed(Record(k, Present(v))) + Flushed(Record(k, Tombstone))
  }

  lemma BlankIsEarly() returns (st: State)
    ensures Recover(BLANK) == Ok(st) && Early(st) && st.tables == [] && st.nextId == 1 && st.stale == [] && st.stuck == {}
    ensures st.sequence == 0
  {
    BlankHolds();
    hide *;
    RecoverHolds(BLANK, FRESH, []);
    st := RecoverOk(BLANK, FRESH, [], 0);
    BlankShape(st);
  }

  lemma BlankShape(st: State)
    requires Inv(st) && st == State(FRESH.data, DEFAULT_BUDGET, FRESH.sequence, [], NextId([]), BLANK, [], {})
    ensures Early(st) && st.nextId == 1 && st.sequence == 0
  {
    hide Inv;
  }

  /** One deleted key left: the newer table hides it, the older still holds it. */
  ghost predicate Hidden(st: State, k: bytes, v: Value) {
    && Inv(st) && st.data == map[] && st.disk.wal == []
    && st.stale == [] && st.stuck == {}
    && st.tables == [Level(2, map[k := Tombstone]), Level(1, map[k := Present(v)])]
  }

  lemma HiddenAfterRun(k: bytes, v: Value) returns (st: State)
    requires Short(Record(k, Present(v)))
    ensures Recover(BLANK) == Ok(st)
    ensures LegalRun(st, PutThenDelete(k, v)) && Hidden(Final(st, PutThenDelete(k, v)), k, v)
  {
    var put, del := Record(k, Present(v)), Record(k, Tombstone);
    RecordsShort(k, v);
    PutThenDeleteIs(k, v);
    hide *;
    st := BlankIsEarly();
    EarlyFacts(st);
    FlushedRun(st, put);
    var mid := Final(st, Flushed(put));
    EarlyAgain(mid);
    FlushedRun(mid, del);
    RunConcat(st, Flushed(put), Flushed(del));
    HiddenIs(Final(mid, Flushed(del)), k, v);
  }

  lemma RecordsShort(k: bytes, v: Value)
    requires Short(Record(k, Present(v)))
    ensures Short(Record(k, Tombstone))
  {
  }

  lemma PutThenDeleteIs(k: bytes, v: Value)
    ensures PutThenDelete(k, v) == Flushed(Record(k, Present(v))) + Flushed(Record(k, Tombstone))
  {
  }

  lemma EarlyAgain(st: State)
    requires Inv(st) && st.data == map[] && |st.tables| <= 1 && st.sequence < 10 && st.budget == DEFAULT_BUDGET
    ensures Early(st)
  {
    hide Inv;
  }

  lemma HiddenIs(st: State, k: bytes, v: Value)
    requires Inv(st) && st.data == map[] && st.disk.wal == [] && st.stale == [] && st.stuck == {}
    requires st.tables == [Level(2, map[k := Tombstone])] + ([Level(1, map[k := Present(v)])] + [])
    ensures Hidden(st, k, v)
  {
    hide Inv;
  }

  lemma HiddenMerges(st: State, k: bytes, v: Value)
    requires Hidden(st, k, v)
    ensures Merged(st.tables) == map[] && Visible(st) == map[]
    ensures View([map[]] + Stack(st.tables[1..])) == map[k := v]
  {
    hide Inv;
    var top, bottom: Layer := map[k := Tombstone], map[k := Present(v)];
    assert Stack(st.tables) == [top] + ([bottom] + []) && Stack(st.tables[1..]) == [bottom] + [];
    MergeFirst(bottom, []);
    MergeFirst(top, [bottom] + []);
    MergeFirst(map[], Stack(st.tables));
    MergeFirst(map[], [bottom] + []);
  }

  /** Compacting two tables of one key each: the newer entry decides, and what is stuck is left over. */
  lemma CompactPair(st: State, a: Level, b: Level, k: bytes, top: Entry, bottom: Entry)
    requires Inv(st) && st.tables == [a, b] && a.id != b.id && Short(Record(k, top))
    requires a.contents == map[k := top] && b.contents == map[k := bottom]
    ensures CompactFits(st) && Legal(st, CompactNow)
    ensures Merged(st.tables) == if top.Present? then map[k := top] else map[]
    ensures Removable(st) == (if a.id in st.stuck then [] else [a.id]) + (if b.id in st.stuck then [] else [b.id])
  {
    hide *;
    PairMerges(a, b, k, top, bottom);
    OneStorable(Record(k, top));
    PairIds(st, a, b);
    FitsCompaction(st);
  }

  lemma FitsCompaction(st: State)
    requires StorableMap(Merged(st.tables))
    ensures CompactFits(st) && Legal(st, CompactNow)
  {
    hide StorableMap, Merged;
  }

  lemma PairIds(st: State, a: Level, b: Level)
    requires st.tables == [a, b]
    ensures Removable(st) == (if a.id in st.stuck then [] else [a.id]) + (if b.id in st.stuck then [] else [b.id])
  {
    var ids := Ids(st.tables);
    assert ids == [a.id, b.id] && ids[1..] == [b.id] && ids[1..][1..] == [];
    assert Unstuck([b.id], st.stuck) == if b.id in st.stuck then [] else [b.id];
  }

  lemma PairMerges(a: Level, b: Level, k: bytes, top: Entry, bottom: Entry)
    requires a.contents == map[k := top] && b.contents == map[k := bottom]
    ensures Merge(Stack([a, b])) == map[k := top]
    ensures Merged([a, b]) == if top.Present? then map[k := top] else map[]
  {
    assert Stack([a, b]) == [a.contents] + ([b.contents] + []);
    MergeFirst(b.contents, []);
    MergeFirst(a.contents, [b.contents] + []);
    assert map[] + b.contents + a.contents == map[k := top];
  }

  lemma PairLeft(st: State, a: Level, b: Level, ids: seq<nat>)
    requires st.tables == [a, b] && |ids| <= |Removable(st)| && Removable(st)[..|ids|] == ids
    ensures Left(st, |ids|) == (if a.id in ids then [] else [a]) + (if b.id in ids then [] else [b]) + st.stale
  {
    hide Removable;
    var gone := Elements(ids);
    assert [a, b][1..] == [b] && [b][1..] == [];
    assert Surviving([b], gone) == if b.id in ids then [] else [b];
  }

  lemma MergedLevelIs(st: State, m: Layer)
    requires Merged(st.tables) == m
    ensures MergedLevel(st.tables, st.nextId) == if m == map[] then [] else [Level(st.nextId, m)]
    ensures m == map[] ==> MergeOps(st) == []
  {
    hide Merged;
  }

  lemma HiddenCompacts(st: State, k: bytes, v: Value)
    requires Hidden(st, k, v) && Short(Record(k, Tombstone))
    ensures CompactFits(st) && Legal(st, CompactNow) && MergeOps(st) == [] && |Removable(st)| == 2
    ensures CleanupStack(st, 1) == st.tables[1..]
  {
    HiddenFacts(st, k, v);
    var a, b := Level(2, map[k := Tombstone]), Level(1, map[k := Present(v)]);
    hide *;
    CompactPair(st, a, b, k, Tombstone, Present(v));
    assert Removable(st) == [2, 1] && [2, 1][..1] == [2];
    PairLeft(st, a, b, [2]);
    MergedLevelIs(st, map[]);
    CleanupStackIs(st, 1);
    assert st.tables[1..] == [b];
  }

  /** Put, flush, delete, flush, and power lost after the compaction removed its first file: the key is back. */
  lemma DeletedKeyReturns(k: bytes, v: Value) returns (st: State, r: State)
    requires Short(Record(k, Present(v)))
    ensures Recover(BLANK) == Ok(st) && LegalRun(st, PutThenDelete(k, v))
    ensures var late := Final(st, PutThenDelete(k, v));
      && Visible(late) == map[]
      && CrashPoint(late, CompactNow, 1, 0)
      && Recover(Crashed(late, CompactNow, 1, 0)) == Ok(r)
      && Visible(r) == map[k := v]
  {
    RecordsShort(k, v);
    st := HiddenAfterRun(k, v);
    var late := Final(st, PutThenDelete(k, v));
    r := HiddenCrash(late, k, v);
  }

  lemma HiddenFacts(st: State, k: bytes, v: Value)
    requires Hidden(st, k, v)
    ensures Inv(st) && st.data == map[] && |st.tables| == 2 && st.disk.wal == [] && OnDisk(st) == st.tables
    ensures st.tables == [Level(2, map[k := Tombstone]), Level(1, map[k := Present(v)])] && st.stale == [] && st.stuck == {}
  {
    hide Inv;
    OnDiskAlone(st);
  }

  lemma HiddenCrash(st: State, k: bytes, v: Value) returns (r: State)
    requires Hidden(st, k, v) && Short(Record(k, Tombstone))
    ensures CrashPoint(st, CompactNow, 1, 0)
    ensures Recover(Crashed(st, CompactNow, 1, 0)) == Ok(r)
    ensures Visible(st) == map[] && Visible(r) == map[k := v]
  {
    hide *;
    HiddenFacts(st, k, v);
    HiddenMerges(st, k, v);
    HiddenCompacts(st, k, v);
    CompactOpsAre(st);
    var m := Unpack(st);
    CleanupHolds(st, m, 1);
    r := RecoverOk(ApplyAll(st.disk, CompactOps(st)[..1]), m, st.tables[1..], st.sequence);
    EventShape(st, CompactNow);
    BeforeIs(st, CompactNow, 1);
    CrashWhole(Before(st, CompactNow, 1), 0);
    CrashPointIs(st, CompactNow, 1, 0);
  }

  lemma CrashPointIs(st: State, ev: Event, j: nat, cut: nat)
    requires Legal(st, ev) && j <= |EventOps(st, ev)|
    requires Before(st, ev, j).synced <= cut <= |Before(st, ev, j).wal|
    ensures CrashPoint(st, ev, j, cut) && Crashed(st, ev, j, cut) == Crash(Before(st, ev, j), cut)
  {
    hide Legal, EventOps, Before;
  }

  // ----- a removal that fails -----

  lemma OneStep(st: State, step: Step)
    requires Possible(st, step)
    ensures LegalRun(st, [step]) && Final(st, [step]) == Next(st, step)
  {
    hide Possible, Next;
    var run := [step];
    assert run[1..] == [];
    assert LegalRun(Next(st, run[0]), []);
  }

  /** A compaction whose older file refuses to go. */
  const FAILING: seq<Step> := [SetStuck({1})] + [Done(CompactNow)]

  /** Delete the key, flush, compact. */
  function Forgotten(k: bytes): seq<Step> {
    Flushed(Record(k, Tombstone)) + [Done(CompactNow)]
  }

  /** Put a key twice, each time with a flush; compact, the older file refusing to go; delete the key, flush, compact. */
  function PutTwiceThenDelete(k: bytes, v: Value): seq<Step> {
    Flushed(Record(k, Present(v))) + Flushed(Record(k, Present(v))) + (FAILING + Forgotten(k))
  }

  lemma CompactStep(st: State)
    requires Inv(st) && CompactFits(st)
    ensures Possible(st, Done(CompactNow)) && Next(st, Done(CompactNow)) == Compact(st)
    ensures Inv(Compact(st)) && Visible(Compact(st)) == Visible(st)
  {
    hide Inv, CompactFits, Compact, Visible;
    CompactLaw(st);
  }

  lemma StuckStep(st: State, ids: set<nat>)
    requires Inv(st)
    ensures Possible(st, SetStuck(ids)) && Next(st, SetStuck(ids)) == st.(stuck := ids) && Inv(st.(stuck := ids))
  {
    BudgetOnly(st, st.budget, ids);
    hide *;
    assert st.(budget := st.budget, stuck := ids) == st.(stuck := ids);
    StuckStepIs(st, ids);
  }

  lemma StuckStepIs(st: State, ids: set<nat>)
    ensures Possible(st, SetStuck(ids)) && Next(st, SetStuck(ids)) == st.(stuck := ids)
  {
  }

  /** Two tables with the same value; the older file stays behind. */
  lemma FirstCompaction(st: State, k: bytes, v: Value)
    requires Inv(st) && st.data == map[] && st.stale == [] && st.stuck == {1} && st.nextId == 3 && Short(Record(k, Present(v)))
    requires st.tables == [Level(2, map[k := Present(v)]), Level(1, map[k := Present(v)])]
    ensures CompactFits(st)
    ensures var after := Compact(st);
      && after.data == map[] && after.tables == [Level(3, map[k := Present(v)])] && after.stale == [Level(1, map[k := Present(v)])]
      && after.stuck == {1} && after.nextId == 4 && after.budget == st.budget && after.sequence == st.sequence
  {
    hide *;
    var a, b := st.tables[0], st.tables[1];
    CompactPair(st, a, b, k, Present(v), Present(v));
    CompactShape(st);
    assert Removable(st) == [2] && [2][..1] == [2];
    PairLeft(st, a, b, [2]);
    MergedLevelIs(st, map[k := Present(v)]);
    assert k in map[k := Present(v)];
  }

  /** The tombstone's compaction drops it and forgets the key; the leftover file does not. */
  lemma SecondCompaction(st: State, k: bytes, v: Value)
    requires Inv(st) && st.data == map[] && st.stuck == {1} && Short(Record(k, Tombstone))
    requires st.tables == [Level(4, map[k := Tombstone]), Level(3, map[k := Present(v)])]
    requires st.stale == [Level(1, map[k := Present(v)])]
    ensures CompactFits(st)
    ensures var after := Compact(st);
      after.data == map[] && after.tables == [] && after.stale == [Level(1, map[k := Present(v)])]
  {
    hide *;
    var a, b := st.tables[0], st.tables[1];
    CompactPair(st, a, b, k, Tombstone, Present(v));
    CompactShape(st);
    assert Removable(st) == [4, 3] && [4, 3][..2] == [4, 3];
    PairLeft(st, a, b, [4, 3]);
    MergedLevelIs(st, map[]);
  }

  lemma LeftoverShows(st: State, k: bytes, v: Value)
    requires st.data == map[] && st.tables == [] && st.stale == [Level(1, map[k := Present(v)])]
    ensures Visible(st) == map[] && View([map[]] + Stack(OnDisk(st))) == map[k := v]
  {
    var bottom: Layer := map[k := Present(v)];
    assert Stack(st.tables) == [] && Stack(OnDisk(st)) == [bottom] + [];
    MergeFirst(map[], []);
    MergeFirst(bottom, []);
    MergeFirst(map[], [bottom] + []);
  }

  /** The key stands in two tables. */
  ghost predicate Doubled(st: State, k: bytes, v: Value) {
    && Inv(st) && st.data == map[] && st.stale == [] && st.nextId == 3 && st.sequence == 2 && st.budget == DEFAULT_BUDGET
    && st.tables == [Level(2, map[k := Present(v)]), Level(1, map[k := Present(v)])]
  }

  lemma DoubledIs(st: State, k: bytes, v: Value)
    requires Inv(st) && st.data == map[] && st.stale == [] && st.nextId == 3 && st.sequence == 2 && st.budget == DEFAULT_BUDGET
    requires st.tables == [Level(2, map[k := Present(v)])] + ([Level(1, map[k := Present(v)])] + [])
    ensures Doubled(st, k, v)
  {
    hide Inv;
  }

  lemma DoubledFacts(st: State, k: bytes, v: Value)
    requires Doubled(st, k, v)
    ensures Inv(st) && st.data == map[] && st.stale == [] && st.nextId == 3 && st.sequence == 2 && st.budget == DEFAULT_BUDGET
    ensures st.tables == [Level(2, map[k := Present(v)]), Level(1, map[k := Present(v)])]
  {
    hide Inv;
  }

  /** The key stands in the merged table, and in a file that stayed behind. */
  ghost predicate KeptBehind(st: State, k: bytes, v: Value) {
    && Early(st) && st.tables == [Level(3, map[k := Present(v)])] && st.stale == [Level(1, map[k := Present(v)])]
    && st.stuck == {1} && st.nextId == 4
  }

  lemma KeptBehindIs(st: State, k: bytes, v: Value)
    ensures KeptBehind(st, k, v) <==>
      && Early(st) && st.tables == [Level(3, map[k := Present(v)])] && st.stale == [Level(1, map[k := Present(v)])]
      && st.stuck == {1} && st.nextId == 4
  {
    hide Early;
  }

  /** The store has forgotten the key; the file that stayed behind has not. */
  ghost predicate OnlyBehind(st: State, k: bytes, v: Value) {
    Inv(st) && st.data == map[] && st.tables == [] && st.stale == [Level(1, map[k := Present(v)])]
  }

  lemma OnlyBehindIs(st: State, k: bytes, v: Value)
    ensures OnlyBehind(st, k, v) <==>
      Inv(st) && st.data == map[] && st.tables == [] && st.stale == [Level(1, map[k := Present(v)])]
  {
    hide Inv;
  }

  lemma TwoTables(k: bytes, v: Value) returns (st: State)
    requires Short(Record(k, Present(v)))
    ensures var put := Record(k, Present(v));
      && Recover(BLANK) == Ok(st) && LegalRun(st, Flushed(put) + Flushed(put))
      && Doubled(Final(st, Flushed(put) + Flushed(put)), k, v)
  {
    var put := Record(k, Present(v));
    hide *;
    st := BlankIsEarly();
    EarlyFacts(st);
    FlushedRun(st, put);
    var one := Final(st, Flushed(put));
    EarlyAgain(one);
    FlushedRun(one, put);
    RunConcat(st, Flushed(put), Flushed(put));
    DoubledIs(Final(one, Flushed(put)), k, v);
  }

  lemma FailingRun(two: State, k: bytes, v: Value)
    requires Doubled(two, k, v) && Short(Record(k, Present(v)))
    ensures LegalRun(two, FAILING) && KeptBehind(Final(two, FAILING), k, v)
  {
    FailingIs();
    hide *;
    DoubledFacts(two, k, v);
    StuckStep(two, {1});
    OneStep(two, SetStuck({1}));
    var s := two.(stuck := {1});
    FirstCompaction(s, k, v);
    CompactStep(s);
    OneStep(s, Done(CompactNow));
    RunConcat(two, [SetStuck({1})], [Done(CompactNow)]);
    EarlyAgain(Compact(s));
    KeptBehindIs(Compact(s), k, v);
  }

  lemma FailingIs()
    ensures FAILING == [SetStuck({1})] + [Done(CompactNow)]
  {
  }

  lemma ForgottenRun(st: State, k: bytes, v: Value)
    requires KeptBehind(st, k, v) && Short(Record(k, Tombstone))
    ensures LegalRun(st, Forgotten(k)) && OnlyBehind(Final(st, Forgotten(k)), k, v)
  {
    ForgottenIs(k);
    hide *;
    KeptBehindIs(st, k, v);
    var del := Record(k, Tombstone);
    FlushedRun(st, del);
    var s := Final(st, Flushed(del));
    assert s.tables == [Level(4, map[k := Tombstone]), Level(3, map[k := Present(v)])];
    SecondCompaction(s, k, v);
    CompactStep(s);
    OneStep(s, Done(CompactNow));
    RunConcat(st, Flushed(del), [Done(CompactNow)]);
    OnlyBehindIs(Compact(s), k, v);
  }

  lemma ForgottenIs(k: bytes)
    ensures Forgotten(k) == Flushed(Record(k, Tombstone)) + [Done(CompactNow)]
  {
  }

  /** No power is lost here: the run, then a clean reopening, and the deleted key is back. */
  lemma LeftoverReturns(k: bytes, v: Value) returns (st: State)
    requires Short(Record(k, Present(v)))
    ensures Recover(BLANK) == Ok(st) && LegalRun(st, PutTwiceThenDelete(k, v))
    ensures var late := Final(st, PutTwiceThenDelete(k, v));
      Visible(late) == map[] && Visible(Next(late, Reopen)) == map[k := v]
  {
    hide *;
    st := ForgottenWithLeftover(k, v);
    var late := Final(st, PutTwiceThenDelete(k, v));
    OnlyBehindIs(late, k, v);
    LeftoverShows(late, k, v);
    var r := ReopenLaw(late);
    ReopenIs(late, r);
    RecoverShape(r);
  }

  lemma ForgottenWithLeftover(k: bytes, v: Value) returns (st: State)
    requires Short(Record(k, Present(v)))
    ensures Recover(BLANK) == Ok(st) && LegalRun(st, PutTwiceThenDelete(k, v))
    ensures OnlyBehind(Final(st, PutTwiceThenDelete(k, v)), k, v)
  {
    RecordsShort(k, v);
    ScriptIs(k, v);
    hide *;
    st := TwoTables(k, v);
    var puts := Flushed(Record(k, Present(v))) + Flushed(Record(k, Present(v)));
    var two := Final(st, puts);
    FailingRun(two, k, v);
    ForgottenRun(Final(two, FAILING), k, v);
    JoinRuns(st, puts, FAILING, Forgotten(k));
  }

  lemma JoinRuns(st: State, a: seq<Step>, b: seq<Step>, c: seq<Step>)
    requires LegalRun(st, a) && LegalRun(Final(st, a), b) && LegalRun(Final(Final(st, a), b), c)
    ensures LegalRun(st, a + (b + c)) && Final(st, a + (b + c)) == Final(Final(Final(st, a), b), c)
  {
    hide *;
    RunConcat(Final(st, a), b, c);
    RunConcat(st, a, b + c);
  }

  lemma ScriptIs(k: bytes, v: Value)
    ensures PutTwiceThenDelete(k, v) ==
      Flushed(Record(k, Present(v))) + Flushed(Record(k, Present(v))) + (FAILING + Forgotten(k))
  {
  }

  lemma ReopenIs(st: State, r: State)
    requires Recover(st.disk) == Ok(r)
    ensures Possible(st, Reopen) && Next(st, Reopen) == r
  {
    hide Recover;
  }
}
