/** One table as a value: memtable over immutable tables over a disk, the operations on it, and recovery. */
module StoreSpec {
  import opened Bytes
  import opened Codec
  import opened Records
  import opened TableFormat
  import opened TableReader
  import opened SsTable
  import opened Disk
  import opened Wal
  import opened Layers

  const DEFAULT_BUDGET: nat := 4 * 1024 * 1024
  const MAX_SSTABLES: nat := 8

  /** An immutable table: its id, higher meaning newer, and the map its file holds. */
  datatype Level = Level(id: nat, contents: Layer)

  /** `stale` are the levels whose files a compaction failed to remove: on disk, but no longer in use. `stuck` are the
      ids of files whose removal fails, which the code never notices. */
  datatype State = State(
    data: Layer, budget: nat, sequence: nat, tables: seq<Level>, nextId: nat, disk: Image,
    stale: seq<Level>, stuck: set<nat>)

  /** Every level with a file on disk, newest first. */
  function OnDisk(st: State): seq<Level> {
    st.tables + st.stale
  }

  function Stack(tables: seq<Level>): (s: seq<Layer>)
    ensures |s| == |tables| && forall i :: 0 <= i < |tables| ==> s[i] == tables[i].contents
  {
    seq(|tables|, i requires 0 <= i < |tables| => tables[i].contents)
  }

  /** The map a reader of the store sees. */
  function Visible(st: State): map<bytes, Value> {
    View([st.data] + Stack(st.tables))
  }

  // ----- memtable footprint -----

  function EntryFootprint(key: bytes, e: Entry): nat {
    |key| + match e
      case Present(Integer(_)) => 4
      case Present(Float(_)) => 8
      case Present(Boolean(_)) => 1
      case Present(Text(s)) => |s|
      case Present(Bytes(b)) => |b|
      case Tombstone => 0
  }

  function Footprint(m: Layer): nat
    decreases |m|
  {
    if m == map[] then 0
    else
      assert m.Keys != {};
      var k := Greatest(m.Keys);
      SmallerWithout(m, k);
      EntryFootprint(k, m[k]) + Footprint(m - {k})
  }

  lemma SmallerWithout(m: Layer, k: bytes)
    requires k in m
    ensures |m - {k}| < |m|
  {
    assert (m - {k}).Keys == m.Keys - {k};
    assert |(m - {k}).Keys| < |m.Keys|;
  }

  /** The sum does not depend on the order the entries are taken in. */
  lemma {:induction false} FootprintWithout(m: Layer, k: bytes)
    requires k in m
    ensures Footprint(m) == EntryFootprint(k, m[k]) + Footprint(m - {k})
    decreases |m|
  {
    hide EntryFootprint;
    assert m.Keys != {};
    var g := Greatest(m.Keys);
    if g != k {
      SmallerWithout(m, g);
      FootprintWithout(m - {g}, k);
      assert (m - {k}).Keys == m.Keys - {k} && g in m - {k};
      SmallerWithout(m, k);
      FootprintWithout(m - {k}, g);
      assert m - {g} - {k} == m - {k} - {g};
    }
  }

  /** Inserting adds the new footprint and gives back the replaced one, which the sum always covers. */
  lemma FootprintInsert(m: Layer, k: bytes, e: Entry)
    ensures k in m ==> EntryFootprint(k, m[k]) <= Footprint(m)
    ensures Footprint(m[k := e]) ==
      Footprint(m) + EntryFootprint(k, e) - (if k in m then EntryFootprint(k, m[k]) else 0)
  {
    hide EntryFootprint, Footprint;
    FootprintWithout(m[k := e], k);
    if k in m {
      FootprintWithout(m, k);
      assert m[k := e] - {k} == m - {k};
    } else {
      assert m[k := e] - {k} == m;
    }
  }

  // ----- replay -----

  datatype Mem = Mem(data: Layer, sequence: nat)

  const FRESH: Mem := Mem(map[], 0)

  function Max(a: nat, b: nat): nat {
    if a < b then b else a
  }

  function ReplayOne(m: Mem, e: WalEntry): Result<Mem> {
    var sequence := Max(m.sequence, e.sequence);
    match e.Op()
    case Put =>
      if e.value == None then Ok(m.(sequence := sequence))
      else
        var v :- FromProto(e.value.value);
        Ok(Mem(m.data[e.key := Present(v)], sequence))
    case Delete => Ok(Mem(m.data[e.key := Tombstone], sequence))
    case Commit => Ok(m.(sequence := sequence))
  }

  function Replay(m: Mem, es: seq<WalEntry>): Result<Mem>
    decreases |es|
  {
    if es == [] then Ok(m)
    else
      var next :- ReplayOne(m, es[0]);
      Replay(next, es[1..])
  }

  lemma {:induction false} ReplayConcat(m: Mem, a: seq<WalEntry>, b: seq<WalEntry>)
    ensures Replay(m, a + b) == if Replay(m, a).Err? then Replay(m, a) else Replay(Replay(m, a).value, b)
    decreases |a|
  {
    hide ReplayOne;
    if a == [] {
      assert a + b == b;
    } else {
      assert (a + b)[0] == a[0] && (a + b)[1..] == a[1..] + b;
      if ReplayOne(m, a[0]).Ok? { ReplayConcat(ReplayOne(m, a[0]).value, a[1..], b); }
    }
  }

  /** Replay fails exactly on a PUT whose value message holds no value. */
  lemma {:induction false} ReplayOkIff(m: Mem, es: seq<WalEntry>)
    ensures Replay(m, es).Ok? <==>
      forall i :: 0 <= i < |es| && es[i].opcode != 1 && es[i].opcode != 2 && es[i].value.Some? ==> es[i].value.value.kind.Some?
    decreases |es|
  {
    if es != [] {
      if ReplayOne(m, es[0]).Ok? {
        ReplayOkIff(ReplayOne(m, es[0]).value, es[1..]);
        assert forall i :: 0 <= i < |es[1..]| ==> es[1..][i] == es[i + 1];
        assert forall i :: 0 < i < |es| ==> es[i] == es[1..][i - 1];
      }
    }
  }

  /** A PUT without any value message, and a COMMIT inside the entries replayed, change no data; an entry of unknown
      operation is a PUT. */
  lemma ReplayEffect(m: Mem, e: WalEntry)
    ensures e.opcode == 2 ==> ReplayOne(m, e).Ok? && ReplayOne(m, e).value.data == m.data
    ensures e.opcode == 1 ==> ReplayOne(m, e).Ok? && ReplayOne(m, e).value.data == m.data[e.key := Tombstone]
    ensures e.opcode != 1 && e.opcode != 2 && e.value.None? ==> ReplayOne(m, e).Ok? && ReplayOne(m, e).value.data == m.data
    ensures forall v :: e.opcode != 1 && e.opcode != 2 && e.value == Some(ValueMessage(Some(v))) ==>
      ReplayOne(m, e).Ok? && ReplayOne(m, e).value.data == m.data[e.key := Present(v)]
    ensures ReplayOne(m, e).Ok? ==>
      ReplayOne(m, e).value.sequence >= m.sequence && ReplayOne(m, e).value.sequence >= e.sequence
      && ReplayOne(m, e).value.sequence in {m.sequence, e.sequence}
  {
  }

  // ----- table files -----

  function FileFor(m: Layer): bytes {
    FileOf(Sorted(m))
  }

  /** A map whose table file stays within the format's field widths. */
  ghost predicate StorableMap(m: Layer) {
    Storable(Sorted(m))
  }

  lemma FileForRoundTrip(m: Layer)
    requires StorableMap(m)
    ensures ParseTable(FileFor(m)) == Ok(TableOf(Sorted(m))) && Contents(FileFor(m)) == m
  {
    SortedEnumerates(m);
    hide FileOf, TableOf, ParseTable, Contents, MapOf, Sorted, Storable;
    ContentsRoundTrip(Sorted(m));
  }

  function FilesOf(tables: seq<Level>): map<nat, bytes> {
    if tables == [] then map[] else FilesOf(tables[1..])[tables[0].id := FileFor(tables[0].contents)]
  }

  ghost predicate Descending(tables: seq<Level>) {
    forall i, j :: 0 <= i < j < |tables| ==> tables[i].id > tables[j].id
  }

  ghost predicate AllStorable(tables: seq<Level>) {
    forall i :: 0 <= i < |tables| ==> StorableMap(tables[i].contents)
  }

  lemma {:induction false} FilesOfKeys(tables: seq<Level>, id: nat)
    ensures id in FilesOf(tables) <==> exists i :: 0 <= i < |tables| && tables[i].id == id
  {
    hide FileFor;
    if tables != [] {
      FilesOfKeys(tables[1..], id);
      if i :| 0 <= i < |tables[1..]| && tables[1..][i].id == id { assert tables[i + 1].id == id; }
      if i :| 0 < i < |tables| && tables[i].id == id { assert tables[1..][i - 1].id == id; }
    }
  }

  lemma {:induction false} FilesOfAt(tables: seq<Level>, i: nat)
    requires Descending(tables) && i < |tables|
    ensures tables[i].id in FilesOf(tables) && FilesOf(tables)[tables[i].id] == FileFor(tables[i].contents)
  {
    hide FileFor;
    if i != 0 { FilesOfAt(tables[1..], i - 1); }
  }

  // ----- recovery -----

  lemma HasMax(s: set<nat>) returns (top: nat)
    requires s != {}
    ensures top in s && forall x :: x in s ==> x <= top
  {
    var x :| x in s;
    if s == {x} {
      top := x;
    } else {
      var rest := HasMax(s - {x});
      assert s == (s - {x}) + {x};
      top := if x < rest then rest else x;
    }
  }

  predicate IsMax(s: set<nat>, top: nat) {
    top in s && forall x :: x in s ==> x <= top
  }

  function MaxOf(s: set<nat>): (top: nat)
    requires s != {}
    ensures IsMax(s, top)
  {
    assert exists top :: IsMax(s, top) by { var top := HasMax(s); assert IsMax(s, top); }
    var top :| IsMax(s, top);
    top
  }

  /** A set of ids, greatest first. */
  function DescendingIds(s: set<nat>): seq<nat>
    decreases |s|
  {
    if s == {} then []
    else
      var top := MaxOf(s);
      assert |s - {top}| < |s|;
      [top] + DescendingIds(s - {top})
  }

  /** The table files found in a directory, newest first. */
  ghost function LevelsOf(files: map<nat, bytes>): Result<seq<Level>>
    decreases |files|
  {
    if files == map[] then Ok([])
    else
      assert files.Keys != {};
      var id := MaxOf(files.Keys);
      assert (files - {id}).Keys == files.Keys - {id};
      assert |(files - {id}).Keys| < |files.Keys|;
      var table :- ParseTable(files[id]);
      var rest :- LevelsOf(files - {id});
      Ok([Level(id, Contents(files[id]))] + rest)
  }

  function NextId(tables: seq<Level>): nat {
    if tables == [] then 1 else tables[0].id + 1
  }

  /** What opening the table finds on a disk. */
  ghost function Recover(im: Image): Result<State> {
    var tables :- LevelsOf(im.files);
    var mem :- Replay(FRESH, Parse(im.wal).Committed());
    Ok(State(mem.data, DEFAULT_BUDGET, mem.sequence, tables, NextId(tables), ApplyAll(im, RecoveryOps(im)),
             [], {}))
  }

  lemma {:induction false} LevelsOfFiles(tables: seq<Level>)
    requires Descending(tables) && AllStorable(tables)
    ensures LevelsOf(FilesOf(tables)) == Ok(tables)
    decreases |tables|
  {
    hide FileFor, StorableMap, Contents, ParseTable;
    if tables != [] {
      var files, rest := FilesOf(tables), tables[1..];
      forall id ensures id in files <==> exists i :: 0 <= i < |tables| && tables[i].id == id { FilesOfKeys(tables, id); }
      FilesOfKeys(rest, tables[0].id);
      var id := tables[0].id;
      assert id in files.Keys;
      assert MaxOf(files.Keys) == id;
      assert files - {id} == FilesOf(rest);
      LevelsOfFiles(rest);
      FileForRoundTrip(tables[0].contents);
      Uncons(tables);
    }
  }

  /** The disk image holds exactly this memtable, as whole committed batches, and these tables. */
  ghost predicate Holds(im: Image, m: Mem, tables: seq<Level>) {
    && Parse(im.wal).end == |im.wal|
    && Replay(FRESH, Parse(im.wal).Committed()) == Ok(m)
    && im.files == FilesOf(tables) && Descending(tables) && AllStorable(tables)
  }

  /** Opening an image finds what it holds, and leaves it alone. */
  lemma RecoverHolds(im: Image, m: Mem, tables: seq<Level>)
    requires Holds(im, m, tables)
    ensures Recover(im) == Ok(State(m.data, DEFAULT_BUDGET, m.sequence, tables, NextId(tables), im, [], {}))
  {
    hide Parse, Replay, FilesOf, LevelsOf, AllStorable;
    LevelsOfFiles(tables);
    assert ApplyAll(im, []) == im;
  }

  // ----- the invariant -----

  /** Data entries carry strictly increasing sequences, and nothing in the log exceeds `bound`. */
  ghost predicate SequencesOk(es: seq<WalEntry>, bound: nat) {
    && (forall i :: 0 <= i < |es| ==> es[i].sequence <= bound)
    && forall i, j :: 0 <= i < j < |es| && !es[i].Op().Commit? && !es[j].Op().Commit? ==> es[i].sequence < es[j].sequence
  }

  ghost predicate BelowNext(tables: seq<Level>, nextId: nat) {
    1 <= nextId && forall i :: 0 <= i < |tables| ==> tables[i].id < nextId
  }

  /** Memtable equals replay of the log; tables equal the files; ids descend below the next one. */
  ghost predicate Inv(st: State) {
    && st.disk.synced == |st.disk.wal|
    && (exists replayed: nat :: replayed <= st.sequence && Holds(st.disk, Mem(st.data, replayed), OnDisk(st)))
    && BelowNext(OnDisk(st), st.nextId)
    && SequencesOk(Parse(st.disk.wal).entries, st.sequence)
  }

  // ----- committing a batch -----

  function LogEntry(w: Record, s: uint64): WalEntry {
    match w.entry
    case Present(v) => PutEntry(w.key, v, s)
    case Tombstone => DeleteEntry(w.key, s)
  }

  /** The data entries of a batch, numbered from `s + 1` on. */
  function Entries(batch: Batch, s: nat): (es: seq<WalEntry>)
    requires s + |batch| < U64
    ensures |es| == |batch| && forall i :: 0 <= i < |batch| ==> es[i] == LogEntry(batch[i], s + 1 + i)
  {
    seq(|batch|, i requires 0 <= i < |batch| => LogEntry(batch[i], s + 1 + i))
  }

  function LogBatch(batch: Batch, s: nat): (es: seq<WalEntry>)
    requires s + |batch| < U64
  {
    Entries(batch, s) + [CommitEntry(s + |batch|)]
  }

  function Appends(es: seq<WalEntry>): seq<DiskOp> {
    seq(|es|, i requires 0 <= i < |es| => Append(Frame(es[i])))
  }

  function CommitOps(batch: Batch, s: nat): seq<DiskOp>
    requires s + |batch| < U64
  {
    Appends(LogBatch(batch, s)) + [Sync]
  }

  /** A batch the log can frame: 64-bit lengths and sequence numbers suffice. */
  ghost predicate Loggable(batch: Batch, s: nat) {
    s + |batch| < U64 && forall i :: 0 <= i <= |batch| ==> Framable(LogBatch(batch, s)[i])
  }

  function CommitBatch(st: State, batch: Batch): State
    requires st.sequence + |batch| < U64
  {
    st.(data := Insert(st.data, batch),
        sequence := st.sequence + |batch|,
        disk := ApplyAll(st.disk, CommitOps(batch, st.sequence)))
  }

  // ----- flush and compaction -----

  function Ids(tables: seq<Level>): seq<nat> {
    seq(|tables|, i requires 0 <= i < |tables| => tables[i].id)
  }

  function Removals(ids: seq<nat>): seq<DiskOp> {
    seq(|ids|, i requires 0 <= i < |ids| => RemoveFile(ids[i]))
  }

  function Merged(tables: seq<Level>): Layer {
    DropTombstones(Merge(Stack(tables)))
  }

  function MergedLevel(tables: seq<Level>, id: nat): seq<Level> {
    if Merged(tables) == map[] then [] else [Level(id, Merged(tables))]
  }

  /** The ids whose removal succeeds, in order. */
  function Unstuck(ids: seq<nat>, stuck: set<nat>): seq<nat> {
    if ids == [] then []
    else (if ids[0] in stuck then [] else [ids[0]]) + Unstuck(ids[1..], stuck)
  }

  /** The old files a compaction manages to remove: newest first. */
  function Removable(st: State): seq<nat> {
    Unstuck(Ids(st.tables), st.stuck)
  }

  /** The levels whose file is not among those gone. */
  function Surviving(tables: seq<Level>, gone: set<nat>): seq<Level> {
    if tables == [] then []
    else if tables[0].id in gone then Surviving(tables[1..], gone)
    else [tables[0]] + Surviving(tables[1..], gone)
  }

  /** What is left of the old files after `j` removals. */
  function Left(st: State, j: nat): seq<Level>
    requires j <= |Removable(st)|
  {
    Surviving(st.tables, Elements(Removable(st)[..j])) + st.stale
  }

  /** Writing the merged table, if there is one. */
  function MergeOps(st: State): seq<DiskOp> {
    if Merged(st.tables) == map[] then [] else [WriteFile(st.nextId, FileFor(Merged(st.tables)))]
  }

  /** The merged table is written first; then the old files go, in list order, newest first. */
  function CompactOps(st: State): seq<DiskOp> {
    if |st.tables| < 2 then []
    else MergeOps(st) + Removals(Removable(st))
  }

  function Compact(st: State): State {
    if |st.tables| < 2 then st
    else
      st.(tables := MergedLevel(st.tables, st.nextId),
          nextId := st.nextId + |MergedLevel(st.tables, st.nextId)|,
          stale := Left(st, |Removable(st)|),
          disk := ApplyAll(st.disk, CompactOps(st)))
  }

  function MaybeCompact(st: State): State {
    if |st.tables| > MAX_SSTABLES then Compact(st) else st
  }

  function MaybeCompactOps(st: State): seq<DiskOp> {
    if |st.tables| > MAX_SSTABLES then CompactOps(st) else []
  }

  function MoveOps(st: State): seq<DiskOp> {
    [WriteFile(st.nextId, FileFor(st.data)), Clear]
  }

  /** The memtable becomes the newest table and the log is emptied. */
  function Move(st: State): State {
    st.(data := map[],
        tables := [Level(st.nextId, st.data)] + st.tables,
        nextId := st.nextId + 1,
        disk := ApplyAll(st.disk, MoveOps(st)))
  }

  function Flush(st: State): State {
    if st.data == map[] then st else MaybeCompact(Move(st))
  }

  function FlushOps(st: State): seq<DiskOp> {
    if st.data == map[] then [] else MoveOps(st) + MaybeCompactOps(Move(st))
  }

  function MaybeFlush(st: State): State {
    if Footprint(st.data) >= st.budget then Flush(st) else st
  }

  function MaybeFlushOps(st: State): seq<DiskOp> {
    if Footprint(st.data) >= st.budget then FlushOps(st) else []
  }

  /** Every table file the operation may write stays within the format. */
  ghost predicate CompactFits(st: State) {
    |st.tables| >= 2 ==> StorableMap(Merged(st.tables))
  }

  ghost predicate FlushFits(st: State) {
    st.data != map[] ==> StorableMap(st.data) && (|st.tables| + 1 > MAX_SSTABLES ==> CompactFits(Move(st)))
  }
}
