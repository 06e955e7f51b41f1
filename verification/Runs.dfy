/** Whole runs with crashes at every disk effect and every log byte. */
module Runs {
  import opened Bytes
  import opened Codec
  import opened Records
  import opened Disk
  import opened Wal
  import opened Layers
  import opened StoreSpec
  import opened StoreLaws
  import opened Keeping

  // ----- reopening an image that holds a known state -----

  lemma RecoverOk(im: Image, m: Mem, tables: seq<Level>, bound: nat) returns (r: State)
    requires Holds(im, m, tables) && im.synced == |im.wal| && SequencesOk(Parse(im.wal).entries, bound)
    ensures Recover(im) == Ok(r) && Inv(r) && r.disk == im
    ensures r.data == m.data && r.tables == tables && r.stale == [] && Visible(r) == View([m.data] + Stack(tables))
  {
    r := State(m.data, DEFAULT_BUDGET, m.sequence, tables, NextId(tables), im, [], {});
    RecoverShape(r);
    OnDiskAlone(r);
    hide *;
    RecoverHolds(im, m, tables);
    RecoveredSequences(im, m, tables, bound);
    RecoveredIds(im, m, tables);
    Pack(r, m);
  }

  lemma RecoverShape(r: State)
    ensures Visible(r) == View([r.data] + Stack(r.tables))
  {
  }

  lemma RecoveredSequences(im: Image, m: Mem, tables: seq<Level>, bound: nat)
    requires Holds(im, m, tables) && SequencesOk(Parse(im.wal).entries, bound)
    ensures SequencesOk(Parse(im.wal).entries, m.sequence)
  {
    hide Parse, Replay, FilesOf, StorableMap;
    CleanLog(im.wal);
    ReplayBounds(FRESH, Parse(im.wal).entries);
  }

  lemma RecoveredIds(im: Image, m: Mem, tables: seq<Level>)
    requires Holds(im, m, tables)
    ensures BelowNext(tables, NextId(tables))
  {
    hide Parse, Replay, FilesOf, StorableMap;
  }

  /** No leftover file holds a value for a key that neither memtable nor tables mention. */
  ghost predicate Harmless(st: State) {
    forall k :: k in Live(Merge(Stack(st.stale))) ==> k in st.data || k in Merge(Stack(st.tables))
  }

  lemma HarmlessView(st: State)
    ensures View([st.data] + Stack(OnDisk(st))) == Visible(st) <==> Harmless(st)
  {
    hide View, Merge;
    var a, b := View([st.data] + Stack(OnDisk(st))), Visible(st);
    StackConcat(st.tables, st.stale);
    forall k
      ensures Get(a, k) == Get(b, k)
         <==> (k in Live(Merge(Stack(st.stale))) ==> k in st.data || k in Merge(Stack(st.tables)))
    {
      StaleExact(st.data, Stack(st.tables), Stack(st.stale), k);
      QuietIs(Stack(st.stale), k);
    }
    if Harmless(st) { SameMap(a, b); }
  }

  lemma QuietIs(layers: seq<Layer>, k: bytes)
    ensures Quiet(layers, k) <==> k !in Live(Merge(layers))
  {
    hide Merge;
  }

  /** Reopening a store at rest finds its memtable, its tables, and below them whatever leftover files there are; the
      view is the same exactly if those are harmless. */
  lemma ReopenLaw(st: State) returns (r: State)
    requires Inv(st)
    ensures Recover(st.disk) == Ok(r) && Inv(r)
    ensures r.data == st.data && r.tables == OnDisk(st) && r.stale == [] && r.disk == st.disk
    ensures (Visible(r) == Visible(st) <==> Harmless(st)) && Keeps(r, st, [])
  {
    hide *;
    var m := Unpack(st);
    r := RecoverOk(st.disk, m, OnDisk(st), st.sequence);
    HarmlessView(st);
    ReopenedKeeps(r, st);
  }

  /** For one key: reopening changes its answer exactly if the session's layers do not mention it and a leftover file
      holds a value for it. */
  lemma ReopenExact(st: State, k: bytes) returns (r: State)
    requires Inv(st)
    ensures Recover(st.disk) == Ok(r)
    ensures Get(Visible(r), k) == Get(Visible(st), k)
       <==> k in st.data || k in Merge(Stack(st.tables)) || Quiet(Stack(st.stale), k)
  {
    hide *;
    r := ReopenLaw(st);
    OnDiskIs(st);
    RecoverShape(r);
    RecoverShape(st);
    StackConcat(st.tables, st.stale);
    StaleExact(st.data, Stack(st.tables), Stack(st.stale), k);
  }

  // ----- crashing inside a compaction -----

  /** After `j` effects of a compaction: the levels reopened on, newest first, below the memtable. */
  function CleanupStack(st: State, j: nat): seq<Level>
    requires |st.tables| >= 2 && j <= |MergeOps(st)| + |Removable(st)|
  {
    if j < |MergeOps(st)| then OnDisk(st)
    else MergedLevel(st.tables, st.nextId) + Left(st, j - |MergeOps(st)|)
  }

  /** Nothing dead shows through what is left below the merged table. */
  ghost predicate NothingShows(st: State, left: seq<Level>) {
    forall k :: k in Live(Merge(Stack(left))) ==> k in st.data || k in Live(Merge(Stack(st.tables)))
  }

  /** The point is safe: reopening on what a compaction has left so far shows no deleted key. */
  ghost predicate SafePoint(st: State, j: nat) {
    if |st.tables| >= 2 && |MergeOps(st)| <= j <= |MergeOps(st)| + |Removable(st)|
    then NothingShows(st, Left(st, j - |MergeOps(st)|))
    else Harmless(st)
  }

  lemma CleanupView(st: State, j: nat)
    requires |st.tables| >= 2 && j <= |MergeOps(st)| + |Removable(st)|
    ensures View([st.data] + Stack(CleanupStack(st, j))) == Visible(st) <==> SafePoint(st, j)
  {
    hide View, Merge, MergeOps, Left, Removable, MergedTable, Safe;
    if j < |MergeOps(st)| {
      HarmlessView(st);
    } else {
      var left := Left(st, j - |MergeOps(st)|);
      StackMerged(st.tables, st.nextId, left);
      CleanupSafe(st.data, Stack(st.tables), Stack(left));
      SafeShows(st, left);
    }
  }

  lemma SafeShows(st: State, left: seq<Level>)
    ensures Safe(st.data, Stack(st.tables), Stack(left)) <==> NothingShows(st, left)
  {
    hide Merge, Quiet;
    forall k ensures Quiet(Stack(left), k) <==> k !in Live(Merge(Stack(left))) { QuietIs(Stack(left), k); }
  }

  /** Crashing after any number of a compaction's effects: the view survives exactly at the safe points. */
  lemma CompactCrash(st: State, j: nat) returns (r: State)
    requires Inv(st) && CompactFits(st) && j <= |CompactOps(st)|
    ensures var im := ApplyAll(st.disk, CompactOps(st)[..j]);
      im.wal == st.disk.wal && im.synced == st.disk.synced && Recover(im) == Ok(r)
    ensures Inv(r) && (Visible(r) == Visible(st) <==> SafePoint(st, j)) && Keeps(r, st, [])
  {
    hide *;
    if |st.tables| < 2 {
      NothingToCompact(st);
      ApplyNone(st.disk, CompactOps(st));
      SafeWhenNothing(st, j);
      r := ReopenLaw(st);
    } else {
      var m := Unpack(st);
      CompactOpsAre(st);
      CleanupHolds(st, m, j);
      CleanupView(st, j);
      r := RecoverOk(ApplyAll(st.disk, CompactOps(st)[..j]), m, CleanupStack(st, j), st.sequence);
      CleanupKeeps(r, st, j);
    }
  }

  lemma CleanupKeeps(r: State, st: State, j: nat)
    requires |st.tables| >= 2 && j <= |MergeOps(st)| + |Removable(st)|
    requires r.data == st.data && r.tables == CleanupStack(st, j) && r.stale == []
    ensures Keeps(r, st, [])
  {
    hide Keeps, MergedLevel, MergeOps, Removable, Left, OnDisk;
    if j < |MergeOps(st)| {
      ReopenedKeeps(r, st);
    } else {
      var n := j - |MergeOps(st)|;
      forall t | t in Left(st, n) ensures t in OnDisk(st) { LeftOnDisk(st, n, t); }
      MergedKeeps(r, st, st.nextId, Left(st, n));
    }
  }

  lemma SafeWhenNothing(st: State, j: nat)
    requires |st.tables| < 2
    ensures SafePoint(st, j) <==> Harmless(st)
  {
    hide Harmless;
  }

  lemma CleanupHolds(st: State, m: Mem, j: nat)
    requires |st.tables| >= 2 && j <= |MergeOps(st)| + |Removable(st)| && CompactFits(st)
    requires Holds(st.disk, m, OnDisk(st)) && BelowNext(OnDisk(st), st.nextId)
    ensures |CompactOps(st)| == |MergeOps(st)| + |Removable(st)|
    ensures var im := ApplyAll(st.disk, CompactOps(st)[..j]);
      Holds(im, m, CleanupStack(st, j)) && im.wal == st.disk.wal && im.synced == st.disk.synced
  {
    hide *;
    CleanupStackIs(st, j);
    CompactOpsAre(st);
    if j < |MergeOps(st)| {
      ApplyNone(st.disk, CompactOps(st));
    } else {
      CompactShape(st);
      LeftHolds(st, m, j - |MergeOps(st)|);
    }
  }

  lemma ApplyNone(im: Image, ops: seq<DiskOp>)
    ensures ApplyAll(im, ops[..0]) == im
  {
  }

  lemma CleanupStackIs(st: State, j: nat)
    requires |st.tables| >= 2 && j <= |MergeOps(st)| + |Removable(st)|
    ensures |MergeOps(st)| <= 1
    ensures j < |MergeOps(st)| ==> CleanupStack(st, j) == OnDisk(st) && j == 0
    ensures j >= |MergeOps(st)| ==> CleanupStack(st, j) == MergedLevel(st.tables, st.nextId) + Left(st, j - |MergeOps(st)|)
  {
    hide FileFor, Merged, Left, Removable;
  }

  // ----- crashing inside a flush -----

  /** Crashing before the new table, between it and the cleared log, or after both: nothing is lost or doubled. */
  lemma MoveCrash(st: State, j: nat) returns (r: State)
    requires Inv(st) && StorableMap(st.data) && j <= 2
    ensures var im := ApplyAll(st.disk, MoveOps(st)[..j]);
      im.synced == |im.wal| && Recover(im) == Ok(r)
    ensures Inv(r) && (Visible(r) == Visible(st) <==> Harmless(st)) && Keeps(r, st, [])
  {
    hide *;
    MovePrefixes(st);
    var m := Unpack(st);
    if j == 0 {
      r := ReopenLaw(st);
    } else if j == 1 {
      MoveShape(st);
      WrittenHolds(st.disk, m, OnDisk(st), st.nextId);
      r := RecoverOk(Apply(st.disk, WriteFile(st.nextId, FileFor(st.data))), m, OnDisk(Move(st)), st.sequence);
      StackPush(Level(st.nextId, st.data), OnDisk(st));
      FlushKeepsView(st.data, Stack(OnDisk(st)));
      HarmlessView(st);
      PushedKeeps(r, st);
    } else {
      MoveLaw(st);
      r := ReopenLaw(Move(st));
      HarmlessMove(st);
      MoveKeeps(st);
      KeepsThrough(r, Move(st), st, []);
      var moved := Unpack(Move(st));
    }
  }

  lemma HarmlessMove(st: State)
    ensures Harmless(Move(st)) <==> Harmless(st)
  {
    MoveShape(st);
    hide Move, Merge;
    StackPush(Level(st.nextId, st.data), st.tables);
    MergeFirst(st.data, Stack(st.tables));
  }

  lemma MovePrefixes(st: State)
    ensures |MoveOps(st)| == 2
    ensures ApplyAll(st.disk, MoveOps(st)[..0]) == st.disk
    ensures var im := Apply(st.disk, WriteFile(st.nextId, FileFor(st.data)));
      ApplyAll(st.disk, MoveOps(st)[..1]) == im && im.wal == st.disk.wal && im.synced == st.disk.synced
    ensures ApplyAll(st.disk, MoveOps(st)[..2]) == Move(st).disk
    ensures ApplyAll(st.disk, MoveOps(st)) == Move(st).disk
  {
    hide FileFor;
    var op := WriteFile(st.nextId, FileFor(st.data));
    assert MoveOps(st)[..1] == [op] && MoveOps(st)[..2] == MoveOps(st);
    ApplyOne(st.disk, op);
  }

  ghost predicate FlushSafePoint(st: State, j: nat) {
    if j > 2 then SafePoint(Move(st), j - 2) else Harmless(st)
  }

  lemma FlushCrash(st: State, j: nat) returns (r: State)
    requires Inv(st) && FlushFits(st) && j <= |FlushOps(st)|
    ensures var im := ApplyAll(st.disk, FlushOps(st)[..j]);
      im.synced == |im.wal| && Recover(im) == Ok(r)
    ensures Inv(r) && (Visible(r) == Visible(st) <==> FlushSafePoint(st, j)) && Keeps(r, st, [])
  {
    hide *;
    FlushShape(st);
    MovePrefixes(st);
    FlushSafeIs(st, j);
    var m := Unpack(st);
    if st.data == map[] {
      ApplyNone(st.disk, FlushOps(st));
      assert FlushOps(st)[..j] == FlushOps(st)[..0];
      r := ReopenLaw(st);
    } else if j <= 2 {
      assert FlushOps(st)[..j] == MoveOps(st)[..j];
      r := MoveCrash(st, j);
    } else {
      MoveLaw(st);
      r := CompactCrash(Move(st), j - 2);
      MoveKeeps(st);
      KeepsThrough(r, Move(st), st, []);
      var moved := Unpack(Move(st));
      assert FlushOps(st)[..j] == MoveOps(st) + CompactOps(Move(st))[..j - 2];
      ApplyAllConcat(st.disk, MoveOps(st), CompactOps(Move(st))[..j - 2]);
    }
  }

  lemma FlushSafeIs(st: State, j: nat)
    ensures j > 2 ==> (FlushSafePoint(st, j) <==> SafePoint(Move(st), j - 2))
    ensures j <= 2 ==> (FlushSafePoint(st, j) <==> Harmless(st))
  {
    hide SafePoint, Move, Harmless;
  }

  // ----- crashing inside a commit -----

  lemma LogOfPrefix(es: seq<WalEntry>, j: nat)
    requires j <= |es|
    ensures |LogOf(es[..j])| <= |LogOf(es)| && LogOf(es[..j]) == LogOf(es)[..|LogOf(es[..j])|]
  {
    hide LogOf;
    assert es == es[..j] + es[j..];
    LogOfConcat(es[..j], es[j..]);
  }

  /** Whatever a crash inside a commit leaves is the old log and some prefix of the batch's bytes. */
  lemma CommitPoint(im: Image, batch: Batch, s: nat, j: nat, cut: nat)
    requires s + |batch| < U64 && im.synced == |im.wal| && j <= |CommitOps(batch, s)|
    requires var mid := ApplyAll(im, CommitOps(batch, s)[..j]); mid.synced <= cut <= |mid.wal|
    ensures var mid := ApplyAll(im, CommitOps(batch, s)[..j]);
      var log := im.wal + LogOf(LogBatch(batch, s));
      && |im.wal| <= cut <= |log|
      && (j == |CommitOps(batch, s)| ==> cut == |log|)
      && Crash(mid, cut) == Image(log[..cut], cut, im.files)
  {
    hide LogBatch, LogOf, Frame;
    var es := LogBatch(batch, s);
    if j == |CommitOps(batch, s)| {
      assert CommitOps(batch, s)[..j] == CommitOps(batch, s);
      CommitImage(im, batch, s);
    } else {
      assert CommitOps(batch, s)[..j] == Appends(es[..j]);
      AppendsApply(im, es[..j]);
      LogOfPrefix(es, j);
      PrefixOfConcat(im.wal, LogOf(es), |LogOf(es[..j])|, cut);
    }
  }

  lemma PrefixOfConcat(a: bytes, b: bytes, n: nat, cut: nat)
    requires n <= |b| && cut <= |a| + n
    ensures (a + b[..n])[..cut] == (a + b)[..cut]
  {
  }

  /** A batch whose COMMIT is not wholly on disk vanishes: the reopened store is the one before it. */
  lemma TornCommit(im: Image, batch: Batch, s: nat, cut: nat)
    requires Loggable(batch, s) && im.synced == |im.wal| && Parse(im.wal).end == |im.wal|
    requires s + |batch| < U64
    requires |im.wal| <= cut < |im.wal| + |LogOf(LogBatch(batch, s))|
    ensures Recover(Image((im.wal + LogOf(LogBatch(batch, s)))[..cut], cut, im.files)) == Recover(im)
  {
    hide LogBatch, LogOf, Parse, Loggable, Replay, LevelsOf, Join;
    var es := LogBatch(batch, s);
    var m := cut - |im.wal|;
    var d := Image((im.wal + LogOf(es))[..cut], cut, im.files);
    LogBatchIsBatch(batch, s);
    TornBatch(es, m);
    CleanLog(im.wal);
    CutInRest(im.wal, LogOf(es), cut);
    ParseConcat(im.wal, LogOf(es)[..m]);
    JoinUncommitted(Parse(im.wal), |im.wal|, Parse(LogOf(es)[..m]));
    TruncatesTo(im, d);
  }

  lemma JoinUncommitted(p: Parsed, n: nat, q: Parsed)
    requires q.count == 0 && p.count <= |p.entries|
    ensures var j := Join(p, n, q);
      j.count == p.count && j.end == p.end && j.Committed() == p.Committed()
  {
  }

  lemma TruncatesTo(im: Image, d: Image)
    requires Parse(im.wal).end == |im.wal| && Parse(d.wal).end == |im.wal| <= |d.wal|
    requires im.wal == d.wal[..|im.wal|] && im.files == d.files && im.synced == |im.wal| && d.synced == |d.wal|
    ensures ApplyAll(d, RecoveryOps(d)) == im && ApplyAll(im, RecoveryOps(im)) == im
  {
    hide Parse;
    ApplyOne(d, Truncate(|im.wal|));
    ApplyOne(im, Sync);
    assert d.wal[..|d.wal|] == d.wal;
  }

  /** The batch's COMMIT frame, its last byte included, is on disk. */
  ghost predicate Survives(st: State, batch: Batch, cut: nat)
    requires st.sequence + |batch| < U64
  {
    |st.disk.wal| + |LogOf(LogBatch(batch, st.sequence))| <= cut
  }

  /** A commit cut at any effect and any byte is applied whole or not at all, and wholly once its fsync is done; the
      reopened view is exactly that if leftover files are harmless then, and only if. */
  lemma CommitCrash(st: State, batch: Batch, j: nat, cut: nat) returns (r: State)
    requires Inv(st) && Loggable(batch, st.sequence) && st.sequence + |batch| < U64
    requires j <= |CommitOps(batch, st.sequence)|
    requires var mid := ApplyAll(st.disk, CommitOps(batch, st.sequence)[..j]); mid.synced <= cut <= |mid.wal|
    ensures Recover(Crash(ApplyAll(st.disk, CommitOps(batch, st.sequence)[..j]), cut)) == Ok(r)
    ensures Inv(r)
    ensures Survives(st, batch, cut) ==> (Visible(r) == Write(Visible(st), batch) <==> Harmless(CommitBatch(st, batch)))
    ensures !Survives(st, batch, cut) ==> (Visible(r) == Visible(st) <==> Harmless(st))
    ensures Keeps(r, st, if Survives(st, batch, cut) then [batch] else [])
    ensures j == |CommitOps(batch, st.sequence)| ==> Survives(st, batch, cut)
  {
    hide *;
    var m := Unpack(st);
    CommitPoint(st.disk, batch, st.sequence, j, cut);
    SurvivesIs(st, batch, cut);
    var log := st.disk.wal + LogOf(LogBatch(batch, st.sequence));
    if cut < |log| {
      CleanEnd(st.disk, m, OnDisk(st));
      TornCommit(st.disk, batch, st.sequence, cut);
      r := ReopenLaw(st);
    } else {
      CommitLaw(st, batch);
      CommitShape(st, batch);
      CommitImage(st.disk, batch, st.sequence);
      assert log[..cut] == log;
      r := ReopenLaw(CommitBatch(st, batch));
      CommitKeeps(st, batch);
      KeepsThrough(r, CommitBatch(st, batch), st, [batch]);
    }
  }

  lemma SurvivesIs(st: State, batch: Batch, cut: nat)
    requires st.sequence + |batch| < U64
    ensures Survives(st, batch, cut) <==> |st.disk.wal| + |LogOf(LogBatch(batch, st.sequence))| <= cut
  {
  }

  lemma CleanEnd(im: Image, m: Mem, tables: seq<Level>)
    requires Holds(im, m, tables)
    ensures Parse(im.wal).end == |im.wal|
  {
  }

  // ----- crashing inside recovery -----

  /** Recovery of any image, however damaged its log, is idempotent: a crash before or after its truncation is harmless. */
  lemma RecoverTwice(im: Image)
    requires Recover(im).Ok? && im.synced == |im.wal|
    ensures var r := Recover(im).value;
      && Recover(r.disk) == Ok(r)
      && r.disk.synced == |r.disk.wal|
      && Recover(Crash(im, |im.wal|)) == Ok(r)
  {
    hide Parse, Replay, LevelsOf;
    var p := Parse(im.wal);
    RecoveryIdempotent(im.wal);
    ApplyOne(im, Truncate(p.end));
    assert im.wal[..|im.wal|] == im.wal;
  }

  // ----- events -----

  /** One call: a put, delete or transaction commit is a batch; flush and compact can be called directly. */
  datatype Event = Tx(batch: Batch) | FlushNow | CompactNow

  /** What the call needs of its arguments: frames and table files within the field widths. */
  ghost predicate Legal(st: State, ev: Event) {
    match ev
    case Tx(batch) => batch != [] ==>
      && Loggable(batch, st.sequence)
      && (Footprint(Insert(st.data, batch)) >= st.budget ==> FlushFits(CommitBatch(st, batch)))
    case FlushNow => FlushFits(st)
    case CompactNow => CompactFits(st)
  }

  ghost function EventOps(st: State, ev: Event): seq<DiskOp>
    requires Legal(st, ev)
  {
    match ev
    case Tx(batch) =>
      if batch == [] then [] else CommitOps(batch, st.sequence) + MaybeFlushOps(CommitBatch(st, batch))
    case FlushNow => FlushOps(st)
    case CompactNow => CompactOps(st)
  }

  ghost function After(st: State, ev: Event): State
    requires Legal(st, ev)
  {
    match ev
    case Tx(batch) => if batch == [] then st else MaybeFlush(CommitBatch(st, batch))
    case FlushNow => Flush(st)
    case CompactNow => Compact(st)
  }

  /** The batches a call acknowledges when it returns. */
  function Batches(ev: Event): seq<Batch> {
    if ev.Tx? && ev.batch != [] then [ev.batch] else []
  }

  /** A completed call keeps the invariant and has exactly its batch as effect on the visible map. */
  lemma EventLaw(st: State, ev: Event)
    requires Inv(st) && Legal(st, ev)
    ensures Inv(After(st, ev)) && Visible(After(st, ev)) == WriteAll(Visible(st), Batches(ev))
    ensures Keeps(After(st, ev), st, Batches(ev))
  {
    EventShape(st, ev);
    hide Inv, Visible, FlushFits, CompactFits, Loggable, After, WriteAll, Write, Keeps;
    if ev.Tx? {
      WriteAllOne(Visible(st), ev.batch);
      if ev.batch != [] {
        WriteLaw(st, ev.batch);
        WriteKeeps(st, ev.batch);
      } else {
        SameLayersKeep(st, st);
      }
    } else {
      WriteAllOne(Visible(st), []);
      if ev.FlushNow? {
        FlushLaw(st);
        FlushKeeps(st);
      } else {
        CompactLaw(st);
        CompactKeeps(st);
      }
    }
  }

  lemma EventShape(st: State, ev: Event)
    requires Legal(st, ev)
    ensures ev.Tx? && ev.batch != [] ==> st.sequence + |ev.batch| < U64
    ensures ev.Tx? && ev.batch != [] ==> After(st, ev) == MaybeFlush(CommitBatch(st, ev.batch))
    ensures ev.Tx? && ev.batch == [] ==> After(st, ev) == st && EventOps(st, ev) == []
    ensures ev.FlushNow? ==> After(st, ev) == Flush(st) && EventOps(st, ev) == FlushOps(st) && FlushFits(st)
    ensures ev.CompactNow? ==> After(st, ev) == Compact(st) && EventOps(st, ev) == CompactOps(st) && CompactFits(st)
    ensures ev.Tx? && ev.batch != [] ==>
      && Loggable(ev.batch, st.sequence)
      && EventOps(st, ev) == CommitOps(ev.batch, st.sequence) + MaybeFlushOps(CommitBatch(st, ev.batch))
      && (Footprint(CommitBatch(st, ev.batch).data) >= CommitBatch(st, ev.batch).budget
          ==> FlushFits(CommitBatch(st, ev.batch)))
  {
    hide MaybeFlush, MaybeFlushOps, Flush, FlushOps, Compact, CompactOps, CommitOps, Footprint, FlushFits, CompactFits, Insert;
    if ev.Tx? && ev.batch != [] {
      LoggableRoom(ev.batch, st.sequence);
    }
  }

  // ----- a crash inside a call -----

  /** The image a crash leaves: the first `j` effects happened, the log is cut at `cut`. */
  ghost predicate CrashPoint(st: State, ev: Event, j: nat, cut: nat) {
    Legal(st, ev) && j <= |EventOps(st, ev)| && Before(st, ev, j).synced <= cut <= |Before(st, ev, j).wal|
  }

  /** The disk after the first `j` effects of a call. */
  ghost function Before(st: State, ev: Event, j: nat): Image
    requires Legal(st, ev) && j <= |EventOps(st, ev)|
  {
    ApplyAll(st.disk, EventOps(st, ev)[..j])
  }

  ghost function Crashed(st: State, ev: Event, j: nat, cut: nat): Image
    requires CrashPoint(st, ev, j, cut)
  {
    Crash(Before(st, ev, j), cut)
  }

  /** The in-flight batch counts exactly if its COMMIT frame is wholly on disk, or was already flushed from there. */
  ghost function Applied(st: State, ev: Event, j: nat, cut: nat): seq<Batch>
    requires Legal(st, ev)
  {
    if ev.Tx? && ev.batch != [] then
      LoggableRoom(ev.batch, st.sequence);
      if j > |CommitOps(ev.batch, st.sequence)| || Survives(st, ev.batch, cut) then [ev.batch] else []
    else []
  }

  /** Not inside a cleanup that, as far as it got, uncovers a deleted key, and no leftover file that does. */
  ghost predicate SafeAt(st: State, ev: Event, j: nat, cut: nat)
    requires Legal(st, ev)
  {
    match ev
    case Tx(batch) =>
      if batch == [] then Harmless(st)
      else
        LoggableRoom(batch, st.sequence);
        var n, mid := |CommitOps(batch, st.sequence)|, CommitBatch(st, batch);
        if j > n then FlushSafePoint(mid, j - n)
        else if Survives(st, batch, cut) then Harmless(mid)
        else Harmless(st)
    case FlushNow => FlushSafePoint(st, j)
    case CompactNow => SafePoint(st, j)
  }

  lemma TxCrash(st: State, batch: Batch, j: nat, cut: nat) returns (r: State)
    requires Inv(st) && batch != [] && CrashPoint(st, Tx(batch), j, cut)
    ensures Recover(Crashed(st, Tx(batch), j, cut)) == Ok(r) && Inv(r)
    ensures Visible(r) == WriteAll(Visible(st), Applied(st, Tx(batch), j, cut)) <==> SafeAt(st, Tx(batch), j, cut)
    ensures Keeps(r, st, Applied(st, Tx(batch), j, cut))
  {
    hide *;
    CrashedIs(st, Tx(batch), j, cut);
    EventShape(st, Tx(batch));
    WriteAllOne(Visible(st), batch);
    LoggableRoom(batch, st.sequence);
    if j <= |CommitOps(batch, st.sequence)| {
      TxEarly(st, batch, j, cut);
      r := CommitCrash(st, batch, j, cut);
    } else {
      TxLate(st, batch, j, cut);
      r := TxLateCrash(st, batch, j - |CommitOps(batch, st.sequence)|, cut);
    }
  }

  lemma TxLateCrash(st: State, batch: Batch, i: nat, cut: nat) returns (r: State)
    requires Inv(st) && st.sequence + |batch| < U64 && Loggable(batch, st.sequence)
    requires FlushFits(CommitBatch(st, batch)) && i <= |FlushOps(CommitBatch(st, batch))|
    requires var im := ApplyAll(st.disk, CommitOps(batch, st.sequence) + FlushOps(CommitBatch(st, batch))[..i]);
      im.synced <= cut <= |im.wal|
    ensures var im := ApplyAll(st.disk, CommitOps(batch, st.sequence) + FlushOps(CommitBatch(st, batch))[..i]);
      Recover(Crash(im, cut)) == Ok(r)
    ensures Inv(r)
    ensures Visible(r) == Write(Visible(st), batch) <==> FlushSafePoint(CommitBatch(st, batch), i)
    ensures Keeps(r, st, [batch])
  {
    hide *;
    var mid := CommitBatch(st, batch);
    CommitLaw(st, batch);
    CommitShape(st, batch);
    r := FlushCrash(mid, i);
    CommitKeeps(st, batch);
    KeepsThrough(r, mid, st, [batch]);
    ApplyAllConcat(st.disk, CommitOps(batch, st.sequence), FlushOps(mid)[..i]);
    CrashWhole(ApplyAll(mid.disk, FlushOps(mid)[..i]), cut);
  }

  lemma TxEarly(st: State, batch: Batch, j: nat, cut: nat)
    requires batch != [] && CrashPoint(st, Tx(batch), j, cut)
    requires st.sequence + |batch| < U64 && j <= |CommitOps(batch, st.sequence)|
    requires EventOps(st, Tx(batch)) == CommitOps(batch, st.sequence) + MaybeFlushOps(CommitBatch(st, batch))
    ensures Before(st, Tx(batch), j) == ApplyAll(st.disk, CommitOps(batch, st.sequence)[..j])
    ensures SafeAt(st, Tx(batch), j, cut) <==>
      if Survives(st, batch, cut) then Harmless(CommitBatch(st, batch)) else Harmless(st)
    ensures Applied(st, Tx(batch), j, cut) == if Survives(st, batch, cut) then [batch] else []
  {
    hide CommitOps, MaybeFlushOps, FlushSafePoint, Survives, Loggable, CommitBatch, EventOps, Legal, Harmless;
    assert EventOps(st, Tx(batch))[..j] == CommitOps(batch, st.sequence)[..j];
  }

  lemma TxLate(st: State, batch: Batch, j: nat, cut: nat)
    requires batch != [] && CrashPoint(st, Tx(batch), j, cut)
    requires st.sequence + |batch| < U64 && j > |CommitOps(batch, st.sequence)|
    requires EventOps(st, Tx(batch)) == CommitOps(batch, st.sequence) + MaybeFlushOps(CommitBatch(st, batch))
    ensures var ops, mid := CommitOps(batch, st.sequence), CommitBatch(st, batch);
      && Footprint(mid.data) >= mid.budget && j - |ops| <= |FlushOps(mid)|
      && Before(st, Tx(batch), j) == ApplyAll(st.disk, ops + FlushOps(mid)[..j - |ops|])
    ensures SafeAt(st, Tx(batch), j, cut) <==> FlushSafePoint(CommitBatch(st, batch), j - |CommitOps(batch, st.sequence)|)
    ensures Applied(st, Tx(batch), j, cut) == [batch]
  {
    hide *;
    var ops, mid := CommitOps(batch, st.sequence), CommitBatch(st, batch);
    MaybeFlushShape(mid);
    CrashedIs(st, Tx(batch), j, cut);
    SliceLate(ops, MaybeFlushOps(mid), j);
    BeforeIs(st, Tx(batch), j);
    TxSafe(st, batch, j, cut);
  }

  lemma SliceLate<T>(a: seq<T>, b: seq<T>, j: nat)
    requires |a| < j <= |a + b|
    ensures j - |a| <= |b| && (a + b)[..j] == a + b[..j - |a|] && b != []
  {
  }

  lemma BeforeIs(st: State, ev: Event, j: nat)
    requires Legal(st, ev) && j <= |EventOps(st, ev)|
    ensures Before(st, ev, j) == ApplyAll(st.disk, EventOps(st, ev)[..j])
  {
  }

  lemma TxSafe(st: State, batch: Batch, j: nat, cut: nat)
    requires batch != [] && Legal(st, Tx(batch)) && st.sequence + |batch| < U64 && j > |CommitOps(batch, st.sequence)|
    ensures SafeAt(st, Tx(batch), j, cut) <==> FlushSafePoint(CommitBatch(st, batch), j - |CommitOps(batch, st.sequence)|)
    ensures Applied(st, Tx(batch), j, cut) == [batch]
  {
    hide CommitOps, FlushSafePoint, Survives, Loggable, CommitBatch, Legal, Harmless;
  }

  lemma CrashWhole(im: Image, cut: nat)
    requires im.synced == |im.wal| && im.synced <= cut <= |im.wal|
    ensures Crash(im, cut) == im
  {
    assert im.wal[..|im.wal|] == im.wal;
  }

  /** Losing power anywhere in any call: reopening finds every acknowledged batch, and the one in flight whole or not
      at all, exactly unless the files left by this or an earlier cleanup uncover a deleted key. Even then no
      value the batches leave visible is lost or changed, and none appears that was never written. */
  lemma EventCrash(st: State, ev: Event, j: nat, cut: nat) returns (r: State)
    requires Inv(st) && CrashPoint(st, ev, j, cut)
    ensures Recover(Crashed(st, ev, j, cut)) == Ok(r) && Inv(r)
    ensures Visible(r) == WriteAll(Visible(st), Applied(st, ev, j, cut)) <==> SafeAt(st, ev, j, cut)
    ensures Keeps(r, st, Applied(st, ev, j, cut))
  {
    hide *;
    if ev.Tx? && ev.batch != [] {
      r := TxCrash(st, ev.batch, j, cut);
    } else {
      CrashedIs(st, ev, j, cut);
      EventShape(st, ev);
      WriteAllOne(Visible(st), []);
      SafeShape(st, ev, j, cut);
      var m := Unpack(st);
      if ev.Tx? {
        r := ReopenLaw(st);
      } else if ev.FlushNow? {
        r := FlushCrash(st, j);
      } else {
        r := CompactCrash(st, j);
      }
      CrashWhole(Before(st, ev, j), cut);
    }
  }

  lemma SafeShape(st: State, ev: Event, j: nat, cut: nat)
    requires CrashPoint(st, ev, j, cut) && !(ev.Tx? && ev.batch != [])
    ensures Applied(st, ev, j, cut) == []
    ensures ev.Tx? ==> (SafeAt(st, ev, j, cut) <==> Harmless(st)) && Before(st, ev, j) == st.disk
    ensures ev.FlushNow? ==>
      (SafeAt(st, ev, j, cut) <==> FlushSafePoint(st, j)) && Before(st, ev, j) == ApplyAll(st.disk, FlushOps(st)[..j])
    ensures ev.CompactNow? ==>
      (SafeAt(st, ev, j, cut) <==> SafePoint(st, j)) && Before(st, ev, j) == ApplyAll(st.disk, CompactOps(st)[..j])
  {
    hide FlushOps, CompactOps, FlushSafePoint, SafePoint, FlushFits, CompactFits, Harmless;
  }

  lemma CrashedIs(st: State, ev: Event, j: nat, cut: nat)
    requires CrashPoint(st, ev, j, cut)
    ensures Legal(st, ev) && j <= |EventOps(st, ev)|
    ensures var im := Before(st, ev, j); im.synced <= cut <= |im.wal| && Crashed(st, ev, j, cut) == Crash(im, cut)
  {
    hide EventOps, Before, Legal;
  }

  // ----- whole runs -----

  /** The image left when power is lost once for each of `again` while reopening: each time after that many effects of
      recovery, whose one effect is the truncation. */
  ghost function Interrupted(im: Image, again: seq<nat>): Image
    requires RetriesPossible(im, again)
    decreases |again|
  {
    if again == [] then im else Interrupted(ApplyAll(im, RecoveryOps(im)[..again[0]]), again[1..])
  }

  ghost predicate RetriesPossible(im: Image, again: seq<nat>)
    decreases |again|
  {
    again == []
    || (again[0] <= |RecoveryOps(im)| && RetriesPossible(ApplyAll(im, RecoveryOps(im)[..again[0]]), again[1..]))
  }

  /** However often reopening is interrupted, the store it finally finds is the same. */
  lemma {:induction false} InterruptedRecovers(im: Image, again: seq<nat>)
    requires Recover(im).Ok? && im.synced == |im.wal| && RetriesPossible(im, again)
    ensures Recover(Interrupted(im, again)) == Recover(im)
    decreases |again|
  {
    hide Parse, Replay, LevelsOf, Recover;
    if again != [] {
      OneRetry(im, again[0]);
      InterruptedRecovers(ApplyAll(im, RecoveryOps(im)[..again[0]]), again[1..]);
    }
  }

  lemma OneRetry(im: Image, n: nat)
    requires Recover(im).Ok? && im.synced == |im.wal| && n <= |RecoveryOps(im)|
    ensures var d := ApplyAll(im, RecoveryOps(im)[..n]);
      && d.synced == |d.wal| && Recover(d) == Recover(im)
      && Crash(d, |d.wal|) == d
  {
    hide Parse, Replay, LevelsOf;
    RecoverTwice(im);
    var ops := RecoveryOps(im);
    if n == 0 { ApplyNone(im, ops); } else { assert ops[..n] == ops; }
    var d := ApplyAll(im, ops[..n]);
    assert d.wal[..|d.wal|] == d.wal;
  }

  /** A completed call; a crash inside a call, then reopening, itself interrupted any number of times; a clean reopen;
      a new memtable budget; or a change in which files refuse to be removed. */
  datatype Step =
    | Done(ev: Event)
    | Cut(ev: Event, j: nat, cut: nat, again: seq<nat>)
    | Reopen
    | SetBudget(budget: nat)
    | SetStuck(stuck: set<nat>)

  ghost predicate Possible(st: State, step: Step) {
    match step
    case Done(ev) => Legal(st, ev)
    case Cut(ev, j, cut, again) => CrashPoint(st, ev, j, cut) && RetriesPossible(Crashed(st, ev, j, cut), again)
    case Reopen => true
    case SetBudget(_) => true
    case SetStuck(_) => true
  }

  /** Not a reopening that finds files uncovering a deleted key. */
  ghost predicate SafeStep(st: State, step: Step)
    requires Possible(st, step)
  {
    (step.Cut? ==> SafeAt(st, step.ev, step.j, step.cut)) && (step.Reopen? ==> Harmless(st))
  }

  ghost function Next(st: State, step: Step): State
    requires Possible(st, step)
  {
    match step
    case Done(ev) => After(st, ev)
    case Cut(ev, j, cut, again) => Reopened(st, Interrupted(Crashed(st, ev, j, cut), again))
    case Reopen => Reopened(st, st.disk)
    case SetBudget(n) => st.(budget := n)
    case SetStuck(ids) => st.(stuck := ids)
  }

  ghost function Reopened(st: State, im: Image): State {
    match Recover(im)
    case Ok(r) => r
    case Err(_) => st
  }

  /** The batches a step adds for good: those acknowledged, and one in flight whose COMMIT reached the disk. */
  ghost function Kept(st: State, step: Step): seq<Batch>
    requires Possible(st, step)
  {
    match step
    case Done(ev) => Batches(ev)
    case Cut(ev, j, cut, _) => Applied(st, ev, j, cut)
    case Reopen => []
    case SetBudget(_) => []
    case SetStuck(_) => []
  }

  /** Any step keeps the invariant and every value its batches leave visible; a safe one shows exactly its batches. */
  lemma StepLaw(st: State, step: Step)
    requires Inv(st) && Possible(st, step)
    ensures Inv(Next(st, step)) && Keeps(Next(st, step), st, Kept(st, step))
    ensures SafeStep(st, step) ==> Visible(Next(st, step)) == WriteAll(Visible(st), Kept(st, step))
  {
    StepShape(st, step);
    hide *;
    match step {
      case Done(ev) => EventLaw(st, ev);
      case Cut(ev, j, cut, again) =>
        var r := EventCrash(st, ev, j, cut);
        CrashedSynced(st, ev, j, cut);
        InterruptedRecovers(Crashed(st, ev, j, cut), again);
      case Reopen =>
        var r := ReopenLaw(st);
        WriteAllOne(Visible(st), []);
      case SetBudget(n) =>
        WriteAllOne(Visible(st), []);
        BudgetOnly(st, n, st.stuck);
      case SetStuck(ids) =>
        WriteAllOne(Visible(st), []);
        BudgetOnly(st, st.budget, ids);
    }
  }

  lemma CrashedSynced(st: State, ev: Event, j: nat, cut: nat)
    requires CrashPoint(st, ev, j, cut)
    ensures Crashed(st, ev, j, cut).synced == |Crashed(st, ev, j, cut).wal|
  {
    hide EventOps, Before, Legal;
  }

  lemma StepShape(st: State, step: Step)
    requires Possible(st, step)
    ensures step.Done? ==> Legal(st, step.ev) && Next(st, step) == After(st, step.ev) && Kept(st, step) == Batches(step.ev)
    ensures step.Cut? ==>
      && CrashPoint(st, step.ev, step.j, step.cut)
      && Legal(st, step.ev) && (SafeStep(st, step) <==> SafeAt(st, step.ev, step.j, step.cut))
      && Kept(st, step) == Applied(st, step.ev, step.j, step.cut)
      && RetriesPossible(Crashed(st, step.ev, step.j, step.cut), step.again)
      && (Recover(Interrupted(Crashed(st, step.ev, step.j, step.cut), step.again)).Ok? ==>
          Next(st, step) == Recover(Interrupted(Crashed(st, step.ev, step.j, step.cut), step.again)).value)
    ensures step.Reopen? ==> (SafeStep(st, step) <==> Harmless(st))
    ensures step.Reopen? ==> Kept(st, step) == [] && (Recover(st.disk).Ok? ==> Next(st, step) == Recover(st.disk).value)
    ensures step.SetBudget? ==> Kept(st, step) == [] && Next(st, step) == st.(budget := step.budget, stuck := st.stuck)
    ensures step.SetStuck? ==> Kept(st, step) == [] && Next(st, step) == st.(budget := st.budget, stuck := step.stuck)
  {
    hide Harmless, Legal, After, Recover, SafeAt, EventOps, Applied, Crashed, Before, Interrupted, RetriesPossible;
  }

  lemma BudgetOnly(st: State, n: nat, stuck: set<nat>)
    requires Inv(st)
    ensures var after := st.(budget := n, stuck := stuck);
      Inv(after) && Visible(after) == Visible(st) && Keeps(after, st, [])
  {
    hide Holds, Parse, View, SequencesOk, Keeps;
    var m := Unpack(st);
    var after := st.(budget := n, stuck := stuck);
    assert OnDisk(after) == OnDisk(st);
    Pack(after, m);
    SameLayersKeep(after, st);
  }

  ghost predicate LegalRun(st: State, run: seq<Step>)
    decreases |run|
  {
    run == [] || (Possible(st, run[0]) && LegalRun(Next(st, run[0]), run[1..]))
  }

  ghost predicate SafeRun(st: State, run: seq<Step>)
    requires LegalRun(st, run)
    decreases |run|
  {
    run == [] || (SafeStep(st, run[0]) && SafeRun(Next(st, run[0]), run[1..]))
  }

  ghost function Final(st: State, run: seq<Step>): State
    requires LegalRun(st, run)
    decreases |run|
  {
    if run == [] then st else Final(Next(st, run[0]), run[1..])
  }

  ghost function KeptAll(st: State, run: seq<Step>): seq<Batch>
    requires LegalRun(st, run)
    decreases |run|
  {
    if run == [] then [] else Kept(st, run[0]) + KeptAll(Next(st, run[0]), run[1..])
  }

  /** Over any run the store opens, every value the kept batches leave visible is visible and the same, and no value
      appears that was neither stored at first nor written by a kept batch. */
  lemma {:induction false} RunKeeps(st: State, run: seq<Step>)
    requires Inv(st) && LegalRun(st, run)
    ensures Inv(Final(st, run)) && Keeps(Final(st, run), st, KeptAll(st, run))
    decreases |run|
  {
    hide Inv, Possible, Next, Kept, Keeps;
    if run == [] {
      SameLayersKeep(st, st);
    } else {
      StepLaw(st, run[0]);
      RunKeeps(Next(st, run[0]), run[1..]);
      KeepsTransitive(Final(st, run), Next(st, run[0]), st, Kept(st, run[0]), KeptAll(Next(st, run[0]), run[1..]));
    }
  }

  /** Over any run of safe steps the visible map is exactly the kept batches applied in order. */
  lemma {:induction false} RunLaw(st: State, run: seq<Step>)
    requires Inv(st) && LegalRun(st, run) && SafeRun(st, run)
    ensures Inv(Final(st, run)) && Visible(Final(st, run)) == WriteAll(Visible(st), KeptAll(st, run))
    decreases |run|
  {
    hide Inv, Visible, Possible, Next, Kept, WriteAll, SafeStep, Keeps;
    if run == [] {
      WriteAllOne(Visible(st), []);
    } else {
      StepLaw(st, run[0]);
      RunLaw(Next(st, run[0]), run[1..]);
      WriteAllConcat(Visible(st), Kept(st, run[0]), KeptAll(Next(st, run[0]), run[1..]));
    }
  }

  const BLANK: Image := Image([], 0, map[])

  /** A new table starts empty. Any run from it shows every value the kept batches leave; whatever else it shows was
      written by one of them and deleted later. A run of safe steps shows exactly the kept batches. */
  lemma RunFromBlank(run: seq<Step>) returns (st: State)
    ensures Recover(BLANK) == Ok(st) && Inv(st) && Visible(st) == map[]
    ensures LegalRun(st, run) ==>
      var kept, seen := KeptAll(st, run), Visible(Final(st, run));
      && Inv(Final(st, run)) && Covers(seen, WriteAll(map[], kept))
      && (forall k :: k in seen && k !in WriteAll(map[], kept) ==> Written(kept, k, seen[k]))
    ensures LegalRun(st, run) && SafeRun(st, run) ==> Visible(Final(st, run)) == WriteAll(map[], KeptAll(st, run))
  {
    BlankHolds();
    hide *;
    st := RecoverOk(BLANK, FRESH, [], 0);
    if LegalRun(st, run) {
      RunKeeps(st, run);
      KeepsIs(Final(st, run), st, KeptAll(st, run));
      if SafeRun(st, run) { RunLaw(st, run); }
    }
  }

  lemma KeepsIs(r: State, st: State, batches: seq<Batch>)
    requires Keeps(r, st, batches) && st.data == map[] && st.tables == [] && st.stale == []
    ensures Covers(Visible(r), WriteAll(Visible(st), batches))
    ensures forall k :: k in Visible(r) ==> Written(batches, k, Visible(r)[k])
  {
    hide Visible, Written;
    forall k | k in Visible(r) ensures Written(batches, k, Visible(r)[k]) { VisibleIsStored(r, k); }
  }

  lemma BlankHolds()
    ensures Holds(BLANK, FRESH, []) && BLANK.synced == |BLANK.wal| && SequencesOk(Parse(BLANK.wal).entries, 0)
    ensures FRESH.data == map[] && View([map[]] + Stack([])) == map[]
  {
    EmptyLog();
    hide Parse, Replay;
    assert Stack([]) == [];
    MergeFirst(map[], []);
    assert [map[]] + Stack([]) == [map[]] + [];
  }

  // ----- fresh table ids -----

  /** Written ids start at `next` and grow. */
  ghost predicate FreshWrites(ops: seq<DiskOp>, next: nat) {
    && (forall i :: 0 <= i < |ops| && ops[i].WriteFile? ==> ops[i].id >= next)
    && forall i, j :: 0 <= i < j < |ops| && ops[i].WriteFile? && ops[j].WriteFile? ==> ops[i].id < ops[j].id
  }

  /** No call overwrites a table file: what it writes has ids above every existing one, and no id twice. */
  lemma WritesFresh(st: State, ev: Event)
    requires Inv(st) && Legal(st, ev)
    ensures FreshWrites(EventOps(st, ev), st.nextId) && forall id :: id in st.disk.files ==> id < st.nextId
  {
    hide *;
    EventShape(st, ev);
    IdsBelow(st);
    if ev.Tx? {
      if ev.batch != [] {
        var mid := CommitBatch(st, ev.batch);
        CommitShape(st, ev.batch);
        MaybeFlushShape(mid);
        FlushWrites(mid);
        NoWrites([], mid.nextId);
        CommitWrites(ev.batch, st.sequence);
        FreshAfterNone(CommitOps(ev.batch, st.sequence), MaybeFlushOps(mid), st.nextId);
      } else {
        NoWrites([], st.nextId);
      }
    } else if ev.FlushNow? {
      FlushWrites(st);
    } else {
      CompactWrites(st);
    }
  }

  lemma NoWrites(ops: seq<DiskOp>, next: nat)
    requires forall i :: 0 <= i < |ops| ==> !ops[i].WriteFile?
    ensures FreshWrites(ops, next)
  {
  }

  lemma CommitWrites(batch: Batch, s: nat)
    requires s + |batch| < U64
    ensures forall i :: 0 <= i < |CommitOps(batch, s)| ==> !CommitOps(batch, s)[i].WriteFile?
  {
    hide Frame, LogBatch;
  }

  lemma FreshAfterNone(a: seq<DiskOp>, b: seq<DiskOp>, next: nat)
    requires (forall i :: 0 <= i < |a| ==> !a[i].WriteFile?) && FreshWrites(b, next)
    ensures FreshWrites(a + b, next)
  {
  }

  lemma IdsBelow(st: State)
    requires Inv(st)
    ensures forall id :: id in st.disk.files ==> id < st.nextId
  {
    hide Parse, Replay, FileFor, StorableMap, SequencesOk;
    var m := Unpack(st);
    forall id | id in st.disk.files ensures id < st.nextId { FilesOfKeys(OnDisk(st), id); }
  }

  lemma CompactWrites(st: State)
    ensures FreshWrites(CompactOps(st), st.nextId)
  {
    hide FileFor, Merged;
  }

  lemma FreshAfterMove(id: nat, data: bytes, rest: seq<DiskOp>)
    requires FreshWrites(rest, id + 1)
    ensures FreshWrites([WriteFile(id, data), Clear] + rest, id)
  {
  }

  lemma FlushWrites(st: State)
    ensures FreshWrites(FlushOps(st), st.nextId)
  {
    hide *;
    MoveShape(st);
    CompactWrites(Move(st));
    FlushShape(st);
    MoveOpsAre(st);
    NoWrites([], st.nextId);
    NoWrites([], st.nextId + 1);
    FreshAfterMove(st.nextId, FileFor(st.data), []);
    assert MoveOps(st) + [] == MoveOps(st);
    if st.data != map[] && |st.tables| + 1 > MAX_SSTABLES {
      FreshAfterMove(st.nextId, FileFor(st.data), CompactOps(Move(st)));
    }
  }

  lemma MoveOpsAre(st: State)
    ensures MoveOps(st) == [WriteFile(st.nextId, FileFor(st.data)), Clear]
  {
  }
}
