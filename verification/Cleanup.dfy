/** What a crash, or removals that fail, inside a compaction's cleanup leave: exactly which keys keep their view. */
module Cleanup {
  import opened Bytes
  import opened Codec
  import opened Records
  import opened Disk
  import opened Wal
  import opened Layers
  import opened StoreSpec
  import opened StoreLaws
  import opened Keeping
  import opened Runs

  // ----- what the removals of one compaction can uncover -----

  /** Going down from the newest level, past tombstones whose file will be removed, the first mention of `k` is a value. */
  predicate CanShow(tables: seq<Level>, stuck: set<nat>, stale: seq<Level>, k: bytes) {
    if tables == [] then k in Live(Merge(Stack(stale)))
    else if k in tables[0].contents && (tables[0].contents[k].Present? || tables[0].id in stuck)
    then tables[0].contents[k].Present?
    else CanShow(tables[1..], stuck, stale, k)
  }

  function LeftOf(tables: seq<Level>, stuck: set<nat>, stale: seq<Level>, j: nat): seq<Level>
    requires j <= |Unstuck(Ids(tables), stuck)|
  {
    Surviving(tables, Elements(Unstuck(Ids(tables), stuck)[..j])) + stale
  }

  lemma RemovableStep(tables: seq<Level>, stuck: set<nat>)
    requires tables != []
    ensures var t, rest := tables[0], Unstuck(Ids(tables[1..]), stuck);
      Unstuck(Ids(tables), stuck) == if t.id in stuck then rest else [t.id] + rest
  {
    assert Ids(tables)[1..] == Ids(tables[1..]);
  }

  /** The newest file goes first, unless it is stuck. */
  lemma LeftStep(tables: seq<Level>, stuck: set<nat>, stale: seq<Level>, j: nat)
    requires tables != [] && Descending(tables) && j <= |Unstuck(Ids(tables), stuck)|
    ensures tables[0].id in stuck ==>
      j <= |Unstuck(Ids(tables[1..]), stuck)| && LeftOf(tables, stuck, stale, j) == [tables[0]] + LeftOf(tables[1..], stuck, stale, j)
    ensures tables[0].id !in stuck && j == 0 ==> LeftOf(tables, stuck, stale, j) == [tables[0]] + LeftOf(tables[1..], stuck, stale, 0)
    ensures tables[0].id !in stuck && j > 0 ==>
      j - 1 <= |Unstuck(Ids(tables[1..]), stuck)| && LeftOf(tables, stuck, stale, j) == LeftOf(tables[1..], stuck, stale, j - 1)
  {
    hide Ids;
    var t, rest, ids := tables[0], tables[1..], Unstuck(Ids(tables[1..]), stuck);
    RemovableStep(tables, stuck);
    if t.id in stuck {
      UnstuckFrom(Ids(rest), stuck, t.id);
      assert t.id !in Elements(ids[..j]);
      Assoc([t], Surviving(rest, Elements(ids[..j])), stale);
    } else if j == 0 {
      assert Elements(([t.id] + ids)[..0]) == {} && Elements(ids[..0]) == {};
      Assoc([t], Surviving(rest, {}), stale);
    } else {
      assert ([t.id] + ids)[..j] == [t.id] + ids[..j - 1];
      assert Elements([t.id] + ids[..j - 1]) == Elements(ids[..j - 1]) + {t.id};
      SurvivingWithout(rest, Elements(ids[..j - 1]), t.id);
    }
  }

  lemma {:induction false} SurvivingWithout(tables: seq<Level>, gone: set<nat>, id: nat)
    requires forall i :: 0 <= i < |tables| ==> tables[i].id != id
    ensures Surviving(tables, gone + {id}) == Surviving(tables, gone)
  {
    if tables != [] { SurvivingWithout(tables[1..], gone, id); }
  }

  lemma LiveOnTop(t: Level, rest: seq<Level>, k: bytes)
    ensures k in Live(Merge(Stack([t] + rest))) <==>
      if k in t.contents then t.contents[k].Present? else k in Live(Merge(Stack(rest)))
  {
    hide Merge;
    StackPush(t, rest);
    MergeFirst(t.contents, Stack(rest));
  }

  /** What shows at some point of the removals can show ... */
  lemma {:induction false} ShownCanShow(tables: seq<Level>, stuck: set<nat>, stale: seq<Level>, j: nat, k: bytes)
    requires Descending(tables) && j <= |Unstuck(Ids(tables), stuck)|
    requires k in Live(Merge(Stack(LeftOf(tables, stuck, stale, j))))
    ensures CanShow(tables, stuck, stale, k)
    decreases |tables|
  {
    hide Live, Merge, Unstuck, Ids, LeftOf;
    if tables == [] {
      LeftOfNothing(stuck, stale, j);
    } else {
      var rest := tables[1..];
      LeftStep(tables, stuck, stale, j);
      if tables[0].id in stuck {
        LiveOnTop(tables[0], LeftOf(rest, stuck, stale, j), k);
        if k !in tables[0].contents { ShownCanShow(rest, stuck, stale, j, k); }
      } else if j == 0 {
        LiveOnTop(tables[0], LeftOf(rest, stuck, stale, 0), k);
        if k !in tables[0].contents { ShownCanShow(rest, stuck, stale, 0, k); }
      } else {
        ShownCanShow(rest, stuck, stale, j - 1, k);
      }
    }
  }

  lemma LeftOfNothing(stuck: set<nat>, stale: seq<Level>, j: nat)
    requires j <= |Unstuck(Ids([]), stuck)|
    ensures LeftOf([], stuck, stale, j) == stale
  {
    assert [] + stale == stale;
  }

  /** ... and what can show does at some point. */
  lemma {:induction false} CanShowIsShown(tables: seq<Level>, stuck: set<nat>, stale: seq<Level>, k: bytes) returns (j: nat)
    requires Descending(tables) && CanShow(tables, stuck, stale, k)
    ensures j <= |Unstuck(Ids(tables), stuck)| && k in Live(Merge(Stack(LeftOf(tables, stuck, stale, j))))
    decreases |tables|
  {
    hide Live, Merge, Unstuck, Ids, LeftOf;
    j := 0;
    if tables == [] {
      LeftOfNothing(stuck, stale, 0);
    } else {
      var t, rest := tables[0], tables[1..];
      RemovableStep(tables, stuck);
      if k in t.contents && (t.contents[k].Present? || t.id in stuck) {
        LeftStep(tables, stuck, stale, 0);
        LiveOnTop(t, LeftOf(rest, stuck, stale, 0), k);
      } else {
        j := CanShowIsShown(rest, stuck, stale, k);
        if t.id in stuck {
          LeftStep(tables, stuck, stale, j);
          LiveOnTop(t, LeftOf(rest, stuck, stale, j), k);
        } else {
          LeftStep(tables, stuck, stale, j + 1);
          j := j + 1;
        }
      }
    }
  }

  /** With no leftover files and none stuck, any value in any table can show: its tombstones go first. */
  lemma {:induction false} CanShowWhenClean(tables: seq<Level>, k: bytes)
    ensures CanShow(tables, {}, [], k) <==>
      exists i :: 0 <= i < |tables| && k in tables[i].contents && tables[i].contents[k].Present?
  {
    if tables == [] {
      assert Stack([]) == [];
    } else {
      CanShowWhenClean(tables[1..], k);
      if i :| 0 <= i < |tables[1..]| && k in tables[1..][i].contents && tables[1..][i].contents[k].Present? {
        assert tables[i + 1] == tables[1..][i];
      }
      if i :| 0 < i < |tables| && k in tables[i].contents && tables[i].contents[k].Present? {
        assert tables[1..][i - 1] == tables[i];
      }
    }
  }

  // ----- when no crash point of a call is unsafe -----

  /** The call is safe wherever it is interrupted. */
  ghost predicate AlwaysSafe(st: State, ev: Event) {
    forall j, cut :: CrashPoint(st, ev, j, cut) ==> SafeAt(st, ev, j, cut)
  }

  /** Every key that can show is live, or the memtable covers it. */
  ghost predicate BuriesNothing(st: State) {
    forall k :: CanShow(st.tables, st.stuck, st.stale, k) ==> k in st.data || k in Live(Merge(Stack(st.tables)))
  }

  lemma LeftIs(st: State, j: nat)
    requires j <= |Removable(st)|
    ensures Removable(st) == Unstuck(Ids(st.tables), st.stuck) && Left(st, j) == LeftOf(st.tables, st.stuck, st.stale, j)
  {
  }

  lemma NothingGone(st: State)
    ensures Left(st, 0) == OnDisk(st)
  {
    assert Elements(Removable(st)[..0]) == {};
    SurvivingAll(st.tables, {});
  }

  /** With all old files still there, nothing shows exactly if the leftover ones are harmless. */
  lemma HarmlessIsNothingShows(st: State)
    ensures Harmless(st) <==> NothingShows(st, OnDisk(st))
  {
    hide Merge;
    StackConcat(st.tables, st.stale);
    MergeConcat(Stack(st.tables), Stack(st.stale));
  }

  lemma SafeStart(st: State)
    ensures SafePoint(st, 0) <==> Harmless(st)
  {
    hide Harmless, NothingShows, MergeOps, Removable, Left, OnDisk;
    NothingGone(st);
    HarmlessIsNothingShows(st);
  }

  /** Compacting is safe at every point exactly when no deleted value is buried where it can come to show. */
  lemma CompactAlwaysSafe(st: State)
    requires |st.tables| >= 2 && Descending(st.tables)
    ensures (forall j :: 0 <= j <= |CompactOps(st)| ==> SafePoint(st, j)) <==> BuriesNothing(st)
  {
    hide *;
    CompactOpsAre(st);
    SafeStart(st);
    NothingGone(st);
    HarmlessIsNothingShows(st);
    if forall j :: 0 <= j <= |CompactOps(st)| ==> SafePoint(st, j) {
      forall n | 0 <= n <= |Removable(st)| ensures NothingShows(st, Left(st, n)) {
        assert SafePoint(st, |MergeOps(st)| + n);
        SafePointIs(st, |MergeOps(st)| + n);
      }
      BuriedIf(st);
    }
    if BuriesNothing(st) {
      BuriedIf(st);
      forall j | 0 <= j <= |CompactOps(st)| ensures SafePoint(st, j) { SafePointIs(st, j); }
    }
  }

  lemma BuriedIf(st: State)
    requires Descending(st.tables)
    ensures BuriesNothing(st) <==> forall n :: 0 <= n <= |Removable(st)| ==> NothingShows(st, Left(st, n))
  {
    hide Live, Merge, CanShow, Removable, Left;
    if forall n :: 0 <= n <= |Removable(st)| ==> NothingShows(st, Left(st, n)) {
      forall k | CanShow(st.tables, st.stuck, st.stale, k) ensures k in st.data || k in Live(Merge(Stack(st.tables))) {
        LeftIs(st, 0);
        var j := CanShowIsShown(st.tables, st.stuck, st.stale, k);
        LeftIs(st, j);
        assert NothingShows(st, Left(st, j));
      }
    }
    if BuriesNothing(st) {
      forall n | 0 <= n <= |Removable(st)| ensures NothingShows(st, Left(st, n)) {
        LeftIs(st, n);
        forall k | k in Live(Merge(Stack(Left(st, n)))) ensures k in st.data || k in Live(Merge(Stack(st.tables))) {
          ShownCanShow(st.tables, st.stuck, st.stale, n, k);
        }
      }
    }
  }

  lemma SafePointIs(st: State, j: nat)
    requires |st.tables| >= 2 && j <= |MergeOps(st)| + |Removable(st)|
    ensures j < |MergeOps(st)| ==> (SafePoint(st, j) <==> Harmless(st))
    ensures j >= |MergeOps(st)| ==> (SafePoint(st, j) <==> NothingShows(st, Left(st, j - |MergeOps(st)|)))
  {
    hide Harmless, NothingShows, MergeOps, Removable, Left;
  }

  /** The state on which a flush compacts, if it does. */
  function FlushCompacts(st: State): Option<State> {
    if st.data != map[] && |st.tables| + 1 > MAX_SSTABLES then Some(Move(st)) else None
  }

  /** The state on which a call compacts, if it does: all of it known before the call. */
  ghost function Compacts(st: State, ev: Event): Option<State>
    requires Legal(st, ev)
  {
    match ev
    case Tx(batch) =>
      if batch == [] then None
      else
        LoggableRoom(batch, st.sequence);
        var mid := CommitBatch(st, batch);
        if Footprint(mid.data) >= mid.budget then FlushCompacts(mid) else None
    case FlushNow => FlushCompacts(st)
    case CompactNow => if |st.tables| >= 2 then Some(st) else None
  }

  lemma TablesDescend(st: State)
    requires Inv(st)
    ensures Descending(st.tables)
  {
    hide Parse, Replay, FilesOf, AllStorable, SequencesOk;
    var m := Unpack(st);
    assert forall i :: 0 <= i < |st.tables| ==> OnDisk(st)[i] == st.tables[i];
  }

  lemma FlushAlwaysSafe(st: State)
    requires Inv(st) && FlushFits(st)
    ensures (forall j :: 0 <= j <= |FlushOps(st)| ==> FlushSafePoint(st, j))
       <==> (Harmless(st) && (FlushCompacts(st).Some? ==> BuriesNothing(Move(st))))
  {
    FlushCompactsIs(st);
    hide *;
    FlushShape(st);
    MovePrefixes(st);
    forall j: nat
      ensures (j > 2 ==> (FlushSafePoint(st, j) <==> SafePoint(Move(st), j - 2)))
        && (j <= 2 ==> (FlushSafePoint(st, j) <==> Harmless(st)))
    {
      FlushSafeIs(st, j);
    }
    HarmlessMove(st);
    SafeStart(Move(st));
    if FlushCompacts(st).Some? {
      MoveLaw(st);
      TablesDescend(Move(st));
      CompactAlwaysSafe(Move(st));
      if forall j :: 0 <= j <= |FlushOps(st)| ==> FlushSafePoint(st, j) {
        assert FlushSafePoint(st, 0);
        forall j | 0 <= j <= |CompactOps(Move(st))| ensures SafePoint(Move(st), j) {
          if j > 0 { assert FlushSafePoint(st, j + 2); }
        }
      }
    } else if forall j :: 0 <= j <= |FlushOps(st)| ==> FlushSafePoint(st, j) {
      assert FlushSafePoint(st, 0);
    }
  }

  lemma FlushCompactsIs(st: State)
    ensures FlushCompacts(st).Some? <==> st.data != map[] && |st.tables| + 1 > MAX_SSTABLES
    ensures FlushCompacts(st).Some? ==> FlushCompacts(st).value == Move(st)
  {
    hide Move;
  }

  /** Every effect count of a call is some crash point of it; before the first effect nothing of its batch survives. */
  lemma SomeCut(st: State, ev: Event, j: nat)
    requires Inv(st) && Legal(st, ev) && j <= |EventOps(st, ev)|
    ensures CrashPoint(st, ev, j, |Before(st, ev, j).wal|)
  {
    hide EventOps, Legal, Holds, SequencesOk;
    assert st.disk.Valid();
  }

  lemma StartCut(st: State, ev: Event)
    requires Inv(st) && Legal(st, ev)
    ensures CrashPoint(st, ev, 0, |st.disk.wal|) && Before(st, ev, 0) == st.disk
  {
    hide EventOps, Legal, Holds, SequencesOk;
    ApplyNone(st.disk, EventOps(st, ev));
  }

  /** A call is safe wherever it is interrupted if and only if the leftover files are harmless before it, and it does
      not compact, or compacts where no deleted value is buried. */
  lemma CallAlwaysSafe(st: State, ev: Event)
    requires Inv(st) && Legal(st, ev)
    ensures AlwaysSafe(st, ev) <==> Harmless(st) && (Compacts(st, ev).Some? ==> BuriesNothing(Compacts(st, ev).value))
  {
    hide *;
    if ev.Tx? && ev.batch != [] {
      TxAlwaysSafe(st, ev.batch);
    } else {
      CallCompacts(st, ev);
      EventShape(st, ev);
      if ev.Tx? {
        EmptyCallSafe(st, ev);
      } else if ev.FlushNow? {
        FlushCallSafe(st);
        FlushAlwaysSafe(st);
        FlushCompactsIs(st);
      } else {
        CompactCallSafe(st);
        CompactNowAlwaysSafe(st);
      }
    }
  }

  lemma CallCompacts(st: State, ev: Event)
    requires Legal(st, ev) && !(ev.Tx? && ev.batch != [])
    ensures ev.Tx? ==> Compacts(st, ev) == None
    ensures ev.FlushNow? ==> Compacts(st, ev) == FlushCompacts(st)
    ensures ev.CompactNow? ==> Compacts(st, ev) == if |st.tables| >= 2 then Some(st) else None
  {
    hide FlushCompacts, FlushFits, CompactFits;
  }

  lemma PlainSafeIs(st: State, ev: Event, j: nat, cut: nat)
    requires Legal(st, ev) && !(ev.Tx? && ev.batch != [])
    ensures ev.Tx? ==> (SafeAt(st, ev, j, cut) <==> Harmless(st))
    ensures ev.FlushNow? ==> (SafeAt(st, ev, j, cut) <==> FlushSafePoint(st, j))
    ensures ev.CompactNow? ==> (SafeAt(st, ev, j, cut) <==> SafePoint(st, j))
  {
    hide FlushSafePoint, SafePoint, FlushFits, CompactFits, Harmless;
  }

  lemma EmptyCallSafe(st: State, ev: Event)
    requires Inv(st) && Legal(st, ev) && ev == Tx([])
    ensures AlwaysSafe(st, ev) <==> Harmless(st)
  {
    hide *;
    if AlwaysSafe(st, ev) {
      StartCut(st, ev);
      AlwaysSafeAt(st, ev, 0, |st.disk.wal|);
      PlainSafeIs(st, ev, 0, |st.disk.wal|);
    }
    if Harmless(st) {
      forall j, cut | CrashPoint(st, ev, j, cut) ensures SafeAt(st, ev, j, cut) { PlainSafeIs(st, ev, j, cut); }
      AlwaysSafeWhen(st, ev);
    }
  }

  lemma FlushCallSafe(st: State)
    requires Inv(st) && Legal(st, FlushNow)
    ensures AlwaysSafe(st, FlushNow) <==> forall j :: 0 <= j <= |FlushOps(st)| ==> FlushSafePoint(st, j)
  {
    hide *;
    EventShape(st, FlushNow);
    if AlwaysSafe(st, FlushNow) {
      forall j | 0 <= j <= |FlushOps(st)| ensures FlushSafePoint(st, j) {
        SomeCut(st, FlushNow, j);
        AlwaysSafeAt(st, FlushNow, j, |Before(st, FlushNow, j).wal|);
        PlainSafeIs(st, FlushNow, j, |Before(st, FlushNow, j).wal|);
      }
    }
    if forall j :: 0 <= j <= |FlushOps(st)| ==> FlushSafePoint(st, j) {
      forall j, cut | CrashPoint(st, FlushNow, j, cut) ensures SafeAt(st, FlushNow, j, cut) {
        CrashedIs(st, FlushNow, j, cut);
        PlainSafeIs(st, FlushNow, j, cut);
      }
      AlwaysSafeWhen(st, FlushNow);
    }
  }

  lemma CompactCallSafe(st: State)
    requires Inv(st) && Legal(st, CompactNow)
    ensures AlwaysSafe(st, CompactNow) <==> forall j :: 0 <= j <= |CompactOps(st)| ==> SafePoint(st, j)
  {
    hide *;
    EventShape(st, CompactNow);
    if AlwaysSafe(st, CompactNow) {
      forall j | 0 <= j <= |CompactOps(st)| ensures SafePoint(st, j) {
        SomeCut(st, CompactNow, j);
        AlwaysSafeAt(st, CompactNow, j, |Before(st, CompactNow, j).wal|);
        PlainSafeIs(st, CompactNow, j, |Before(st, CompactNow, j).wal|);
      }
    }
    if forall j :: 0 <= j <= |CompactOps(st)| ==> SafePoint(st, j) {
      forall j, cut | CrashPoint(st, CompactNow, j, cut) ensures SafeAt(st, CompactNow, j, cut) {
        CrashedIs(st, CompactNow, j, cut);
        PlainSafeIs(st, CompactNow, j, cut);
      }
      AlwaysSafeWhen(st, CompactNow);
    }
  }

  lemma CompactNowAlwaysSafe(st: State)
    requires Inv(st)
    ensures (forall j :: 0 <= j <= |CompactOps(st)| ==> SafePoint(st, j))
       <==> Harmless(st) && (|st.tables| >= 2 ==> BuriesNothing(st))
  {
    hide *;
    SafeStart(st);
    if |st.tables| >= 2 {
      TablesDescend(st);
      CompactAlwaysSafe(st);
      if BuriesNothing(st) { assert SafePoint(st, 0); }
    } else {
      forall j: nat ensures SafePoint(st, j) <==> Harmless(st) { SafeWhenNothing(st, j); }
      if forall j :: 0 <= j <= |CompactOps(st)| ==> SafePoint(st, j) { assert SafePoint(st, 0); }
    }
  }

  lemma AlwaysSafeWhen(st: State, ev: Event)
    requires Legal(st, ev) && forall j, cut :: CrashPoint(st, ev, j, cut) ==> SafeAt(st, ev, j, cut)
    ensures AlwaysSafe(st, ev)
  {
    hide Legal, SafeAt, CrashPoint;
  }

  lemma TxAlwaysSafe(st: State, batch: Batch)
    requires Inv(st) && batch != [] && Legal(st, Tx(batch))
    ensures AlwaysSafe(st, Tx(batch))
       <==> Harmless(st) && (Compacts(st, Tx(batch)).Some? ==> BuriesNothing(Compacts(st, Tx(batch)).value))
  {
    TxCompactsIs(st, batch);
    EventShape(st, Tx(batch));
    hide *;
    var mid := CommitBatch(st, batch);
    CommitLaw(st, batch);
    if Footprint(mid.data) >= mid.budget { FlushAlwaysSafe(mid); }
    if AlwaysSafe(st, Tx(batch)) {
      TxSafeStart(st, batch);
      HarmlessCommit(st, batch);
      if Footprint(mid.data) >= mid.budget {
        forall i | 0 <= i <= |FlushOps(mid)| ensures FlushSafePoint(mid, i) { TxThenFlush(st, batch, i); }
      }
    }
    if Harmless(st) && (Compacts(st, Tx(batch)).Some? ==> BuriesNothing(Compacts(st, Tx(batch)).value)) {
      HarmlessCommit(st, batch);
      TxAllSafe(st, batch);
    }
  }

  lemma HarmlessCommit(st: State, batch: Batch)
    requires st.sequence + |batch| < U64 && Harmless(st)
    ensures Harmless(CommitBatch(st, batch))
  {
    hide Insert, MapOf, CommitOps, Merge;
    InsertIsOverlay(st.data, batch);
  }

  /** Cut before its first effect, a commit shows what reopening as it is would. */
  lemma TxSafeStart(st: State, batch: Batch)
    requires Inv(st) && batch != [] && Legal(st, Tx(batch)) && AlwaysSafe(st, Tx(batch))
    ensures Harmless(st)
  {
    hide *;
    EventShape(st, Tx(batch));
    StartCut(st, Tx(batch));
    AlwaysSafeAt(st, Tx(batch), 0, |st.disk.wal|);
    TxSafeIs(st, batch, 0, |st.disk.wal|);
    LogNonEmpty(LogBatch(batch, st.sequence));
    SurvivesIs(st, batch, |st.disk.wal|);
  }

  lemma AlwaysSafeAt(st: State, ev: Event, j: nat, cut: nat)
    requires AlwaysSafe(st, ev) && CrashPoint(st, ev, j, cut)
    ensures Legal(st, ev) && SafeAt(st, ev, j, cut)
  {
    hide Legal, SafeAt, EventOps, Before;
  }

  lemma LogNonEmpty(es: seq<WalEntry>)
    ensures es != [] ==> |LogOf(es)| > 0
  {
    if es != [] { FrameNonEmpty(es[0]); }
  }

  lemma TxThenFlush(st: State, batch: Batch, i: nat)
    requires Inv(st) && batch != [] && Legal(st, Tx(batch)) && AlwaysSafe(st, Tx(batch)) && st.sequence + |batch| < U64
    requires var mid := CommitBatch(st, batch);
      Footprint(mid.data) >= mid.budget && Harmless(mid) && i <= |FlushOps(mid)|
    ensures FlushSafePoint(CommitBatch(st, batch), i)
  {
    hide *;
    var n, mid := |CommitOps(batch, st.sequence)|, CommitBatch(st, batch);
    if i == 0 {
      FlushSafeIs(mid, 0);
    } else {
      TxLength(st, batch);
      SomeCut(st, Tx(batch), n + i);
      var cut := |Before(st, Tx(batch), n + i).wal|;
      AlwaysSafeAt(st, Tx(batch), n + i, cut);
      TxSafeIs(st, batch, n + i, cut);
    }
  }

  lemma TxLength(st: State, batch: Batch)
    requires batch != [] && Legal(st, Tx(batch)) && st.sequence + |batch| < U64
    requires Footprint(CommitBatch(st, batch).data) >= CommitBatch(st, batch).budget
    ensures |EventOps(st, Tx(batch))| == |CommitOps(batch, st.sequence)| + |FlushOps(CommitBatch(st, batch))|
  {
    EventShape(st, Tx(batch));
    hide *;
    MaybeFlushShape(CommitBatch(st, batch));
  }

  lemma TxAllSafe(st: State, batch: Batch)
    requires Inv(st) && batch != [] && Legal(st, Tx(batch)) && st.sequence + |batch| < U64
    requires var mid := CommitBatch(st, batch);
      && Harmless(st) && Harmless(mid)
      && (Footprint(mid.data) >= mid.budget ==> forall i :: 0 <= i <= |FlushOps(mid)| ==> FlushSafePoint(mid, i))
    ensures AlwaysSafe(st, Tx(batch))
  {
    hide *;
    var n, mid := |CommitOps(batch, st.sequence)|, CommitBatch(st, batch);
    forall j: nat, cut: nat | CrashPoint(st, Tx(batch), j, cut) ensures SafeAt(st, Tx(batch), j, cut) {
      CrashedIs(st, Tx(batch), j, cut);
      TxSafeIs(st, batch, j, cut);
      if j > n {
        TxOnlyFlushes(st, batch);
        TxLength(st, batch);
        assert FlushSafePoint(mid, j - n);
      }
    }
    AlwaysSafeWhen(st, Tx(batch));
  }

  lemma TxSafeIs(st: State, batch: Batch, j: nat, cut: nat)
    requires batch != [] && Legal(st, Tx(batch)) && st.sequence + |batch| < U64
    ensures LogBatch(batch, st.sequence) != []
    ensures var n, mid := |CommitOps(batch, st.sequence)|, CommitBatch(st, batch);
      SafeAt(st, Tx(batch), j, cut) <==>
        if j > n then FlushSafePoint(mid, j - n) else if Survives(st, batch, cut) then Harmless(mid) else Harmless(st)
  {
    hide CommitOps, CommitBatch, FlushSafePoint, Legal, Survives, Harmless;
  }

  /** Beyond its own effects a commit only flushes. */
  lemma TxOnlyFlushes(st: State, batch: Batch)
    requires batch != [] && Legal(st, Tx(batch)) && st.sequence + |batch| < U64
    ensures |EventOps(st, Tx(batch))| > |CommitOps(batch, st.sequence)| ==>
      Footprint(CommitBatch(st, batch).data) >= CommitBatch(st, batch).budget
  {
    EventShape(st, Tx(batch));
    hide *;
    MaybeFlushShape(CommitBatch(st, batch));
  }

  lemma TxCompactsIs(st: State, batch: Batch)
    requires batch != [] && Legal(st, Tx(batch))
    ensures st.sequence + |batch| < U64
    ensures var mid := CommitBatch(st, batch);
      && (Footprint(mid.data) < mid.budget ==> Compacts(st, Tx(batch)) == None)
      && (Footprint(mid.data) >= mid.budget ==> Compacts(st, Tx(batch)) == FlushCompacts(mid))
      && (FlushCompacts(mid).Some? ==> FlushCompacts(mid).value == Move(mid))
  {
    EventShape(st, Tx(batch));
    hide CommitBatch, Footprint, Move, Loggable, FlushFits, Insert;
  }

  // ----- any removals, in any order -----

  /** Whichever files were removed once the merged table was written, and in whatever order, the store opens; a key
      keeps its view exactly if its answer was a value or the newest survivor mentioning it is a tombstone, or none
      does, or the memtable covers it. */
  lemma SurvivorsExact(st: State, removed: seq<nat>) returns (r: State)
    requires Inv(st) && |st.tables| >= 2 && CompactFits(st) && forall id :: id in removed ==> id < st.nextId
    ensures Recover(ApplyAll(MergedImage(st), Removals(removed))) == Ok(r) && Inv(r)
    ensures forall k :: Get(Visible(r), k) == Get(Visible(st), k) <==>
      k in st.data || k in Live(Merge(Stack(st.tables))) || Quiet(Stack(Surviving(OnDisk(st), Elements(removed))), k)
  {
    hide *;
    var gone, merged := Elements(removed), MergedLevel(st.tables, st.nextId);
    var next := st.nextId + |merged|;
    var m := Unpack(st);
    CompactShape(st);
    MergedHolds(st, m);
    BelowIs(merged + OnDisk(st), next);
    SurvivorsHold(MergedImage(st), m, merged + OnDisk(st), removed, next);
    MergedStays(st, removed);
    var left := Surviving(OnDisk(st), gone);
    r := RecoverOk(ApplyAll(MergedImage(st), Removals(removed)), m, merged + left, st.sequence);
    RecoverShape(st);
    StackMerged(st.tables, st.nextId, left);
    forall k ensures Get(Visible(r), k) == Get(Visible(st), k) <==>
      k in st.data || k in Live(Merge(Stack(st.tables))) || Quiet(Stack(left), k)
    {
      CleanupExact(st.data, Stack(st.tables), Stack(left), k);
    }
  }

  lemma MergedStays(st: State, removed: seq<nat>)
    requires forall id :: id in removed ==> id < st.nextId
    ensures var merged := MergedLevel(st.tables, st.nextId);
      Surviving(merged + OnDisk(st), Elements(removed)) == merged + Surviving(OnDisk(st), Elements(removed))
  {
    hide Merged, OnDisk, Surviving;
    var merged := MergedLevel(st.tables, st.nextId);
    SurvivingConcat(merged, OnDisk(st), Elements(removed));
    SurvivingAll(merged, Elements(removed));
  }

  lemma {:induction false} SurvivingFront(tables: seq<Level>, left: nat, gone: set<nat>)
    requires left <= |tables| && Descending(tables)
    requires forall i :: 0 <= i < |tables| ==> (tables[i].id in gone <==> left <= i)
    ensures Surviving(tables, gone) == tables[..left]
  {
    if tables != [] {
      Uncons(tables);
      SurvivingFront(tables[1..], if left == 0 then 0 else left - 1, gone);
    }
  }

  /** Had the files gone oldest first, with none left over from before, every stopping point would be safe. */
  lemma OldestFirstCrash(st: State, left: nat, removed: seq<nat>) returns (r: State)
    requires Inv(st) && |st.tables| >= 2 && CompactFits(st) && left <= |st.tables| && st.stale == []
    requires forall id :: id in removed <==> exists i :: left <= i < |st.tables| && st.tables[i].id == id
    ensures Recover(ApplyAll(MergedImage(st), Removals(removed))) == Ok(r) && Inv(r) && Visible(r) == Visible(st)
  {
    RemovedBelow(st, left, removed);
    OnDiskAlone(st);
    hide *;
    r := SurvivorsExact(st, removed);
    SurvivingFront(st.tables, left, Elements(removed));
    StackFront(st.tables, left);
    OldestFirstSafe(st.data, Stack(st.tables), left);
    SafeIs(st.data, Stack(st.tables), Stack(st.tables[..left]));
    SameMap(Visible(r), Visible(st));
  }

  lemma SafeIs(mem: Layer, tables: seq<Layer>, survivors: seq<Layer>)
    ensures Safe(mem, tables, survivors) <==> forall k :: k in mem || k in Live(Merge(tables)) || Quiet(survivors, k)
  {
    hide Live, Merge, Quiet;
  }

  lemma StackFront(tables: seq<Level>, left: nat)
    requires left <= |tables|
    ensures Stack(tables[..left]) == Stack(tables)[..left]
  {
  }

  lemma RemovedBelow(st: State, left: nat, removed: seq<nat>)
    requires Inv(st) && left <= |st.tables| && st.stale == []
    requires forall id :: id in removed <==> exists i :: left <= i < |st.tables| && st.tables[i].id == id
    ensures Descending(st.tables) && forall id :: id in removed ==> id < st.nextId
    ensures forall i :: 0 <= i < |st.tables| ==> (st.tables[i].id in Elements(removed) <==> left <= i)
  {
    OnDiskAlone(st);
    hide Parse, Replay, FilesOf, AllStorable, SequencesOk, OnDisk;
    forall i | 0 <= i < |st.tables| ensures st.tables[i].id in removed <==> left <= i {
      if st.tables[i].id in removed {
        var j :| left <= j < |st.tables| && st.tables[j].id == st.tables[i].id;
      }
    }
  }
}
