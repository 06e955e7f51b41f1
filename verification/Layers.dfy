/** Maps of entries stacked newest first: what is visible, and what compaction and its cleanup do to it. */
module Layers {
  import opened Bytes
  import opened Codec
  import opened Records

  type Layer = map<bytes, Entry>

  /** All layers in one map; a newer layer, nearer the front, hides an older one. */
  function Merge(layers: seq<Layer>): Layer {
    if layers == [] then map[] else Merge(layers[1..]) + layers[0]
  }

  /** The entries that are values. */
  function DropTombstones(m: Layer): Layer {
    map k | k in m && m[k].Present? :: m[k]
  }

  function Live(m: Layer): map<bytes, Value> {
    map k | k in m && m[k].Present? :: m[k].value
  }

  /** The map a reader sees. */
  function View(layers: seq<Layer>): map<bytes, Value> {
    Live(Merge(layers))
  }

  function Read(e: Option<Entry>): Option<Value> {
    match e
    case Some(Present(v)) => Some(v)
    case _ => None
  }

  lemma ViewReads(layers: seq<Layer>, k: bytes)
    ensures Get(View(layers), k) == Read(Get(Merge(layers), k))
  {
  }

  lemma MergeFirst(top: Layer, rest: seq<Layer>)
    ensures Merge([top] + rest) == Merge(rest) + top
  {
    assert ([top] + rest)[1..] == rest;
  }

  lemma {:induction false} MergeConcat(a: seq<Layer>, b: seq<Layer>)
    ensures Merge(a + b) == Merge(b) + Merge(a)
  {
    if a == [] {
      assert a + b == b;
    } else {
      MergeConcat(a[1..], b);
      assert (a + b)[1..] == a[1..] + b;
      OverlayAssoc(Merge(b), Merge(a[1..]), a[0]);
    }
  }

  lemma OverlayAssoc(a: Layer, b: Layer, c: Layer)
    ensures a + b + c == a + (b + c)
  {
  }

  // ----- flush -----

  /** Moving the memtable to the front of the tables changes nothing, before or after it is cleared. */
  lemma FlushKeepsView(mem: Layer, tables: seq<Layer>)
    ensures View([mem] + ([mem] + tables)) == View([mem] + tables)
    ensures View([map[]] + ([mem] + tables)) == View([mem] + tables)
  {
    MergeFirst(mem, tables);
    MergeFirst(mem, [mem] + tables);
    MergeFirst(map[], [mem] + tables);
    assert Merge(tables) + mem + mem == Merge(tables) + mem;
  }

  // ----- compaction, and its cleanup cut short -----

  /** The newest survivor that mentions `k` holds a tombstone, or none mentions it. */
  predicate Quiet(survivors: seq<Layer>, k: bytes) {
    Read(Get(Merge(survivors), k)) == None
  }

  /** The merged table, absent when nothing was left to keep. */
  function MergedTable(tables: seq<Layer>): seq<Layer> {
    var d := DropTombstones(Merge(tables));
    if d == map[] then [] else [d]
  }

  /** After reopening on the merged table and any surviving old ones, exactly these keys keep their view. */
  lemma CleanupExact(mem: Layer, tables: seq<Layer>, survivors: seq<Layer>, k: bytes)
    ensures Get(View([mem] + (MergedTable(tables) + survivors)), k) == Get(View([mem] + tables), k)
       <==> k in mem || k in Live(Merge(tables)) || Quiet(survivors, k)
  {
    var d := DropTombstones(Merge(tables));
    var stack := MergedTable(tables) + survivors;
    MergeConcat(MergedTable(tables), survivors);
    MergeFirst(d, []);
    assert [d] + [] == [d];
    assert Merge(MergedTable(tables)) == d;
    MergeFirst(mem, stack);
    MergeFirst(mem, tables);
    ViewReads([mem] + stack, k);
    ViewReads([mem] + tables, k);
  }

  ghost predicate Safe(mem: Layer, tables: seq<Layer>, survivors: seq<Layer>) {
    forall k :: k in mem || k in Live(Merge(tables)) || Quiet(survivors, k)
  }

  lemma CleanupSafe(mem: Layer, tables: seq<Layer>, survivors: seq<Layer>)
    ensures View([mem] + (MergedTable(tables) + survivors)) == View([mem] + tables) <==> Safe(mem, tables, survivors)
  {
    var a, b := View([mem] + (MergedTable(tables) + survivors)), View([mem] + tables);
    forall k ensures Get(a, k) == Get(b, k) <==> k in mem || k in Live(Merge(tables)) || Quiet(survivors, k) {
      CleanupExact(mem, tables, survivors, k);
    }
    if Safe(mem, tables, survivors) {
      SameMap(a, b);
    }
  }

  lemma SameMap<V>(a: map<bytes, V>, b: map<bytes, V>)
    requires forall k :: Get(a, k) == Get(b, k)
    ensures a == b
  {
    forall k ensures k in a <==> k in b { assert Get(a, k) == Get(b, k); }
    forall k | k in a ensures a[k] == b[k] { assert Get(a, k) == Get(b, k); }
  }

  /** A full merge may forget every tombstone, whatever the memtable holds. */
  lemma CompactKeepsView(mem: Layer, tables: seq<Layer>)
    ensures View([mem] + MergedTable(tables)) == View([mem] + tables)
  {
    CleanupSafe(mem, tables, []);
    assert MergedTable(tables) + [] == MergedTable(tables);
  }

  /** Removing oldest first is safe at every point, in particular before the first and after the last removal. */
  lemma OldestFirstSafe(mem: Layer, tables: seq<Layer>, left: nat)
    requires left <= |tables|
    ensures Safe(mem, tables, tables[..left])
  {
    assert tables == tables[..left] + tables[left..];
    MergeConcat(tables[..left], tables[left..]);
  }

  /** Leftover layers below the tables change the answer for a key exactly if nothing above mentions it and they hold
      a value for it. */
  lemma StaleExact(mem: Layer, tables: seq<Layer>, stale: seq<Layer>, k: bytes)
    ensures Get(View([mem] + (tables + stale)), k) == Get(View([mem] + tables), k)
       <==> k in mem || k in Merge(tables) || Quiet(stale, k)
  {
    hide Merge;
    MergeConcat(tables, stale);
    MergeFirst(mem, tables + stale);
    MergeFirst(mem, tables);
    ViewReads([mem] + (tables + stale), k);
    ViewReads([mem] + tables, k);
  }

  /** Every entry of a merge is one of its layers'. */
  lemma {:induction false} MergeFrom(layers: seq<Layer>, k: bytes) returns (i: nat)
    requires k in Merge(layers)
    ensures i < |layers| && k in layers[i] && layers[i][k] == Merge(layers)[k]
  {
    if k in layers[0] {
      i := 0;
    } else {
      i := MergeFrom(layers[1..], k);
      i := i + 1;
    }
  }

  // ----- agreeing wherever there is a value -----

  /** `a` gives every key of `b` the same value; it may have more keys. */
  ghost predicate Covers<V>(a: map<bytes, V>, b: map<bytes, V>) {
    forall k :: k in b ==> k in a && a[k] == b[k]
  }

  /** Whatever files survive a cleanup, no visible value is lost or changed. */
  lemma CleanupCovers(mem: Layer, tables: seq<Layer>, survivors: seq<Layer>)
    ensures Covers(View([mem] + (MergedTable(tables) + survivors)), View([mem] + tables))
  {
    hide Merge, MergedTable, View;
    var a, b := View([mem] + (MergedTable(tables) + survivors)), View([mem] + tables);
    forall k | k in b ensures k in a && a[k] == b[k] {
      CleanupExact(mem, tables, survivors, k);
      LiveSomewhere(mem, tables, k);
      assert Get(a, k) == Get(b, k);
    }
  }

  /** Leftover layers hide no visible value either. */
  lemma StaleCovers(mem: Layer, tables: seq<Layer>, stale: seq<Layer>)
    ensures Covers(View([mem] + (tables + stale)), View([mem] + tables))
  {
    hide Merge, View;
    var a, b := View([mem] + (tables + stale)), View([mem] + tables);
    forall k | k in b ensures k in a && a[k] == b[k] {
      StaleExact(mem, tables, stale, k);
      LiveSomewhere(mem, tables, k);
      assert Get(a, k) == Get(b, k);
    }
  }

  lemma LiveSomewhere(mem: Layer, tables: seq<Layer>, k: bytes)
    requires k in View([mem] + tables)
    ensures k in mem || k in Live(Merge(tables))
  {
    MergeFirst(mem, tables);
  }

  // ----- writes -----

  /** A batch of writes in order; a tombstone is a delete. */
  type Batch = seq<Record>

  function Put(m: map<bytes, Value>, w: Record): map<bytes, Value> {
    match w.entry
    case Present(v) => m[w.key := v]
    case Tombstone => m - {w.key}
  }

  /** The effect of a batch on the map a reader sees. */
  function Write(m: map<bytes, Value>, batch: Batch): map<bytes, Value> {
    if batch == [] then m else Put(Write(m, batch[..|batch| - 1]), batch[|batch| - 1])
  }

  /** The effect of a batch on the memtable. */
  function Insert(mem: Layer, batch: Batch): Layer {
    if batch == [] then mem
    else Insert(mem, batch[..|batch| - 1])[batch[|batch| - 1].key := batch[|batch| - 1].entry]
  }

  lemma {:induction false} InsertIsOverlay(mem: Layer, batch: Batch)
    ensures Insert(mem, batch) == mem + MapOf(batch)
  {
    if batch != [] {
      InsertIsOverlay(mem, batch[..|batch| - 1]);
    } else {
      assert mem + map[] == mem;
    }
  }

  lemma {:induction false} WriteIsOverlay(m: map<bytes, Value>, batch: Batch, k: bytes)
    ensures Get(Write(m, batch), k) == if k in MapOf(batch) then Read(Some(MapOf(batch)[k])) else Get(m, k)
  {
    if batch != [] { WriteIsOverlay(m, batch[..|batch| - 1], k); }
  }

  /** Writing a batch through the memtable is writing it to the visible map. */
  lemma InsertWrites(mem: Layer, tables: seq<Layer>, batch: Batch)
    ensures View([Insert(mem, batch)] + tables) == Write(View([mem] + tables), batch)
  {
    hide MapOf, Write, Insert;
    var a, b := View([Insert(mem, batch)] + tables), Write(View([mem] + tables), batch);
    InsertIsOverlay(mem, batch);
    MergeFirst(Insert(mem, batch), tables);
    MergeFirst(mem, tables);
    forall k ensures Get(a, k) == Get(b, k) {
      WriteIsOverlay(View([mem] + tables), batch, k);
      ViewReads([Insert(mem, batch)] + tables, k);
      ViewReads([mem] + tables, k);
    }
    SameMap(a, b);
  }

  /** Only the map a batch denotes matters: duplicates collapse to the last one, and order is free otherwise. */
  lemma WriteByMap(m: map<bytes, Value>, a: Batch, b: Batch)
    requires MapOf(a) == MapOf(b)
    ensures Write(m, a) == Write(m, b)
  {
    hide Write, MapOf;
    forall k ensures Get(Write(m, a), k) == Get(Write(m, b), k) {
      WriteIsOverlay(m, a, k);
      WriteIsOverlay(m, b, k);
    }
    SameMap(Write(m, a), Write(m, b));
  }

  lemma WriteCovers(a: map<bytes, Value>, b: map<bytes, Value>, batch: Batch)
    requires Covers(a, b)
    ensures Covers(Write(a, batch), Write(b, batch))
  {
    hide Write, MapOf;
    var a', b' := Write(a, batch), Write(b, batch);
    forall k | k in b' ensures k in a' && a'[k] == b'[k] {
      WriteIsOverlay(a, batch, k);
      WriteIsOverlay(b, batch, k);
      assert Get(b', k) == Get(a', k);
    }
  }
}
