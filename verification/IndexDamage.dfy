/** What a damaged sparse index does to lookups: nothing guards it, and when they are right all the same. */
module IndexDamage {
  import opened Bytes
  import opened Codec
  import opened Records
  import opened Bloom
  import opened TableFormat
  import opened TableReader
  import opened SsTable

  /** First keys as written; offsets and lengths are free, with room for a checksum. */
  ghost predicate Retargeted(es: seq<Record>, ix: seq<IndexEntry>) {
    && |ix| == |Blocks(es)| && Wide(ix)
    && forall i :: 0 <= i < |ix| ==> ix[i].firstKey == FirstKey(Blocks(es)[i])
  }

  function With(es: seq<Record>, ix: seq<IndexEntry>): TableInfo {
    TableOf(es).(index := ix)
  }

  // ----- the file -----

  /** The file of a non-empty run with the index `ix` in the place of its own. */
  function FileWithIndex(es: seq<Record>, ix: seq<IndexEntry>): bytes {
    var cs := Blocks(es);
    var region := IndexBytes(ix) + Summary(es);
    Data(cs) + (region + Footer(|Data(cs)|, |region|, |ix|))
  }

  lemma {:induction false} SameIndexLength(a: seq<IndexEntry>, b: seq<IndexEntry>)
    requires |a| == |b| && forall i :: 0 <= i < |a| ==> a[i].firstKey == b[i].firstKey
    ensures |IndexBytes(a)| == |IndexBytes(b)|
  {
    if a != [] { SameIndexLength(a[1..], b[1..]); }
  }

  /** Nothing in the file guards the index: any other with the same first keys opens just as well. */
  lemma IndexUnchecked(es: seq<Record>, ix: seq<IndexEntry>)
    requires Fits(es) && es != [] && Retargeted(es, ix) && forall i :: 0 <= i < |ix| ==> EntryFits(ix[i])
    ensures FileOf(es) == FileWithIndex(es, Index(Blocks(es)))
    ensures |FileWithIndex(es, ix)| == |FileOf(es)| && ParseTable(FileWithIndex(es, ix)) == Ok(With(es, ix))
  {
    SameFileLength(es, ix);
    RegionsFit(es, ix);
    hide *;
    var data, region := Data(Blocks(es)), IndexBytes(ix) + Summary(es);
    IndexPart(region, ix, Summary(es));
    SummaryPart(es, region, |IndexBytes(ix)|);
    RetargetedFacts(es, ix);
    ParseWhole(FileWithIndex(es, ix), data, region, ix, |IndexBytes(ix)|);
    WithIs(es, ix);
  }

  lemma WithIs(es: seq<Record>, ix: seq<IndexEntry>)
    requires es != []
    ensures With(es, ix) == TableInfo(ix, Some(es[0].key), Some(es[|es| - 1].key), Some(FilterOf(Keys(es))))
  {
    hide FilterOf, Index, Blocks;
  }

  lemma SameFileLength(es: seq<Record>, ix: seq<IndexEntry>)
    requires Retargeted(es, ix)
    ensures |IndexBytes(ix)| == |IndexBytes(Index(Blocks(es)))|
    ensures FileOf(es) == FileWithIndex(es, Index(Blocks(es))) && |FileWithIndex(es, ix)| == |FileOf(es)|
    ensures FileWithIndex(es, ix) ==
      Data(Blocks(es)) + (IndexBytes(ix) + Summary(es) + Footer(|Data(Blocks(es))|, |IndexBytes(ix) + Summary(es)|, |ix|))
  {
    hide Blocks, Data, IndexBytes, Summary, Index, Wide;
    SameIndexLength(ix, Index(Blocks(es)));
  }

  lemma RegionsFit(es: seq<Record>, ix: seq<IndexEntry>)
    requires Fits(es) && |IndexBytes(ix)| == |IndexBytes(Index(Blocks(es)))|
    ensures |Data(Blocks(es))| < U64 && |IndexBytes(ix) + Summary(es)| == |IndexRegion(es)| < U64 && |Blocks(es)| < U32
  {
    hide Blocks, Data, IndexBytes, Summary, Sealed, Index;
  }

  // ----- lookups -----

  lemma {:induction false} SlotBounds(ix: seq<IndexEntry>, key: bytes)
    ensures var n := Slot(ix, key);
      && (n > 0 ==> Leq(ix[n - 1].firstKey, key))
      && (n < |ix| ==> Less(key, ix[n].firstKey))
  {
    hide Less;
    if ix != [] && !Less(key, ix[0].firstKey) { SlotBounds(ix[1..], key); }
  }

  lemma {:induction false} SameSlots(a: seq<IndexEntry>, b: seq<IndexEntry>, key: bytes)
    requires |a| == |b| && forall i :: 0 <= i < |a| ==> a[i].firstKey == b[i].firstKey
    ensures Slot(a, key) == Slot(b, key)
  {
    if a != [] { SameSlots(a[1..], b[1..], key); }
  }

  lemma RetargetedSlots(es: seq<Record>, ix: seq<IndexEntry>, key: bytes)
    requires Ascending(es) && Retargeted(es, ix)
    ensures |ix| == |TableOf(es).index| == |Blocks(es)| && Slot(ix, key) == Slot(TableOf(es).index, key)
  {
    IndexSorted(es);
    hide TableOf, Blocks, Less, Slot, Wide;
    SameSlots(ix, TableOf(es).index, key);
  }

  /** What the table as written answers behind its filters. */
  lemma WrittenAnswer(es: seq<Record>, ix: seq<IndexEntry>, key: bytes)
    requires Storable(es) && es != [] && Retargeted(es, ix)
    ensures Slot(ix, key) <= |Blocks(es)|
    ensures var n := Slot(ix, key);
      && (n == 0 ==> Get(MapOf(es), key) == None)
      && (n > 0 ==> FindFrom(BlockBytes(Blocks(es)[n - 1]), 0, key) == Ok(Get(MapOf(es), key)))
  {
    hide *;
    StorableAscends(es);
    RetargetedSlots(es, ix, key);
    FirstOfTable(es);
    SlotBounds(TableOf(es).index, key);
    if Slot(ix, key) == 0 { BeforeFirst(es, key); } else { IndexDecides(es, Slot(ix, key) - 1, key); }
  }

  /** The block entry `i` points to is rejected, or answers the keys of its slot as the block written there does. */
  ghost predicate Stands(es: seq<Record>, ix: seq<IndexEntry>, disk: bytes, i: nat)
    requires Retargeted(es, ix) && i < |ix|
  {
    var b := ReadBlock(disk, ix[i]);
    b.Ok? ==> forall key :: InSlot(es, ix, i, key) ==>
      FindFrom(b.value, 0, key).Err? || FindFrom(b.value, 0, key) == FindFrom(BlockBytes(Blocks(es)[i]), 0, key)
  }

  ghost predicate InSlot(es: seq<Record>, ix: seq<IndexEntry>, i: nat, key: bytes) {
    Slot(ix, key) == i + 1 && (TableOf(es).bloom.Some? ==> TableOf(es).bloom.value.field != []) && !Skips(TableOf(es), key)
  }

  ghost predicate RightOrError(es: seq<Record>, ix: seq<IndexEntry>, disk: bytes, key: bytes)
    requires Retargeted(es, ix)
  {
    && (TableOf(es).bloom.Some? ==> TableOf(es).bloom.value.field != [])
    && (var r := Lookup(With(es, ix), disk, key); r.Err? || r == Ok(Get(MapOf(es), key)))
  }

  lemma RightOrErrorIs(es: seq<Record>, ix: seq<IndexEntry>, disk: bytes, key: bytes)
    requires Storable(es) && es != [] && Retargeted(es, ix)
    ensures Slot(ix, key) > 0 ==> 4 <= ix[Slot(ix, key) - 1].len
    ensures RightOrError(es, ix, disk, key) <==>
      var n := Slot(ix, key);
      n > 0 && InSlot(es, ix, n - 1, key) && ReadBlock(disk, ix[n - 1]).Ok? ==>
        var r := FindFrom(ReadBlock(disk, ix[n - 1]).value, 0, key);
        r.Err? || r == FindFrom(BlockBytes(Blocks(es)[n - 1]), 0, key)
  {
    hide *;
    StorableAscends(es);
    FiltersSound(es, key);
    WrittenAnswer(es, ix, key);
    RetargetedWide(es, ix);
    SearchIs(ix, disk, key);
    WithSkips(es, ix, key);
    LookupIs(With(es, ix), disk, key);
    RightOrErrorShape(es, ix, disk, key);
    if Slot(ix, key) > 0 { InSlotShape(es, ix, Slot(ix, key) - 1, key); }
  }

  lemma RetargetedWide(es: seq<Record>, ix: seq<IndexEntry>)
    requires Retargeted(es, ix)
    ensures Wide(ix)
  {
    hide Wide, Blocks;
  }

  lemma RightOrErrorShape(es: seq<Record>, ix: seq<IndexEntry>, disk: bytes, key: bytes)
    requires Retargeted(es, ix) && (TableOf(es).bloom.Some? ==> TableOf(es).bloom.value.field != [])
    ensures With(es, ix).index == ix && With(es, ix).bloom == TableOf(es).bloom && Wide(ix)
    ensures RightOrError(es, ix, disk, key) <==>
      var r := Lookup(With(es, ix), disk, key); r.Err? || r == Ok(Get(MapOf(es), key))
  {
    hide TableOf, Lookup, MapOf, Wide, Blocks;
  }

  lemma InSlotShape(es: seq<Record>, ix: seq<IndexEntry>, i: nat, key: bytes)
    requires TableOf(es).bloom.Some? ==> TableOf(es).bloom.value.field != []
    ensures InSlot(es, ix, i, key) <==> Slot(ix, key) == i + 1 && !Skips(TableOf(es), key)
  {
    hide TableOf, Slot, Skips;
  }

  lemma WithSkips(es: seq<Record>, ix: seq<IndexEntry>, key: bytes)
    requires es != [] && Retargeted(es, ix) && (TableOf(es).bloom.Some? ==> TableOf(es).bloom.value.field != [])
    ensures Skips(With(es, ix), key) <==> Skips(TableOf(es), key)
    ensures With(es, ix).index == ix && With(es, ix).bloom == TableOf(es).bloom
  {
    IndexOfRun(es);
    hide Blocks, Index, Less, TableOf, Flatten, Wide;
    assert |TableOf(es).index| == |ix|;
  }

  /** With first keys as written and any offsets and lengths, every lookup is right or an error if and only if every
      entry stands. */
  lemma IndexDamageExact(es: seq<Record>, ix: seq<IndexEntry>, disk: bytes)
    requires Storable(es) && es != [] && Retargeted(es, ix)
    ensures (forall key :: RightOrError(es, ix, disk, key)) <==> (forall i :: 0 <= i < |ix| ==> Stands(es, ix, disk, i))
  {
    hide Storable, Retargeted, RightOrError, InSlot, ReadBlock, FindFrom, BlockBytes, Blocks;
    RetargetedFacts(es, ix);
    forall key ensures Slot(ix, key) > 0 ==> 4 <= ix[Slot(ix, key) - 1].len { RightOrErrorIs(es, ix, disk, key); }
    if forall key :: RightOrError(es, ix, disk, key) {
      forall i | 0 <= i < |ix| ensures Stands(es, ix, disk, i) {
        if ReadBlock(disk, ix[i]).Ok? {
          forall key | InSlot(es, ix, i, key) ensures
            var b := ReadBlock(disk, ix[i]);
            FindFrom(b.value, 0, key).Err? || FindFrom(b.value, 0, key) == FindFrom(BlockBytes(Blocks(es)[i]), 0, key)
          {
            SlotOf(es, ix, i, key);
            RightOrErrorIs(es, ix, disk, key);
          }
        }
      }
    }
    if forall i :: 0 <= i < |ix| ==> Stands(es, ix, disk, i) {
      forall key ensures RightOrError(es, ix, disk, key) {
        RightOrErrorIs(es, ix, disk, key);
        if Slot(ix, key) > 0 { assert Stands(es, ix, disk, Slot(ix, key) - 1); }
      }
    }
  }

  lemma SlotOf(es: seq<Record>, ix: seq<IndexEntry>, i: nat, key: bytes)
    requires InSlot(es, ix, i, key)
    ensures Slot(ix, key) == i + 1
  {
    hide Slot, Skips, TableOf;
  }

  lemma RetargetedFacts(es: seq<Record>, ix: seq<IndexEntry>)
    requires Retargeted(es, ix)
    ensures |ix| == |Blocks(es)| && forall i :: 0 <= i < |ix| ==> 4 <= ix[i].len
  {
    hide Blocks;
  }

  // ----- entries that point to other blocks of the table -----

  /** Entry `i` points to the written block `p[i]`. */
  function Redirected(es: seq<Record>, p: seq<nat>): (ix: seq<IndexEntry>)
    requires |p| == |Blocks(es)| && forall i :: 0 <= i < |p| ==> p[i] < |Blocks(es)|
    ensures |ix| == |p|
    ensures forall i :: 0 <= i < |p| ==>
      ix[i] == IndexEntry(FirstKey(Blocks(es)[i]), Index(Blocks(es))[p[i]].offset, Index(Blocks(es))[p[i]].len)
  {
    seq(|p|, i requires 0 <= i < |p| =>
      IndexEntry(FirstKey(Blocks(es)[i]), Index(Blocks(es))[p[i]].offset, Index(Blocks(es))[p[i]].len))
  }

  lemma RedirectedIsRetargeted(es: seq<Record>, p: seq<nat>)
    requires |p| == |Blocks(es)| && forall i :: 0 <= i < |p| ==> p[i] < |Blocks(es)|
    ensures Retargeted(es, Redirected(es, p)) && LengthsAgree(Redirected(es, p))
  {
    IndexOfRun(es);
    hide Blocks, Index, TableOf, Flatten, FirstKey;
    var ix := Redirected(es, p);
    RedirectedAgrees(es, p);
  }

  lemma RedirectedAgrees(es: seq<Record>, p: seq<nat>)
    requires |p| == |Blocks(es)| && forall i :: 0 <= i < |p| ==> p[i] < |Blocks(es)|
    ensures LengthsAgree(Redirected(es, p))
  {
    hide *;
    var ix := Redirected(es, p);
    forall i, j | 0 <= i < j < |ix| ensures ix[i].offset == ix[j].offset ==> ix[i].len == ix[j].len { AgreeAt(es, p, i, j); }
    LengthsAgreeWhen(ix);
  }

  lemma LengthsAgreeWhen(ix: seq<IndexEntry>)
    requires forall i, j :: 0 <= i < j < |ix| ==> ix[i].offset == ix[j].offset ==> ix[i].len == ix[j].len
    ensures LengthsAgree(ix)
  {
  }

  lemma AgreeAt(es: seq<Record>, p: seq<nat>, i: nat, j: nat)
    requires |p| == |Blocks(es)| && forall i :: 0 <= i < |p| ==> p[i] < |Blocks(es)|
    requires i < |p| && j < |p|
    ensures var ix := Redirected(es, p); ix[i].offset == ix[j].offset ==> ix[i].len == ix[j].len
  {
    IndexOfRun(es);
    hide Blocks, Index, TableOf, Flatten, FirstKey, Redirected;
    SameOffsets(Index(Blocks(es)), p[i], p[j]);
  }

  lemma SameOffsets(ix: seq<IndexEntry>, i: nat, j: nat)
    requires i < |ix| && j < |ix| && forall a, b :: 0 <= a < b < |ix| ==> ix[a].offset < ix[b].offset
    ensures ix[i].offset == ix[j].offset ==> i == j
  {
  }

  /** No other block mentions a block's first key. */
  lemma FirstKeyElsewhere(es: seq<Record>, i: nat, q: nat)
    requires Storable(es) && i < |Blocks(es)| && q < |Blocks(es)| && q != i
    ensures Blocks(es)[i] != [] && FindFrom(BlockBytes(Blocks(es)[q]), 0, FirstKey(Blocks(es)[i])) == Ok(None)
    ensures FirstKey(Blocks(es)[i]) in MapOf(es)
  {
    IndexOfRun(es);
    StorableAscends(es);
    var cs := Blocks(es);
    hide Blocks, Flatten, FindFrom, MapOf, BlockBytes, Less, Index, TableOf;
    FlattenMentions(cs, i);
    var key := FirstKey(cs[i]);
    BlockLacks(cs, i, q);
    WholeAt(BlockBytes(cs[q]));
    BlockBytesFit(es, q);
    FindInSortedBlock(BlockBytes(cs[q]), 0, cs[q], key);
  }

  lemma BlockBytesFit(es: seq<Record>, q: nat)
    requires Storable(es) && q < |Blocks(es)|
    ensures |BlockBytes(Blocks(es)[q])| < U32
  {
    SealedLength(Blocks(es)[q]);
    hide Blocks, BlockBytes, Sealed, Data, IndexRegion;
  }

  lemma FlattenMentions(cs: seq<seq<Record>>, i: nat)
    requires i < |cs| && cs[i] != []
    ensures FirstKey(cs[i]) in MapOf(Flatten(cs))
  {
    hide Flatten, MapOf;
    FlattenAround(cs, i);
    var es, n := Flatten(cs), |Flatten(cs[..i])|;
    assert es[n] == cs[i][0];
    MapOfKeys(es, FirstKey(cs[i]));
  }

  /** Where a block's records stand in the run. */
  lemma RecordPlace(cs: seq<seq<Record>>, q: nat, k: nat)
    requires q < |cs| && k < |cs[q]|
    ensures |Flatten(cs[..q])| + k < |Flatten(cs[..q + 1])| <= |Flatten(cs)|
    ensures Flatten(cs)[|Flatten(cs[..q])| + k] == cs[q][k]
  {
    hide Flatten;
    FlattenAround(cs, q);
  }

  /** Records of different blocks stand at different places. */
  lemma PlacesApart(cs: seq<seq<Record>>, i: nat, a: nat, q: nat, b: nat)
    requires i < |cs| && q < |cs| && i != q && a < |cs[i]| && b < |cs[q]|
    ensures |Flatten(cs[..i])| + a != |Flatten(cs[..q])| + b
  {
    hide *;
    RecordPlace(cs, i, a);
    RecordPlace(cs, q, b);
    if i < q { FlattenGrows(cs, i + 1, q); } else { FlattenGrows(cs, q + 1, i); }
  }

  lemma KeysApart(cs: seq<seq<Record>>, i: nat, q: nat, k: nat)
    requires Ascending(Flatten(cs)) && i < |cs| && q < |cs| && i != q && cs[i] != [] && k < |cs[q]|
    ensures cs[q][k].key != FirstKey(cs[i])
  {
    hide Flatten, Less;
    RecordPlace(cs, i, 0);
    RecordPlace(cs, q, k);
    PlacesApart(cs, i, 0, q, k);
    LessTotal(cs[q][k].key, FirstKey(cs[i]));
  }

  lemma BlockAscends(cs: seq<seq<Record>>, q: nat)
    requires Ascending(Flatten(cs)) && q < |cs|
    ensures Ascending(cs[q])
  {
    hide Flatten, Less;
    forall a, b | 0 <= a < b < |cs[q]| ensures Less(cs[q][a].key, cs[q][b].key) {
      RecordPlace(cs, q, a);
      RecordPlace(cs, q, b);
    }
  }

  lemma BlockLacks(cs: seq<seq<Record>>, i: nat, q: nat)
    requires Ascending(Flatten(cs)) && (forall k :: 0 <= k < |cs| ==> cs[k] != []) && i < |cs| && q < |cs| && i != q
    ensures Get(MapOf(cs[q]), FirstKey(cs[i])) == None && Ascending(cs[q])
  {
    BlockAscends(cs, q);
    hide Flatten, MapOf, Less, FirstKey, Ascending;
    forall k | 0 <= k < |cs[q]| ensures cs[q][k].key != FirstKey(cs[i]) { KeysApart(cs, i, q, k); }
    MapOfKeys(cs[q], FirstKey(cs[i]));
  }

  /** If every entry points to some written block of an intact file, every lookup is right if and only if each points to
      its own. */
  lemma RedirectedExact(es: seq<Record>, p: seq<nat>, disk: bytes)
    requires Storable(es) && es != [] && Intact(disk, Blocks(es))
    requires |p| == |Blocks(es)| && forall i :: 0 <= i < |p| ==> p[i] < |Blocks(es)|
    ensures Retargeted(es, Redirected(es, p))
    ensures (forall key :: RightOrError(es, Redirected(es, p), disk, key)) <==> (forall i :: 0 <= i < |p| ==> p[i] == i)
  {
    var ix := Redirected(es, p);
    RedirectedIsRetargeted(es, p);
    hide Storable, Retargeted, RightOrError, Intact, Blocks, Stands;
    IndexDamageExact(es, ix, disk);
    RetargetedFacts(es, ix);
    forall i | 0 <= i < |p| ensures Stands(es, ix, disk, i) <==> p[i] == i { RedirectedStands(es, p, disk, i); }
  }

  lemma RedirectedReads(es: seq<Record>, p: seq<nat>, disk: bytes, i: nat)
    requires Intact(disk, Blocks(es)) && i < |p|
    requires |p| == |Blocks(es)| && forall i :: 0 <= i < |p| ==> p[i] < |Blocks(es)|
    ensures Redirected(es, p)[i].len >= 4
    ensures ReadBlock(disk, Redirected(es, p)[i]) == Ok(BlockBytes(Blocks(es)[p[i]]))
  {
    IndexOfRun(es);
    hide Blocks, BlockBytes, ReadBlock, Index, TableOf, Flatten;
    SameRead(disk, Redirected(es, p)[i], Index(Blocks(es))[p[i]]);
  }

  lemma StandsItself(es: seq<Record>, ix: seq<IndexEntry>, disk: bytes, i: nat)
    requires Retargeted(es, ix) && i < |ix| && 4 <= ix[i].len && i < |Blocks(es)|
    requires ReadBlock(disk, ix[i]) == Ok(BlockBytes(Blocks(es)[i]))
    ensures Stands(es, ix, disk, i)
  {
    hide ReadBlock, BlockBytes, Blocks, FindFrom, InSlot, Retargeted;
  }

  lemma FallsFor(es: seq<Record>, ix: seq<IndexEntry>, disk: bytes, i: nat, key: bytes, b: bytes)
    requires Retargeted(es, ix) && i < |ix| && 4 <= ix[i].len && i < |Blocks(es)|
    requires InSlot(es, ix, i, key) && ReadBlock(disk, ix[i]) == Ok(b) && FindFrom(b, 0, key) == Ok(None)
    requires FindFrom(BlockBytes(Blocks(es)[i]), 0, key) != Ok(None)
    ensures !Stands(es, ix, disk, i)
  {
    hide ReadBlock, BlockBytes, Blocks, FindFrom, InSlot, Retargeted;
  }

  lemma RedirectedStands(es: seq<Record>, p: seq<nat>, disk: bytes, i: nat)
    requires Storable(es) && es != [] && Intact(disk, Blocks(es)) && i < |p|
    requires |p| == |Blocks(es)| && forall i :: 0 <= i < |p| ==> p[i] < |Blocks(es)|
    requires Retargeted(es, Redirected(es, p))
    ensures Stands(es, Redirected(es, p), disk, i) <==> p[i] == i
  {
    hide *;
    var ix := Redirected(es, p);
    RedirectedReads(es, p, disk, i);
    if p[i] == i {
      StandsItself(es, ix, disk, i);
    } else {
      var key := FirstKey(Blocks(es)[i]);
      FirstKeyElsewhere(es, i, p[i]);
      FirstKeyInSlot(es, ix, i);
      WrittenAnswer(es, ix, key);
      MentionedIs(MapOf(es), key);
      FallsFor(es, ix, disk, i, key, BlockBytes(Blocks(es)[p[i]]));
    }
  }

  lemma MentionedIs(m: map<bytes, Entry>, key: bytes)
    ensures key in m ==> Get(m, key) != None
  {
  }

  lemma FirstKeySlot(es: seq<Record>, i: nat)
    requires Ascending(es) && i < |Blocks(es)|
    ensures Slot(TableOf(es).index, FirstKey(Blocks(es)[i])) == i + 1
  {
    IndexSorted(es);
    hide Blocks, TableOf, Less, Slot, FirstKey;
    OwnSlot(TableOf(es).index, i);
  }

  lemma OwnSlot(ix: seq<IndexEntry>, i: nat)
    requires (forall j, k :: 0 <= j < k < |ix| ==> Less(ix[j].firstKey, ix[k].firstKey)) && i < |ix|
    ensures Slot(ix, ix[i].firstKey) == i + 1
  {
    hide Less, Slot;
    forall j | 0 <= j < i + 1 ensures Leq(ix[j].firstKey, ix[i].firstKey) { LessTotal(ix[j].firstKey, ix[i].firstKey); }
    SlotIs(ix, ix[i].firstKey, i + 1);
  }

  lemma InSlotIs(es: seq<Record>, ix: seq<IndexEntry>, i: nat, key: bytes)
    requires Slot(ix, key) == i + 1 && (TableOf(es).bloom.Some? ==> TableOf(es).bloom.value.field != [])
    requires !Skips(TableOf(es), key)
    ensures InSlot(es, ix, i, key)
  {
    hide Slot, TableOf, Skips;
  }

  lemma FirstKeyInSlot(es: seq<Record>, ix: seq<IndexEntry>, i: nat)
    requires Storable(es) && es != [] && Retargeted(es, ix) && i < |Blocks(es)| && FirstKey(Blocks(es)[i]) in MapOf(es)
    ensures Slot(ix, FirstKey(Blocks(es)[i])) == i + 1
    ensures InSlot(es, ix, i, FirstKey(Blocks(es)[i]))
  {
    hide *;
    var key := FirstKey(Blocks(es)[i]);
    StorableAscends(es);
    FiltersSound(es, key);
    MentionedIs(MapOf(es), key);
    FirstKeySlot(es, i);
    RetargetedSlots(es, ix, key);
    InSlotIs(es, ix, i, key);
  }

  /** The first entry pointing to any other block goes unnoticed: the file opens, its blocks are intact, and yet the
      first key of the table is not found. */
  lemma MisdirectedHides(es: seq<Record>, p: seq<nat>)
    requires Storable(es) && es != [] && |p| == |Blocks(es)| && forall i :: 0 <= i < |p| ==> p[i] < |Blocks(es)|
    requires |p| > 0 && p[0] != 0
    ensures var ix := Redirected(es, p);
      var bad, t := FileWithIndex(es, ix), With(es, ix);
      && |bad| == |FileOf(es)| && Intact(bad, Blocks(es)) && ParseTable(bad) == Ok(t)
      && Usable(t) && LengthsAgree(t.index)
      && es[0].key in MapOf(es) && Lookup(t, bad, es[0].key) == Ok(None)
  {
    hide *;
    var ix := Redirected(es, p);
    MisdirectedOpens(es, p);
    StorableAscends(es);
    RetargetedUsable(es, ix);
    RedirectedReads(es, p, FileWithIndex(es, ix), 0);
    FirstKeyElsewhere(es, 0, p[0]);
    FirstKeyInSlot(es, ix, 0);
    FirstOfTable(es);
    SlotLookup(es, ix, FileWithIndex(es, ix), 0, FirstKey(Blocks(es)[0]));
  }

  lemma MisdirectedOpens(es: seq<Record>, p: seq<nat>)
    requires Storable(es) && es != [] && |p| == |Blocks(es)| && forall i :: 0 <= i < |p| ==> p[i] < |Blocks(es)|
    ensures var ix := Redirected(es, p);
      && Retargeted(es, ix) && LengthsAgree(ix)
      && |FileWithIndex(es, ix)| == |FileOf(es)| && Intact(FileWithIndex(es, ix), Blocks(es))
      && ParseTable(FileWithIndex(es, ix)) == Ok(With(es, ix))
  {
    hide *;
    var ix := Redirected(es, p);
    StorableAscends(es);
    RedirectedIsRetargeted(es, p);
    RedirectedFits(es, p);
    IndexUnchecked(es, ix);
    BlocksReadBack(es, AfterData(es, ix));
  }

  lemma SlotLookup(es: seq<Record>, ix: seq<IndexEntry>, disk: bytes, i: nat, key: bytes)
    requires es != [] && Retargeted(es, ix) && Usable(With(es, ix)) && i < |ix| && InSlot(es, ix, i, key)
    ensures 4 <= ix[i].len
    ensures ReadBlock(disk, ix[i]).Ok? ==> Lookup(With(es, ix), disk, key) == FindFrom(ReadBlock(disk, ix[i]).value, 0, key)
  {
    WithSkips(es, ix, key);
    UsableWide(With(es, ix));
    UsableFacts(With(es, ix));
    SearchIs(ix, disk, key);
    LookupIs(With(es, ix), disk, key);
    hide TableOf, Slot, Skips, Search, Lookup, ReadBlock, FindFrom, Blocks, With;
  }

  lemma FirstOfTable(es: seq<Record>)
    requires es != []
    ensures Blocks(es) != [] && FirstKey(Blocks(es)[0]) == es[0].key
  {
    IndexOfRun(es);
  }

  lemma RetargetedUsable(es: seq<Record>, ix: seq<IndexEntry>)
    requires Ascending(es) && es != [] && Retargeted(es, ix)
    ensures Usable(With(es, ix)) && With(es, ix).index == ix
  {
    IndexSorted(es);
    FiltersSound(es, []);
    hide TableOf, Blocks, Less, Wide, Skips, MapOf;
  }

  function AfterData(es: seq<Record>, ix: seq<IndexEntry>): (rest: bytes)
    ensures FileWithIndex(es, ix) == Data(Blocks(es)) + rest
  {
    var region := IndexBytes(ix) + Summary(es);
    region + Footer(|Data(Blocks(es))|, |region|, |ix|)
  }

  lemma RedirectedFits(es: seq<Record>, p: seq<nat>)
    requires Fits(es) && |p| == |Blocks(es)| && forall i :: 0 <= i < |p| ==> p[i] < |Blocks(es)|
    ensures forall i :: 0 <= i < |p| ==> EntryFits(Redirected(es, p)[i])
  {
    IndexFits(es);
    hide Blocks, Fits, Index, EntryFits, Redirected;
    var ix := Index(Blocks(es));
    forall i | 0 <= i < |p| ensures EntryFits(Redirected(es, p)[i]) { MixFits(ix[i], ix[p[i]]); }
  }

  lemma MixFits(a: IndexEntry, b: IndexEntry)
    requires EntryFits(a) && EntryFits(b)
    ensures EntryFits(IndexEntry(a.firstKey, b.offset, b.len))
  {
  }
}
