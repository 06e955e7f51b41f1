/** Point lookups and full scans of an open SSTable, through every filter and the block cache. */
module SsTable {
  import opened Bytes
  import opened Codec
  import opened Records
  import opened Bloom
  import opened Crc
  import opened TableFormat
  import opened TableReader
  import opened Cache

  const BLOCK_CACHE_CAP: nat := 32

  // ----- reading one block -----

  /** The record bytes of a block, or an error when it is cut off or fails its checksum. */
  function ReadBlock(disk: bytes, e: IndexEntry): Result<bytes>
    requires 4 <= e.len
  {
    if e.offset + e.len > |disk| then Err(IoError)
    else Unseal(disk[e.offset..e.offset + e.len])
  }

  function Unseal(block: bytes): Result<bytes>
    requires 4 <= |block|
  {
    var split := |block| - 4;
    if Checksum(block[..split]) != FromBE(block[split..]) then Err(DecodeError) else Ok(block[..split])
  }

  method ReadBlockFromDisk(disk: bytes, e: IndexEntry) returns (r: Result<bytes>)
    requires 4 <= e.len
    ensures r == ReadBlock(disk, e)
  {
    hide Checksum, FromBE;
    if e.offset + e.len > |disk| { return Err(IoError); }
    var block := disk[e.offset..e.offset + e.len];
    var split := |block| - 4;
    var crc := Crc32(block[..split]);
    if crc != FromBE(block[split..]) { return Err(DecodeError); }
    r := Ok(block[..split]);
  }

  lemma UnsealSealed(c: seq<Record>)
    ensures Unseal(Sealed(c)) == Ok(BlockBytes(c))
  {
    var b := BlockBytes(c);
    U32RoundTrip(Checksum(b));
    hide BlockBytes, Checksum, BE, FromBE;
    assert Sealed(c)[..|b|] == b && Sealed(c)[|b|..] == BE(Checksum(b), 4);
  }

  // ----- damage -----

  /** `b` is `a` with one run of up to four record bytes changed, or with only the stored checksum changed. */
  ghost predicate Burst(a: bytes, b: bytes, start: nat)
    requires 4 <= |a|
  {
    var n := |a| - 4;
    && |b| == |a|
    && ((a[n..] == b[n..] && start <= n && forall i :: 0 <= i < n && !(start <= i < start + 4) ==> a[i] == b[i])
        || a[..n] == b[..n])
  }

  /** Any such change to a stored block is rejected. */
  lemma BurstRejected(c: seq<Record>, damaged: bytes, start: nat)
    requires Burst(Sealed(c), damaged, start) && damaged != Sealed(c)
    ensures Unseal(damaged) == Err(DecodeError)
  {
    hide BlockBytes, Checksum, BE, FromBE;
    var rec := BlockBytes(c);
    var n := |rec|;
    var rec', crc' := damaged[..n], damaged[n..];
    assert Sealed(c)[..n] == rec && Sealed(c)[n..] == BE(Checksum(rec), 4);
    assert damaged == rec' + crc';
    U32RoundTrip(Checksum(rec));
    if crc' == BE(Checksum(rec), 4) {
      assert rec' != rec;
      ChangedRecords(rec, rec', start, Sealed(c), damaged);
    } else {
      assert rec == rec';
      BEUnique(crc');
    }
  }

  lemma ChangedRecords(rec: bytes, rec': bytes, start: nat, a: bytes, b: bytes)
    requires |rec| == |rec'| && rec != rec' && 4 <= |a| && |a| == |rec| + 4 && Burst(a, b, start)
    requires a[..|rec|] == rec && b[..|rec|] == rec'
    ensures Checksum(rec) != Checksum(rec')
  {
    hide Checksum;
    forall i | 0 <= i < |rec| && !(start <= i < start + 4) ensures rec[i] == rec'[i] {
      assert a[i] == b[i];
    }
    BurstDetected(rec, rec', start);
  }

  /** Every block of `disk` reads as written. */
  ghost predicate Intact(disk: bytes, cs: seq<seq<Record>>) {
    forall i :: 0 <= i < |cs| ==> ReadBlock(disk, Index(cs)[i]) == Ok(BlockBytes(cs[i]))
  }

  /** Every block of `disk` reads as written or is rejected. */
  ghost predicate Detected(disk: bytes, cs: seq<seq<Record>>) {
    forall i :: 0 <= i < |cs| ==>
      ReadBlock(disk, Index(cs)[i]).Err? || ReadBlock(disk, Index(cs)[i]) == Ok(BlockBytes(cs[i]))
  }

  lemma WrittenIsIntact(es: seq<Record>)
    ensures Intact(FileOf(es), Blocks(es))
  {
    var cs := Blocks(es);
    BlocksReadBack(es, IndexRegion(es) + Footer(|Data(cs)|, |IndexRegion(es)|, |cs|));
  }

  /** The data region reads back whatever follows it. */
  lemma BlocksReadBack(es: seq<Record>, rest: bytes)
    ensures Intact(Data(Blocks(es)) + rest, Blocks(es))
  {
    var cs, file := Blocks(es), Data(Blocks(es)) + rest;
    hide Blocks, Data, BlockBytes, Sealed, Unseal;
    forall i | 0 <= i < |cs| ensures ReadBlock(file, Index(cs)[i]) == Ok(BlockBytes(cs[i])) {
      DataSlice(cs, i);
      AtPrefix(Data(cs), rest, |Data(cs[..i])|, Sealed(cs[i]));
      UnsealSealed(cs[i]);
    }
  }

  /** Each block on disk is as written or damaged by one burst. */
  ghost predicate BlockBursts(cs: seq<seq<Record>>, disk: bytes, starts: seq<nat>) {
    && |starts| == |cs|
    && forall i :: 0 <= i < |cs| ==>
      var e := Index(cs)[i]; e.offset + e.len <= |disk| && Burst(Sealed(cs[i]), disk[e.offset..e.offset + e.len], starts[i])
  }

  /** No read of such a disk returns wrong bytes. */
  lemma BurstsAreDetected(cs: seq<seq<Record>>, disk: bytes, starts: seq<nat>)
    requires BlockBursts(cs, disk, starts)
    ensures Detected(disk, cs)
  {
    hide Data, BlockBytes, Sealed, Unseal, Burst;
    forall i | 0 <= i < |cs|
      ensures ReadBlock(disk, Index(cs)[i]).Err? || ReadBlock(disk, Index(cs)[i]) == Ok(BlockBytes(cs[i]))
    {
      var e := Index(cs)[i];
      var block := disk[e.offset..e.offset + e.len];
      UnsealSealed(cs[i]);
      if block != Sealed(cs[i]) { BurstRejected(cs[i], block, starts[i]); }
    }
  }

  /** Index region and footer as written, and each block as written or damaged by one burst. */
  ghost predicate BurstsOnly(es: seq<Record>, disk: bytes, starts: seq<nat>) {
    var cs := Blocks(es);
    && |Data(cs)| <= |disk|
    && disk[|Data(cs)|..] == IndexRegion(es) + Footer(|Data(cs)|, |IndexRegion(es)|, |cs|)
    && BlockBursts(cs, disk, starts)
  }

  ghost predicate DataDamaged(es: seq<Record>, disk: bytes) {
    exists starts :: BurstsOnly(es, disk, starts)
  }

  /** A file damaged so opens to the table as written, and no block of it reads wrong bytes. */
  lemma DataDamageOpens(es: seq<Record>, disk: bytes)
    requires Fits(es) && DataDamaged(es, disk)
    ensures ParseTable(disk) == Ok(TableOf(es)) && Detected(disk, Blocks(es))
  {
    hide BlockBursts, Blocks, Fits, ParseTable, TableOf, Data, IndexRegion, Footer, Detected;
    var starts :| BurstsOnly(es, disk, starts);
    BurstsAreDetected(Blocks(es), disk, starts);
    var n := |Data(Blocks(es))|;
    OpenIgnoresData(es, disk[..n]);
    SplitBytes(disk, n);
  }

  lemma SplitBytes(b: bytes, n: nat)
    requires n <= |b|
    ensures b == b[..n] + b[n..] && |b[..n]| == n
  {
  }

  // ----- files that are cut short or gone -----

  /** A block of a shortened file reads as in the whole file, or fails. */
  lemma ReadFromCut(disk: bytes, n: nat, e: IndexEntry)
    requires n <= |disk| && 4 <= e.len
    ensures ReadBlock(disk[..n], e) == ReadBlock(disk, e) || ReadBlock(disk[..n], e) == Err(IoError)
  {
    hide Unseal;
    if e.offset + e.len <= n { assert disk[..n][e.offset..e.offset + e.len] == disk[e.offset..e.offset + e.len]; }
  }

  /** Shortening a file, down to nothing, never makes a block read wrong bytes. */
  lemma CutDetected(disk: bytes, n: nat, cs: seq<seq<Record>>)
    requires Detected(disk, cs) && n <= |disk|
    ensures Detected(disk[..n], cs)
  {
    hide ReadBlock, BlockBytes, Index;
    forall i | 0 <= i < |cs|
      ensures 4 <= Index(cs)[i].len
      ensures ReadBlock(disk[..n], Index(cs)[i]).Err? || ReadBlock(disk[..n], Index(cs)[i]) == Ok(BlockBytes(cs[i]))
    {
      IntactBlock(disk, cs, i);
      ReadFromCut(disk, n, Index(cs)[i]);
    }
  }

  /** A missing file and every shortened one: each block of the table is right or an error. */
  lemma ShortFilesDetected(es: seq<Record>, n: nat)
    requires n <= |FileOf(es)|
    ensures Detected(FileOf(es)[..n], Blocks(es)) && Detected([], Blocks(es))
  {
    hide Blocks, FileOf, Detected, Intact;
    WrittenIsIntact(es);
    IntactIsDetected(FileOf(es), Blocks(es));
    CutDetected(FileOf(es), n, Blocks(es));
    CutDetected(FileOf(es), 0, Blocks(es));
    assert FileOf(es)[..0] == [];
  }

  /** No block can be read where there is no file. */
  lemma NothingToRead(cs: seq<seq<Record>>, i: nat)
    requires i < |cs|
    ensures 4 <= Index(cs)[i].len && ReadBlock([], Index(cs)[i]) == Err(IoError)
  {
    SealedLength(cs[i]);
    hide Data, Sealed, BlockBytes, Unseal;
  }

  // ----- where a key lives -----

  lemma FlattenAround(cs: seq<seq<Record>>, i: nat)
    requires i < |cs|
    ensures Flatten(cs) == Flatten(cs[..i]) + cs[i] + Flatten(cs[i + 1..])
    ensures Flatten(cs[..i + 1]) == Flatten(cs[..i]) + cs[i]
  {
    hide Flatten;
    assert cs == cs[..i] + ([cs[i]] + cs[i + 1..]);
    FlattenConcat(cs[..i], [cs[i]] + cs[i + 1..]);
    FlattenConcat([cs[i]], cs[i + 1..]);
    FlattenOne(cs[i]);
    assert cs[..i + 1] == cs[..i] + [cs[i]];
    FlattenConcat(cs[..i], [cs[i]]);
    Assoc(Flatten(cs[..i]), cs[i], Flatten(cs[i + 1..]));
  }

  lemma FlattenOne(c: seq<Record>)
    ensures Flatten([c]) == c
  {
    assert c + [] == c;
  }

  /** First keys of the blocks strictly ascend. */
  lemma {:induction false} FirstKeysAscend(cs: seq<seq<Record>>, i: nat, j: nat)
    requires Ascending(Flatten(cs)) && (forall k :: 0 <= k < |cs| ==> cs[k] != []) && i < j < |cs|
    ensures Less(FirstKey(cs[i]), FirstKey(cs[j]))
    decreases j
  {
    hide Flatten;
    var es := Flatten(cs);
    FlattenAround(cs, i);
    FlattenAround(cs, j);
    FlattenGrows(cs, i + 1, j);
    FlattenAround(cs, i);
    var si, sj := |Flatten(cs[..i])|, |Flatten(cs[..j])|;
    assert es[si] == cs[i][0] && es[sj] == cs[j][0];
  }

  lemma {:induction false} FlattenGrows(cs: seq<seq<Record>>, i: nat, j: nat)
    requires i <= j <= |cs|
    ensures |Flatten(cs[..i])| <= |Flatten(cs[..j])|
  {
    hide Flatten;
    if i < j {
      FlattenGrows(cs, i, j - 1);
      FlattenAround(cs, j - 1);
    }
  }

  /** The one block whose first key is the greatest not above `key` decides the lookup. */
  lemma BlockDecides(cs: seq<seq<Record>>, pos: nat, key: bytes)
    requires Ascending(Flatten(cs)) && (forall k :: 0 <= k < |cs| ==> cs[k] != []) && pos < |cs|
    requires Leq(FirstKey(cs[pos]), key)
    requires pos + 1 < |cs| ==> Less(key, FirstKey(cs[pos + 1]))
    ensures Get(MapOf(Flatten(cs)), key) == Get(MapOf(cs[pos]), key)
    ensures Ascending(cs[pos])
  {
    hide Flatten, MapOf, Less;
    var a, m, b := Flatten(cs[..pos]), cs[pos], Flatten(cs[pos + 1..]);
    FlattenAround(cs, pos);
    var es := Flatten(cs);
    assert es == a + m + b;
    forall i | 0 <= i < |a| ensures Less(a[i].key, key) {
      assert es[i] == a[i] && es[|a|] == m[0];
      LeqLessTransitive(a[i].key, m[0].key, key);
    }
    if pos + 1 < |cs| {
      NextBlockFirst(cs, pos + 1);
      forall i | 0 <= i < |b| ensures Less(key, b[i].key) {
        assert es[|a| + |m| + i] == b[i] && es[|a| + |m|] == b[0];
        LessTotal(b[0].key, b[i].key);
        LeqLessTransitive(key, b[0].key, b[i].key);
      }
    } else {
      EmptyFlatten(cs[pos + 1..]);
    }
    forall i, j | 0 <= i < j < |m| ensures Less(m[i].key, m[j].key) {
      assert es[|a| + i] == m[i] && es[|a| + j] == m[j];
    }
    GetMiddle(a, m, b, key);
  }

  lemma EmptyFlatten(cs: seq<seq<Record>>)
    ensures cs == [] ==> Flatten(cs) == []
  {
  }

  lemma NextBlockFirst(cs: seq<seq<Record>>, i: nat)
    requires i < |cs| && cs[i] != []
    ensures Flatten(cs[i..]) != [] && Flatten(cs[i..])[0] == cs[i][0]
  {
  }

  // ----- the table object -----

  /** The index of the exact match, or the place where the key would be inserted. */
  method BinarySearch(index: seq<IndexEntry>, key: bytes) returns (found: bool, i: nat)
    requires forall j, k :: 0 <= j < k < |index| ==> Less(index[j].firstKey, index[k].firstKey)
    ensures i <= |index| && (found ==> i < |index| && index[i].firstKey == key)
    ensures forall j :: 0 <= j < i ==> Less(index[j].firstKey, key)
    ensures !found ==> forall j :: i <= j < |index| ==> Less(key, index[j].firstKey)
  {
    var lo, hi := 0, |index|;
    while lo < hi
      invariant 0 <= lo <= hi <= |index|
      invariant forall j :: 0 <= j < lo ==> Less(index[j].firstKey, key)
      invariant forall j :: hi <= j < |index| ==> Less(key, index[j].firstKey)
    {
      var mid := (lo + hi) / 2;
      LessTotal(index[mid].firstKey, key);
      if index[mid].firstKey == key {
        return true, mid;
      } else if Less(index[mid].firstKey, key) {
        forall j | 0 <= j < mid ensures Less(index[j].firstKey, key) {
          LessTransitive(index[j].firstKey, index[mid].firstKey, key);
        }
        lo := mid + 1;
      } else {
        forall j | mid < j < |index| ensures Less(key, index[j].firstKey) {
          LessTransitive(key, index[mid].firstKey, index[j].firstKey);
        }
        hi := mid;
      }
    }
    return false, lo;
  }

  /** The search result names the block whose first key is the greatest not above `key`. */
  lemma SearchPoints(index: seq<IndexEntry>, key: bytes, found: bool, i: nat)
    requires forall j, k :: 0 <= j < k < |index| ==> Less(index[j].firstKey, index[k].firstKey)
    requires i <= |index| && (found ==> i < |index| && index[i].firstKey == key) && (found || i != 0)
    requires forall j :: 0 <= j < i ==> Less(index[j].firstKey, key)
    requires !found ==> forall j :: i <= j < |index| ==> Less(key, index[j].firstKey)
    ensures var pos := if found then i else i - 1;
      && Leq(index[pos].firstKey, key)
      && (pos + 1 < |index| ==> Less(key, index[pos + 1].firstKey))
  {
    var pos := if found then i else i - 1;
    LessTotal(index[pos].firstKey, key);
  }

  /** A run an SSTable can hold. */
  ghost predicate Storable(es: seq<Record>) {
    Ascending(es) && Fits(es)
  }

  lemma {:induction false} OffsetsAscend(cs: seq<seq<Record>>, i: nat, j: nat)
    requires i < j < |cs|
    ensures |Data(cs[..i])| < |Data(cs[..j])|
  {
    hide *;
    DataStep(cs, j - 1);
    if i < j - 1 { OffsetsAscend(cs, i, j - 1); }
  }

  lemma DataStep(cs: seq<seq<Record>>, i: nat)
    requires i < |cs|
    ensures |Data(cs[..i])| < |Data(cs[..i + 1])|
  {
    hide Data, Sealed, At;
    DataSlice(cs, i);
    SealedLength(cs[i]);
  }

  lemma SealedLength(c: seq<Record>)
    ensures |Sealed(c)| == |BlockBytes(c)| + 4
  {
  }

  /** The sparse index of a run: one entry a block, in offset order, and the blocks concatenate to the run. */
  lemma IndexOfRun(es: seq<Record>)
    ensures TableOf(es).index == Index(Blocks(es))
    ensures Flatten(Blocks(es)) == es && forall i :: 0 <= i < |Blocks(es)| ==> Blocks(es)[i] != []
    ensures es != [] ==> Blocks(es) != [] && FirstKey(Blocks(es)[0]) == es[0].key
    ensures forall i :: 0 <= i < |Blocks(es)| ==> 4 <= Index(Blocks(es))[i].len
    ensures forall i, j :: 0 <= i < j < |Blocks(es)| ==> Index(Blocks(es))[i].offset < Index(Blocks(es))[j].offset
  {
    NothingLeft([], [], []);
    NoBlocks();
    hide BlockBytes, Chunks, Data, Sealed, FilterOf, Index;
    BlockLayout([], es);
    assert [] + es == es;
    var cs := Blocks(es);
    if es != [] {
      if cs == [] { EmptyFlatten(cs); }
      NextBlockFirst(cs, 0);
      assert cs[0..] == cs;
    }
    forall i | 0 <= i < |cs| ensures 4 <= Index(cs)[i].len { SealedLength(cs[i]); }
    forall i, j | 0 <= i < j < |cs| ensures Index(cs)[i].offset < Index(cs)[j].offset { OffsetsAscend(cs, i, j); }
  }

  /** Whatever is cached at a block's offset is that block. */
  ghost predicate Sound(blocks: map<nat, bytes>, cs: seq<seq<Record>>) {
    forall i :: 0 <= i < |cs| && Index(cs)[i].offset in blocks ==> blocks[Index(cs)[i].offset] == BlockBytes(cs[i])
  }

  lemma SoundAfterPut(before: map<nat, bytes>, after: map<nat, bytes>, cs: seq<seq<Record>>, i: nat)
    requires Sound(before, cs) && i < |cs|
    requires forall i, j :: 0 <= i < j < |cs| ==> Index(cs)[i].offset < Index(cs)[j].offset
    requires var o := Index(cs)[i].offset;
      && (o in after ==> after[o] == BlockBytes(cs[i]))
      && forall p :: p in after && p != o ==> p in before && after[p] == before[p]
    ensures Sound(after, cs)
  {
    hide BlockBytes, Index;
  }

  lemma IndexSorted(es: seq<Record>)
    requires Ascending(es)
    ensures var ix := TableOf(es).index;
      && |ix| == |Blocks(es)|
      && (forall i :: 0 <= i < |ix| ==> ix[i].firstKey == FirstKey(Blocks(es)[i]))
      && forall j, k :: 0 <= j < k < |ix| ==> Less(ix[j].firstKey, ix[k].firstKey)
  {
    IndexOfRun(es);
    hide Blocks, Flatten, TableOf;
    var cs := Blocks(es);
    forall j, k | 0 <= j < k < |cs| ensures Less(FirstKey(cs[j]), FirstKey(cs[k])) { FirstKeysAscend(cs, j, k); }
  }

  // ----- what each filter may conclude -----

  lemma OutOfRange(es: seq<Record>, key: bytes)
    requires Ascending(es) && es != [] && (Less(key, es[0].key) || Less(es[|es| - 1].key, key))
    ensures key !in MapOf(es)
  {
    hide MapOf, Less;
    MapOfKeys(es, key);
    forall i | 0 <= i < |es| ensures es[i].key != key {
      LessTotal(es[0].key, es[i].key);
      LessTotal(es[i].key, es[|es| - 1].key);
      LessTotal(key, key);
      LeqLessTransitive(key, es[0].key, es[i].key);
      LeqLessTransitive(es[i].key, es[|es| - 1].key, key);
    }
  }

  lemma BloomMiss(es: seq<Record>, key: bytes)
    requires !MaybeContains(FilterOf(Keys(es)), key)
    ensures key !in MapOf(es)
  {
    hide MapOf, MaybeContains, AddKeys;
    MapOfKeys(es, key);
    if Mentions(es, key) {
      var i :| 0 <= i < |es| && es[i].key == key;
      assert Keys(es)[i] == key;
      NoFalseNegatives(Empty(|es|), PROBES, Keys(es), key);
    }
  }

  /** Every key the run mentions, a tombstone's too, tests positive in the filter re-read from its file. */
  lemma BloomHit(es: seq<Record>, key: bytes)
    requires Fits(es) && key in MapOf(es)
    ensures var t := ParseTable(FileOf(es));
      t.Ok? && t.value.bloom.Some? && t.value.bloom.value.field != [] && MaybeContains(t.value.bloom.value, key)
  {
    NothingLeft([], key, []);
    hide MaybeContains, MapOf, FilterOf, Fits, ParseTable, FileOf, Index, Blocks;
    OpenRoundTrip(es);
    if !MaybeContains(FilterOf(Keys(es)), key) { BloomMiss(es, key); }
  }

  lemma BeforeFirst(es: seq<Record>, key: bytes)
    requires Ascending(es) && TableOf(es).index != [] && Less(key, TableOf(es).index[0].firstKey)
    ensures Records.Get(MapOf(es), key) == None
  {
    IndexOfRun(es);
    IndexSorted(es);
    hide MapOf, Less, Blocks, Flatten;
    OutOfRange(es, key);
  }

  /** What scanning the block at `pos` answers, when `pos` is where the sparse index points for `key`. */
  lemma ScanDecides(es: seq<Record>, pos: nat, key: bytes)
    requires Storable(es) && pos < |Blocks(es)| && Leq(FirstKey(Blocks(es)[pos]), key)
    requires pos + 1 < |Blocks(es)| ==> Less(key, FirstKey(Blocks(es)[pos + 1]))
    ensures FindFrom(BlockBytes(Blocks(es)[pos]), 0, key) == Ok(Records.Get(MapOf(es), key))
  {
    IndexOfRun(es);
    hide Less, Blocks, Flatten, FindFrom, MapOf, At, BlockBytes;
    var cs := Blocks(es);
    BlockDecides(cs, pos, key);
    WholeAt(BlockBytes(cs[pos]));
    SealedLength(cs[pos]);
    FindInSortedBlock(BlockBytes(cs[pos]), 0, cs[pos], key);
  }

  /** A lookup ends without a disk read: no blocks, a key out of range, or a filter miss. */
  predicate Skips(t: TableInfo, key: bytes)
    requires t.bloom.Some? ==> t.bloom.value.field != []
  {
    || t.index == []
    || (t.minKey.Some? && t.maxKey.Some? && (Less(key, t.minKey.value) || Less(t.maxKey.value, key)))
    || (t.bloom.Some? && !MaybeContains(t.bloom.value, key))
  }

  /** The table as written for a run skips no key of the run. */
  lemma FiltersSound(es: seq<Record>, key: bytes)
    requires Ascending(es)
    ensures var t := TableOf(es);
      && (t.bloom.Some? ==> t.bloom.value.field != [])
      && (Skips(t, key) ==> Records.Get(MapOf(es), key) == None)
  {
    IndexOfRun(es);
    hide Blocks, Index, Less, MaybeContains, FilterOf, Flatten;
    if es == [] {
      NothingLeft([], key, []);
    } else {
      if Less(key, es[0].key) || Less(es[|es| - 1].key, key) { OutOfRange(es, key); }
      if !MaybeContains(FilterOf(Keys(es)), key) { BloomMiss(es, key); }
    }
  }

  /** Keys outside the range of the run are skipped, so that they cost no disk read. */
  lemma OutsideSkipped(es: seq<Record>, key: bytes)
    requires Ascending(es) && (es == [] || Less(key, es[0].key) || Less(es[|es| - 1].key, key))
    ensures TableOf(es).bloom.Some? ==> TableOf(es).bloom.value.field != []
    ensures Skips(TableOf(es), key)
  {
    hide Less, FilterOf, Index, Blocks, MaybeContains;
  }

  /** With another filter in place, no key of the run is skipped exactly if the filter admits each of them. */
  lemma FilterDamageExact(es: seq<Record>, f: Filter)
    requires Ascending(es) && es != [] && f.field != []
    ensures (forall key :: key in MapOf(es) ==> !Skips(TableOf(es).(bloom := Some(f)), key))
       <==> (forall key :: key in MapOf(es) ==> MaybeContains(f, key))
  {
    hide MaybeContains, MapOf, TableOf;
    forall key | key in MapOf(es) ensures Skips(TableOf(es).(bloom := Some(f)), key) <==> !MaybeContains(f, key) {
      FiltersSound(es, key);
      SwapFilter(TableOf(es), f, key);
    }
  }

  lemma SwapFilter(t: TableInfo, f: Filter, key: bytes)
    requires (t.bloom.Some? ==> t.bloom.value.field != []) && f.field != [] && !Skips(t, key)
    ensures Skips(t.(bloom := Some(f)), key) <==> !MaybeContains(f, key)
  {
    hide Less, MaybeContains;
  }

  /** Zeroed filter bytes go unnoticed: the file opens, its blocks are intact, and yet every key is skipped. */
  lemma ZeroedFilterHidesAll(es: seq<Record>)
    requires Fits(es) && es != []
    ensures var f := Filter(Empty(|es|), PROBES);
      var bad, t := FileWith(es, f), TableOf(es).(bloom := Some(f));
      && |bad| == |FileOf(es)| && Intact(bad, Blocks(es)) && ParseTable(bad) == Ok(t)
      && Indexed(t, es)
      && es[0].key in MapOf(es) && forall key :: Skips(t, key)
  {
    var f := Filter(Empty(|es|), PROBES);
    SizeFits(es);
    FilterUnchecked(es, f);
    BlocksReadBack(es, BehindData(es, f));
    IndexKept(es, f);
    hide *;
    FirstMentioned(es);
    forall key ensures Skips(TableOf(es).(bloom := Some(f)), key) {
      NothingAdmitted(|es|, key);
      MissSkips(TableOf(es), f, key);
    }
  }

  function BehindData(es: seq<Record>, f: Filter): (rest: bytes)
    requires es != []
    ensures FileWith(es, f) == Data(Blocks(es)) + rest
  {
    var cs := Blocks(es);
    var region := IndexBytes(Index(cs)) + (RangeBytes(es[0].key, es[|es| - 1].key) + BloomBytes(f));
    region + Footer(|Data(cs)|, |region|, |cs|)
  }

  lemma IndexKept(es: seq<Record>, f: Filter)
    requires f.field != []
    ensures Indexed(TableOf(es).(bloom := Some(f)), es)
  {
    hide TableOf;
  }

  lemma SizeFits(es: seq<Record>)
    requires Fits(es)
    ensures PROBES < U32 && |Empty(|es|)| == Size(|es|) && Empty(|es|) != []
  {
    hide Blocks, Data, Sealed, IndexRegion;
  }

  lemma FirstMentioned(es: seq<Record>)
    requires es != []
    ensures es[0].key in MapOf(es)
  {
    MapOfKeys(es, es[0].key);
  }

  lemma NothingAdmitted(n: nat, key: bytes)
    ensures !MaybeContains(Filter(Empty(n), PROBES), key)
  {
    var p := Positions(key, PROBES, 8 * |Empty(n)|)[0];
    ZeroBit(8, p % 8);
    assert !Has(Empty(n), p);
  }

  lemma MissSkips(t: TableInfo, f: Filter, key: bytes)
    requires f.field != [] && !MaybeContains(f, key)
    ensures Skips(t.(bloom := Some(f)), key)
  {
  }

  /** The sparse index is the one written for the run. */
  ghost predicate Indexed(t: TableInfo, es: seq<Record>) {
    t.index == TableOf(es).index && (t.bloom.Some? ==> t.bloom.value.field != [])
  }

  lemma TableOfIndexed(es: seq<Record>)
    requires Ascending(es)
    ensures Indexed(TableOf(es), es)
  {
    hide TableOf, Skips;
    FiltersSound(es, []);
  }

  /** The same from the index entries' side. */
  lemma IndexDecides(es: seq<Record>, pos: nat, key: bytes)
    requires Storable(es) && pos < |TableOf(es).index| && Leq(TableOf(es).index[pos].firstKey, key)
    requires pos + 1 < |TableOf(es).index| ==> Less(key, TableOf(es).index[pos + 1].firstKey)
    ensures pos < |Blocks(es)| && FindFrom(BlockBytes(Blocks(es)[pos]), 0, key) == Ok(Records.Get(MapOf(es), key))
  {
    StorableAscends(es);
    hide Less, Blocks, TableOf, BlockBytes, FindFrom, MapOf, Storable;
    IndexSorted(es);
    ScanDecides(es, pos, key);
  }

  // ----- lookups in any file -----

  /** Every block has room for its checksum. */
  ghost predicate Wide(ix: seq<IndexEntry>) {
    forall i :: 0 <= i < |ix| ==> 4 <= ix[i].len
  }

  lemma WideAt(ix: seq<IndexEntry>, i: nat)
    requires Wide(ix) && i < |ix|
    ensures 4 <= ix[i].len
  {
  }

  /** First keys strictly ascend, every block has room for its checksum, and the filter has bits. */
  ghost predicate Usable(t: TableInfo) {
    && (forall j, k :: 0 <= j < k < |t.index| ==> Less(t.index[j].firstKey, t.index[k].firstKey))
    && Wide(t.index)
    && (t.bloom.Some? ==> t.bloom.value.field != [])
  }

  lemma UsableFacts(t: TableInfo)
    requires Usable(t)
    ensures forall j, k :: 0 <= j < k < |t.index| ==> Less(t.index[j].firstKey, t.index[k].firstKey)
    ensures Wide(t.index)
    ensures t.bloom.Some? ==> t.bloom.value.field != []
  {
  }

  lemma UsableWide(t: TableInfo)
    requires Usable(t)
    ensures Wide(t.index)
  {
    hide Wide;
  }

  lemma IndexedUsable(t: TableInfo, es: seq<Record>)
    requires Ascending(es) && Indexed(t, es)
    ensures Usable(t)
  {
    hide TableOf, Less, Wide, Blocks;
    IndexWide(es);
    IndexSorted(es);
  }

  lemma IndexWide(es: seq<Record>)
    ensures Wide(TableOf(es).index)
  {
    IndexOfRun(es);
    hide TableOf, Index, Blocks;
  }

  lemma WideEach(ix: seq<IndexEntry>)
    requires Wide(ix)
    ensures forall i :: 0 <= i < |ix| ==> 4 <= ix[i].len
  {
  }

  /** How many leading entries have a first key not above `key`. */
  function Slot(ix: seq<IndexEntry>, key: bytes): (n: nat)
    ensures n <= |ix|
  {
    if ix == [] || Less(key, ix[0].firstKey) then 0 else 1 + Slot(ix[1..], key)
  }

  lemma {:induction false} SlotIs(ix: seq<IndexEntry>, key: bytes, n: nat)
    requires forall j, k :: 0 <= j < k < |ix| ==> Less(ix[j].firstKey, ix[k].firstKey)
    requires n <= |ix| && (forall j :: 0 <= j < n ==> Leq(ix[j].firstKey, key))
    requires n < |ix| ==> Less(key, ix[n].firstKey)
    ensures Slot(ix, key) == n
  {
    if n > 0 { SlotIs(ix[1..], key, n - 1); }
  }

  /** The answer of the block the sparse index points to. */
  function Search(ix: seq<IndexEntry>, disk: bytes, key: bytes): Result<Option<Entry>>
    requires Wide(ix)
  {
    var n := Slot(ix, key);
    if n == 0 then Ok(None)
    else
      var records :- ReadBlock(disk, ix[n - 1]);
      FindFrom(records, 0, key)
  }

  lemma SearchIs(ix: seq<IndexEntry>, disk: bytes, key: bytes)
    requires Wide(ix)
    ensures Slot(ix, key) > 0 ==> 4 <= ix[Slot(ix, key) - 1].len
    ensures var n := Slot(ix, key);
      && (n == 0 ==> Search(ix, disk, key) == Ok(None))
      && (n > 0 && ReadBlock(disk, ix[n - 1]).Err? ==> Search(ix, disk, key) == Err(ReadBlock(disk, ix[n - 1]).error))
      && (n > 0 && ReadBlock(disk, ix[n - 1]).Ok? ==> Search(ix, disk, key) == FindFrom(ReadBlock(disk, ix[n - 1]).value, 0, key))
  {
    hide ReadBlock, FindFrom, Slot;
  }

  /** A lookup in a file, as if nothing were cached. */
  function Lookup(t: TableInfo, disk: bytes, key: bytes): Result<Option<Entry>>
    requires t.bloom.Some? ==> t.bloom.value.field != []
    requires Wide(t.index)
  {
    if Skips(t, key) then Ok(None) else Search(t.index, disk, key)
  }

  lemma LookupIs(t: TableInfo, disk: bytes, key: bytes)
    requires t.bloom.Some? ==> t.bloom.value.field != []
    requires Wide(t.index)
    ensures Lookup(t, disk, key) == if Skips(t, key) then Ok(None) else Search(t.index, disk, key)
  {
    hide Skips, Search;
  }

  /** Whatever is cached is what the disk holds. */
  ghost predicate Coherent(blocks: map<nat, bytes>, disk: bytes, ix: seq<IndexEntry>) {
    forall i :: 0 <= i < |ix| && ix[i].offset in blocks && 4 <= ix[i].len ==>
      ReadBlock(disk, ix[i]) == Ok(blocks[ix[i].offset])
  }

  ghost predicate LengthsAgree(ix: seq<IndexEntry>) {
    forall i, j :: 0 <= i < j < |ix| && ix[i].offset == ix[j].offset ==> ix[i].len == ix[j].len
  }

  lemma CoherentAt(blocks: map<nat, bytes>, disk: bytes, ix: seq<IndexEntry>, i: nat)
    requires i < |ix| && 4 <= ix[i].len
    ensures Coherent(blocks, disk, ix) && ix[i].offset in blocks ==> ReadBlock(disk, ix[i]) == Ok(blocks[ix[i].offset])
  {
    hide ReadBlock;
  }

  lemma SameRead(disk: bytes, a: IndexEntry, b: IndexEntry)
    requires a.offset == b.offset && a.len == b.len && 4 <= a.len
    ensures ReadBlock(disk, a) == ReadBlock(disk, b)
  {
    hide Unseal;
  }

  lemma CoherentAfterPut(before: map<nat, bytes>, after: map<nat, bytes>, disk: bytes, ix: seq<IndexEntry>, i: nat)
    requires Coherent(before, disk, ix) && LengthsAgree(ix) && i < |ix| && 4 <= ix[i].len
    requires var o := ix[i].offset;
      && (o in after ==> ReadBlock(disk, ix[i]) == Ok(after[o]))
      && forall p :: p in after && p != o ==> p in before && after[p] == before[p]
    ensures Coherent(after, disk, ix)
  {
    hide ReadBlock;
    forall j | 0 <= j < |ix| && ix[j].offset in after && 4 <= ix[j].len
      ensures ReadBlock(disk, ix[j]) == Ok(after[ix[j].offset])
    {
      if ix[j].offset == ix[i].offset {
        assert ix[j].len == ix[i].len;
        SameRead(disk, ix[i], ix[j]);
      }
    }
  }

  class SsTable {
    const id: nat
    const table: TableInfo
    const cache: BlockCache
    ghost const entries: seq<Record>

    /** Wraps a table just written or just opened; `entries` is the run its file was written for. */
    constructor (id: nat, table: TableInfo, ghost entries: seq<Record>)
      ensures fresh(cache) && this.id == id && this.entries == entries && this.table == table
      ensures cache.cap == 32
      ensures Storable(entries) && Indexed(table, entries) ==> Valid()
      ensures Storable(entries) && table == TableOf(entries) ==> Valid()
    {
      this.id, this.table, this.entries := id, table, entries;
      var c := new BlockCache(BLOCK_CACHE_CAP);
      cache := c;
      new;
      hide Indexed, Storable, Fits, TableOf, Index, Blocks;
      if Ascending(entries) { TableOfIndexed(entries); }
      assert Storable(entries) ==> Ascending(entries) by { StorableAscends(entries); }
    }

    /** Opens a file. Damage to data blocks that the checksum rejects does not keep it from opening as written. */
    static method Open(id: nat, disk: bytes, ghost entries: seq<Record>) returns (r: Result<SsTable>)
      ensures var parsed := ParseTable(disk);
        && (parsed.Err? ==> r == Err(parsed.error))
        && (parsed.Ok? ==> r.Ok? && fresh(r.value) && fresh(r.value.cache) && r.value.id == id
                           && r.value.table == parsed.value && r.value.entries == entries)
      ensures r.Ok? ==> Marked(disk)
      ensures Storable(entries) && ParseTable(disk).Ok? && Indexed(ParseTable(disk).value, entries) ==> r.value.Valid()
      ensures Storable(entries) && ParseTable(disk) == Ok(TableOf(entries)) ==> r.Ok? && r.value.Valid()
      ensures Storable(entries) && DataDamaged(entries, disk) ==>
        r.Ok? && r.value.Valid() && r.value.table == TableOf(entries) && Detected(disk, Blocks(entries))
    {
      hide *;
      if Storable(entries) && DataDamaged(entries, disk) {
        StorableAscends(entries);
        DataDamageOpens(entries, disk);
      }
      var table := OpenTable(disk);
      if table.Err? { return Err(table.error); }
      var t := new SsTable(id, table.value, entries);
      r := Ok(t);
    }

    /** The sparse index is as written, and cached bytes are always those of the block written at that offset. */
    ghost predicate Valid()
      reads cache
    {
      && Storable(entries) && Indexed(table, entries)
      && cache.Valid()
      && Sound(cache.blocks, Blocks(entries))
    }

    lemma ValidFacts()
      requires Valid()
      ensures Storable(entries) && Ascending(entries) && table.index == TableOf(entries).index
      ensures table.bloom.Some? ==> table.bloom.value.field != []
    {
    }

    lemma ValidSound()
      requires Valid()
      ensures Sound(cache.blocks, Blocks(entries)) && Indexed(table, entries)
    {
      hide Storable, Indexed, Sound, Blocks;
    }

    lemma StillValid()
      requires Storable(entries) && Indexed(table, entries) && cache.Valid() && Sound(cache.blocks, Blocks(entries))
      ensures Valid()
    {
      hide Storable, Indexed, Sound, Blocks;
    }

    lemma ValidUsable()
      requires Valid()
      ensures cache.Valid() && Usable(table) && Wide(table.index)
    {
      ValidFacts();
      IndexedUsable(table, entries);
    }

    /** A table as written skips no key it mentions. */
    lemma NothingSkipped(key: bytes)
      requires Valid() && table == TableOf(entries)
      ensures Skips(table, key) ==> key !in MapOf(entries)
    {
      ValidFacts();
      FiltersSound(entries, key);
      AbsentIs(MapOf(entries), key);
    }

    /** The record bytes of a block. A miss reads and verifies them, and only then caches them. */
    method CachedBlock(disk: bytes, e: IndexEntry) returns (r: Result<bytes>)
      requires cache.Valid() && 4 <= e.len
      modifies cache
      ensures cache.Valid()
      ensures r == if e.offset in old(cache.blocks) then Ok(old(cache.blocks)[e.offset]) else ReadBlock(disk, e)
      ensures r.Err? ==> cache.lru == old(cache.lru) && cache.blocks == old(cache.blocks)
      ensures cache.trace == if r.Ok? then old(cache.trace) + [e.offset] else old(cache.trace)
      ensures r.Ok? ==> cache.lru == Access(old(cache.lru), cache.cap, e.offset)
      ensures r.Ok? && e.offset in cache.blocks ==> cache.blocks[e.offset] == r.value
      ensures forall o :: o in cache.blocks && o != e.offset ==>
        o in old(cache.blocks) && cache.blocks[o] == old(cache.blocks)[o]
    {
      hide ReadBlock, Without, Distinct;
      var hit := cache.Get(e.offset);
      if hit.Some? {
        assert e.offset in Elements(old(cache.lru));
        return Ok(hit.value);
      }
      assert e.offset !in Elements(cache.lru);
      r := ReadBlockFromDisk(disk, e);
      if r.Ok? {
        cache.Put(e.offset, r.value);
      }
    }

    /** The block at index position `i`. With the index as written it is exactly the block written, or an error if
        `disk` no longer holds it; with any index it is what `disk` holds there, as long as the cache says the same. */
    method Fetch(disk: bytes, i: nat) returns (r: Result<bytes>)
      requires cache.Valid() && i < |table.index| && 4 <= table.index[i].len
      modifies cache
      ensures cache.Valid()
      ensures old(Coherent(cache.blocks, disk, table.index)) ==>
        r == ReadBlock(disk, table.index[i]) && (LengthsAgree(table.index) ==> Coherent(cache.blocks, disk, table.index))
      ensures old(Valid()) && Detected(disk, Blocks(entries)) ==>
        && Valid() && i < |Blocks(entries)|
        && (r.Err? || r == Ok(BlockBytes(Blocks(entries)[i])))
        && (Intact(disk, Blocks(entries)) ==> r == Ok(BlockBytes(Blocks(entries)[i])))
    {
      hide *;
      ghost var cs, before := Blocks(entries), cache.blocks;
      ghost var honest := Valid() && Detected(disk, cs);
      if honest {
        ValidFacts();
        ValidSound();
        IndexOfRun(entries);
        IntactBlock(disk, cs, i);
        SoundBlock(before, cs, i);
      }
      CoherentAt(before, disk, table.index, i);
      r := CachedBlock(disk, table.index[i]);
      if honest {
        SoundAfterPut(before, cache.blocks, cs, i);
        StillValid();
      }
      if Coherent(before, disk, table.index) && LengthsAgree(table.index) {
        CoherentAfterPut(before, cache.blocks, disk, table.index, i);
      }
    }

    /** A point lookup: range, filter, sparse index, block, checksum, scan. With the index as written it agrees with the
        run's map, or reports damage, unless key range or filter wrongly skip the key. With any index it is the lookup
        in what `disk` holds. */
    method Get(disk: bytes, key: bytes) returns (r: Result<Option<Entry>>)
      requires cache.Valid() && Usable(table)
      modifies cache
      ensures cache.Valid()
      ensures Skips(table, key) ==> r == Ok(None)
      ensures old(Coherent(cache.blocks, disk, table.index)) ==>
        r == Lookup(table, disk, key) && (LengthsAgree(table.index) ==> Coherent(cache.blocks, disk, table.index))
      ensures old(Valid()) && Detected(disk, Blocks(entries)) ==>
        && Valid()
        && (!Skips(table, key) || key !in MapOf(entries) ==> r.Err? || r == Ok(Records.Get(MapOf(entries), key)))
        && (Intact(disk, Blocks(entries)) ==>
            (r == Ok(Records.Get(MapOf(entries), key)) <==> !(Skips(table, key) && key in MapOf(entries))))
    {
      UsableFacts(table);
      SkipsIs(table, key);
      hide *;
      AbsentIs(MapOf(entries), key);
      LookupIs(table, disk, key);
      if |table.index| == 0 {
        return Ok(None);
      }
      if table.minKey.Some? && table.maxKey.Some? && (Less(key, table.minKey.value) || Less(table.maxKey.value, key)) {
        return Ok(None);
      }
      if table.bloom.Some? && !MaybeContains(table.bloom.value, key) {
        return Ok(None);
      }
      r := SearchBlocks(disk, key);
    }

    /** The part of a lookup behind the filters. */
    method SearchBlocks(disk: bytes, key: bytes) returns (r: Result<Option<Entry>>)
      requires cache.Valid() && Usable(table) && table.index != []
      modifies cache
      ensures cache.Valid()
      ensures old(Coherent(cache.blocks, disk, table.index)) ==>
        r == Search(table.index, disk, key) && (LengthsAgree(table.index) ==> Coherent(cache.blocks, disk, table.index))
      ensures old(Valid()) && Detected(disk, Blocks(entries)) ==>
        && Valid()
        && (r.Err? || r == Ok(Records.Get(MapOf(entries), key)))
        && (Intact(disk, Blocks(entries)) ==> r == Ok(Records.Get(MapOf(entries), key)))
    {
      hide *;
      UsableWide(table);
      ghost var honest := Valid() && Detected(disk, Blocks(entries));
      if honest { ValidFacts(); }
      SearchIs(table.index, disk, key);
      var n := Locate(key);
      if n == 0 {
        if honest { BeforeFirst(entries, key); }
        return Ok(None);
      }
      WideAt(table.index, n - 1);
      if honest { IndexDecides(entries, n - 1, key); }
      var records := Fetch(disk, n - 1);
      if records.Err? { return Err(records.error); }
      r := FindInBlock(records.value, key);
    }

    /** How many first keys are not above `key`, by binary search. */
    method Locate(key: bytes) returns (n: nat)
      requires Usable(table)
      ensures n == Slot(table.index, key)
      ensures n > 0 ==> Leq(table.index[n - 1].firstKey, key)
      ensures n < |table.index| ==> Less(key, table.index[n].firstKey)
    {
      UsableFacts(table);
      hide Usable, Slot, Less;
      var found, i := BinarySearch(table.index, key);
      n := if found then i + 1 else i;
      if n > 0 { SearchPoints(table.index, key, found, i); }
      forall j | 0 <= j < n ensures Leq(table.index[j].firstKey, key) { LessTotal(table.index[j].firstKey, key); }
      SlotIs(table.index, key, n);
    }

    /** Every entry in key order, read straight from `disk` without touching the cache. */
    method ReadAllEntries(disk: bytes) returns (r: Result<seq<Record>>)
      requires Wide(table.index)
      ensures r == ScanBlocks(disk, table.index, [])
      ensures Valid() && Detected(disk, Blocks(entries)) ==>
        (r.Err? || r == Ok(entries)) && (Intact(disk, Blocks(entries)) ==> r == Ok(entries))
    {
      hide *;
      WideEach(table.index);
      if Valid() && Detected(disk, Blocks(entries)) {
        ValidFacts();
        IndexOfRun(entries);
        ScanAgrees(disk, entries, table.index);
      }
      var out: seq<Record> := [];
      assert table.index[0..] == table.index;
      for i := 0 to |table.index|
        invariant ScanBlocks(disk, table.index, []) == ScanBlocks(disk, table.index[i..], out)
      {
        ScanStep(disk, table.index[i..], out);
        assert table.index[i..][0] == table.index[i] && table.index[i..][1..] == table.index[i + 1..];
        var records := ReadBlockFromDisk(disk, table.index[i]);
        if records.Err? { return Err(records.error); }
        var more := DecodeAll(records.value, out);
        if more.Err? { return more; }
        out := more.value;
      }
      ScanStep(disk, table.index[|table.index|..], out);
      r := Ok(out);
    }
  }

  lemma SkipsIs(t: TableInfo, key: bytes)
    requires t.bloom.Some? ==> t.bloom.value.field != []
    ensures Skips(t, key) <==>
      || |t.index| == 0
      || (t.minKey.Some? && t.maxKey.Some? && (Less(key, t.minKey.value) || Less(t.maxKey.value, key)))
      || (t.bloom.Some? && !MaybeContains(t.bloom.value, key))
  {
    hide Less, MaybeContains;
  }

  lemma AbsentIs(m: map<bytes, Entry>, key: bytes)
    ensures key !in m <==> Records.Get(m, key) == None
  {
  }

  lemma StorableAscends(es: seq<Record>)
    ensures Storable(es) ==> Ascending(es) && Fits(es)
  {
  }

  lemma ScanStep(disk: bytes, ix: seq<IndexEntry>, out: seq<Record>)
    requires forall i :: 0 <= i < |ix| ==> 4 <= ix[i].len
    ensures ix == [] ==> ScanBlocks(disk, ix, out) == Ok(out)
    ensures ix != [] && ReadBlock(disk, ix[0]).Err? ==> ScanBlocks(disk, ix, out) == Err(ReadBlock(disk, ix[0]).error)
    ensures ix != [] && ReadBlock(disk, ix[0]).Ok? ==>
      var more := DecodeFrom(ReadBlock(disk, ix[0]).value, 0, out);
      ScanBlocks(disk, ix, out) == if more.Err? then more else ScanBlocks(disk, ix[1..], more.value)
  {
  }

  /** Appends every record of a block to `out`. */
  method DecodeAll(records: bytes, out: seq<Record>) returns (r: Result<seq<Record>>)
    ensures r == DecodeFrom(records, 0, out)
  {
    hide DecodeRecord;
    var c: nat, all := 0, out;
    while c < |records|
      invariant c <= |records| && DecodeFrom(records, 0, out) == DecodeFrom(records, c, all)
    {
      var rec := DecodeRecord(records, c);
      if rec.Err? { return Err(rec.error); }
      all := all + [rec.value.0];
      c := rec.value.1;
    }
    r := Ok(all);
  }

  lemma DecodesBlock(es: seq<Record>, i: nat, out: seq<Record>)
    requires Storable(es) && i < |Blocks(es)|
    ensures DecodeFrom(BlockBytes(Blocks(es)[i]), 0, out) == Ok(out + Blocks(es)[i])
  {
    hide Blocks, BlockBytes, At, DecodeFrom;
    WholeAt(BlockBytes(Blocks(es)[i]));
    SealedLength(Blocks(es)[i]);
    DecodeBlock(BlockBytes(Blocks(es)[i]), 0, Blocks(es)[i], out);
  }

  /** All records of the indexed blocks appended to `out`, for any file. */
  function ScanBlocks(disk: bytes, ix: seq<IndexEntry>, out: seq<Record>): Result<seq<Record>>
    requires forall i :: 0 <= i < |ix| ==> 4 <= ix[i].len
  {
    if ix == [] then Ok(out)
    else
      var records :- ReadBlock(disk, ix[0]);
      var more :- DecodeFrom(records, 0, out);
      ScanBlocks(disk, ix[1..], more)
  }

  /** Scanning from block `i` on completes the run, or stops at a damaged block. */
  lemma {:induction false} ScanFrom(disk: bytes, es: seq<Record>, cs: seq<seq<Record>>, ix: seq<IndexEntry>, i: nat)
    requires Storable(es) && cs == Blocks(es) && i <= |cs| && ix == Index(cs)[i..]
    requires Detected(disk, cs) && forall j :: 0 <= j < |ix| ==> 4 <= ix[j].len
    ensures var r := ScanBlocks(disk, ix, Flatten(cs[..i]));
      (r.Err? || r == Ok(Flatten(cs))) && (Intact(disk, cs) ==> r == Ok(Flatten(cs)))
    decreases |ix|
  {
    hide *;
    ScanStep(disk, ix, Flatten(cs[..i]));
    if i == |cs| {
      assert cs[..i] == cs;
    } else {
      assert ix[0] == Index(cs)[i] && ix[1..] == Index(cs)[i + 1..];
      IntactBlock(disk, cs, i);
      DecodesBlock(es, i, Flatten(cs[..i]));
      FlattenAround(cs, i);
      ScanFrom(disk, es, cs, ix[1..], i + 1);
    }
  }

  /** A full scan returns exactly the run the file was written for, or reports damage. */
  lemma ScanAgrees(disk: bytes, es: seq<Record>, ix: seq<IndexEntry>)
    requires Storable(es) && Detected(disk, Blocks(es)) && ix == TableOf(es).index
    ensures forall i :: 0 <= i < |ix| ==> 4 <= ix[i].len
    ensures var r := ScanBlocks(disk, ix, []);
      (r.Err? || r == Ok(es)) && (Intact(disk, Blocks(es)) ==> r == Ok(es))
  {
    IndexOfRun(es);
    hide *;
    ScanFrom(disk, es, Blocks(es), Index(Blocks(es))[0..], 0);
    FlattenEnds(Blocks(es));
    assert Index(Blocks(es))[0..] == Index(Blocks(es));
  }

  lemma FlattenEnds(cs: seq<seq<Record>>)
    ensures Flatten(cs[..0]) == []
  {
  }

  /** The map a table file holds, as reopening and scanning it would find. */
  function Contents(file: bytes): map<bytes, Entry> {
    match ParseTable(file)
    case Err(_) => map[]
    case Ok(t) =>
      if exists i :: 0 <= i < |t.index| && t.index[i].len < 4 then map[]
      else
        match ScanBlocks(file, t.index, [])
        case Err(_) => map[]
        case Ok(es) => MapOf(es)
  }

  lemma ContentsRoundTrip(es: seq<Record>)
    requires Storable(es)
    ensures ParseTable(FileOf(es)) == Ok(TableOf(es)) && Contents(FileOf(es)) == MapOf(es)
  {
    assert Fits(es);
    hide *;
    OpenRoundTrip(es);
    WrittenIsIntact(es);
    IntactIsDetected(FileOf(es), Blocks(es));
    ScanAgrees(FileOf(es), es, TableOf(es).index);
    ContentsIs(FileOf(es), TableOf(es), es);
  }

  lemma ContentsIs(file: bytes, t: TableInfo, es: seq<Record>)
    requires ParseTable(file) == Ok(t) && (forall i :: 0 <= i < |t.index| ==> 4 <= t.index[i].len)
    requires ScanBlocks(file, t.index, []) == Ok(es)
    ensures Contents(file) == MapOf(es)
  {
    hide ParseTable, ScanBlocks, MapOf;
  }

  lemma IntactIsDetected(disk: bytes, cs: seq<seq<Record>>)
    requires Intact(disk, cs)
    ensures Detected(disk, cs)
  {
  }

  lemma SoundBlock(blocks: map<nat, bytes>, cs: seq<seq<Record>>, i: nat)
    requires Sound(blocks, cs) && i < |cs|
    ensures Index(cs)[i].offset in blocks ==> blocks[Index(cs)[i].offset] == BlockBytes(cs[i])
  {
  }

  lemma IntactBlock(disk: bytes, cs: seq<seq<Record>>, i: nat)
    requires i < |cs| && Detected(disk, cs)
    ensures 4 <= Index(cs)[i].len
    ensures var r := ReadBlock(disk, Index(cs)[i]); r.Err? || r == Ok(BlockBytes(cs[i]))
    ensures Intact(disk, cs) ==> ReadBlock(disk, Index(cs)[i]) == Ok(BlockBytes(cs[i]))
  {
  }
}
