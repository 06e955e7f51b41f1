/** The SSTable file: how a sorted run is cut into blocks, and the bytes written for it. */
module TableFormat {
  import opened Bytes
  import opened Records
  import opened Bloom
  import opened Crc

  const BLOCK_SIZE: nat := 4096
  const FOOTER_LEN: nat := 28
  const VERSION: nat := 3
  const MAGIC: bytes := [0x46, 0x53, 0x53, 0x54]

  datatype IndexEntry = IndexEntry(firstKey: bytes, offset: nat, len: nat)

  // ----- cutting into blocks -----

  /** The blocks cut from `rest` when `cur` is already in the open block: a block closes once it reaches the target. */
  function Chunks(cur: seq<Record>, rest: seq<Record>): seq<seq<Record>>
    decreases |rest|
  {
    if rest == [] then
      if cur == [] then [] else [cur]
    else
      var grown := cur + [rest[0]];
      if |BlockBytes(grown)| >= BLOCK_SIZE then [grown] + Chunks([], rest[1..]) else Chunks(grown, rest[1..])
  }

  function Blocks(es: seq<Record>): seq<seq<Record>> {
    Chunks([], es)
  }

  function Flatten(cs: seq<seq<Record>>): seq<Record> {
    if cs == [] then [] else cs[0] + Flatten(cs[1..])
  }

  lemma {:induction false} FlattenConcat(a: seq<seq<Record>>, b: seq<seq<Record>>)
    ensures Flatten(a + b) == Flatten(a) + Flatten(b)
  {
    if a == [] {
      assert a + b == b;
    } else {
      FlattenConcat(a[1..], b);
      FlattenStep(a, b);
      Assoc(a[0], Flatten(a[1..]), Flatten(b));
    }
  }

  lemma FlattenStep(a: seq<seq<Record>>, b: seq<seq<Record>>)
    requires a != []
    ensures Flatten(a + b) == a[0] + Flatten(a[1..] + b)
  {
    assert (a + b)[1..] == a[1..] + b;
  }

  ghost predicate Full(c: seq<Record>) {
    |BlockBytes(c)| >= 4096
  }

  /** Non-empty, and one record short of the target before its last record. */
  ghost predicate Minimal(c: seq<Record>) {
    c != [] && |BlockBytes(c[..|c| - 1])| < 4096
  }

  /** Cutting loses nothing and keeps the order; only the last block may be short; no block is longer than it must be. */
  lemma {:induction false} BlockLayout(cur: seq<Record>, rest: seq<Record>)
    requires |BlockBytes(cur)| < BLOCK_SIZE
    ensures var cs := Chunks(cur, rest);
      && Flatten(cs) == cur + rest
      && (forall i :: 0 <= i < |cs| - 1 ==> Full(cs[i]))
      && (forall i :: 0 <= i < |cs| ==> Minimal(cs[i]))
    decreases |rest|
  {
    if rest == [] {
      hide BlockBytes;
      if cur != [] { SingleChunk(cur); }
    } else {
      var grown := cur + [rest[0]];
      NothingLeft([], [], []);
      ChunksOf(cur, rest);
      hide *;
      MoveHead(cur, rest);
      if Full(grown) {
        BlockLayout([], rest[1..]);
        assert [] + rest[1..] == rest[1..];
        ClosedFirst(cur, rest[0], Chunks([], rest[1..]), rest[1..]);
      } else {
        BlockLayout(grown, rest[1..]);
      }
    }
  }

  lemma ChunksOf(cur: seq<Record>, rest: seq<Record>)
    requires rest != []
    ensures var grown := cur + [rest[0]];
      && (Full(grown) <==> |BlockBytes(grown)| >= BLOCK_SIZE)
      && Chunks(cur, rest) == if Full(grown) then [grown] + Chunks([], rest[1..]) else Chunks(grown, rest[1..])
    ensures |BlockBytes([])| < BLOCK_SIZE
  {
    hide BlockBytes;
    NothingLeft([], [], []);
  }

  lemma ClosedFirst(cur: seq<Record>, r: Record, cs: seq<seq<Record>>, rest: seq<Record>)
    requires Full(cur + [r]) && |BlockBytes(cur)| < BLOCK_SIZE && Flatten(cs) == rest
    requires forall i :: 0 <= i < |cs| - 1 ==> Full(cs[i])
    requires forall i :: 0 <= i < |cs| ==> Minimal(cs[i])
    ensures var all := [cur + [r]] + cs;
      && Flatten(all) == cur + [r] + rest
      && (forall i :: 0 <= i < |all| - 1 ==> Full(all[i]))
      && (forall i :: 0 <= i < |all| ==> Minimal(all[i]))
  {
    hide BlockBytes, Full;
    var grown := cur + [r];
    assert grown[..|grown| - 1] == cur;
    assert ([grown] + cs)[1..] == cs;
  }

  lemma SingleChunk(cur: seq<Record>)
    requires cur != [] && |BlockBytes(cur)| < BLOCK_SIZE
    ensures Flatten([cur]) == cur && Minimal(cur)
  {
    assert cur == cur[..|cur| - 1] + cur[|cur| - 1..];
    BlockBytesConcat(cur[..|cur| - 1], cur[|cur| - 1..]);
  }

  // ----- the data region -----

  /** A block as stored: its record bytes, then their checksum. */
  function Sealed(c: seq<Record>): (b: bytes)
    ensures |b| == |BlockBytes(c)| + 4
  {
    BlockBytes(c) + BE(Checksum(BlockBytes(c)), 4)
  }

  function Data(cs: seq<seq<Record>>): bytes {
    if cs == [] then [] else Data(cs[..|cs| - 1]) + Sealed(cs[|cs| - 1])
  }

  function FirstKey(c: seq<Record>): bytes {
    if c == [] then [] else c[0].key
  }

  function Index(cs: seq<seq<Record>>): (ix: seq<IndexEntry>)
    ensures |ix| == |cs|
    ensures forall i :: 0 <= i < |cs| ==> ix[i] == IndexEntry(FirstKey(cs[i]), |Data(cs[..i])|, |Sealed(cs[i])|)
  {
    seq(|cs|, i requires 0 <= i < |cs| => IndexEntry(FirstKey(cs[i]), |Data(cs[..i])|, |Sealed(cs[i])|))
  }

  lemma DataSnoc(cs: seq<seq<Record>>, c: seq<Record>)
    ensures Data(cs + [c]) == Data(cs) + Sealed(c)
    ensures Index(cs + [c]) == Index(cs) + [IndexEntry(FirstKey(c), |Data(cs)|, |Sealed(c)|)]
  {
    hide Sealed, FirstKey, Data;
    var all, n := cs + [c], |cs|;
    DataLast(all);
    assert all[..n] == cs;
    var last := IndexEntry(FirstKey(c), |Data(cs)|, |Sealed(c)|);
    forall i | 0 <= i < |all| ensures Index(all)[i] == (Index(cs) + [last])[i] {
      if i < n { PrefixOfSnoc(cs, c, i); }
    }
  }

  lemma PrefixOfSnoc(cs: seq<seq<Record>>, c: seq<Record>, i: nat)
    requires i < |cs|
    ensures (cs + [c])[..i] == cs[..i] && (cs + [c])[i] == cs[i]
  {
  }

  lemma {:induction false} DataSlice(cs: seq<seq<Record>>, i: nat)
    requires i < |cs|
    ensures At(Data(cs), |Data(cs[..i])|, Sealed(cs[i]))
    ensures |Data(cs[..i + 1])| == |Data(cs[..i])| + |Sealed(cs[i])|
  {
    hide Sealed, At, Data;
    var n := |cs| - 1;
    var init := cs[..n];
    DataLast(cs);
    if i == n {
      assert cs[..i + 1] == cs;
      AtEnd(Data(init), Sealed(cs[n]));
    } else {
      DataSlice(init, i);
      assert init[..i] == cs[..i] && init[..i + 1] == cs[..i + 1];
      AtPrefix(Data(init), Sealed(cs[n]), |Data(cs[..i])|, Sealed(cs[i]));
    }
  }

  lemma DataLast(cs: seq<seq<Record>>)
    requires cs != []
    ensures Data(cs) == Data(cs[..|cs| - 1]) + Sealed(cs[|cs| - 1])
  {
    hide Sealed;
  }

  lemma AtEnd(a: bytes, b: bytes)
    ensures At(a + b, |a|, b)
  {
  }

  lemma AtPrefix(a: bytes, b: bytes, c: nat, piece: bytes)
    requires At(a, c, piece)
    ensures At(a + b, c, piece)
  {
    assert (a + b)[c..c + |piece|] == a[c..c + |piece|];
  }

  /** Blocks tile the data region: the first starts it, each starts where the one before ends, the last ends it. */
  lemma BlocksTile(cs: seq<seq<Record>>)
    ensures var ix := Index(cs);
      && (cs != [] ==> ix[0].offset == 0 && ix[|ix| - 1].offset + ix[|ix| - 1].len == |Data(cs)|)
      && (cs == [] ==> Data(cs) == [])
      && forall i :: 0 <= i < |ix| - 1 ==> ix[i + 1].offset == ix[i].offset + ix[i].len
  {
    DataEnds(cs);
    hide Sealed, FirstKey, Data;
    forall i | 0 <= i < |cs| ensures |Data(cs[..i + 1])| == |Data(cs[..i])| + |Sealed(cs[i])| { DataSlice(cs, i); }
  }

  lemma DataEnds(cs: seq<seq<Record>>)
    ensures Data(cs[..0]) == [] && Data(cs[..|cs|]) == Data(cs) && (cs == [] ==> Data(cs) == [])
  {
    hide Sealed;
    assert cs[..|cs|] == cs;
  }

  // ----- index region, footer, file -----

  function EncodeIndexEntry(e: IndexEntry): bytes {
    BE(|e.firstKey|, 4) + (e.firstKey + (BE(e.offset, 8) + BE(e.len, 4)))
  }

  function IndexBytes(ix: seq<IndexEntry>): bytes {
    if ix == [] then [] else EncodeIndexEntry(ix[0]) + IndexBytes(ix[1..])
  }

  function RangeBytes(min: bytes, max: bytes): bytes {
    BE(|min|, 4) + (min + (BE(|max|, 4) + max))
  }

  function BloomBytes(f: Filter): bytes {
    BE(f.k, 4) + (BE(|f.field|, 4) + f.field)
  }

  function Keys(es: seq<Record>): seq<bytes> {
    seq(|es|, i requires 0 <= i < |es| => es[i].key)
  }

  function Summary(es: seq<Record>): bytes {
    if es == [] then [] else RangeBytes(es[0].key, es[|es| - 1].key) + BloomBytes(FilterOf(Keys(es)))
  }

  function IndexRegion(es: seq<Record>): bytes {
    IndexBytes(Index(Blocks(es))) + Summary(es)
  }

  function Footer(offset: nat, len: nat, count: nat): (b: bytes)
    ensures |b| == FOOTER_LEN
  {
    BE(offset, 8) + (BE(len, 8) + (BE(count, 4) + (MAGIC + BE(VERSION, 4))))
  }

  /** The whole file written for a sorted run. */
  function FileOf(es: seq<Record>): bytes {
    var cs := Blocks(es);
    Data(cs) + (IndexRegion(es) + Footer(|Data(cs)|, |IndexRegion(es)|, |cs|))
  }

  /** Every length the format narrows to 32 or 64 bits fits. */
  ghost predicate Fits(es: seq<Record>) {
    var cs := Blocks(es);
    && (forall i :: 0 <= i < |cs| ==> |Sealed(cs[i])| < U32)
    && |cs| < U32
    && Size(|es|) < U32
    && |Data(cs)| + |IndexRegion(es)| < U64
  }

  // ----- writing -----

  /** An in-memory table: everything but the data blocks. */
  datatype TableInfo = TableInfo(index: seq<IndexEntry>, minKey: Option<bytes>, maxKey: Option<bytes>, bloom: Option<Filter>)

  function TableOf(es: seq<Record>): TableInfo {
    if es == [] then TableInfo([], None, None, None)
    else TableInfo(Index(Blocks(es)), Some(es[0].key), Some(es[|es| - 1].key), Some(FilterOf(Keys(es))))
  }

  method FinalizeBlock(file: bytes, block: bytes, index: seq<IndexEntry>, firstKey: Option<bytes>, offset: nat)
    returns (file': bytes, index': seq<IndexEntry>)
    ensures file' == file + (block + BE(Checksum(block), 4))
    ensures index' == index + [IndexEntry(if firstKey.Some? then firstKey.value else [], offset, |block| + 4)]
  {
    var crc := Crc32(block);
    file' := file + (block + BE(crc, 4));
    var blockLen := |file'| - |file|;
    index' := index + [IndexEntry(if firstKey.Some? then firstKey.value else [], offset, blockLen)];
  }

  lemma ChunksStep(done: seq<seq<Record>>, cur: seq<Record>, es: seq<Record>, i: nat)
    requires i < |es| && Blocks(es) == done + Chunks(cur, es[i..])
    ensures var grown := cur + [es[i]];
      Blocks(es) == if Full(grown) then (done + [grown]) + Chunks([], es[i + 1..]) else done + Chunks(grown, es[i + 1..])
  {
    hide BlockBytes, Blocks;
    var grown := cur + [es[i]];
    assert es[i..][0] == es[i] && es[i..][1..] == es[i + 1..];
    Assoc(done, [grown], Chunks([], es[i + 1..]));
  }

  /** Grows the data region and the sparse index one record at a time. */
  method WriteBlocks(es: seq<Record>) returns (file: bytes, index: seq<IndexEntry>)
    ensures file == Data(Blocks(es)) && index == Index(Blocks(es))
  {
    hide *;
    file, index := [], [];
    var block: bytes, blockFirstKey: Option<bytes>, blockOffset := [], None, 0;
    ghost var done: seq<seq<Record>>, cur: seq<Record> := [], [];
    StartEmpty(es);
    for i := 0 to |es|
      invariant file == Data(done) && index == Index(done)
      invariant Blocks(es) == done + Chunks(cur, es[i..])
      invariant block == BlockBytes(cur) && (block == [] <==> cur == [])
      invariant cur != [] ==> blockFirstKey == Some(FirstKey(cur)) && blockOffset == |file|
    {
      if block == [] {
        blockFirstKey := Some(es[i].key);
        blockOffset := |file|;
      }
      ghost var grown := cur + [es[i]];
      GrowBlock(cur, es[i]);
      ChunksStep(done, cur, es, i);
      block := block + EncodeRecord(es[i]);
      if |block| >= 4096 {
        DataSnoc(done, grown);
        SealedIs(grown);
        IsFull(grown);
        file, index := FinalizeBlock(file, block, index, blockFirstKey, blockOffset);
        blockFirstKey := None;
        block := [];
        done, cur := done + [grown], [];
        NothingLeft([], [], []);
      } else {
        IsFull(grown);
        cur := grown;
      }
    }
    assert es[|es|..] == [];
    EndOfInput(cur);
    if block != [] {
      DataSnoc(done, cur);
      SealedIs(cur);
      file, index := FinalizeBlock(file, block, index, blockFirstKey, blockOffset);
    } else {
      assert done + [] == done;
    }
  }

  lemma StartEmpty(es: seq<Record>)
    ensures Blocks(es) == [] + Chunks([], es[0..]) && Data([]) == [] && Index([]) == [] && BlockBytes([]) == []
  {
    hide Chunks;
    assert es[0..] == es;
  }

  lemma GrowBlock(cur: seq<Record>, r: Record)
    ensures BlockBytes(cur + [r]) == BlockBytes(cur) + EncodeRecord(r)
    ensures BlockBytes(cur + [r]) != []
    ensures FirstKey(cur + [r]) == if cur == [] then r.key else FirstKey(cur)
  {
    BlockBytesConcat(cur, [r]);
    BlockBytesOne(r);
    hide BlockBytes, EncodeRecord;
  }

  lemma SealedIs(c: seq<Record>)
    ensures Sealed(c) == BlockBytes(c) + BE(Checksum(BlockBytes(c)), 4)
  {
  }

  lemma IsFull(c: seq<Record>)
    ensures Full(c) <==> |BlockBytes(c)| >= 4096
  {
  }

  lemma EndOfInput(cur: seq<Record>)
    ensures Chunks(cur, []) == if cur == [] then [] else [cur]
  {
  }

  /** Serialises a sorted run and returns the file's bytes with the table kept in memory. */
  method Flush(es: seq<Record>) returns (file: bytes, table: TableInfo)
    ensures file == FileOf(es)
    ensures table == TableOf(es)
  {
    var index;
    file, index := WriteBlocks(es);
    var region, bloom := WriteIndexRegion(es, index);
    var minKey, maxKey := None, None;
    if es != [] {
      minKey, maxKey := Some(es[0].key), Some(es[|es| - 1].key);
    } else {
      assert Blocks(es) == [];
    }
    file := file + (region + Footer(|file|, |region|, |index|));
    table := TableInfo(index, minKey, maxKey, bloom);
  }

  method WriteIndexRegion(es: seq<Record>, index: seq<IndexEntry>) returns (region: bytes, bloom: Option<Filter>)
    requires index == Index(Blocks(es))
    ensures region == IndexRegion(es)
    ensures bloom == if es == [] then None else Some(FilterOf(Keys(es)))
  {
    hide EncodeIndexEntry, Index, Blocks, FilterOf, RangeBytes, BloomBytes;
    region := [];
    assert index[0..] == index;
    for i := 0 to |index|
      invariant region + IndexBytes(index[i..]) == IndexBytes(index)
    {
      assert index[i..][0] == index[i] && index[i..][1..] == index[i + 1..];
      Assoc(region, EncodeIndexEntry(index[i]), IndexBytes(index[i + 1..]));
      region := region + EncodeIndexEntry(index[i]);
    }
    assert region == IndexBytes(index) by {
      assert index[|index|..] == [];
      assert region + [] == region;
    }
    bloom := None;
    if es != [] {
      var f := Build(Keys(es));
      region := region + (RangeBytes(es[0].key, es[|es| - 1].key) + BloomBytes(f));
      bloom := Some(f);
    } else {
      assert region + [] == region;
    }
  }
}
