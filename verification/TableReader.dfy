/** Opening an SSTable: parsing footer, sparse index, key range and Bloom filter back from the file. */
module TableReader {
  import opened Bytes
  import opened Records
  import opened Bloom
  import opened TableFormat

  // ----- opening -----

  datatype FooterFields = FooterFields(offset: nat, len: nat, count: nat)

  function ParseFooter(f: bytes): Result<FooterFields>
    requires |f| == FOOTER_LEN
  {
    if f[20..24] != MAGIC then Err(DecodeError)
    else if FromBE(f[24..28]) != VERSION then Err(DecodeError)
    else Ok(FooterFields(FromBE(f[0..8]), FromBE(f[8..16]), FromBE(f[16..20])))
  }

  function ParseIndexEntry(buf: bytes, c: nat): (r: Result<(IndexEntry, nat)>)
    ensures r.Ok? ==> r.value.1 <= |buf|
  {
    var keyLen :- ReadUint(buf, c, 4);
    var key :- ReadBytes(buf, c + 4, keyLen);
    var offset :- ReadUint(buf, c + 4 + keyLen, 8);
    var len :- ReadUint(buf, c + 12 + keyLen, 4);
    Ok((IndexEntry(key, offset, len), c + 16 + keyLen))
  }

  /** `n` more entries from `c` on, appended to `index`. */
  function ParseIndex(buf: bytes, c: nat, n: nat, index: seq<IndexEntry>): (r: Result<(seq<IndexEntry>, nat)>)
    decreases n
  {
    if n == 0 then Ok((index, c))
    else
      var (e, next) :- ParseIndexEntry(buf, c);
      ParseIndex(buf, next, n - 1, index + [e])
  }

  datatype SummaryFields = SummaryFields(min: bytes, max: bytes, bloom: Filter)

  function ParseSummary(buf: bytes, c: nat): Result<SummaryFields> {
    var minLen :- ReadUint(buf, c, 4);
    var min :- ReadBytes(buf, c + 4, minLen);
    var maxLen :- ReadUint(buf, c + 4 + minLen, 4);
    var max :- ReadBytes(buf, c + 8 + minLen, maxLen);
    var d := c + 8 + minLen + maxLen;
    var k :- ReadUint(buf, d, 4);
    var fieldLen :- ReadUint(buf, d + 4, 4);
    var field :- ReadBytes(buf, d + 8, fieldLen);
    Ok(SummaryFields(min, max, Filter(field, k)))
  }

  /** The index region the footer points at; an empty read never fails. */
  function RegionAt(file: bytes, f: FooterFields): Result<bytes> {
    if f.len == 0 then Ok([])
    else if f.offset + f.len > |file| then Err(IoError)
    else Ok(file[f.offset..f.offset + f.len])
  }

  function ParseTable(file: bytes): Result<TableInfo> {
    if |file| < FOOTER_LEN then Err(DecodeError)
    else
      var f :- ParseFooter(file[|file| - FOOTER_LEN..]);
      var buf :- RegionAt(file, f);
      var (index, c) :- ParseIndex(buf, 0, f.count, []);
      if c < |buf| then
        var s :- ParseSummary(buf, c);
        Ok(TableInfo(index, Some(s.min), Some(s.max), Some(s.bloom)))
      else
        Ok(TableInfo(index, None, None, None))
  }

  /** The last eight bytes read "FSST" and version 3. */
  predicate Marked(file: bytes) {
    |file| >= 28 && file[|file| - 8..|file| - 4] == [0x46, 0x53, 0x53, 0x54] && FromBE(file[|file| - 4..]) == 3
  }

  /** Nothing else opens. */
  lemma OnlyMarkedOpen(file: bytes)
    ensures ParseTable(file).Ok? ==> Marked(file)
  {
    hide FromBE, ParseIndex, ParseSummary, RegionAt;
    if ParseTable(file).Ok? {
      var footer := file[|file| - FOOTER_LEN..];
      assert footer[20..24] == file[|file| - 8..|file| - 4] && footer[24..28] == file[|file| - 4..];
    }
  }

  method OpenTable(file: bytes) returns (r: Result<TableInfo>)
    ensures r == ParseTable(file)
    ensures r.Ok? ==> Marked(file)
  {
    OnlyMarkedOpen(file);
    hide ParseFooter, ParseIndexEntry, ParseSummary, RegionAt;
    if |file| < FOOTER_LEN { return Err(DecodeError); }
    var footer := ParseFooter(file[|file| - FOOTER_LEN..]);
    if footer.Err? { return Err(footer.error); }
    var f := footer.value;
    var region := RegionAt(file, f);
    if region.Err? { return Err(region.error); }
    var buf := region.value;
    var index: seq<IndexEntry>, c: nat := [], 0;
    for i := 0 to f.count
      invariant ParseIndex(buf, 0, f.count, []) == ParseIndex(buf, c, f.count - i, index)
    {
      var e := ParseIndexEntry(buf, c);
      if e.Err? { return Err(e.error); }
      index := index + [e.value.0];
      c := e.value.1;
    }
    if c < |buf| {
      var s := ParseSummary(buf, c);
      if s.Err? { return Err(s.error); }
      return Ok(TableInfo(index, Some(s.value.min), Some(s.value.max), Some(s.value.bloom)));
    }
    r := Ok(TableInfo(index, None, None, None));
  }

  // ----- a written file opens to the table it was written from -----

  lemma FooterRoundTrip(offset: nat, len: nat, count: nat)
    requires offset < U64 && len < U64 && count < U32
    ensures ParseFooter(Footer(offset, len, count)) == Ok(FooterFields(offset, len, count))
  {
    var f := Footer(offset, len, count);
    U64RoundTrip(offset);
    U64RoundTrip(len);
    U32RoundTrip(count);
    U32RoundTrip(VERSION);
    hide BE, FromBE;
    assert f[0..8] == BE(offset, 8);
    assert f[8..16] == BE(len, 8);
    assert f[16..20] == BE(count, 4);
    assert f[20..24] == MAGIC;
    assert f[24..28] == BE(VERSION, 4);
  }

  ghost predicate EntryFits(e: IndexEntry) {
    |e.firstKey| < U32 && e.offset < U64 && e.len < U32
  }

  lemma IndexEntryAt(buf: bytes, c: nat, e: IndexEntry)
    requires At(buf, c, EncodeIndexEntry(e)) && EntryFits(e)
    ensures ParseIndexEntry(buf, c) == Ok((e, c + |EncodeIndexEntry(e)|))
  {
    var k := e.firstKey;
    Pow256Widths();
    AtConcat(buf, c, BE(|k|, 4), k + (BE(e.offset, 8) + BE(e.len, 4)));
    AtConcat(buf, c + 4, k, BE(e.offset, 8) + BE(e.len, 4));
    AtConcat(buf, c + 4 + |k|, BE(e.offset, 8), BE(e.len, 4));
    ReadUintAt(buf, c, |k|, 4);
    ReadUintAt(buf, c + 4 + |k|, e.offset, 8);
    ReadUintAt(buf, c + 12 + |k|, e.len, 4);
  }

  lemma IndexAtSplit(buf: bytes, c: nat, ix: seq<IndexEntry>)
    requires ix != [] && At(buf, c, IndexBytes(ix))
    ensures At(buf, c, EncodeIndexEntry(ix[0])) && At(buf, c + |EncodeIndexEntry(ix[0])|, IndexBytes(ix[1..]))
    ensures |IndexBytes(ix)| == |EncodeIndexEntry(ix[0])| + |IndexBytes(ix[1..])|
  {
    hide EncodeIndexEntry, At;
    AtConcat(buf, c, EncodeIndexEntry(ix[0]), IndexBytes(ix[1..]));
  }

  lemma ParseIndexStep(buf: bytes, c: nat, n: nat, index: seq<IndexEntry>, e: IndexEntry, next: nat)
    requires 0 < n && ParseIndexEntry(buf, c) == Ok((e, next))
    ensures ParseIndex(buf, c, n, index) == ParseIndex(buf, next, n - 1, index + [e])
  {
    hide ParseIndexEntry;
  }

  lemma {:induction false} IndexRoundTrip(buf: bytes, c: nat, ix: seq<IndexEntry>, index: seq<IndexEntry>)
    requires At(buf, c, IndexBytes(ix)) && forall i :: 0 <= i < |ix| ==> EntryFits(ix[i])
    ensures ParseIndex(buf, c, |ix|, index) == Ok((index + ix, c + |IndexBytes(ix)|))
    decreases |ix|
  {
    hide ParseIndex, IndexBytes, EncodeIndexEntry, EntryFits, At;
    if ix == [] {
      IndexEnd(buf, c, index);
      assert index + ix == index;
    } else {
      IndexStep(buf, c, ix, index);
      IndexRoundTrip(buf, c + |EncodeIndexEntry(ix[0])|, ix[1..], index + [ix[0]]);
      MoveHead(index, ix);
    }
  }

  lemma IndexEnd(buf: bytes, c: nat, index: seq<IndexEntry>)
    ensures ParseIndex(buf, c, 0, index) == Ok((index, c)) && IndexBytes([]) == []
  {
  }

  lemma IndexStep(buf: bytes, c: nat, ix: seq<IndexEntry>, index: seq<IndexEntry>)
    requires ix != [] && At(buf, c, IndexBytes(ix)) && EntryFits(ix[0])
    ensures var next := c + |EncodeIndexEntry(ix[0])|;
      && ParseIndex(buf, c, |ix|, index) == ParseIndex(buf, next, |ix| - 1, index + [ix[0]])
      && At(buf, next, IndexBytes(ix[1..])) && next + |IndexBytes(ix[1..])| == c + |IndexBytes(ix)|
  {
    hide *;
    IndexAtSplit(buf, c, ix);
    IndexEntryAt(buf, c, ix[0]);
    ParseIndexStep(buf, c, |ix|, index, ix[0], c + |EncodeIndexEntry(ix[0])|);
  }

  lemma SummaryRoundTrip(buf: bytes, c: nat, min: bytes, max: bytes, f: Filter)
    requires At(buf, c, RangeBytes(min, max) + BloomBytes(f))
    requires |min| < U32 && |max| < U32 && f.k < U32 && |f.field| < U32
    ensures ParseSummary(buf, c) == Ok(SummaryFields(min, max, f))
  {
    hide *;
    AtConcat(buf, c, RangeBytes(min, max), BloomBytes(f));
    RangeAt(buf, c, min, max);
    BloomAt(buf, c + |RangeBytes(min, max)|, f);
    SummaryOfReads(buf, c, min, max, f);
  }

  lemma SummaryOfReads(buf: bytes, c: nat, min: bytes, max: bytes, f: Filter)
    requires ReadUint(buf, c, 4) == Ok(|min|) && ReadBytes(buf, c + 4, |min|) == Ok(min)
    requires ReadUint(buf, c + 4 + |min|, 4) == Ok(|max|) && ReadBytes(buf, c + 8 + |min|, |max|) == Ok(max)
    requires var d := c + 8 + |min| + |max|;
      && ReadUint(buf, d, 4) == Ok(f.k) && ReadUint(buf, d + 4, 4) == Ok(|f.field|)
      && ReadBytes(buf, d + 8, |f.field|) == Ok(f.field)
    ensures ParseSummary(buf, c) == Ok(SummaryFields(min, max, f))
  {
    hide ReadUint, ReadBytes;
  }

  lemma RangeAt(buf: bytes, c: nat, min: bytes, max: bytes)
    requires At(buf, c, RangeBytes(min, max)) && |min| < U32 && |max| < U32
    ensures ReadUint(buf, c, 4) == Ok(|min|) && ReadBytes(buf, c + 4, |min|) == Ok(min)
    ensures ReadUint(buf, c + 4 + |min|, 4) == Ok(|max|) && ReadBytes(buf, c + 8 + |min|, |max|) == Ok(max)
    ensures |RangeBytes(min, max)| == 8 + |min| + |max|
  {
    Pow256Widths();
    AtConcat(buf, c, BE(|min|, 4), min + (BE(|max|, 4) + max));
    AtConcat(buf, c + 4, min, BE(|max|, 4) + max);
    AtConcat(buf, c + 4 + |min|, BE(|max|, 4), max);
    ReadUintAt(buf, c, |min|, 4);
    ReadUintAt(buf, c + 4 + |min|, |max|, 4);
  }

  lemma BloomAt(buf: bytes, c: nat, f: Filter)
    requires At(buf, c, BloomBytes(f)) && f.k < U32 && |f.field| < U32
    ensures ReadUint(buf, c, 4) == Ok(f.k) && ReadUint(buf, c + 4, 4) == Ok(|f.field|)
    ensures ReadBytes(buf, c + 8, |f.field|) == Ok(f.field)
  {
    Pow256Widths();
    AtConcat(buf, c, BE(f.k, 4), BE(|f.field|, 4) + f.field);
    AtConcat(buf, c + 4, BE(|f.field|, 4), f.field);
    ReadUintAt(buf, c, f.k, 4);
    ReadUintAt(buf, c + 4, |f.field|, 4);
  }

  lemma {:induction false} RecordInBlock(c: seq<Record>, i: nat)
    requires i < |c|
    ensures |EncodeRecord(c[i])| <= |BlockBytes(c)|
  {
    hide EncodeRecord;
    if i != 0 { RecordInBlock(c[1..], i - 1); }
  }

  lemma {:induction false} InSomeBlock(cs: seq<seq<Record>>, r: Record)
    requires r in Flatten(cs)
    ensures exists i, j :: 0 <= i < |cs| && 0 <= j < |cs[i]| && cs[i][j] == r
  {
    if r in cs[0] {
      var j :| 0 <= j < |cs[0]| && cs[0][j] == r;
    } else {
      InSomeBlock(cs[1..], r);
      var i, j :| 0 <= i < |cs[1..]| && 0 <= j < |cs[1..][i]| && cs[1..][i][j] == r;
      assert cs[i + 1][j] == r;
    }
  }

  lemma KeysFit(es: seq<Record>, r: Record)
    requires Fits(es) && r in es
    ensures |r.key| < U32
  {
    hide Chunks, EncodeRecord, BlockBytes;
    assert |BlockBytes([])| < BLOCK_SIZE by { NothingLeft([], [], []); }
    BlockLayout([], es);
    assert [] + es == es;
    InSomeBlock(Blocks(es), r);
    var i, j :| 0 <= i < |Blocks(es)| && 0 <= j < |Blocks(es)[i]| && Blocks(es)[i][j] == r;
    RecordInBlock(Blocks(es)[i], j);
  }

  lemma IndexFits(es: seq<Record>)
    requires Fits(es)
    ensures forall i :: 0 <= i < |Blocks(es)| ==> EntryFits(Index(Blocks(es))[i])
  {
    hide Blocks, BlockBytes, Data, IndexRegion, EncodeRecord;
    var cs := Blocks(es);
    forall i | 0 <= i < |cs| ensures EntryFits(Index(cs)[i]) {
      DataSlice(cs, i);
      AtBound(Data(cs), |Data(cs[..i])|, Sealed(cs[i]));
      if cs[i] != [] {
        RecordInBlock(cs[i], 0);
      }
    }
  }

  lemma IndexPart(buf: bytes, ix: seq<IndexEntry>, rest: bytes)
    requires buf == IndexBytes(ix) + rest && forall i :: 0 <= i < |ix| ==> EntryFits(ix[i])
    ensures ParseIndex(buf, 0, |ix|, []) == Ok((ix, |IndexBytes(ix)|)) && At(buf, |IndexBytes(ix)|, rest)
  {
    WholeAt(buf);
    hide *;
    AtConcat(buf, 0, IndexBytes(ix), rest);
    IndexRoundTrip(buf, 0, ix, []);
    assert [] + ix == ix;
  }

  lemma SummaryPart(es: seq<Record>, buf: bytes, c: nat)
    requires Fits(es) && es != [] && At(buf, c, Summary(es))
    ensures 0 < |Summary(es)|
    ensures ParseSummary(buf, c) == Ok(SummaryFields(es[0].key, es[|es| - 1].key, FilterOf(Keys(es))))
  {
    KeysFit(es, es[0]);
    KeysFit(es, es[|es| - 1]);
    FilterFits(es);
    hide Fits, At, FilterOf, ParseSummary, BE;
    SummaryRoundTrip(buf, c, es[0].key, es[|es| - 1].key, FilterOf(Keys(es)));
  }

  lemma WholeAt(buf: bytes)
    ensures At(buf, 0, buf)
  {
  }

  lemma FilterFits(es: seq<Record>)
    requires Fits(es)
    ensures FilterOf(Keys(es)).k < U32 && |FilterOf(Keys(es)).field| < U32
  {
    hide AddKeys, Blocks, Data, IndexRegion, Sealed;
  }

  lemma FooterAt(file: bytes, body: bytes, footer: bytes)
    requires file == body + footer && |footer| == FOOTER_LEN
    ensures file[|file| - FOOTER_LEN..] == footer
  {
  }

  lemma MiddleAt(a: bytes, b: bytes, c: bytes)
    ensures (a + (b + c))[|a|..|a| + |b|] == b
  {
  }

  lemma ParseWhole(file: bytes, data: bytes, region: bytes, ix: seq<IndexEntry>, c: nat)
    requires file == data + (region + Footer(|data|, |region|, |ix|))
    requires |data| < U64 && |region| < U64 && |ix| < U32
    requires ParseIndex(region, 0, |ix|, []) == Ok((ix, c))
    ensures c == |region| ==> ParseTable(file) == Ok(TableInfo(ix, None, None, None))
    ensures c < |region| && ParseSummary(region, c).Ok? ==>
      var s := ParseSummary(region, c).value; ParseTable(file) == Ok(TableInfo(ix, Some(s.min), Some(s.max), Some(s.bloom)))
  {
    var footer := Footer(|data|, |region|, |ix|);
    var fields := FooterFields(|data|, |region|, |ix|);
    FooterRoundTrip(|data|, |region|, |ix|);
    hide Footer, ParseFooter, ParseIndex, ParseSummary;
    Assoc(data, region, footer);
    FooterAt(file, data + region, footer);
    MiddleAt(data, region, footer);
    assert RegionAt(file, fields) == Ok(region);
    hide RegionAt;
  }

  /** Opening reads nothing of the data region: index region and footer as written give the table as written. */
  lemma OpenIgnoresData(es: seq<Record>, data: bytes)
    requires Fits(es) && |data| == |Data(Blocks(es))|
    ensures ParseTable(data + (IndexRegion(es) + Footer(|data|, |IndexRegion(es)|, |Blocks(es)|))) == Ok(TableOf(es))
  {
    var region, ix := IndexRegion(es), Index(Blocks(es));
    IndexFits(es);
    hide Index, Blocks, Data, Footer, ParseTable, ParseIndex, ParseSummary, FilterOf, IndexBytes, At, EntryFits;
    IndexPart(region, ix, Summary(es));
    if es != [] {
      hide Summary, RangeBytes, BloomBytes;
      SummaryPart(es, region, |IndexBytes(ix)|);
    } else {
      NoBlocks();
    }
    ParseWhole(data + (region + Footer(|data|, |region|, |ix|)), data, region, ix, |IndexBytes(ix)|);
  }

  /** Opening the file written for a run gives exactly the table that writing it returned. */
  lemma OpenRoundTrip(es: seq<Record>)
    requires Fits(es)
    ensures ParseTable(FileOf(es)) == Ok(TableOf(es))
  {
    OpenIgnoresData(es, Data(Blocks(es)));
  }

  // ----- another filter in the file -----

  /** The file of a non-empty run with the filter `f` in the place of its own. */
  function FileWith(es: seq<Record>, f: Filter): bytes
    requires es != []
  {
    var cs := Blocks(es);
    var region := IndexBytes(Index(cs)) + (RangeBytes(es[0].key, es[|es| - 1].key) + BloomBytes(f));
    Data(cs) + (region + Footer(|Data(cs)|, |region|, |cs|))
  }

  /** Nothing in the file guards the filter: any other of the same size opens just as well. */
  lemma FilterUnchecked(es: seq<Record>, f: Filter)
    requires Fits(es) && es != [] && f.k < U32 && |f.field| == Size(|es|)
    ensures FileOf(es) == FileWith(es, FilterOf(Keys(es)))
    ensures |FileWith(es, f)| == |FileOf(es)| && ParseTable(FileWith(es, f)) == Ok(TableOf(es).(bloom := Some(f)))
  {
    var ix, min, max := Index(Blocks(es)), es[0].key, es[|es| - 1].key;
    IndexFits(es);
    KeysFit(es, es[0]);
    KeysFit(es, es[|es| - 1]);
    SameSize(es, f);
    FileHasFilter(es);
    hide Index, Blocks, Data, Footer, ParseTable, ParseIndex, ParseSummary, FilterOf, IndexBytes, At, EntryFits, RangeBytes,
      BloomBytes, Fits, FileOf;
    var region := IndexBytes(ix) + (RangeBytes(min, max) + BloomBytes(f));
    IndexPart(region, ix, RangeBytes(min, max) + BloomBytes(f));
    SummaryRoundTrip(region, |IndexBytes(ix)|, min, max, f);
    ParseWhole(FileWith(es, f), Data(Blocks(es)), region, ix, |IndexBytes(ix)|);
  }

  lemma FileHasFilter(es: seq<Record>)
    requires es != []
    ensures FileOf(es) == FileWith(es, FilterOf(Keys(es)))
  {
    hide Blocks, Data, IndexBytes, Index, RangeBytes, BloomBytes, FilterOf, Footer;
  }

  lemma SameSize(es: seq<Record>, f: Filter)
    requires Fits(es) && es != [] && |f.field| == Size(|es|)
    ensures |BloomBytes(f)| == |BloomBytes(FilterOf(Keys(es)))| > 0 && |f.field| < U32
    ensures |Data(Blocks(es))| < U64 && |Blocks(es)| < U32
    ensures |IndexBytes(Index(Blocks(es)))| + |RangeBytes(es[0].key, es[|es| - 1].key)| + |BloomBytes(f)| == |IndexRegion(es)| < U64
  {
    hide AddKeys, Blocks, Data, IndexBytes, Index, Sealed, RangeBytes;
  }

  lemma NoBlocks()
    ensures Index(Blocks([])) == []
  {
  }
}
