/** Which files open, and to what: the table format read off literally, in both directions. */
module FormatLaws {
  import opened Bytes
  import opened Records
  import opened Bloom
  import opened Crc
  import opened TableFormat
  import opened TableReader

  // ----- big-endian integers -----

  lemma {:induction false} LessSnoc(a: bytes, x: byte, b: bytes, y: byte)
    requires |a| == |b|
    ensures Less(a + [x], b + [y]) <==> Less(a, b) || (a == b && x < y)
  {
    if a == [] {
      assert a + [x] == [x] && b + [y] == [y];
    } else {
      assert (a + [x])[1..] == a[1..] + [x] && (b + [y])[1..] == b[1..] + [y];
      LessSnoc(a[1..], x, b[1..], y);
      Uncons(a);
      Uncons(b);
    }
  }

  /** Byte strings of one length are ordered as the numbers they encode: the most significant byte comes first. */
  lemma {:induction false} BigEndianOrder(a: bytes, b: bytes)
    requires |a| == |b|
    ensures Less(a, b) <==> FromBE(a) < FromBE(b)
    decreases |a|
  {
    if a != [] {
      var n := |a| - 1;
      BigEndianOrder(a[..n], b[..n]);
      BigEndianOrder(b[..n], a[..n]);
      LessTotal(a[..n], b[..n]);
      assert a == a[..n] + [a[n]] && b == b[..n] + [b[n]];
      LessSnoc(a[..n], a[n], b[..n], b[n]);
      if FromBE(a[..n]) == FromBE(b[..n]) { BEDiffers(a[..n], b[..n]); }
      hide Less;
    }
  }

  lemma BEDiffers(a: bytes, b: bytes)
    requires |a| == |b| && FromBE(a) == FromBE(b)
    ensures a == b
  {
    BEUnique(a);
    BEUnique(b);
  }

  // ----- the layout -----

  /** One index entry: key length, first key, block offset, block length. */
  lemma IndexEntryLayout(e: IndexEntry)
    ensures EncodeIndexEntry(e) == BE(|e.firstKey|, 4) + e.firstKey + BE(e.offset, 8) + BE(e.len, 4)
  {
    hide BE;
    var a, b, c, d := BE(|e.firstKey|, 4), e.firstKey, BE(e.offset, 8), BE(e.len, 4);
    assert a + (b + (c + d)) == a + b + c + d;
  }

  /** A stored block: its records, then their checksum, highest byte first. */
  lemma SealedLayout(c: seq<Record>)
    ensures var b, n := Sealed(c), |BlockBytes(c)|;
      && |b| == n + 4 && b[..n] == BlockBytes(c) && FromBE(b[n..]) == Checksum(BlockBytes(c))
  {
    hide Checksum, BE, FromBE, BlockBytes;
    U32RoundTrip(Checksum(BlockBytes(c)));
    assert Sealed(c)[|BlockBytes(c)|..] == BE(Checksum(BlockBytes(c)), 4);
  }

  /** Key range, then filter: each length before its bytes, and the probe count before the filter's. */
  function SummaryOf(min: bytes, max: bytes, f: Filter): bytes {
    BE(|min|, 4) + min + BE(|max|, 4) + max + BE(f.k, 4) + BE(|f.field|, 4) + f.field
  }

  lemma SummaryLayout(min: bytes, max: bytes, f: Filter)
    ensures RangeBytes(min, max) + BloomBytes(f) == SummaryOf(min, max, f)
  {
    hide BE;
    var a, b, c, d, e, g, h := BE(|min|, 4), min, BE(|max|, 4), max, BE(f.k, 4), BE(|f.field|, 4), f.field;
    assert a + (b + (c + d)) + (e + (g + h)) == a + b + c + d + e + g + h;
  }

  /** The last 28 bytes: index offset and length, number of blocks, "FSST", version 3. */
  function FooterOf(offset: nat, len: nat, count: nat): (b: bytes)
    ensures |b| == 28
  {
    BE(offset, 8) + BE(len, 8) + BE(count, 4) + [0x46, 0x53, 0x53, 0x54] + [0, 0, 0, 3]
  }

  lemma FooterLayout(offset: nat, len: nat, count: nat)
    ensures Footer(offset, len, count) == FooterOf(offset, len, count)
  {
    assert BE(3, 4) == [0, 0, 0, 3] by { VersionBytes(); }
    hide BE;
    var a, b, c, d, e := BE(offset, 8), BE(len, 8), BE(count, 4), MAGIC, BE(VERSION, 4);
    assert a + (b + (c + (d + e))) == a + b + c + d + e;
  }

  lemma VersionBytes()
    ensures BE(3, 4) == [0, 0, 0, 3]
  {
    assert BE(0, 1) == [0] && BE(0, 2) == [0, 0] && BE(0, 3) == [0, 0, 0];
  }

  /** The file holds this table: a footer pointing to `len` bytes at `offset`, which are the index and, unless the table
      is empty, key range and filter, with nothing read beyond those. */
  ghost predicate Holds(file: bytes, t: TableInfo, offset: nat, len: nat, tail: bytes) {
    && 28 <= |file| && file[|file| - 28..] == FooterOf(offset, len, |t.index|)
    && offset < U64 && len < U64 && |t.index| < U32 && (len > 0 ==> offset + len <= |file|)
    && (forall i :: 0 <= i < |t.index| ==> EntryFits(t.index[i]))
    && var region := if len == 0 then [] else file[offset..offset + len];
      RegionHolds(region, t, tail)
  }

  ghost predicate RegionHolds(region: bytes, t: TableInfo, tail: bytes) {
    if t.bloom.None? then t.minKey.None? && t.maxKey.None? && region == IndexBytes(t.index)
    else
      && t.minKey.Some? && t.maxKey.Some?
      && |t.minKey.value| < U32 && |t.maxKey.value| < U32 && t.bloom.value.k < U32 && |t.bloom.value.field| < U32
      && region == IndexBytes(t.index) + (SummaryOf(t.minKey.value, t.maxKey.value, t.bloom.value) + tail)
  }

  // ----- what is read stands there -----

  lemma UintStands(buf: bytes, c: nat, w: nat)
    requires ReadUint(buf, c, w).Ok?
    ensures At(buf, c, BE(ReadUint(buf, c, w).value, w)) && ReadUint(buf, c, w).value < Pow256(w)
  {
    hide BE, FromBE, Pow256;
    BEUnique(buf[c..c + w]);
    assert |buf[c..c + w]| == w;
  }

  lemma BytesStand(buf: bytes, c: nat, n: nat)
    requires ReadBytes(buf, c, n).Ok?
    ensures At(buf, c, ReadBytes(buf, c, n).value)
  {
  }

  lemma EntryStands(buf: bytes, c: nat)
    requires ParseIndexEntry(buf, c).Ok?
    ensures var (e, next) := ParseIndexEntry(buf, c).value;
      At(buf, c, EncodeIndexEntry(e)) && next == c + |EncodeIndexEntry(e)| && EntryFits(e)
  {
    Pow256Widths();
    var (e, next) := ParseIndexEntry(buf, c).value;
    var k := e.firstKey;
    UintStands(buf, c, 4);
    BytesStand(buf, c + 4, |k|);
    UintStands(buf, c + 4 + |k|, 8);
    UintStands(buf, c + 12 + |k|, 4);
    hide BE, At, ReadUint, ReadBytes;
    AtConcat(buf, c, BE(|k|, 4), k + (BE(e.offset, 8) + BE(e.len, 4)));
    AtConcat(buf, c + 4, k, BE(e.offset, 8) + BE(e.len, 4));
    AtConcat(buf, c + 4 + |k|, BE(e.offset, 8), BE(e.len, 4));
  }

  lemma {:induction false} IndexStands(buf: bytes, c: nat, n: nat, acc: seq<IndexEntry>) returns (ix: seq<IndexEntry>)
    requires ParseIndex(buf, c, n, acc).Ok? && c <= |buf|
    ensures |ix| == n && (forall i :: 0 <= i < n ==> EntryFits(ix[i])) && At(buf, c, IndexBytes(ix))
    ensures ParseIndex(buf, c, n, acc).value == (acc + ix, c + |IndexBytes(ix)|)
    decreases n
  {
    hide ParseIndexEntry, EncodeIndexEntry, EntryFits;
    if n == 0 {
      ix := [];
      assert acc + [] == acc;
      EmptyAt(buf, c);
    } else {
      EntryStands(buf, c);
      var (e, next) := ParseIndexEntry(buf, c).value;
      var rest := IndexStands(buf, next, n - 1, acc + [e]);
      ix := [e] + rest;
      assert ix[1..] == rest;
      AtConcat(buf, c, EncodeIndexEntry(e), IndexBytes(rest));
      Assoc(acc, [e], rest);
      hide At, IndexBytes;
      IndexBytesCons(e, rest);
    }
  }

  lemma IndexBytesCons(e: IndexEntry, rest: seq<IndexEntry>)
    ensures IndexBytes([e] + rest) == EncodeIndexEntry(e) + IndexBytes(rest)
  {
    hide EncodeIndexEntry;
    assert ([e] + rest)[1..] == rest;
  }

  lemma EmptyAt(buf: bytes, c: nat)
    requires c <= |buf|
    ensures At(buf, c, []) && IndexBytes([]) == []
  {
  }

  lemma SummaryStands(buf: bytes, c: nat)
    requires ParseSummary(buf, c).Ok?
    ensures var s := ParseSummary(buf, c).value;
      && At(buf, c, RangeBytes(s.min, s.max) + BloomBytes(s.bloom))
      && |s.min| < U32 && |s.max| < U32 && s.bloom.k < U32 && |s.bloom.field| < U32
  {
    hide *;
    var s := ParseSummary(buf, c).value;
    SummaryReads(buf, c);
    RangeStands(buf, c, s.min, s.max);
    FilterStands(buf, c + 8 + |s.min| + |s.max|, s.bloom);
    RangeLength(s.min, s.max);
    AtConcat(buf, c, RangeBytes(s.min, s.max), BloomBytes(s.bloom));
  }

  lemma RangeLength(min: bytes, max: bytes)
    ensures |RangeBytes(min, max)| == 8 + |min| + |max|
  {
  }

  lemma SummaryReads(buf: bytes, c: nat)
    requires ParseSummary(buf, c).Ok?
    ensures var s := ParseSummary(buf, c).value;
      var d := c + 8 + |s.min| + |s.max|;
      && ReadUint(buf, c, 4) == Ok(|s.min|) && ReadBytes(buf, c + 4, |s.min|) == Ok(s.min)
      && ReadUint(buf, c + 4 + |s.min|, 4) == Ok(|s.max|) && ReadBytes(buf, c + 8 + |s.min|, |s.max|) == Ok(s.max)
      && ReadUint(buf, d, 4) == Ok(s.bloom.k) && ReadUint(buf, d + 4, 4) == Ok(|s.bloom.field|)
      && ReadBytes(buf, d + 8, |s.bloom.field|) == Ok(s.bloom.field)
  {
    hide ReadUint, ReadBytes;
  }

  lemma RangeParts(min: bytes, max: bytes)
    ensures RangeBytes(min, max) == BE(|min|, 4) + (min + (BE(|max|, 4) + max))
  {
  }

  lemma FilterParts(f: Filter)
    ensures BloomBytes(f) == BE(f.k, 4) + (BE(|f.field|, 4) + f.field)
  {
  }

  lemma RangeStands(buf: bytes, c: nat, min: bytes, max: bytes)
    requires ReadUint(buf, c, 4) == Ok(|min|) && ReadBytes(buf, c + 4, |min|) == Ok(min)
    requires ReadUint(buf, c + 4 + |min|, 4) == Ok(|max|) && ReadBytes(buf, c + 8 + |min|, |max|) == Ok(max)
    ensures At(buf, c, RangeBytes(min, max)) && |min| < U32 && |max| < U32
  {
    hide *;
    Pow256Widths();
    UintStands(buf, c, 4);
    BytesStand(buf, c + 4, |min|);
    UintStands(buf, c + 4 + |min|, 4);
    BytesStand(buf, c + 8 + |min|, |max|);
    RangeParts(min, max);
    AtConcat(buf, c, BE(|min|, 4), min + (BE(|max|, 4) + max));
    AtConcat(buf, c + 4, min, BE(|max|, 4) + max);
    AtConcat(buf, c + 4 + |min|, BE(|max|, 4), max);
  }

  lemma FilterStands(buf: bytes, d: nat, f: Filter)
    requires ReadUint(buf, d, 4) == Ok(f.k) && ReadUint(buf, d + 4, 4) == Ok(|f.field|)
    requires ReadBytes(buf, d + 8, |f.field|) == Ok(f.field)
    ensures At(buf, d, BloomBytes(f)) && f.k < U32 && |f.field| < U32
  {
    hide *;
    Pow256Widths();
    UintStands(buf, d, 4);
    UintStands(buf, d + 4, 4);
    BytesStand(buf, d + 8, |f.field|);
    FilterParts(f);
    AtConcat(buf, d, BE(f.k, 4), BE(|f.field|, 4) + f.field);
    AtConcat(buf, d + 4, BE(|f.field|, 4), f.field);
  }

  lemma FooterStands(f: bytes)
    requires |f| == FOOTER_LEN && ParseFooter(f).Ok?
    ensures var v := ParseFooter(f).value;
      f == FooterOf(v.offset, v.len, v.count) && v.offset < U64 && v.len < U64 && v.count < U32
  {
    Pow256Widths();
    VersionBytes();
    var a, b, c, d, e := f[0..8], f[8..16], f[16..20], f[20..24], f[24..28];
    BEUnique(a);
    BEUnique(b);
    BEUnique(c);
    BEUnique(e);
    hide BE, FromBE;
    assert f == a + b + c + d + e;
  }

  // ----- both directions -----

  lemma OpenedHolds(file: bytes) returns (offset: nat, len: nat, tail: bytes)
    requires ParseTable(file).Ok?
    ensures Holds(file, ParseTable(file).value, offset, len, tail)
  {
    hide ParseFooter, ParseIndex, ParseSummary, EntryFits, IndexBytes, FooterOf, SummaryOf;
    var footer := file[|file| - FOOTER_LEN..];
    FooterStands(footer);
    var f := ParseFooter(footer).value;
    offset, len, tail := f.offset, f.len, [];
    var buf := RegionAt(file, f).value;
    var ix := IndexStands(buf, 0, f.count, []);
    assert [] + ix == ix;
    RestAt(buf, IndexBytes(ix));
    var c := |IndexBytes(ix)|;
    if c < |buf| {
      SummaryStands(buf, c);
      var s := ParseSummary(buf, c).value;
      SummaryLayout(s.min, s.max, s.bloom);
      tail := SplitRest(buf, c, SummaryOf(s.min, s.max, s.bloom));
    }
  }

  lemma RestAt(buf: bytes, front: bytes)
    requires At(buf, 0, front)
    ensures buf == front + buf[|front|..] && (|front| == |buf| ==> buf == front)
  {
  }

  lemma SplitRest(buf: bytes, c: nat, piece: bytes) returns (tail: bytes)
    requires At(buf, c, piece)
    ensures buf[c..] == piece + tail
  {
    tail := buf[c + |piece|..];
    assert buf[c..][..|piece|] == piece;
  }

  lemma HoldsOpens(file: bytes, t: TableInfo, offset: nat, len: nat, tail: bytes)
    requires Holds(file, t, offset, len, tail)
    ensures ParseTable(file) == Ok(t)
  {
    hide ParseFooter, ParseIndex, ParseSummary, EntryFits, IndexBytes, FooterOf, SummaryOf;
    FooterLayout(offset, len, |t.index|);
    FooterRoundTrip(offset, len, |t.index|);
    var region := if len == 0 then [] else file[offset..offset + len];
    if t.bloom.None? {
      assert region == IndexBytes(t.index) + [];
      IndexPart(region, t.index, []);
    } else {
      var min, max, f := t.minKey.value, t.maxKey.value, t.bloom.value;
      var c := |IndexBytes(t.index)|;
      IndexPart(region, t.index, SummaryOf(min, max, f) + tail);
      AtConcat(region, c, SummaryOf(min, max, f), tail);
      SummaryLayout(min, max, f);
      SummaryNonEmpty(min, max, f);
      SummaryRoundTrip(region, c, min, max, f);
    }
  }

  lemma SummaryNonEmpty(min: bytes, max: bytes, f: Filter)
    ensures |SummaryOf(min, max, f)| > 0
  {
  }

  /** A file opens to a table if and only if it holds it. */
  lemma OpensIff(file: bytes, t: TableInfo)
    ensures ParseTable(file) == Ok(t) <==> exists offset, len, tail :: Holds(file, t, offset, len, tail)
  {
    hide ParseTable, Holds;
    if ParseTable(file) == Ok(t) { var offset, len, tail := OpenedHolds(file); }
    if offset, len, tail :| Holds(file, t, offset, len, tail) { HoldsOpens(file, t, offset, len, tail); }
  }
}
