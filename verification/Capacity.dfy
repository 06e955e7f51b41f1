/** How much a table file can hold before one of its narrow length fields overflows. */
module Capacity {
  import opened Bytes
  import opened Records
  import opened Bloom
  import opened TableFormat
  import opened TableReader
  import opened SsTable

  const HALF: nat := 0x8000_0000
  const HUGE: nat := 0x4000_0000_0000_0000

  lemma {:induction false} DataLength(cs: seq<seq<Record>>)
    ensures |Data(cs)| == |BlockBytes(Flatten(cs))| + 4 * |cs|
    decreases |cs|
  {
    hide BlockBytes, Flatten, Sealed;
    if cs == [] {
      EmptyFlatten(cs);
      NothingLeft([], [], []);
    } else {
      var n := |cs| - 1;
      DataLength(cs[..n]);
      DataLast(cs);
      SealedLength(cs[n]);
      FlattenAround(cs, n);
      assert cs[..n + 1] == cs;
      BlockBytesConcat(Flatten(cs[..n]), cs[n]);
    }
  }

  lemma {:induction false} IndexLength(ix: seq<IndexEntry>, cs: seq<seq<Record>>)
    requires |ix| == |cs| && forall i :: 0 <= i < |cs| ==> ix[i].firstKey == FirstKey(cs[i])
    ensures |IndexBytes(ix)| <= 16 * |cs| + |BlockBytes(Flatten(cs))|
    decreases |cs|
  {
    hide BlockBytes, Flatten, EncodeIndexEntry, FirstKey;
    if ix != [] {
      IndexLength(ix[1..], cs[1..]);
      FirstOfFlatten(cs);
      BlockBytesConcat(cs[0], Flatten(cs[1..]));
      EntryLength(ix[0]);
      FirstKeyLength(cs[0]);
      IndexBytesStep(ix);
    } else {
      assert IndexBytes(ix) == [];
    }
  }

  lemma IndexBytesStep(ix: seq<IndexEntry>)
    requires ix != []
    ensures |IndexBytes(ix)| == |EncodeIndexEntry(ix[0])| + |IndexBytes(ix[1..])|
  {
    hide EncodeIndexEntry;
  }

  lemma FirstOfFlatten(cs: seq<seq<Record>>)
    requires cs != []
    ensures Flatten(cs) == cs[0] + Flatten(cs[1..])
  {
  }

  lemma EntryLength(e: IndexEntry)
    ensures |EncodeIndexEntry(e)| == 16 + |e.firstKey|
  {
  }

  lemma FirstKeyLength(c: seq<Record>)
    ensures |FirstKey(c)| <= |BlockBytes(c)|
  {
    hide BlockBytes;
    if c != [] { RecordInBlock(c, 0); }
  }

  lemma {:induction false} BlocksAtMost(cs: seq<seq<Record>>)
    requires forall i :: 0 <= i < |cs| ==> cs[i] != []
    ensures |cs| <= |Flatten(cs)|
  {
    if cs != [] { BlocksAtMost(cs[1..]); }
  }

  lemma {:induction false} FlattenHas(cs: seq<seq<Record>>, i: nat, j: nat)
    requires i < |cs| && j < |cs[i]|
    ensures cs[i][j] in Flatten(cs)
  {
    if i != 0 {
      FlattenHas(cs[1..], i - 1, j);
    }
  }

  lemma BlockLength(c: seq<Record>, limit: nat)
    requires Minimal(c) && |EncodeRecord(c[|c| - 1])| < limit
    ensures |Sealed(c)| < BLOCK_SIZE + limit + 4
  {
    hide BlockBytes, EncodeRecord, Sealed;
    var n := |c| - 1;
    assert c == c[..n] + [c[n]];
    BlockBytesConcat(c[..n], [c[n]]);
    BlockBytesOne(c[n]);
    SealedLength(c);
  }

  lemma SummaryLength(es: seq<Record>, limit: nat)
    requires forall i :: 0 <= i < |es| ==> |EncodeRecord(es[i])| < limit
    ensures |Summary(es)| <= 16 + 2 * limit + Size(|es|)
  {
    hide EncodeRecord, AddKeys;
    if es != [] {
      RecordLength(es[0]);
      RecordLength(es[|es| - 1]);
    }
  }

  lemma RecordLength(r: Record)
    ensures |r.key| < |EncodeRecord(r)|
  {
  }

  /** Fewer than 2^31 records, each under 2 GiB, and 2^62 bytes in all always fit. */
  lemma FitsWhen(es: seq<Record>)
    requires |es| < HALF && |BlockBytes(es)| < HUGE
    requires forall i :: 0 <= i < |es| ==> |EncodeRecord(es[i])| < HALF
    ensures Fits(es)
  {
    hide BlockBytes, Chunks, EncodeRecord, Data, Sealed, IndexBytes, Flatten, Summary, Index;
    var cs := Blocks(es);
    NothingLeft([], [], []);
    BlockLayout([], es);
    assert [] + es == es;
    BlocksAtMost(cs);
    forall i | 0 <= i < |cs| ensures |Sealed(cs[i])| < U32 {
      FlattenHas(cs, i, |cs[i]| - 1);
      BlockLength(cs[i], HALF);
    }
    DataLength(cs);
    IndexLength(Index(cs), cs);
    SummaryLength(es, HALF);
  }

  lemma OneRecordFits(r: Record)
    requires |r.key| < 0x1000 && |ValueBytes(r.entry)| < 0x1000
    ensures Fits([r])
  {
    BlockBytesOne(r);
    hide BlockBytes, Fits;
    FitsWhen([r]);
  }
}
