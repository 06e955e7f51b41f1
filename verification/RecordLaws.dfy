/** Records by their bytes: the layout, what the readers answer on any bytes, and blocks that are cut off. */
module RecordLaws {
  import opened Bytes
  import opened Codec
  import opened Records

  /** Key length, key, type, value length, value: a tombstone is type 1 with no value. */
  lemma RecordLayout(r: Record)
    ensures r.entry.Tombstone? ==> EncodeRecord(r) == BE(|r.key|, 4) + r.key + [1] + BE(0, 4)
    ensures r.entry.Present? ==>
      var v := EncodeValue(ValueMessage(Some(r.entry.value)));
      EncodeRecord(r) == BE(|r.key|, 4) + r.key + [0] + BE(|v|, 4) + v
  {
    hide BE, EncodeValue;
    if r.entry.Tombstone? {
      FourParts(BE(|r.key|, 4), r.key, [1], BE(0, 4), []);
    } else {
      var v := EncodeValue(ValueMessage(Some(r.entry.value)));
      FourParts(BE(|r.key|, 4), r.key, [0], BE(|v|, 4), v);
    }
  }

  lemma FourParts(a: bytes, b: bytes, c: bytes, d: bytes, e: bytes)
    ensures a + (b + (c + (d + e))) == a + b + c + d + e
    ensures d + [] == d
  {
  }

  // ----- any bytes -----

  /** At `p` a record of this key and entry is written out. */
  predicate StandsAt(records: bytes, p: nat, key: bytes, e: Entry) {
    var q := p + 4 + |key|;
    && q + 5 <= |records|
    && FromBE(records[p..p + 4]) == |key| && records[p + 4..q] == key
    && var len := FromBE(records[q + 1..q + 5]);
    && q + 5 + len <= |records|
    && (e.Present? <==> records[q] == 0)
    && (e.Present? ==> DecodeValue(records[q + 5..q + 5 + len]) == Some(ValueMessage(Some(e.value))))
  }

  lemma HeaderStands(records: bytes, c: nat)
    requires ReadHeader(records, c).Ok?
    ensures var (k, tag, len, next) := ReadHeader(records, c).value;
      && next == c + 9 + |k| && next <= |records|
      && FromBE(records[c..c + 4]) == |k| && records[c + 4..c + 4 + |k|] == k
      && records[c + 4 + |k|] == tag && FromBE(records[c + 5 + |k|..c + 9 + |k|]) == len
  {
    hide FromBE;
  }

  lemma EntryStands(tag: byte, value: bytes)
    requires DecodeEntryBytes(tag, value).Ok?
    ensures var e := DecodeEntryBytes(tag, value).value;
      && (e.Present? <==> tag == 0)
      && (e.Present? ==> DecodeValue(value) == Some(ValueMessage(Some(e.value))))
  {
    hide DecodeValue;
  }

  lemma StandsHere(records: bytes, c: nat, key: bytes, e: Entry)
    requires ReadHeader(records, c).Ok?
    requires var (k, tag, len, next) := ReadHeader(records, c).value;
      k == key && next + len <= |records| && DecodeEntryBytes(tag, records[next..next + len]) == Ok(e)
    ensures StandsAt(records, c, key, e)
  {
    HeaderStands(records, c);
    var (k, tag, len, next) := ReadHeader(records, c).value;
    EntryStands(tag, records[next..next + len]);
    hide ReadHeader, FromBE, DecodeValue, DecodeEntryBytes;
  }

  /** On any bytes, whatever the scan finds stands there. */
  lemma {:induction false} FoundIsStored(records: bytes, c: nat, key: bytes) returns (p: nat)
    requires c <= |records| && FindFrom(records, c, key).Ok? && FindFrom(records, c, key).value.Some?
    ensures StandsAt(records, p, key, FindFrom(records, c, key).value.value)
    decreases |records| - c
  {
    hide ReadHeader, DecodeEntryBytes, StandsAt, Less;
    var (k, tag, len, next) := ReadHeader(records, c).value;
    if k == key {
      StandsHere(records, c, key, FindFrom(records, c, key).value.value);
      p := c;
    } else {
      p := FoundIsStored(records, next + len, key);
    }
  }

  // ----- blocks that are cut off -----

  /** What a reader gets from the front of a buffer it gets from the whole. */
  lemma HeaderOfPrefix(buf: bytes, n: nat, c: nat)
    requires n <= |buf| && ReadHeader(buf[..n], c).Ok?
    ensures ReadHeader(buf, c) == ReadHeader(buf[..n], c)
  {
    HeaderStands(buf[..n], c);
    var (k, tag, len, next) := ReadHeader(buf[..n], c).value;
    SlicesOfPrefix(buf, n, c, c + 4);
    SlicesOfPrefix(buf, n, c + 4, c + 4 + |k|);
    SlicesOfPrefix(buf, n, c + 4 + |k|, c + 5 + |k|);
    SlicesOfPrefix(buf, n, c + 5 + |k|, c + 9 + |k|);
    hide FromBE;
  }

  lemma SlicesOfPrefix(buf: bytes, n: nat, i: nat, j: nat)
    requires i <= j <= n <= |buf|
    ensures buf[..n][i..j] == buf[i..j]
  {
  }

  /** A record that is not whole cannot be read. */
  lemma CutRecord(buf: bytes, c: nat, r: Record, n: nat, key: bytes)
    requires At(buf, c, EncodeRecord(r)) && |EncodeRecord(r)| < U32 && c < n < c + |EncodeRecord(r)|
    ensures DecodeRecord(buf[..n], c).Err?
    ensures FindFrom(buf[..n], c, key).Err?
  {
    AtBound(buf, c, EncodeRecord(r));
    ReadHeaderAt(buf, c, r);
    TombstoneBytes(r);
    hide EncodeRecord, At, ReadHeader, ValueBytes, TypeByte;
    if ReadHeader(buf[..n], c).Ok? { HeaderOfPrefix(buf, n, c); }
  }

  lemma TombstoneBytes(r: Record)
    ensures |EncodeRecord(r)| == 9 + |r.key| + |ValueBytes(r.entry)|
    ensures |ValueBytes(r.entry)| > 0 ==> TypeByte(r.entry) == TYPE_VALUE
  {
  }

  lemma AtPrefix(buf: bytes, c: nat, piece: bytes, n: nat)
    requires At(buf, c, piece) && c + |piece| <= n <= |buf|
    ensures At(buf[..n], c, piece)
  {
  }

  /** A block cut after `k` whole records and `m` more bytes: at a record's end the full scan reads those records,
      anywhere else it fails. */
  lemma {:induction false} CutBlock(buf: bytes, c: nat, rs: seq<Record>, k: nat, m: nat, out: seq<Record>)
    requires At(buf, c, BlockBytes(rs)) && c + |BlockBytes(rs)| == |buf| < U32 && k <= |rs|
    requires m == 0 || (k < |rs| && m < |EncodeRecord(rs[k])|)
    ensures |BlockBytes(rs[..k])| + m <= |BlockBytes(rs)|
    ensures var cut := buf[..c + |BlockBytes(rs[..k])| + m];
      DecodeFrom(cut, c, out) == if m == 0 then Ok(out + rs[..k]) else Err(DecodeError)
    decreases k
  {
    hide BlockBytes, EncodeRecord, At, DecodeFrom, DecodeRecord;
    if k == 0 {
      EmptyBlock(rs);
      CutFirst(buf, c, rs, m, out);
      assert out + [] == out;
    } else {
      BlockAtSplit(buf, c, rs);
      var first, next := EncodeRecord(rs[0]), c + |EncodeRecord(rs[0])|;
      FrontBlock(rs, k);
      CutBlock(buf, next, rs[1..], k - 1, m, out + [rs[0]]);
      var n := c + |BlockBytes(rs[..k])| + m;
      AtPrefix(buf, c, first, n);
      RecordNonEmpty(rs[0]);
      DecodeRecordAt(buf[..n], c, rs[0]);
      DecodeStep(buf[..n], c, rs[0], next, out);
      assert rs[1..][..k - 1] == rs[..k][1..];
      MoveHead(out, rs[..k]);
    }
  }

  lemma RecordNonEmpty(r: Record)
    ensures |EncodeRecord(r)| > 0
  {
  }

  lemma EmptyBlock(rs: seq<Record>)
    ensures rs[..0] == [] && BlockBytes([]) == []
  {
  }

  lemma FrontBlock(rs: seq<Record>, k: nat)
    requires 0 < k <= |rs|
    ensures |BlockBytes(rs[..k])| == |EncodeRecord(rs[0])| + |BlockBytes(rs[1..][..k - 1])|
  {
    hide EncodeRecord;
    assert rs[..k][0] == rs[0] && rs[..k][1..] == rs[1..][..k - 1];
  }

  lemma CutFirst(buf: bytes, c: nat, rs: seq<Record>, m: nat, out: seq<Record>)
    requires At(buf, c, BlockBytes(rs)) && c + |BlockBytes(rs)| == |buf| < U32
    requires m == 0 || (rs != [] && m < |EncodeRecord(rs[0])|)
    ensures c + m <= |buf|
    ensures DecodeFrom(buf[..c + m], c, out) == if m == 0 then Ok(out) else Err(DecodeError)
  {
    hide *;
    AtBound(buf, c, BlockBytes(rs));
    if m > 0 {
      BlockAtSplit(buf, c, rs);
      CutRecord(buf, c, rs[0], c + m, []);
    }
    DecodeStarts(buf[..c + m], c, out);
  }

  lemma DecodeStarts(buf: bytes, c: nat, out: seq<Record>)
    requires c <= |buf|
    ensures c == |buf| ==> DecodeFrom(buf, c, out) == Ok(out)
    ensures c < |buf| && DecodeRecord(buf, c).Err? ==> DecodeFrom(buf, c, out) == Err(DecodeError)
  {
    DecodeErrors(buf, c);
    hide ReadHeader, DecodeRecord;
  }

  lemma DecodeErrors(buf: bytes, c: nat)
    ensures DecodeRecord(buf, c).Err? ==> DecodeRecord(buf, c) == Err(DecodeError)
  {
  }

  /** The early-exit scan of a sorted block cut inside a record gives the whole block's answer or fails. */
  lemma {:induction false} CutScan(buf: bytes, c: nat, rs: seq<Record>, k: nat, m: nat, key: bytes)
    requires At(buf, c, BlockBytes(rs)) && c + |BlockBytes(rs)| == |buf| < U32 && Ascending(rs)
    requires k < |rs| && 0 < m < |EncodeRecord(rs[k])|
    ensures |BlockBytes(rs[..k])| + m <= |BlockBytes(rs)|
    ensures var r := FindFrom(buf[..c + |BlockBytes(rs[..k])| + m], c, key); r.Err? || r == Ok(Get(MapOf(rs), key))
    decreases k
  {
    hide *;
    BlockAtSplit(buf, c, rs);
    if k == 0 {
      EmptyBlock(rs);
      AtBound(buf, c, EncodeRecord(rs[0]));
      CutRecord(buf, c, rs[0], c + m, key);
    } else {
      FrontBlock(rs, k);
      GetOrdered(rs, key);
      var size, n := |EncodeRecord(rs[0])|, c + |BlockBytes(rs[..k])| + m;
      CutScan(buf, c + size, rs[1..], k - 1, m, key);
      assert c + size + |BlockBytes(rs[1..][..k - 1])| + m == n;
      AtPrefix(buf, c, EncodeRecord(rs[0]), n);
      FindStep(buf[..n], c, rs[0], key);
    }
  }
}
