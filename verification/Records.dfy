/** Sorted runs of records: their order, the map they denote, and their byte encoding. */
module Records {
  import opened Bytes
  import opened Codec

  datatype Record = Record(key: bytes, entry: Entry)

  const TYPE_VALUE: byte := 0
  const TYPE_TOMBSTONE: byte := 1

  // ----- order and meaning -----

  ghost predicate Ascending(es: seq<Record>) {
    forall i, j :: 0 <= i < j < |es| ==> Less(es[i].key, es[j].key)
  }

  /** The map built by inserting the records in order. */
  function MapOf(es: seq<Record>): map<bytes, Entry> {
    if es == [] then map[] else MapOf(es[..|es| - 1])[es[|es| - 1].key := es[|es| - 1].entry]
  }

  function Get<K, V>(m: map<K, V>, k: K): Option<V> {
    if k in m then Some(m[k]) else None
  }

  ghost predicate Mentions(es: seq<Record>, key: bytes) {
    exists i :: 0 <= i < |es| && es[i].key == key
  }

  lemma {:induction false} MapOfKeys(es: seq<Record>, key: bytes)
    ensures key in MapOf(es) <==> Mentions(es, key)
  {
    if es != [] {
      var n := |es| - 1;
      MapOfKeys(es[..n], key);
      if Mentions(es[..n], key) {
        var i :| 0 <= i < n && es[..n][i].key == key;
        assert es[i].key == key;
      }
      if Mentions(es, key) && es[n].key != key {
        var i :| 0 <= i < |es| && es[i].key == key;
        assert es[..n][i].key == key;
      }
    }
  }

  lemma {:induction false} MapOfAt(es: seq<Record>, i: nat)
    requires Ascending(es) && i < |es|
    ensures Get(MapOf(es), es[i].key) == Some(es[i].entry)
  {
    var n := |es| - 1;
    if i < n {
      LessTotal(es[i].key, es[n].key);
      MapOfAt(es[..n], i);
    }
  }

  lemma GetFirst(es: seq<Record>, key: bytes)
    requires Ascending(es) && es != []
    ensures Get(MapOf(es), key) == if es[0].key == key then Some(es[0].entry) else Get(MapOf(es[1..]), key)
  {
    hide MapOf;
    MapOfKeys(es, key);
    MapOfKeys(es[1..], key);
    if es[0].key == key {
      MapOfAt(es, 0);
    } else if Mentions(es, key) {
      var i :| 0 <= i < |es| && es[i].key == key;
      MapOfAt(es, i);
      assert es[1..][i - 1] == es[i];
      MapOfAt(es[1..], i - 1);
    } else {
      forall i | 0 <= i < |es[1..]| ensures es[1..][i].key != key {
        assert es[i + 1].key != key;
      }
    }
  }

  /** A lookup only depends on the part of the run that can hold the key. */
  lemma GetMiddle(a: seq<Record>, m: seq<Record>, b: seq<Record>, key: bytes)
    requires Ascending(a + m + b)
    requires forall i :: 0 <= i < |a| ==> Less(a[i].key, key)
    requires forall i :: 0 <= i < |b| ==> Less(key, b[i].key)
    ensures Get(MapOf(a + m + b), key) == Get(MapOf(m), key)
  {
    hide MapOf;
    var es := a + m + b;
    MapOfKeys(es, key);
    MapOfKeys(m, key);
    LessTotal(key, key);
    forall i, j | 0 <= i < j < |m| ensures Less(m[i].key, m[j].key) {
      assert es[|a| + i] == m[i] && es[|a| + j] == m[j];
    }
    forall i | 0 <= i < |es| && !(|a| <= i < |a| + |m|) ensures es[i].key != key {
      if i < |a| { assert es[i] == a[i]; } else { assert es[i] == b[i - |a| - |m|]; }
    }
    if Mentions(es, key) {
      var i :| 0 <= i < |es| && es[i].key == key;
      assert es[i] == m[i - |a|];
      MapOfAt(es, i);
      MapOfAt(m, i - |a|);
    }
    if Mentions(m, key) {
      var i :| 0 <= i < |m| && m[i].key == key;
      assert es[|a| + i].key == key;
    }
  }

  // ----- sorted iteration over a map -----

  /** The records of `m` in key order, as an ordered map iterates. */
  ghost predicate Enumerates(es: seq<Record>, m: map<bytes, Entry>) {
    Ascending(es) && MapOf(es) == m
  }

  lemma {:induction false} HasGreatest(keys: set<bytes>) returns (top: bytes)
    requires keys != {}
    ensures top in keys && forall k :: k in keys ==> Leq(k, top)
  {
    var k :| k in keys;
    LessTotal(k, k);
    if keys == {k} {
      top := k;
    } else {
      var rest := HasGreatest(keys - {k});
      LessTotal(rest, k);
      LessTotal(rest, rest);
      if Less(rest, k) {
        top := k;
        forall x | x in keys ensures Leq(x, top) {
          if x != k { LeqLessTransitive(x, rest, k); LessTotal(x, k); }
        }
      } else {
        top := rest;
      }
    }
  }

  /** The greatest key of a non-empty set; unique, since the order is total. */
  function Greatest(keys: set<bytes>): (top: bytes)
    requires keys != {}
    ensures top in keys && forall k :: k in keys ==> Leq(k, top)
  {
    var w := HasGreatestExists(keys);
    assert forall a, b | a in keys && b in keys && (forall k :: k in keys ==> Leq(k, a)) && (forall k :: k in keys ==> Leq(k, b)) :: a == b by {
      forall a, b | a in keys && b in keys && (forall k :: k in keys ==> Leq(k, a)) && (forall k :: k in keys ==> Leq(k, b)) ensures a == b {
        LessTotal(a, b);
      }
    }
    var top :| top in keys && forall k :: k in keys ==> Leq(k, top);
    top
  }

  function HasGreatestExists(keys: set<bytes>): (w: bool)
    requires keys != {}
    ensures exists top :: top in keys && forall k :: k in keys ==> Leq(k, top)
  {
    assert exists top :: top in keys && forall k :: k in keys ==> Leq(k, top) by {
      var top := HasGreatest(keys);
    }
    true
  }

  /** The key-ordered records of a map. */
  function Sorted(m: map<bytes, Entry>): (es: seq<Record>)
    decreases |m|
  {
    if m == map[] then []
    else
      assert m.Keys != {};
      var top := Greatest(m.Keys);
      assert |(m - {top}).Keys| < |m.Keys| by { assert (m - {top}).Keys == m.Keys - {top}; }
      Sorted(m - {top}) + [Record(top, m[top])]
  }

  lemma {:induction false} SortedEnumerates(m: map<bytes, Entry>)
    ensures Enumerates(Sorted(m), m)
    decreases |m|
  {
    hide Less;
    if m != map[] {
      assert m.Keys != {};
      var top := Greatest(m.Keys);
      var rest := m - {top};
      assert rest.Keys == m.Keys - {top};
      SortedEnumerates(rest);
      AppendGreatest(Sorted(rest), Record(top, m[top]));
      assert m == rest[top := m[top]];
    }
  }

  lemma AppendGreatest(es: seq<Record>, r: Record)
    requires Ascending(es) && forall k :: k in MapOf(es) ==> k != r.key && Leq(k, r.key)
    ensures Ascending(es + [r]) && MapOf(es + [r]) == MapOf(es)[r.key := r.entry]
  {
    hide Less;
    assert (es + [r])[..|es|] == es;
    forall i | 0 <= i < |es| ensures Less(es[i].key, r.key) {
      MapOfAt(es, i);
      LessTotal(es[i].key, r.key);
    }
  }

  // ----- the byte form of a record -----

  function TypeByte(e: Entry): byte {
    if e.Present? then TYPE_VALUE else TYPE_TOMBSTONE
  }

  function ValueBytes(e: Entry): bytes {
    match e
    case Present(v) => EncodeValue(ToProto(v))
    case Tombstone => []
  }

  function EncodeRecord(r: Record): (b: bytes)
    ensures |b| == 9 + |r.key| + |ValueBytes(r.entry)|
  {
    BE(|r.key|, 4) + (r.key + ([TypeByte(r.entry)] + (BE(|ValueBytes(r.entry)|, 4) + ValueBytes(r.entry))))
  }

  function BlockBytes(rs: seq<Record>): bytes {
    if rs == [] then [] else EncodeRecord(rs[0]) + BlockBytes(rs[1..])
  }

  lemma BlockBytesStep(a: seq<Record>, b: seq<Record>)
    requires a != []
    ensures BlockBytes(a + b) == EncodeRecord(a[0]) + BlockBytes(a[1..] + b)
  {
    hide EncodeRecord;
    assert (a + b)[1..] == a[1..] + b;
  }

  lemma {:induction false} BlockBytesConcat(a: seq<Record>, b: seq<Record>)
    ensures BlockBytes(a + b) == BlockBytes(a) + BlockBytes(b)
  {
    hide EncodeRecord;
    if a == [] {
      assert a + b == b;
    } else {
      BlockBytesConcat(a[1..], b);
      BlockBytesStep(a, b);
      Assoc(EncodeRecord(a[0]), BlockBytes(a[1..]), BlockBytes(b));
    }
  }

  lemma BlockBytesOne(r: Record)
    ensures BlockBytes([r]) == EncodeRecord(r)
  {
    assert BlockBytes([]) == [];
  }

  /** Reads key, type and value length at `c`; the value bytes are the caller's to read at `next`. */
  function ReadHeader(buf: bytes, c: nat): (r: Result<(bytes, byte, nat, nat)>)
    ensures r.Ok? ==> r.value.3 >= c + 9 && r.value.3 <= |buf|
  {
    var keyLen :- ReadUint(buf, c, 4);
    var key :- ReadBytes(buf, c + 4, keyLen);
    var tag :- ReadBytes(buf, c + 4 + keyLen, 1);
    var valLen :- ReadUint(buf, c + 5 + keyLen, 4);
    Ok((key, tag[0], valLen, c + 9 + keyLen))
  }

  lemma ReadHeaderAt(buf: bytes, c: nat, r: Record)
    requires At(buf, c, EncodeRecord(r)) && |EncodeRecord(r)| < U32
    ensures ReadHeader(buf, c) == Ok((r.key, TypeByte(r.entry), |ValueBytes(r.entry)|, c + 9 + |r.key|))
    ensures At(buf, c + 9 + |r.key|, ValueBytes(r.entry))
  {
    var k, v, t := r.key, ValueBytes(r.entry), [TypeByte(r.entry)];
    hide *;
    FieldsAt(buf, c, r);
    EncodeRecordLength(r);
    ReadUintAt(buf, c, |k|, 4);
    ReadBytesAt(buf, c + 4, k);
    ReadBytesAt(buf, c + 4 + |k|, t);
    ReadUintAt(buf, c + 5 + |k|, |v|, 4);
    HeaderOf(buf, c, k, t[0], |v|);
  }

  lemma EncodeRecordLength(r: Record)
    requires |EncodeRecord(r)| < U32
    ensures |r.key| < Pow256(4) && |ValueBytes(r.entry)| < Pow256(4)
  {
    Pow256Widths();
  }

  /** Where the fields of an encoded record stand. */
  lemma FieldsAt(buf: bytes, c: nat, r: Record)
    requires At(buf, c, EncodeRecord(r))
    ensures var k, v := r.key, ValueBytes(r.entry);
      && At(buf, c, BE(|k|, 4)) && At(buf, c + 4, k) && At(buf, c + 4 + |k|, [TypeByte(r.entry)])
      && At(buf, c + 5 + |k|, BE(|v|, 4)) && At(buf, c + 9 + |k|, v)
  {
    hide At;
    var k, v, t := r.key, ValueBytes(r.entry), [TypeByte(r.entry)];
    AtConcat(buf, c, BE(|k|, 4), k + (t + (BE(|v|, 4) + v)));
    AtConcat(buf, c + 4, k, t + (BE(|v|, 4) + v));
    AtConcat(buf, c + 4 + |k|, t, BE(|v|, 4) + v);
    AtConcat(buf, c + 5 + |k|, BE(|v|, 4), v);
  }

  lemma HeaderOf(buf: bytes, c: nat, k: bytes, tag: byte, valLen: nat)
    requires ReadUint(buf, c, 4) == Ok(|k|) && ReadBytes(buf, c + 4, |k|) == Ok(k)
    requires ReadBytes(buf, c + 4 + |k|, 1) == Ok([tag]) && ReadUint(buf, c + 5 + |k|, 4) == Ok(valLen)
    ensures ReadHeader(buf, c) == Ok((k, tag, valLen, c + 9 + |k|))
  {
    hide ReadUint, ReadBytes;
  }

  function DecodeEntryBytes(tag: byte, value: bytes): Result<Entry> {
    if tag == TYPE_VALUE then
      match DecodeValue(value)
      case None => Err(DecodeError)
      case Some(msg) => var v :- FromProto(msg); Ok(Present(v))
    else Ok(Tombstone)
  }

  lemma DecodeEntryRoundTrip(e: Entry)
    ensures DecodeEntryBytes(TypeByte(e), ValueBytes(e)) == Ok(e)
  {
    if e.Present? { ValueRoundTrip(ToProto(e.value)); }
  }

  // ----- searching a block -----

  /** What the early-exit scan answers from position `c` on. */
  function FindFrom(records: bytes, c: nat, key: bytes): Result<Option<Entry>>
    requires c <= |records|
    decreases |records| - c
  {
    if c == |records| then Ok(None)
    else
      var (recKey, tag, valLen, next) :- ReadHeader(records, c);
      var value :- ReadBytes(records, next, valLen);
      if recKey == key then var e :- DecodeEntryBytes(tag, value); Ok(Some(e))
      else if Less(key, recKey) then Ok(None)
      else FindFrom(records, next + valLen, key)
  }

  method FindInBlock(records: bytes, key: bytes) returns (r: Result<Option<Entry>>)
    ensures r == FindFrom(records, 0, key)
  {
    hide ReadHeader, DecodeEntryBytes;
    var c := 0;
    while c < |records|
      invariant c <= |records|
      invariant FindFrom(records, 0, key) == FindFrom(records, c, key)
    {
      var header := ReadHeader(records, c);
      if header.Err? { return Err(header.error); }
      var (recKey, tag, valLen, next) := header.value;
      var value := ReadBytes(records, next, valLen);
      if value.Err? { return Err(value.error); }
      if recKey == key {
        var e := DecodeEntryBytes(tag, value.value);
        if e.Err? { return Err(e.error); }
        return Ok(Some(e.value));
      }
      if Less(key, recKey) {
        break;
      }
      c := next + valLen;
    }
    r := Ok(None);
  }

  lemma FindStep(records: bytes, c: nat, r: Record, key: bytes)
    requires At(records, c, EncodeRecord(r)) && |records| < U32
    ensures var next := c + |EncodeRecord(r)|;
      FindFrom(records, c, key) ==
        if r.key == key then Ok(Some(r.entry))
        else if Less(key, r.key) then Ok(None)
        else FindFrom(records, next, key)
  {
    hide *;
    AtBound(records, c, EncodeRecord(r));
    ReadHeaderAt(records, c, r);
    DecodeEntryRoundTrip(r.entry);
    ReadBytesAt(records, c + 9 + |r.key|, ValueBytes(r.entry));
    FindPastHeader(records, c, key, r.key, TypeByte(r.entry), ValueBytes(r.entry), c + 9 + |r.key|, r.entry);
  }

  lemma FindPastHeader(records: bytes, c: nat, key: bytes, k: bytes, tag: byte, value: bytes, next: nat, e: Entry)
    requires ReadHeader(records, c) == Ok((k, tag, |value|, next)) && ReadBytes(records, next, |value|) == Ok(value)
    requires DecodeEntryBytes(tag, value) == Ok(e)
    ensures c <= |records| && next + |value| <= |records|
    ensures FindFrom(records, c, key) ==
      if k == key then Ok(Some(e)) else if Less(key, k) then Ok(None) else FindFrom(records, next + |value|, key)
  {
    hide ReadHeader, ReadBytes, DecodeEntryBytes, Less;
  }

  lemma GetOrdered(rs: seq<Record>, key: bytes)
    requires Ascending(rs) && rs != []
    ensures Ascending(rs[1..])
    ensures Get(MapOf(rs), key) ==
      if rs[0].key == key then Some(rs[0].entry)
      else if Less(key, rs[0].key) then None
      else Get(MapOf(rs[1..]), key)
  {
    GetFirst(rs, key);
    if Less(key, rs[0].key) {
      AllAbove(rs[1..], key, rs[0].key);
      LessTotal(key, rs[0].key);
    }
  }

  lemma BlockAtSplit(buf: bytes, c: nat, rs: seq<Record>)
    requires At(buf, c, BlockBytes(rs)) && rs != []
    ensures At(buf, c, EncodeRecord(rs[0])) && At(buf, c + |EncodeRecord(rs[0])|, BlockBytes(rs[1..]))
    ensures |BlockBytes(rs)| == |EncodeRecord(rs[0])| + |BlockBytes(rs[1..])| && c + |BlockBytes(rs)| <= |buf|
  {
    hide EncodeRecord, At;
    AtConcat(buf, c, EncodeRecord(rs[0]), BlockBytes(rs[1..]));
    AtBound(buf, c, BlockBytes(rs));
  }

  /** On a sorted block the scan answers exactly the block's map. */
  lemma {:induction false} FindInSortedBlock(records: bytes, c: nat, rs: seq<Record>, key: bytes)
    requires At(records, c, BlockBytes(rs)) && c + |BlockBytes(rs)| == |records| && |records| < U32
    requires Ascending(rs)
    ensures FindFrom(records, c, key) == Ok(Get(MapOf(rs), key))
    decreases |rs|
  {
    hide *;
    if rs == [] {
      NothingLeft(records, key, []);
    } else {
      BlockAtSplit(records, c, rs);
      FindStep(records, c, rs[0], key);
      GetOrdered(rs, key);
      FindInSortedBlock(records, c + |EncodeRecord(rs[0])|, rs[1..], key);
    }
  }

  lemma AllAbove(rest: seq<Record>, key: bytes, low: bytes)
    requires Less(key, low) && forall i :: 0 <= i < |rest| ==> Less(low, rest[i].key)
    ensures key !in MapOf(rest)
  {
    hide MapOf;
    MapOfKeys(rest, key);
    if Mentions(rest, key) {
      var i :| 0 <= i < |rest| && rest[i].key == key;
      LessTotal(key, low);
    }
  }

  lemma NothingLeft(buf: bytes, key: bytes, out: seq<Record>)
    ensures BlockBytes([]) == [] && FindFrom(buf, |buf|, key) == Ok(None) && Get(MapOf([]), key) == None
    ensures DecodeFrom(buf, |buf|, out) == Ok(out) && out + [] == out
  {
  }

  // ----- reading a whole block -----

  /** Appends every record from `c` on to `out`. */
  function DecodeFrom(buf: bytes, c: nat, out: seq<Record>): Result<seq<Record>>
    requires c <= |buf|
    decreases |buf| - c
  {
    if c == |buf| then Ok(out)
    else
      var (r, next) :- DecodeRecord(buf, c);
      DecodeFrom(buf, next, out + [r])
  }

  /** One record at `c` and the cursor after it; a tombstone's value bytes are not skipped. */
  function DecodeRecord(buf: bytes, c: nat): (r: Result<(Record, nat)>)
    ensures r.Ok? ==> c < r.value.1 <= |buf|
  {
    var (key, tag, valLen, next) :- ReadHeader(buf, c);
    if tag == TYPE_VALUE then
      var value :- ReadBytes(buf, next, valLen);
      var e :- DecodeEntryBytes(tag, value);
      Ok((Record(key, e), next + valLen))
    else
      Ok((Record(key, Tombstone), next))
  }

  lemma DecodeRecordAt(buf: bytes, c: nat, r: Record)
    requires At(buf, c, EncodeRecord(r)) && |buf| < U32
    ensures DecodeRecord(buf, c) == Ok((r, c + |EncodeRecord(r)|))
  {
    EncodeRecordShape(r);
    hide *;
    AtBound(buf, c, EncodeRecord(r));
    ReadHeaderAt(buf, c, r);
    DecodeEntryRoundTrip(r.entry);
    ReadBytesAt(buf, c + 9 + |r.key|, ValueBytes(r.entry));
    DecodePastHeader(buf, c, r.key, TypeByte(r.entry), ValueBytes(r.entry), c + 9 + |r.key|, r.entry);
  }

  lemma EncodeRecordShape(r: Record)
    ensures r.entry.Present? <==> TypeByte(r.entry) == TYPE_VALUE
    ensures r.entry.Tombstone? ==> ValueBytes(r.entry) == []
  {
  }

  lemma DecodePastHeader(buf: bytes, c: nat, k: bytes, tag: byte, value: bytes, next: nat, e: Entry)
    requires ReadHeader(buf, c) == Ok((k, tag, |value|, next)) && ReadBytes(buf, next, |value|) == Ok(value)
    requires DecodeEntryBytes(tag, value) == Ok(e) && (e.Present? <==> tag == TYPE_VALUE)
    requires e.Tombstone? ==> value == []
    ensures DecodeRecord(buf, c) == Ok((Record(k, e), next + |value|))
  {
    hide ReadHeader, ReadBytes, DecodeEntryBytes;
  }

  lemma DecodeStep(buf: bytes, c: nat, r: Record, next: nat, out: seq<Record>)
    requires c < |buf| && DecodeRecord(buf, c) == Ok((r, next))
    ensures DecodeFrom(buf, c, out) == DecodeFrom(buf, next, out + [r])
  {
    hide DecodeRecord;
  }

  lemma {:induction false} DecodeBlock(buf: bytes, c: nat, rs: seq<Record>, out: seq<Record>)
    requires At(buf, c, BlockBytes(rs)) && c + |BlockBytes(rs)| == |buf| && |buf| < U32
    ensures DecodeFrom(buf, c, out) == Ok(out + rs)
    decreases |rs|
  {
    hide *;
    if rs == [] {
      NothingLeft(buf, [], out);
    } else {
      BlockAtSplit(buf, c, rs);
      DecodeRecordAt(buf, c, rs[0]);
      DecodeStep(buf, c, rs[0], c + |EncodeRecord(rs[0])|, out);
      DecodeBlock(buf, c + |EncodeRecord(rs[0])|, rs[1..], out + [rs[0]]);
      Uncons(rs);
      Assoc(out, [rs[0]], rs[1..]);
    }
  }
}
