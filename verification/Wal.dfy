/** The write-ahead log: framing, parsing whatever bytes survived, and cutting back to the last COMMIT. */
module Wal {
  import opened Bytes
  import opened Codec
  import opened Disk

  // ----- framing -----

  function Frame(e: WalEntry): bytes {
    BE(|EncodeEntry(e)|, 8) + EncodeEntry(e)
  }

  function LogOf(es: seq<WalEntry>): bytes {
    if es == [] then [] else Frame(es[0]) + LogOf(es[1..])
  }

  /** An entry whose length a 64-bit prefix can hold. */
  predicate Framable(e: WalEntry) {
    |EncodeEntry(e)| < U64
  }

  // ----- parsing -----

  /** Decoded entries, how many stand up to the last COMMIT, and the offset just past it. */
  datatype Parsed = Parsed(entries: seq<WalEntry>, count: nat, end: nat) {
    function Committed(): seq<WalEntry>
      requires count <= |entries|
    {
      entries[..count]
    }
  }

  const NOTHING: Parsed := Parsed([], 0, 0)

  /** Parsing `p` off the first `n` bytes and then `q` off the rest. */
  function Join(p: Parsed, n: nat, q: Parsed): Parsed {
    Parsed(p.entries + q.entries,
           if q.count > 0 then |p.entries| + q.count else p.count,
           if q.count > 0 then n + q.end else p.end)
  }

  /** What one whole frame of `n` bytes with this payload contributes; an undecodable payload is skipped. */
  function One(payload: bytes, n: nat): Parsed {
    match DecodeEntry(payload)
    case None => NOTHING
    case Some(e) => if e.Op() == Commit then Parsed([e], 1, n) else Parsed([e], 0, 0)
  }

  function FrameLen(b: bytes): nat
    requires 8 <= |b|
  {
    8 + FromBE(b[..8])
  }

  predicate HasFrame(b: bytes) {
    8 <= |b| && FrameLen(b) <= |b|
  }

  function Parse(b: bytes): (p: Parsed)
    ensures p.count <= |p.entries| && p.end <= |b| && (p.count == 0 ==> p.end == 0)
    decreases |b|
  {
    if !HasFrame(b) then NOTHING
    else
      var n := FrameLen(b);
      Join(One(b[8..n], n), n, Parse(b[n..]))
  }

  lemma JoinAssoc(p: Parsed, m: nat, q: Parsed, n: nat, r: Parsed)
    requires q.count <= |q.entries|
    ensures Join(Join(p, m, q), m + n, r) == Join(p, m, Join(q, n, r))
  {
    Assoc(p.entries, q.entries, r.entries);
  }

  lemma ParseStep(buffer: bytes, acc: Parsed, offset: nat)
    requires offset <= |buffer| && HasFrame(buffer[offset..])
    ensures var n := FrameLen(buffer[offset..]);
      var payload := buffer[offset + 8..offset + n];
      && offset + n <= |buffer| && FromBE(buffer[offset..offset + 8]) == n - 8
      && Join(acc, offset, Parse(buffer[offset..]))
         == Join(Join(acc, offset, One(payload, n)), offset + n, Parse(buffer[offset + n..]))
  {
    hide One, Join, FromBE;
    var b := buffer[offset..];
    var n := FrameLen(b);
    assert b[..8] == buffer[offset..offset + 8];
    assert b[8..n] == buffer[offset + 8..offset + n];
    assert b[n..] == buffer[offset + n..];
    OneBounds(b[8..n], n);
    JoinAssoc(acc, offset, One(b[8..n], n), n, Parse(b[n..]));
  }

  lemma OneBounds(payload: bytes, n: nat)
    ensures One(payload, n).count <= |One(payload, n).entries| <= 1
    ensures One(payload, n).end == if One(payload, n).count > 0 then n else 0
  {
  }

  lemma NoFrameLeft(buffer: bytes, acc: Parsed, offset: nat)
    requires offset <= |buffer| && !HasFrame(buffer[offset..])
    ensures Join(acc, offset, Parse(buffer[offset..])) == acc
  {
  }

  method ParseBuffer(buffer: bytes) returns (p: Parsed)
    ensures p == Parse(buffer)
  {
    hide Parse, DecodeEntry;
    var entries: seq<WalEntry>, committedCount: nat, committedEnd: nat := [], 0, 0;
    var offset: nat := 0;
    StartParse(buffer);
    while offset < |buffer|
      invariant offset <= |buffer|
      invariant Parse(buffer) == Join(Parsed(entries, committedCount, committedEnd), offset, Parse(buffer[offset..]))
      decreases |buffer| - offset
    {
      ghost var acc := Parsed(entries, committedCount, committedEnd);
      if offset + 8 > |buffer| {
        NoFrameLeft(buffer, acc, offset);
        return Parsed(entries, committedCount, committedEnd);
      }
      assert buffer[offset..][..8] == buffer[offset..offset + 8];
      var len: nat := FromBE(buffer[offset..offset + 8]);
      if offset + 8 + len > |buffer| {
        NoFrameLeft(buffer, acc, offset);
        return Parsed(entries, committedCount, committedEnd);
      }
      ParseStep(buffer, acc, offset);
      match DecodeEntry(buffer[offset + 8..offset + 8 + len]) {
        case Some(entry) =>
          var isCommit := entry.Op() == Commit;
          entries := entries + [entry];
          if isCommit {
            committedCount := |entries|;
            committedEnd := offset + 8 + len;
          }
        case None =>
          assert entries + [] == entries;
      }
      offset := offset + 8 + len;
    }
    p := Parsed(entries, committedCount, committedEnd);
    EndParse(buffer, p);
  }

  lemma StartParse(buffer: bytes)
    ensures Parse(buffer) == Join(NOTHING, 0, Parse(buffer[0..]))
  {
    assert buffer[0..] == buffer;
  }

  lemma EndParse(buffer: bytes, p: Parsed)
    ensures Join(p, |buffer|, Parse(buffer[|buffer|..])) == p
  {
  }

  // ----- whole frames -----

  /** `b` is cut exactly into frames. */
  ghost predicate Framed(b: bytes)
    decreases |b|
  {
    b == [] || (HasFrame(b) && Framed(b[FrameLen(b)..]))
  }

  lemma FrontFrame(x: bytes, y: bytes)
    requires HasFrame(x)
    ensures HasFrame(x + y) && FrameLen(x + y) == FrameLen(x)
    ensures (x + y)[8..FrameLen(x)] == x[8..FrameLen(x)] && (x + y)[FrameLen(x)..] == x[FrameLen(x)..] + y
  {
    assert (x + y)[..8] == x[..8];
  }

  /** Bytes after whole frames parse as if they stood alone. */
  lemma {:induction false} ParseConcat(x: bytes, y: bytes)
    requires Framed(x)
    ensures Parse(x + y) == Join(Parse(x), |x|, Parse(y))
    decreases |x|
  {
    if x == [] {
      assert x + y == y;
    } else {
      hide One, FrameLen, HasFrame, Join;
      var n := FrameLen(x);
      FrontFrame(x, y);
      ParseConcat(x[n..], y);
      OneBounds(x[8..n], n);
      ParseOnce(x);
      ParseOnce(x + y);
      JoinAssoc(One(x[8..n], n), n, Parse(x[n..]), |x| - n, Parse(y));
    }
  }

  lemma ParseOnce(b: bytes)
    requires HasFrame(b)
    ensures var n := FrameLen(b); 8 <= n <= |b| && Parse(b) == Join(One(b[8..n], n), n, Parse(b[n..]))
  {
  }

  lemma {:induction false} FramedConcat(x: bytes, y: bytes)
    requires Framed(x) && Framed(y)
    ensures Framed(x + y)
    decreases |x|
  {
    if x == [] {
      assert x + y == y;
    } else {
      FrontFrame(x, y);
      FramedConcat(x[FrameLen(x)..], y);
    }
  }

  lemma CutAfterFrame(b: bytes, n: nat, m: nat)
    requires HasFrame(b) && n == FrameLen(b) && m <= |b| - n
    ensures HasFrame(b[..n + m]) && FrameLen(b[..n + m]) == n
    ensures b[..n + m][8..n] == b[8..n] && b[..n + m][n..] == b[n..][..m]
  {
    assert b[..n + m][..8] == b[..8];
  }

  /** The bytes up to the last COMMIT are whole frames and hold exactly the committed entries. */
  lemma {:induction false} CommittedPrefix(b: bytes)
    ensures var p := Parse(b);
      Framed(b[..p.end]) && Parse(b[..p.end]) == Parsed(p.Committed(), p.count, p.end)
    decreases |b|
  {
    hide Parse, FrameLen, HasFrame, One, Framed;
    var p := Parse(b);
    if p.count == 0 {
      assert b[..0] == [];
      NothingFramed();
    } else {
      SomeFrame(b);
      var n := FrameLen(b);
      var q := Parse(b[n..]);
      CommittedPrefix(b[n..]);
      CutAfterFrame(b, n, q.end);
      OneBounds(b[8..n], n);
      ParseOnce(b[..n + q.end]);
      FramedStep(b[..n + q.end]);
      JoinCommitted(One(b[8..n], n), n, q);
    }
  }

  lemma NothingFramed()
    ensures Framed([]) && Parse([]) == NOTHING
  {
  }

  lemma SomeFrame(b: bytes)
    requires Parse(b).count != 0
    ensures HasFrame(b) && 8 <= FrameLen(b) <= |b|
    ensures var n := FrameLen(b); Parse(b) == Join(One(b[8..n], n), n, Parse(b[n..]))
  {
  }

  lemma FramedStep(b: bytes)
    requires HasFrame(b)
    ensures 8 <= FrameLen(b) <= |b| && (Framed(b[FrameLen(b)..]) ==> Framed(b))
  {
  }

  lemma JoinCommitted(one: Parsed, n: nat, q: Parsed)
    requires q.count <= |q.entries| && one.count <= |one.entries| <= 1
    requires q.count == 0 ==> one.count == |one.entries|
    ensures var p := Join(one, n, q);
      Join(one, n, Parsed(q.Committed(), q.count, q.end)) == Parsed(p.Committed(), p.count, p.end)
  {
  }

  // ----- batches -----

  /** Data entries closed by one COMMIT. */
  ghost predicate IsBatch(es: seq<WalEntry>) {
    && es != [] && es[|es| - 1].Op() == Commit
    && (forall i :: 0 <= i < |es| - 1 ==> es[i].Op() != Commit)
    && (forall i :: 0 <= i < |es| ==> Framable(es[i]))
  }

  lemma FrameShape(e: WalEntry)
    requires Framable(e)
    ensures HasFrame(Frame(e)) && FrameLen(Frame(e)) == |Frame(e)| && DecodeEntry(Frame(e)[8..]) == Some(e)
  {
    var enc := EncodeEntry(e);
    U64RoundTrip(|enc|);
    EntryRoundTrip(e);
    hide EncodeEntry, DecodeEntry, BE, FromBE;
    assert Frame(e)[..8] == BE(|enc|, 8) && Frame(e)[8..] == enc;
  }

  lemma ParseFirstFrame(e: WalEntry, rest: bytes)
    requires Framable(e)
    ensures var n := |Frame(e)|;
      Parse(Frame(e) + rest) == Join(if e.Op() == Commit then Parsed([e], 1, n) else Parsed([e], 0, 0), n, Parse(rest))
    ensures HasFrame(Frame(e) + rest) && FrameLen(Frame(e) + rest) == |Frame(e)| && (Frame(e) + rest)[|Frame(e)|..] == rest
  {
    FrameShape(e);
    FrontFrame(Frame(e), rest);
    ParseOnce(Frame(e) + rest);
    hide Frame, Parse, FrameLen, HasFrame, Join, DecodeEntry;
    var n := |Frame(e)|;
    assert Frame(e)[8..n] == Frame(e)[8..];
    assert Frame(e)[n..] + rest == rest;
  }

  /** A batch's bytes parse back to the batch, all of it committed, up to the last byte. */
  lemma {:induction false} BatchParses(es: seq<WalEntry>)
    requires IsBatch(es)
    ensures Parse(LogOf(es)) == Parsed(es, |es|, |LogOf(es)|) && Framed(LogOf(es)) && LogOf(es) != []
    decreases |es|
  {
    hide Frame, LogOf, Parse, HasFrame, FrameLen;
    Uncons(es);
    LogOfFirst(es);
    LogOfEmpty(es[1..]);
    ParseFirstFrame(es[0], LogOf(es[1..]));
    FrameNonEmpty(es[0]);
    if |es| > 1 { BatchParses(es[1..]); }
  }

  lemma FrameNonEmpty(e: WalEntry)
    ensures 8 <= |Frame(e)|
  {
  }

  lemma LogOfEmpty(es: seq<WalEntry>)
    ensures es == [] ==> LogOf(es) == [] && Parse(LogOf(es)) == NOTHING && Framed(LogOf(es))
  {
  }

  lemma LogOfFirst(es: seq<WalEntry>)
    requires es != []
    ensures LogOf(es) == Frame(es[0]) + LogOf(es[1..])
  {
  }

  lemma TornFrame(e: WalEntry, rest: bytes, m: nat)
    requires Framable(e) && m < |Frame(e)|
    ensures Parse((Frame(e) + rest)[..m]) == NOTHING
  {
    FrameShape(e);
    hide Frame, Join, One;
    var b := (Frame(e) + rest)[..m];
    if 8 <= m {
      assert b[..8] == Frame(e)[..8];
    }
  }

  /** A batch cut anywhere before its end commits nothing. */
  lemma {:induction false} TornBatch(es: seq<WalEntry>, m: nat)
    requires IsBatch(es) && m < |LogOf(es)|
    ensures Parse(LogOf(es)[..m]).count == 0
    decreases |es|
  {
    hide *;
    BatchFacts(es);
    var n, rest := |Frame(es[0])|, LogOf(es[1..]);
    LogOfFirst(es);
    LogOfEmpty(es[1..]);
    if m < n {
      TornFrame(es[0], rest, m);
      NothingCounts();
    } else {
      CutInRest(Frame(es[0]), rest, m);
      ParseFirstFrame(es[0], rest[..m - n]);
      TornBatch(es[1..], m - n);
      JoinDataOnly(es[0], n, Parse(rest[..m - n]));
    }
  }

  /** All but the last entry of a batch are data, and what follows the first is a batch again. */
  lemma BatchFacts(es: seq<WalEntry>)
    requires IsBatch(es)
    ensures es != [] && Framable(es[0])
    ensures es[1..] != [] ==> es[0].Op() != Commit && IsBatch(es[1..])
  {
    hide Framable;
  }

  lemma NothingCounts()
    ensures NOTHING.count == 0
  {
  }

  lemma JoinDataOnly(e: WalEntry, n: nat, q: Parsed)
    requires q.count == 0
    ensures Join(Parsed([e], 0, 0), n, q).count == 0
  {
  }

  lemma CutInRest(a: bytes, b: bytes, m: nat)
    requires |a| <= m <= |a| + |b|
    ensures (a + b)[..m] == a + b[..m - |a|]
  {
  }

  // ----- many batches and a cut -----

  function Concat(batches: seq<seq<WalEntry>>): seq<WalEntry> {
    if batches == [] then [] else batches[0] + Concat(batches[1..])
  }

  function LogOfAll(batches: seq<seq<WalEntry>>): bytes {
    if batches == [] then [] else LogOf(batches[0]) + LogOfAll(batches[1..])
  }

  /** How many leading batches lie wholly within the first `cut` bytes. */
  function Whole(batches: seq<seq<WalEntry>>, cut: nat): (k: nat)
    ensures k <= |batches|
  {
    if batches == [] || cut < |LogOf(batches[0])| then 0 else 1 + Whole(batches[1..], cut - |LogOf(batches[0])|)
  }

  /** `Whole` is the longest run of batches whose last byte, the end of their COMMIT, is before the cut. */
  lemma {:induction false} WholeIsLongest(batches: seq<seq<WalEntry>>, cut: nat, k: nat)
    requires k <= |batches| && forall i :: 0 <= i < |batches| ==> IsBatch(batches[i])
    ensures |LogOfAll(batches[..k])| <= cut <==> k <= Whole(batches, cut)
    decreases |batches|
  {
    hide LogOf;
    if k != 0 {
      assert batches[..k][0] == batches[0] && batches[..k][1..] == batches[1..][..k - 1];
      if cut >= |LogOf(batches[0])| {
        WholeIsLongest(batches[1..], cut - |LogOf(batches[0])|, k - 1);
      }
    }
  }

  /** Recovering any cut of a log yields exactly the batches whose COMMIT survived, and ends right after them. */
  lemma {:induction false} TornLog(batches: seq<seq<WalEntry>>, cut: nat)
    requires cut <= |LogOfAll(batches)| && forall i :: 0 <= i < |batches| ==> IsBatch(batches[i])
    ensures var p := Parse(LogOfAll(batches)[..cut]);
      var k := Whole(batches, cut);
      p.Committed() == Concat(batches[..k]) && p.end == |LogOfAll(batches[..k])|
    decreases |batches|
  {
    hide LogOf, Parse, Concat, LogOfAll;
    TakeSteps(batches, Whole(batches, cut));
    if batches == [] {
      LogOfEmpty([]);
    } else {
      var first, rest := LogOf(batches[0]), LogOfAll(batches[1..]);
      if cut < |first| {
        TornBatch(batches[0], cut);
        assert (first + rest)[..cut] == first[..cut];
      } else {
        TornLog(batches[1..], cut - |first|);
        BatchParses(batches[0]);
        CutInRest(first, rest, cut);
        ParseConcat(first, rest[..cut - |first|]);
        JoinWhole(batches[0], |first|, Parse(rest[..cut - |first|]));
      }
    }
  }

  lemma TakeSteps(batches: seq<seq<WalEntry>>, k: nat)
    requires k <= |batches|
    ensures batches != [] ==> LogOfAll(batches) == LogOf(batches[0]) + LogOfAll(batches[1..])
    ensures batches == [] ==> LogOfAll(batches) == LogOf([])
    ensures k == 0 ==> Concat(batches[..k]) == [] && LogOfAll(batches[..k]) == []
    ensures k > 0 ==> Concat(batches[..k]) == batches[0] + Concat(batches[1..][..k - 1])
    ensures k > 0 ==> LogOfAll(batches[..k]) == LogOf(batches[0]) + LogOfAll(batches[1..][..k - 1])
  {
    LogOfEmpty([]);
    hide LogOf;
    if k > 0 {
      assert batches[..k][0] == batches[0] && batches[..k][1..] == batches[1..][..k - 1];
    }
  }

  lemma JoinWhole(es: seq<WalEntry>, n: nat, q: Parsed)
    requires es != [] && q.count <= |q.entries| && (q.count == 0 ==> q.end == 0)
    ensures var p := Join(Parsed(es, |es|, n), n, q);
      p.count <= |p.entries| && p.Committed() == es + q.Committed() && p.end == n + q.end
  {
  }

  // ----- recovery on arbitrary bytes -----

  /** Recovering what recovery left gives the same entries and nothing after them. */
  lemma RecoveryIdempotent(b: bytes)
    ensures var p := Parse(b);
      var again := Parse(b[..p.end]);
      again.entries == again.Committed() == p.Committed() && again.end == p.end == |b[..p.end]|
  {
    hide Parse;
    CommittedPrefix(b);
  }

  /** After recovery of any bytes, a new batch is committed alone: nothing of the dropped tail is adopted. */
  lemma NoAdoption(b: bytes, es: seq<WalEntry>)
    requires IsBatch(es)
    ensures var p := Parse(b);
      var q := Parse(b[..p.end] + LogOf(es));
      q.entries == q.Committed() == p.Committed() + es && q.end == p.end + |LogOf(es)|
  {
    hide Parse, LogOf;
    var p := Parse(b);
    CommittedPrefix(b);
    BatchParses(es);
    ParseConcat(b[..p.end], LogOf(es));
  }

  /** A whole frame whose payload does not decode, between two batches, adds nothing and loses nothing. */
  lemma UndecodableSkipped(a: seq<WalEntry>, payload: bytes, b: seq<WalEntry>)
    requires IsBatch(a) && IsBatch(b) && |payload| < U64 && DecodeEntry(payload) == None
    ensures var log := LogOf(a) + (BE(|payload|, 8) + payload + LogOf(b));
      Parse(log) == Parsed(a + b, |a| + |b|, |log|)
  {
    hide *;
    BatchParses(a);
    BatchParses(b);
    BadFrame(payload, LogOf(b));
    ParseConcat(LogOf(a), BE(|payload|, 8) + payload + LogOf(b));
    JoinBatches(a, |LogOf(a)|, 8 + |payload|, b, |LogOf(b)|);
  }

  lemma JoinBatches(a: seq<WalEntry>, m: nat, gap: nat, b: seq<WalEntry>, n: nat)
    requires IsBatch(b)
    ensures Join(Parsed(a, |a|, m), m, Join(NOTHING, gap, Parsed(b, |b|, n))) == Parsed(a + b, |a| + |b|, m + gap + n)
  {
    assert [] + b == b;
  }

  lemma BadFrame(payload: bytes, rest: bytes)
    requires |payload| < U64 && DecodeEntry(payload) == None
    ensures Parse(BE(|payload|, 8) + payload + rest) == Join(NOTHING, 8 + |payload|, Parse(rest))
  {
    hide Parse, DecodeEntry, BE, FromBE, Join;
    U64RoundTrip(|payload|);
    var b, n := BE(|payload|, 8) + payload + rest, 8 + |payload|;
    assert b[..8] == BE(|payload|, 8) && b[8..n] == payload && b[n..] == rest;
    ParseOnce(b);
  }

  // ----- the log object -----

  class Wal {
    const device: Device

    constructor (device: Device)
      ensures this.device == device
    {
      this.device := device;
    }

    method Append(e: WalEntry)
      modifies device
      ensures device.image == Apply(old(device.image), DiskOp.Append(Frame(e)))
      ensures device.history == old(device.history) + [DiskOp.Append(Frame(e))] && device.stuck == old(device.stuck)
    {
      device.Do(DiskOp.Append(Frame(e)));
    }

    /** Appends a COMMIT marker and fsyncs the log. */
    method WriteCommit(sequence: uint64)
      modifies device
      ensures device.image == Apply(Apply(old(device.image), DiskOp.Append(Frame(CommitEntry(sequence)))), Sync)
      ensures device.history == old(device.history) + [DiskOp.Append(Frame(CommitEntry(sequence))), Sync]
      ensures device.stuck == old(device.stuck)
    {
      device.Do(DiskOp.Append(Frame(CommitEntry(sequence))));
      device.Do(Sync);
    }

    /** Returns the committed entries and cuts everything after the last COMMIT off the file. */
    method ReadForRecovery() returns (entries: seq<WalEntry>)
      modifies device
      ensures var p := Parse(old(device.image).wal);
        && entries == p.Committed()
        && device.history == old(device.history) + RecoveryOps(old(device.image))
        && device.image == ApplyAll(old(device.image), RecoveryOps(old(device.image)))
        && device.stuck == old(device.stuck)
    {
      var buffer := device.image.wal;
      var p := ParseBuffer(buffer);
      hide Parse;
      ApplyOne(device.image, Truncate(p.end));
      if p.end < |buffer| {
        device.Do(Truncate(p.end));
      }
      entries := p.entries[..p.count];
    }

    method Clear()
      modifies device
      ensures device.image == Apply(old(device.image), DiskOp.Clear)
      ensures device.history == old(device.history) + [DiskOp.Clear] && device.stuck == old(device.stuck)
    {
      device.Do(DiskOp.Clear);
    }
  }

  function RecoveryOps(im: Image): seq<DiskOp> {
    var p := Parse(im.wal);
    if p.end < |im.wal| then [Truncate(p.end)] else []
  }

  function PutEntry(key: bytes, value: Value, sequence: uint64): WalEntry {
    WalEntry(0, key, Some(ToProto(value)), sequence, 0)
  }

  function DeleteEntry(key: bytes, sequence: uint64): WalEntry {
    WalEntry(1, key, None, sequence, 0)
  }

  function CommitEntry(sequence: uint64): WalEntry {
    WalEntry(2, [], None, sequence, 0)
  }
}
