/** Values, log entries and their byte encoding (a concrete stand-in for the protobuf messages). */
module Codec {
  import opened Bytes

  type int32 = x: int | -0x8000_0000 <= x < 0x8000_0000
  type uint64 = x: nat | x < U64

  /** A float is its bit pattern, a text its UTF-8 bytes. */
  datatype Value =
    | Integer(n: int32)
    | Float(bits: uint64)
    | Text(utf8: bytes)
    | Boolean(b: bool)
    | Bytes(data: bytes)

  /** A key's state in one layer. */
  datatype Entry = Present(value: Value) | Tombstone

  /** The `oneof` of a decoded message may be unset. */
  datatype ValueMessage = ValueMessage(kind: Option<Value>)

  datatype Operation = Put | Delete | Commit

  datatype WalEntry = WalEntry(
    opcode: int32, key: bytes, value: Option<ValueMessage>, sequence: uint64, timestamp: uint64)
  {
    /** An unknown opcode reads as the default, PUT. */
    function Op(): Operation {
      if opcode == 1 then Delete else if opcode == 2 then Commit else Put
    }
  }

  function ToProto(v: Value): ValueMessage {
    ValueMessage(Some(v))
  }

  function FromProto(msg: ValueMessage): Result<Value> {
    match msg.kind
    case Some(v) => Ok(v)
    case None => Err(DecodeError)
  }

  // ----- value messages -----

  function EncodeValue(msg: ValueMessage): (b: bytes)
  {
    match msg.kind
    case None => []
    case Some(Integer(n)) => [1] + BE(n + 0x8000_0000, 4)
    case Some(Float(bits)) => [2] + BE(bits, 8)
    case Some(Text(s)) => [3] + s
    case Some(Boolean(b)) => [4, if b then 1 else 0]
    case Some(Bytes(d)) => [5] + d
  }

  function DecodeValue(b: bytes): Option<ValueMessage>
  {
    if b == [] then Some(ValueMessage(None))
    else if b[0] == 1 && |b| == 5 then Pow256Widths(); Some(ToProto(Integer(FromBE(b[1..]) - 0x8000_0000)))
    else if b[0] == 2 && |b| == 9 then Pow256Widths(); Some(ToProto(Float(FromBE(b[1..]))))
    else if b[0] == 3 then Some(ToProto(Text(b[1..])))
    else if b[0] == 4 && |b| == 2 && b[1] <= 1 then Some(ToProto(Boolean(b[1] == 1)))
    else if b[0] == 5 then Some(ToProto(Bytes(b[1..])))
    else None
  }

  lemma ValueRoundTrip(msg: ValueMessage)
    ensures DecodeValue(EncodeValue(msg)) == Some(msg)
  {
    match msg.kind
    case None =>
    case Some(Integer(n)) => U32RoundTrip(n + 0x8000_0000);
    case Some(Float(bits)) => U64RoundTrip(bits);
    case Some(_) =>
  }

  // ----- log entries -----

  function EncodeOptional(v: Option<ValueMessage>): bytes {
    match v
    case None => [0]
    case Some(msg) => [1] + BE(|EncodeValue(msg)|, 8) + EncodeValue(msg)
  }

  function EncodeEntry(e: WalEntry): (b: bytes) {
    BE(e.opcode + 0x8000_0000, 4) + (BE(e.sequence, 8) + (BE(e.timestamp, 8) + (EncodeOptional(e.value) + e.key)))
  }

  function DecodeOptional(b: bytes): Option<(Option<ValueMessage>, bytes)> {
    if b == [] then None
    else if b[0] == 0 then Some((None, b[1..]))
    else if b[0] != 1 || |b| < 9 then None
    else
      var len := FromBE(b[1..9]);
      if 9 + len > |b| then None
      else
        match DecodeValue(b[9..9 + len])
        case None => None
        case Some(msg) => Some((Some(msg), b[9 + len..]))
  }

  function DecodeEntry(b: bytes): Option<WalEntry> {
    if |b| < 20 then None
    else
      match DecodeOptional(b[20..])
      case None => None
      case Some((value, key)) =>
        Pow256Widths();
        Some(WalEntry(FromBE(b[..4]) - 0x8000_0000, key, value, FromBE(b[4..12]), FromBE(b[12..20])))
  }

  lemma OptionalRoundTrip(v: Option<ValueMessage>, rest: bytes)
    requires v.Some? ==> |EncodeValue(v.value)| < U64
    ensures DecodeOptional(EncodeOptional(v) + rest) == Some((v, rest))
  {
    var b := EncodeOptional(v) + rest;
    match v
    case None =>
      assert b[1..] == rest;
    case Some(msg) =>
      var enc := EncodeValue(msg);
      U64RoundTrip(|enc|);
      ValueRoundTrip(msg);
      assert b[1..9] == BE(|enc|, 8);
      assert b[9..9 + |enc|] == enc;
      assert b[9 + |enc|..] == rest;
  }

  lemma HeaderSlices(a: bytes, b: bytes, c: bytes, rest: bytes)
    requires |a| == 4 && |b| == 8 && |c| == 8
    ensures var s := a + (b + (c + rest));
      s[..4] == a && s[4..12] == b && s[12..20] == c && s[20..] == rest
  {
  }

  /** An entry whose encoding a 64-bit length prefix can describe decodes to itself. */
  lemma EntryRoundTrip(e: WalEntry)
    requires |EncodeEntry(e)| < U64
    ensures DecodeEntry(EncodeEntry(e)) == Some(e)
  {
    U32RoundTrip(e.opcode + 0x8000_0000);
    U64RoundTrip(e.sequence);
    U64RoundTrip(e.timestamp);
    OptionalRoundTrip(e.value, e.key);
    hide BE, FromBE, EncodeOptional, DecodeOptional;
    HeaderSlices(BE(e.opcode + 0x8000_0000, 4), BE(e.sequence, 8), BE(e.timestamp, 8), EncodeOptional(e.value) + e.key);
  }
}
