/**
 NOVA Binary Format records (crates/nova-storage/src/format.rs): the layout, the encoder that grows a
 buffer, the decoder that advances a reader, and what the pair promises about whole streams, torn
 tails and corrupted bytes.
 */
module NbfFormat {
  import opened Core
  import opened Bytes
  import opened DocumentIds
  import Crc32
  import Utf8

  const MAGIC: seq<byte> := [0x4E, 0x4F, 0x56, 0x42]
  const VERSION: nat := 1
  const HEADER_SIZE: nat := 28
  const MAX_PAYLOAD: nat := 64 * 1024 * 1024

  type u64 = n: nat | n < U64_LIMIT

  datatype RecordType = Insert | Update | Delete | Checkpoint | TxBegin | TxCommit | TxRollback

  function TypeByte(t: RecordType): byte {
    match t
    case Insert => 1
    case Update => 2
    case Delete => 3
    case Checkpoint => 4
    case TxBegin => 5
    case TxCommit => 6
    case TxRollback => 7
  }

  /** `RecordType::from_u8`. */
  function TypeFromByte(b: byte): (r: Result<RecordType>)
    ensures r.Ok? ==> TypeByte(r.value) == b
    ensures r.Ok? <==> 1 <= b <= 7
  {
    match b
    case 1 => Ok(Insert)
    case 2 => Ok(Update)
    case 3 => Ok(Delete)
    case 4 => Ok(Checkpoint)
    case 5 => Ok(TxBegin)
    case 6 => Ok(TxCommit)
    case 7 => Ok(TxRollback)
    case _ => Err(StorageError)
  }

  datatype NbfRecord = NbfRecord(
    sequence: u64,
    recordType: RecordType,
    flags: byte,
    txId: Option<u64>,
    timestamp: u64,
    namespace: string,
    collection: string,
    documentId: DocumentId,
    payload: seq<byte>)

  // ---- layout ----

  function RawTx(txId: Option<u64>): u64 {
    if txId.Some? then txId.value else 0
  }

  function StringField(s: string): seq<byte> {
    BigEndian(|Utf8.Encode(s)|, 2) + Utf8.Encode(s)
  }

  function HeaderBytes(t: RecordType, flags: byte, sequence: u64, rawTx: u64, timestamp: u64): (s: seq<byte>)
    ensures |s| == HEADER_SIZE
  {
    BigEndian(VERSION, 2) + [TypeByte(t), flags] + BigEndian(sequence, 8) + BigEndian(rawTx, 8) + BigEndian(timestamp, 8)
  }

  function Header(r: NbfRecord): (s: seq<byte>)
    ensures |s| == HEADER_SIZE
  {
    HeaderBytes(r.recordType, r.flags, r.sequence, RawTx(r.txId), r.timestamp)
  }

  function PayloadField(p: seq<byte>): seq<byte> {
    BigEndian(|p|, 4) + p
  }

  /** Everything the checksum covers. */
  function Body(r: NbfRecord): seq<byte> {
    MAGIC + (Header(r) + (StringField(r.namespace) + (StringField(r.collection)
      + (StringField(r.documentId) + PayloadField(r.payload)))))
  }

  function RecordBytes(r: NbfRecord): seq<byte> {
    Body(r) + BigEndian(Crc32.Checksum(Body(r)), 4)
  }

  /** The size limits `encode` enforces. */
  predicate Encodable(r: NbfRecord) {
    && Utf8.ByteLength(r.namespace) < U16_LIMIT
    && Utf8.ByteLength(r.collection) < U16_LIMIT
    && |r.payload| <= MAX_PAYLOAD
  }

  lemma FieldSizes(r: NbfRecord)
    ensures |Utf8.Encode(r.namespace)| == Utf8.ByteLength(r.namespace)
    ensures |Utf8.Encode(r.collection)| == Utf8.ByteLength(r.collection)
    ensures |Utf8.Encode(r.documentId)| <= MAX_ID_BYTES
  {
    Utf8.EncodeLength(r.namespace);
    Utf8.EncodeLength(r.collection);
    IdBytes(r.documentId);
  }

  lemma Assoc(a: seq<byte>, b: seq<byte>, c: seq<byte>)
    ensures a + b + c == a + (b + c)
  {
  }

  /** One length-prefixed string of `encode`. */
  method AppendText(buf: seq<byte>, text: string) returns (res: Result<seq<byte>>)
    ensures res == if |Utf8.Encode(text)| < U16_LIMIT then Ok(buf + StringField(text)) else Err(StorageError)
  {
    var bytes := Utf8.Encode(text);
    if |bytes| >= U16_LIMIT { return Err(StorageError); }
    Assoc(buf, BigEndian(|bytes|, 2), bytes);
    return Ok(buf + BigEndian(|bytes|, 2) + bytes);
  }

  method AppendHeader(buf: seq<byte>, r: NbfRecord) returns (res: seq<byte>)
    ensures res == buf + Header(r)
  {
    hide BigEndian;
    hide TypeByte;
    hide RawTx;
    var v, s, x, t := BigEndian(VERSION, 2), BigEndian(r.sequence, 8), BigEndian(RawTx(r.txId), 8), BigEndian(r.timestamp, 8);
    res := buf + v;
    res := res + [TypeByte(r.recordType)];
    res := res + [r.flags];
    res := res + s;
    res := res + x;
    res := res + t;
    HeaderInOrder(buf, v, [TypeByte(r.recordType)], [r.flags], s, x, t);
  }

  lemma HeaderInOrder(buf: seq<byte>, v: seq<byte>, k: seq<byte>, f: seq<byte>, s: seq<byte>, x: seq<byte>, t: seq<byte>)
    ensures buf + v + k + f + s + x + t == buf + (v + (k + f) + s + x + t)
  {
    Assoc(buf, v, k);
    Assoc(buf, v + k, f);
    Assoc(v, k, f);
    Assoc(buf, v + (k + f), s);
    Assoc(buf, v + (k + f) + s, x);
    Assoc(buf, v + (k + f) + s + x, t);
  }

  lemma BodyInOrder(r: NbfRecord)
    ensures Body(r) == MAGIC + Header(r) + StringField(r.namespace) + StringField(r.collection)
                       + StringField(r.documentId) + PayloadField(r.payload)
  {
    var f1, f2, f3, f4 := StringField(r.namespace), StringField(r.collection), StringField(r.documentId), PayloadField(r.payload);
    Assoc(MAGIC, Header(r), f1 + (f2 + (f3 + f4)));
    Assoc(MAGIC + Header(r), f1, f2 + (f3 + f4));
    Assoc(MAGIC + Header(r) + f1, f2, f3 + f4);
    Assoc(MAGIC + Header(r) + f1 + f2, f3, f4);
  }

  /** `NbfRecord::encode`. */
  method Encode(r: NbfRecord) returns (res: Result<seq<byte>>)
    ensures res == if Encodable(r) then Ok(RecordBytes(r)) else Err(StorageError)
  {
    FieldSizes(r);
    hide Utf8.ByteLength;
    hide Utf8.Encode;
    hide BigEndian;
    var buf := AppendHeader(MAGIC, r);
    buf :- AppendText(buf, r.namespace);
    buf :- AppendText(buf, r.collection);
    var withId := AppendText(buf, r.documentId);
    assert withId.Ok?;  // an identifier has at most 256 bytes, so the third limit check never fires
    buf := withId.value;
    if |r.payload| > MAX_PAYLOAD { return Err(StorageError); }
    Assoc(buf, BigEndian(|r.payload|, 4), r.payload);
    buf := buf + BigEndian(|r.payload|, 4) + r.payload;
    BodyInOrder(r);
    var hasher := new Crc32.Hasher();
    hasher.Feed(buf);
    var checksum := hasher.Finalize();
    buf := buf + BigEndian(checksum, 4);
    return Ok(buf);
  }

  // ---- decoding, as a function of the bytes that are left ----

  /** `read_exact`: fails with a torn write when too few bytes are left. */
  function Take(s: seq<byte>, n: nat): Result<(seq<byte>, seq<byte>)> {
    if |s| < n then Err(TornWriteDetected) else Ok((s[..n], s[n..]))
  }

  /** A length-prefixed UTF-8 string. */
  function ReadString(s: seq<byte>): Result<(string, seq<byte>)> {
    var (lenBytes, s1) :- Take(s, 2);
    var (bytes, s2) :- Take(s1, FromBigEndian(lenBytes));
    match Utf8.Decode(bytes)
    case None => Err(WalCorrupted)
    case Some(text) => Ok((text, s2))
  }

  function ReadPayload(s: seq<byte>): Result<(seq<byte>, seq<byte>)> {
    var (lenBytes, s1) :- Take(s, 4);
    var len := FromBigEndian(lenBytes);
    if len > MAX_PAYLOAD then Err(WalCorrupted) else Take(s1, len)
  }

  datatype Meta = Meta(recordType: RecordType, flags: byte, sequence: u64, txId: Option<u64>, timestamp: u64)

  function ReadU64(s: seq<byte>): u64
    requires |s| == 8
  {
    FromBigEndianBound(s);
    LimitValues();
    FromBigEndian(s)
  }

  function DecodeHeader(h: seq<byte>): Result<Meta>
    requires |h| == HEADER_SIZE
  {
    if FromBigEndian(h[..2]) != VERSION then Err(StorageError) else
    var t :- TypeFromByte(h[2]);
    var rawTx := ReadU64(h[12..20]);
    Ok(Meta(t, h[3], ReadU64(h[4..12]), if rawTx == 0 then None else Some(rawTx), ReadU64(h[20..28])))
  }

  datatype Names = Names(ns: string, coll: string, idText: string)

  /** Namespace, collection and the text of the document id. */
  function ReadNames(s: seq<byte>): Result<(Names, seq<byte>)> {
    var (ns, s2) :- ReadString(s);
    var (coll, s3) :- ReadString(s2);
    var (idText, s4) :- ReadString(s3);
    Ok((Names(ns, coll, idText), s4))
  }

  /** What `decode` hashes: the strings it decoded, re-encoded, with the identifier already trimmed. */
  function Hashed(header: seq<byte>, ns: string, coll: string, idText: string, id: string, payload: seq<byte>): seq<byte> {
    MAGIC + (header + (StringField(ns) + (StringField(coll)
      + ((BigEndian(|Utf8.Encode(idText)|, 2) + Utf8.Encode(id)) + PayloadField(payload)))))
  }

  /** From the document id on: payload, checksum, and the comparison that decides. */
  function DecodeTail(header: seq<byte>, m: Meta, names: Names, s: seq<byte>): Result<(NbfRecord, seq<byte>)> {
    var id :- NewDocumentId(names.idText);
    var (payload, s1) :- ReadPayload(s);
    var (sum, s2) :- Take(s1, 4);
    if FromBigEndian(sum) != Crc32.Checksum(Hashed(header, names.ns, names.coll, names.idText, id, payload))
    then Err(ChecksumMismatch)
    else Ok((NbfRecord(m.sequence, m.recordType, m.flags, m.txId, m.timestamp, names.ns, names.coll, id, payload), s2))
  }

  /** Everything after the magic bytes. */
  function DecodeRest(s: seq<byte>): Result<(NbfRecord, seq<byte>)> {
    var (header, s1) :- Take(s, HEADER_SIZE);
    var m :- DecodeHeader(header);
    var (names, s2) :- ReadNames(s1);
    DecodeTail(header, m, names, s2)
  }

  datatype Decoded = Record(record: NbfRecord, rest: seq<byte>) | CleanEof | Failed(code: ErrorCode)

  /** `NbfRecord::decode` on the bytes still unread; fewer than four of them are a clean end of file. */
  function DecodeBytes(s: seq<byte>): Decoded {
    if |s| < 4 then CleanEof
    else if s[..4] != MAGIC then Failed(WalCorrupted)
    else match DecodeRest(s[4..])
      case Err(code) => Failed(code)
      case Ok((r, rest)) => Record(r, rest)
  }

  /** A file being read: `BufReader` over the segment. */
  class Reader {
    const data: seq<byte>
    var pos: nat

    ghost predicate Valid()
      reads this
    {
      pos <= |data|
    }

    function Rest(): seq<byte>
      requires Valid()
      reads this
    {
      data[pos..]
    }

    constructor (data: seq<byte>)
      ensures Valid() && pos == 0 && this.data == data
    {
      this.data := data;
      pos := 0;
    }

    /** `read_exact`; on failure nothing that matters later is known about the position. */
    method ReadExact(n: nat) returns (res: Result<seq<byte>>)
      requires Valid()
      modifies this
      ensures Valid()
      ensures match Take(old(Rest()), n)
              case Ok((bytes, rest)) => res == Ok(bytes) && Rest() == rest
              case Err(code) => res == Err(code)
    {
      if pos + n <= |data| {
        res := Ok(data[pos..pos + n]);
        assert data[pos..][..n] == data[pos..pos + n] && data[pos..][n..] == data[pos + n..];
        pos := pos + n;
      } else {
        res := Err(TornWriteDetected);
      }
    }

    method ReadText() returns (res: Result<string>)
      requires Valid()
      modifies this
      ensures Valid()
      ensures match ReadString(old(Rest()))
              case Ok((text, rest)) => res == Ok(text) && Rest() == rest
              case Err(code) => res == Err(code)
    {
      var lenBytes :- ReadExact(2);
      var bytes :- ReadExact(FromBigEndian(lenBytes));
      match Utf8.Decode(bytes)
      case None => res := Err(WalCorrupted);
      case Some(text) => res := Ok(text);
    }
  }

  /** The second half of `decode`: the checksum over the fields it read, fed piece by piece. */
  method HashPieces(magic: seq<byte>, header: seq<byte>, ns: string, coll: string, idText: string, id: string, payload: seq<byte>)
    returns (calculated: nat)
    requires magic == MAGIC
    ensures calculated == Crc32.Checksum(Hashed(header, ns, coll, idText, id, payload))
  {
    var hasher := new Crc32.Hasher();
    hasher.Feed(magic);
    hasher.Feed(header);
    hasher.Feed(BigEndian(|Utf8.Encode(ns)|, 2));
    hasher.Feed(Utf8.Encode(ns));
    hasher.Feed(BigEndian(|Utf8.Encode(coll)|, 2));
    hasher.Feed(Utf8.Encode(coll));
    hasher.Feed(BigEndian(|Utf8.Encode(idText)|, 2));
    hasher.Feed(Utf8.Encode(id));
    hasher.Feed(BigEndian(|payload|, 4));
    hasher.Feed(payload);
    HashedPiecewise(header, ns, coll, idText, id, payload);
    calculated := hasher.Finalize();
  }

  /** `NbfRecord::decode`: reads field by field, then recomputes the checksum piece by piece. */
  method Decode(reader: Reader) returns (res: Result<Option<NbfRecord>>)
    requires reader.Valid()
    modifies reader
    ensures reader.Valid()
    ensures match DecodeBytes(old(reader.Rest()))
            case Record(r, rest) => res == Ok(Some(r)) && reader.Rest() == rest
            case CleanEof => res == Ok(None)
            case Failed(code) => res == Err(code)
  {
    var magic := reader.ReadExact(4);
    if magic.Err? { return Ok(None); }
    if magic.value != MAGIC { return Err(WalCorrupted); }
    var header :- reader.ReadExact(HEADER_SIZE);
    var m :- DecodeHeader(header);
    var ns :- reader.ReadText();
    var coll :- reader.ReadText();
    var idText :- reader.ReadText();
    var id :- NewDocumentId(idText);
    var lenBytes :- reader.ReadExact(4);
    var payloadLen := FromBigEndian(lenBytes);
    if payloadLen > MAX_PAYLOAD { return Err(WalCorrupted); }
    var payload :- reader.ReadExact(payloadLen);
    var sum :- reader.ReadExact(4);
    var calculated := HashPieces(magic.value, header, ns, coll, idText, id, payload);
    if FromBigEndian(sum) != calculated { return Err(ChecksumMismatch); }
    return Ok(Some(NbfRecord(m.sequence, m.recordType, m.flags, m.txId, m.timestamp, ns, coll, id, payload)));
  }

  /** Feeding the ten pieces of a record in turn gives the checksum of the whole. */
  lemma HashedPiecewise(header: seq<byte>, ns: string, coll: string, idText: string, id: string, payload: seq<byte>)
    ensures var c1 := Crc32.Update(Crc32.INIT, MAGIC);
            var c2 := Crc32.Update(c1, header);
            var c3 := Crc32.Update(c2, BigEndian(|Utf8.Encode(ns)|, 2));
            var c4 := Crc32.Update(c3, Utf8.Encode(ns));
            var c5 := Crc32.Update(c4, BigEndian(|Utf8.Encode(coll)|, 2));
            var c6 := Crc32.Update(c5, Utf8.Encode(coll));
            var c7 := Crc32.Update(c6, BigEndian(|Utf8.Encode(idText)|, 2));
            var c8 := Crc32.Update(c7, Utf8.Encode(id));
            var c9 := Crc32.Update(c8, BigEndian(|payload|, 4));
            Crc32.Update(c9, payload) == Crc32.Update(Crc32.INIT, Hashed(header, ns, coll, idText, id, payload))
  {
    var f1, f2 := StringField(ns), StringField(coll);
    var f3 := BigEndian(|Utf8.Encode(idText)|, 2) + Utf8.Encode(id);
    var f4 := PayloadField(payload);
    var c1 := Crc32.Update(Crc32.INIT, MAGIC);
    var c2 := Crc32.Update(c1, header);
    Crc32.UpdateAppend(Crc32.INIT, MAGIC, header + (f1 + (f2 + (f3 + f4))));
    Crc32.UpdateAppend(c1, header, f1 + (f2 + (f3 + f4)));
    Crc32.UpdateAppend(c2, f1, f2 + (f3 + f4));
    var c4 := Crc32.Update(c2, f1);
    Crc32.UpdateAppend(c4, f2, f3 + f4);
    var c6 := Crc32.Update(c4, f2);
    Crc32.UpdateAppend(c6, f3, f4);
    Crc32.UpdateAppend(c2, BigEndian(|Utf8.Encode(ns)|, 2), Utf8.Encode(ns));
    Crc32.UpdateAppend(c4, BigEndian(|Utf8.Encode(coll)|, 2), Utf8.Encode(coll));
    Crc32.UpdateAppend(c6, BigEndian(|Utf8.Encode(idText)|, 2), Utf8.Encode(id));
    Crc32.UpdateAppend(Crc32.Update(c6, f3), BigEndian(|payload|, 4), payload);
  }

  // ---- round trip ----

  /** What a round trip can preserve: a transaction id of zero reads back as none. */
  function Canonical(r: NbfRecord): NbfRecord {
    if r.txId == Some(0) then r.(txId := None) else r
  }

  lemma SplitField(len: seq<byte>, content: seq<byte>, rest: seq<byte>)
    ensures (len + content + rest)[..|len|] == len && (len + content + rest)[|len|..] == content + rest
  {
  }

  lemma ReadStringBack(text: string, rest: seq<byte>)
    requires |Utf8.Encode(text)| < U16_LIMIT
    ensures ReadString(StringField(text) + rest) == Ok((text, rest))
  {
    var bytes := Utf8.Encode(text);
    LimitValues();
    ReadWrite(|bytes|, 2);
    SplitField(BigEndian(|bytes|, 2), bytes, rest);
    SplitAppend(bytes, rest);
    Utf8.DecodeEncode(text);
  }

  lemma ReadPayloadBack(payload: seq<byte>, rest: seq<byte>)
    requires |payload| <= MAX_PAYLOAD
    ensures ReadPayload(PayloadField(payload) + rest) == Ok((payload, rest))
  {
    LimitValues();
    ReadWrite(|payload|, 4);
    SplitField(BigEndian(|payload|, 4), payload, rest);
    SplitAppend(payload, rest);
  }

  lemma HeaderSlices(t: RecordType, flags: byte, sequence: u64, rawTx: u64, timestamp: u64)
    ensures var h := HeaderBytes(t, flags, sequence, rawTx, timestamp);
            && h[..2] == BigEndian(VERSION, 2) && h[2] == TypeByte(t) && h[3] == flags
            && h[4..12] == BigEndian(sequence, 8) && h[12..20] == BigEndian(rawTx, 8) && h[20..28] == BigEndian(timestamp, 8)
  {
  }

  lemma DecodeHeaderBack(t: RecordType, flags: byte, sequence: u64, rawTx: u64, timestamp: u64)
    ensures DecodeHeader(HeaderBytes(t, flags, sequence, rawTx, timestamp))
            == Ok(Meta(t, flags, sequence, if rawTx == 0 then None else Some(rawTx), timestamp))
  {
    HeaderSlices(t, flags, sequence, rawTx, timestamp);
    LimitValues();
    ReadWrite(VERSION, 2);
    ReadWrite(sequence, 8);
    ReadWrite(rawTx, 8);
    ReadWrite(timestamp, 8);
  }

  /** The bytes after the magic, field by field. */
  function Fields(header: seq<byte>, ns: string, coll: string, id: string, payload: seq<byte>, sum: seq<byte>, rest: seq<byte>): seq<byte> {
    header + (StringField(ns) + (StringField(coll) + (StringField(id) + (PayloadField(payload) + (sum + rest)))))
  }

  /** What is left to decide once every field has its full length: the header, the identifier and the checksum. */
  function Verdict(header: seq<byte>, ns: string, coll: string, idText: string, payload: seq<byte>, sum: seq<byte>, rest: seq<byte>)
    : Result<(NbfRecord, seq<byte>)>
    requires |header| == HEADER_SIZE
  {
    var m :- DecodeHeader(header);
    var id :- NewDocumentId(idText);
    if FromBigEndian(sum) != Crc32.Checksum(Hashed(header, ns, coll, idText, id, payload)) then Err(ChecksumMismatch)
    else Ok((NbfRecord(m.sequence, m.recordType, m.flags, m.txId, m.timestamp, ns, coll, id, payload), rest))
  }

  /** The decoder on a well-formed layout with any header, any identifier text and any checksum bytes. */
  lemma DecodeFields(header: seq<byte>, ns: string, coll: string, idText: string, payload: seq<byte>, sum: seq<byte>, rest: seq<byte>)
    requires |header| == HEADER_SIZE && |sum| == 4
    requires |Utf8.Encode(ns)| < U16_LIMIT && |Utf8.Encode(coll)| < U16_LIMIT && |Utf8.Encode(idText)| < U16_LIMIT
    requires |payload| <= MAX_PAYLOAD
    ensures DecodeRest(Fields(header, ns, coll, idText, payload, sum, rest)) ==
            Verdict(header, ns, coll, idText, payload, sum, rest)
  {
    hide Utf8.ByteLength;
    hide Utf8.Encode;
    var s5 := sum + rest;
    var s4 := PayloadField(payload) + s5;
    var s3 := StringField(idText) + s4;
    var s2 := StringField(coll) + s3;
    var s1 := StringField(ns) + s2;
    SplitAppend(header, s1);
    ReadStringBack(ns, s2);
    ReadStringBack(coll, s3);
    ReadStringBack(idText, s4);
    ReadPayloadBack(payload, s5);
    SplitAppend(sum, rest);
  }

  lemma RecordLayout(r: NbfRecord, sum: seq<byte>, rest: seq<byte>)
    ensures Body(r) + sum + rest == MAGIC + Fields(Header(r), r.namespace, r.collection, r.documentId, r.payload, sum, rest)
  {
    BodyInOrder(r);
    var f1, f2, f3, f4 := StringField(r.namespace), StringField(r.collection), StringField(r.documentId), PayloadField(r.payload);
    var p := MAGIC + Header(r) + f1 + f2 + f3;
    Assoc(p + f4, sum, rest);
    Assoc(p, f4, sum + rest);
    Assoc(MAGIC + Header(r) + f1 + f2, f3, f4 + (sum + rest));
    Assoc(MAGIC + Header(r) + f1, f2, f3 + (f4 + (sum + rest)));
    Assoc(MAGIC + Header(r), f1, f2 + (f3 + (f4 + (sum + rest))));
    Assoc(MAGIC, Header(r), f1 + (f2 + (f3 + (f4 + (sum + rest)))));
  }

  /** Decoding what `encode` wrote returns the record and stops right behind it, whatever follows. */
  lemma RoundTrip(r: NbfRecord, rest: seq<byte>)
    requires Encodable(r)
    ensures DecodeBytes(RecordBytes(r) + rest) == Record(Canonical(r), rest)
    ensures Canonical(r) == r <==> r.txId != Some(0)
  {
    FieldSizes(r);
    hide Utf8.ByteLength;
    hide Utf8.Encode;
    var sum := BigEndian(Crc32.Checksum(Body(r)), 4);
    RecordLayout(r, sum, rest);
    var fields := Fields(Header(r), r.namespace, r.collection, r.documentId, r.payload, sum, rest);
    SplitAppend(MAGIC, fields);
    DecodeHeaderBack(r.recordType, r.flags, r.sequence, RawTx(r.txId), r.timestamp);
    LimitValues();
    ReadWrite(Crc32.Checksum(Body(r)), 4);
    DecodeFields(Header(r), r.namespace, r.collection, r.documentId, r.payload, sum, rest);
  }

  // ---- torn tails: how decoding behaves on prefixes ----

  lemma TakePrefix(s: seq<byte>, n: nat, k: nat)
    requires n <= |s| && k <= |s|
    ensures k >= n ==> Take(s[..k], n) == Ok((s[..n], s[n..][..k - n]))
    ensures k < n ==> Take(s[..k], n) == Err(TornWriteDetected)
  {
    if k >= n {
      assert s[..k][..n] == s[..n] && s[..k][n..] == s[n..][..k - n];
    }
  }

  /** A string read from a prefix is the same string, or a torn write if the prefix cuts into it. */
  lemma ReadStringPrefix(s: seq<byte>, k: nat)
    requires ReadString(s).Ok? && k <= |s|
    ensures var (text, rest) := ReadString(s).value;
            && |rest| <= |s|
            && (k >= |s| - |rest| ==> ReadString(s[..k]) == Ok((text, rest[..k - (|s| - |rest|)])))
            && (k < |s| - |rest| ==> ReadString(s[..k]) == Err(TornWriteDetected))
  {
    var n := FromBigEndian(s[..2]);
    TakePrefix(s, 2, k);
    if k >= 2 {
      TakePrefix(s[2..], n, k - 2);
    }
  }

  lemma ReadPayloadPrefix(s: seq<byte>, k: nat)
    requires ReadPayload(s).Ok? && k <= |s|
    ensures var (payload, rest) := ReadPayload(s).value;
            && |rest| <= |s|
            && (k >= |s| - |rest| ==> ReadPayload(s[..k]) == Ok((payload, rest[..k - (|s| - |rest|)])))
            && (k < |s| - |rest| ==> ReadPayload(s[..k]) == Err(TornWriteDetected))
  {
    var n := FromBigEndian(s[..4]);
    TakePrefix(s, 4, k);
    if k >= 4 {
      TakePrefix(s[4..], n, k - 4);
    }
  }

  lemma ReadNamesPrefix(s: seq<byte>, k: nat)
    requires ReadNames(s).Ok? && k <= |s|
    ensures var (names, rest) := ReadNames(s).value;
            && |rest| <= |s|
            && (k >= |s| - |rest| ==> ReadNames(s[..k]) == Ok((names, rest[..k - (|s| - |rest|)])))
            && (k < |s| - |rest| ==> ReadNames(s[..k]) == Err(TornWriteDetected))
  {
    hide ReadString;
    var s2 := ReadString(s).value.1;
    var s3 := ReadString(s2).value.1;
    ReadStringPrefix(s, k);
    ReadStringPrefix(s2, |s2|);
    ReadStringPrefix(s3, |s3|);
    if k >= |s| - |s2| {
      var k2 := k - (|s| - |s2|);
      ReadStringPrefix(s2, k2);
      if k2 >= |s2| - |s3| {
        ReadStringPrefix(s3, k2 - (|s2| - |s3|));
      }
    }
  }

  lemma DecodeTailPrefix(header: seq<byte>, m: Meta, names: Names, s: seq<byte>, k: nat)
    requires DecodeTail(header, m, names, s).Ok? && k <= |s|
    ensures var (r, rest) := DecodeTail(header, m, names, s).value;
            && |rest| <= |s|
            && (k < |s| - |rest| ==> DecodeTail(header, m, names, s[..k]) == Err(TornWriteDetected))
  {
    var s1 := ReadPayload(s).value.1;
    ReadPayloadPrefix(s, k);
    if k >= |s| - |s1| {
      TakePrefix(s1, 4, k - (|s| - |s1|));
    }
  }

  /** Cutting anywhere into a record that decodes leaves a torn write behind the magic bytes. */
  lemma DecodeRestPrefix(s: seq<byte>, k: nat)
    requires DecodeRest(s).Ok? && k <= |s|
    ensures var (r, rest) := DecodeRest(s).value;
            && |rest| <= |s|
            && (k < |s| - |rest| ==> DecodeRest(s[..k]) == Err(TornWriteDetected))
  {
    hide DecodeHeader;
    hide ReadNames;
    hide DecodeTail;
    var header, s1 := s[..HEADER_SIZE], s[HEADER_SIZE..];
    var m := DecodeHeader(header).value;
    var (names, s2) := ReadNames(s1).value;
    TakePrefix(s, HEADER_SIZE, k);
    ReadNamesPrefix(s1, |s1|);
    DecodeTailPrefix(header, m, names, s2, |s2|);
    if k >= HEADER_SIZE {
      var k1 := k - HEADER_SIZE;
      ReadNamesPrefix(s1, k1);
      if k1 >= |s1| - |s2| {
        DecodeTailPrefix(header, m, names, s2, k1 - (|s1| - |s2|));
      }
    }
  }

  lemma DecodeBytesPrefix(s: seq<byte>, k: nat)
    requires DecodeBytes(s).Record? && k < |s| - |DecodeBytes(s).rest|
    ensures DecodeBytes(s[..k]) == if k < 4 then CleanEof else Failed(TornWriteDetected)
  {
    if k >= 4 {
      DecodeRestPrefix(s[4..], k - 4);
      assert s[..k][..4] == s[..4] && s[..k][4..] == s[4..][..k - 4];
    }
  }

  /** Every strict prefix of an encoded record: a clean end below four bytes, a torn write from four on. */
  lemma StrictPrefix(r: NbfRecord, k: nat)
    requires Encodable(r) && k < |RecordBytes(r)|
    ensures DecodeBytes(RecordBytes(r)[..k]) == if k < 4 then CleanEof else Failed(TornWriteDetected)
  {
    RoundTrip(r, []);
    assert RecordBytes(r) + [] == RecordBytes(r);
    DecodeBytesPrefix(RecordBytes(r), k);
  }

  // ---- corrupted bytes ----

  function RawField(bytes: seq<byte>): seq<byte> {
    BigEndian(|bytes|, 2) + bytes
  }

  /** A record layout with arbitrary bytes in the header, the three names and the payload. */
  function Layout(header: seq<byte>, ns: seq<byte>, coll: seq<byte>, id: seq<byte>, payload: seq<byte>): seq<byte> {
    MAGIC + (header + (RawField(ns) + (RawField(coll) + (RawField(id) + PayloadField(payload)))))
  }

  lemma ReadRawField(bytes: seq<byte>, rest: seq<byte>)
    requires |bytes| < U16_LIMIT
    ensures Utf8.Decode(bytes).None? ==> ReadString(RawField(bytes) + rest) == Err(WalCorrupted)
    ensures Utf8.Decode(bytes).Some? ==> RawField(bytes) == StringField(Utf8.Decode(bytes).value)
  {
    if Utf8.Decode(bytes).Some? {
      Utf8.EncodeDecode(bytes);
    } else {
      LimitValues();
      ReadWrite(|bytes|, 2);
      SplitField(BigEndian(|bytes|, 2), bytes, rest);
      SplitAppend(bytes, rest);
    }
  }

  /** The bytes of such a layout behind the magic, with checksum bytes and whatever follows. */
  function RawFields(header: seq<byte>, ns: seq<byte>, coll: seq<byte>, id: seq<byte>, payload: seq<byte>, tail: seq<byte>): seq<byte> {
    header + (RawField(ns) + (RawField(coll) + (RawField(id) + (PayloadField(payload) + tail))))
  }

  lemma BadNamespace(header: seq<byte>, ns: seq<byte>, tail: seq<byte>)
    requires |header| == HEADER_SIZE && |ns| < U16_LIMIT && DecodeHeader(header).Ok? && Utf8.Decode(ns).None?
    ensures DecodeRest(header + (RawField(ns) + tail)) == Err(WalCorrupted)
  {
    SplitAppend(header, RawField(ns) + tail);
    ReadRawField(ns, tail);
  }

  lemma BadCollection(header: seq<byte>, ns: string, coll: seq<byte>, tail: seq<byte>)
    requires |header| == HEADER_SIZE && |Utf8.Encode(ns)| < U16_LIMIT && |coll| < U16_LIMIT
    requires DecodeHeader(header).Ok? && Utf8.Decode(coll).None?
    ensures DecodeRest(header + (StringField(ns) + (RawField(coll) + tail))) == Err(WalCorrupted)
  {
    SplitAppend(header, StringField(ns) + (RawField(coll) + tail));
    ReadStringBack(ns, RawField(coll) + tail);
    ReadRawField(coll, tail);
  }

  lemma BadId(header: seq<byte>, ns: string, coll: string, id: seq<byte>, tail: seq<byte>)
    requires |header| == HEADER_SIZE && |Utf8.Encode(ns)| < U16_LIMIT && |Utf8.Encode(coll)| < U16_LIMIT && |id| < U16_LIMIT
    requires DecodeHeader(header).Ok? && Utf8.Decode(id).None?
    ensures DecodeRest(header + (StringField(ns) + (StringField(coll) + (RawField(id) + tail)))) == Err(WalCorrupted)
  {
    SplitAppend(header, StringField(ns) + (StringField(coll) + (RawField(id) + tail)));
    ReadStringBack(ns, StringField(coll) + (RawField(id) + tail));
    ReadStringBack(coll, RawField(id) + tail);
    ReadRawField(id, tail);
  }

  lemma BadHeader(header: seq<byte>, tail: seq<byte>)
    requires |header| == HEADER_SIZE && DecodeHeader(header).Err?
    ensures DecodeRest(header + tail) == Err(StorageError)
  {
    SplitAppend(header, tail);
  }

  /** The error that refuses a layout of full length with a wrong checksum: the first that the decoder meets. */
  function Refusal(header: seq<byte>, ns: seq<byte>, coll: seq<byte>, id: seq<byte>): ErrorCode
    requires |header| == HEADER_SIZE
  {
    if DecodeHeader(header).Err? then StorageError
    else if Utf8.Decode(ns).None? || Utf8.Decode(coll).None? || Utf8.Decode(id).None? then WalCorrupted
    else if NewDocumentId(Utf8.Decode(id).value).Err? then InvalidQuery
    else ChecksumMismatch
  }

  /** The bytes read as an identifier that is not the text they stand for: `DocumentId::new` takes its white space off. */
  predicate Retrimmed(id: seq<byte>) {
    var text := Utf8.Decode(id);
    text.Some? && NewDocumentId(text.value).Ok? && NewDocumentId(text.value).value != text.value
  }

  lemma WrongChecksumRest(header: seq<byte>, ns: seq<byte>, coll: seq<byte>, id: seq<byte>, payload: seq<byte>, sum: seq<byte>, rest: seq<byte>)
    requires |header| == HEADER_SIZE && |sum| == 4
    requires |ns| < U16_LIMIT && |coll| < U16_LIMIT && |id| < U16_LIMIT && |payload| <= MAX_PAYLOAD
    requires FromBigEndian(sum) != Crc32.Checksum(Layout(header, ns, coll, id, payload))
    ensures var d := DecodeRest(RawFields(header, ns, coll, id, payload, sum + rest));
            d != Err(TornWriteDetected) && (!Retrimmed(id) ==> d == Err(Refusal(header, ns, coll, id)))
  {
    hide Utf8.Decode;
    hide Utf8.Encode;
    var s4 := PayloadField(payload) + (sum + rest);
    ReadRawField(ns, []);
    ReadRawField(coll, []);
    ReadRawField(id, []);
    if DecodeHeader(header).Err? {
      BadHeader(header, RawField(ns) + (RawField(coll) + (RawField(id) + s4)));
    } else if Utf8.Decode(ns).None? {
      BadNamespace(header, ns, RawField(coll) + (RawField(id) + s4));
    } else {
      Utf8.EncodeDecode(ns);
      if Utf8.Decode(coll).None? {
        BadCollection(header, Utf8.Decode(ns).value, coll, RawField(id) + s4);
      } else {
        Utf8.EncodeDecode(coll);
        if Utf8.Decode(id).None? {
          BadId(header, Utf8.Decode(ns).value, Utf8.Decode(coll).value, id, s4);
        } else {
          Utf8.EncodeDecode(id);
          hide DecodeRest;
          DecodeFields(header, Utf8.Decode(ns).value, Utf8.Decode(coll).value, Utf8.Decode(id).value, payload, sum, rest);
        }
      }
    }
  }

  /** A full-length layout whose checksum is wrong is never taken for a torn write, and decodes at most with its identifier trimmed. */
  lemma WrongChecksum(header: seq<byte>, ns: seq<byte>, coll: seq<byte>, id: seq<byte>, payload: seq<byte>, sum: seq<byte>, rest: seq<byte>)
    requires |header| == HEADER_SIZE && |sum| == 4
    requires |ns| < U16_LIMIT && |coll| < U16_LIMIT && |id| < U16_LIMIT && |payload| <= MAX_PAYLOAD
    requires FromBigEndian(sum) != Crc32.Checksum(Layout(header, ns, coll, id, payload))
    ensures var d := DecodeBytes(Layout(header, ns, coll, id, payload) + (sum + rest));
            d != Failed(TornWriteDetected) && d != CleanEof && (!Retrimmed(id) ==> d == Failed(Refusal(header, ns, coll, id)))
  {
    hide Utf8.Decode;
    LayoutSplit(header, ns, coll, id, payload, sum, rest);
    SplitAppend(MAGIC, RawFields(header, ns, coll, id, payload, sum + rest));
    WrongChecksumRest(header, ns, coll, id, payload, sum, rest);
    hide DecodeRest;
    hide Refusal;
    hide RawFields;
    hide Retrimmed;
  }

  lemma LayoutSplit(header: seq<byte>, ns: seq<byte>, coll: seq<byte>, id: seq<byte>, payload: seq<byte>, sum: seq<byte>, rest: seq<byte>)
    ensures Layout(header, ns, coll, id, payload) + (sum + rest) ==
            MAGIC + RawFields(header, ns, coll, id, payload, sum + rest)
  {
    var f1, f2, f3, f4, t := RawField(ns), RawField(coll), RawField(id), PayloadField(payload), sum + rest;
    Assoc(MAGIC, header + (f1 + (f2 + (f3 + f4))), t);
    Assoc(header, f1 + (f2 + (f3 + f4)), t);
    Assoc(f1, f2 + (f3 + f4), t);
    Assoc(f2, f3 + f4, t);
    Assoc(f3, f4, t);
  }

  /** A record's body cut into magic, header, three length-prefixed names and the length-prefixed payload. */
  function Parts(r: NbfRecord): (q: seq<seq<byte>>)
    ensures |q| == 10
  {
    [MAGIC, Header(r), BigEndian(|Utf8.Encode(r.namespace)|, 2), Utf8.Encode(r.namespace),
     BigEndian(|Utf8.Encode(r.collection)|, 2), Utf8.Encode(r.collection),
     BigEndian(|Utf8.Encode(r.documentId)|, 2), Utf8.Encode(r.documentId), BigEndian(|r.payload|, 4), r.payload]
  }

  /** A same-size copy of the body in which the length prefixes are intact. */
  predicate SameShape(r: NbfRecord, q: seq<seq<byte>>) {
    && |q| == 10
    && |q[0]| == 4 && |q[1]| == HEADER_SIZE && |q[3]| == |Parts(r)[3]| && |q[5]| == |Parts(r)[5]| && |q[7]| == |Parts(r)[7]|
    && |q[9]| == |Parts(r)[9]|
    && q[2] == Parts(r)[2] && q[4] == Parts(r)[4] && q[6] == Parts(r)[6] && q[8] == Parts(r)[8]
  }

  lemma ConcatSix(q: seq<seq<byte>>)
    requires |q| == 6
    ensures Flatten(q) == (q[0] + q[1]) + ((q[2] + q[3]) + (q[4] + q[5]))
  {
    assert Flatten(q[4..]) == q[4] + q[5] by {
      assert q[4..][1..] == q[5..] && Flatten(q[5..]) == q[5] + Flatten(q[6..]);
    }
    assert Flatten(q[2..]) == (q[2] + q[3]) + (q[4] + q[5]) by {
      assert q[2..][1..] == q[3..] && q[3..][1..] == q[4..];
      Assoc(q[2], q[3], q[4] + q[5]);
    }
    assert q[1..][1..] == q[2..];
    Assoc(q[0], q[1], Flatten(q[2..]));
  }

  lemma ConcatTen(q: seq<seq<byte>>)
    requires |q| == 10
    ensures Flatten(q) == q[0] + (q[1] + ((q[2] + q[3]) + ((q[4] + q[5]) + ((q[6] + q[7]) + (q[8] + q[9])))))
  {
    ConcatSix(q[4..]);
    assert Flatten(q[2..]) == (q[2] + q[3]) + Flatten(q[4..]) by {
      assert q[2..][1..] == q[3..] && q[3..][1..] == q[4..];
      Assoc(q[2], q[3], Flatten(q[4..]));
    }
    assert q[1..][1..] == q[2..];
  }

  lemma ShapeIsLayout(r: NbfRecord, q: seq<seq<byte>>)
    requires SameShape(r, q) && q[0] == MAGIC
    ensures Flatten(q) == Layout(q[1], q[3], q[5], q[7], q[9])
  {
    hide Flatten;
    ConcatTen(q);
  }

  lemma PartsOfBody(r: NbfRecord)
    ensures Flatten(Parts(r)) == Body(r) && SameShape(r, Parts(r))
  {
    ShapeIsLayout(r, Parts(r));
    hide Flatten;
  }

  /** The identifier bytes are those of some identifier, as `DocumentId::new` keeps it. */
  predicate ReadsAsId(id: seq<byte>) {
    Utf8.Decode(id).Some? && IsDocumentId(Utf8.Decode(id).value)
  }

  /**
   A record changed inside four consecutive bytes of its body, outside the length prefixes, never passes
   for a torn write, whatever follows it, and is refused as corrupted unless the damage gave its
   identifier outer white space. If the version, the type and both names survived and the identifier
   reads as some identifier, another one even, the refusal is the checksum's.
   */
  lemma CorruptionDetected(r: NbfRecord, q: seq<seq<byte>>, at: nat, rest: seq<byte>)
    requires Encodable(r) && SameShape(r, q) && Crc32.DifferInWindow(Body(r), Flatten(q), at)
    ensures var d := DecodeBytes(Flatten(q) + (BigEndian(Crc32.Checksum(Body(r)), 4) + rest));
            && d != Failed(TornWriteDetected) && d != CleanEof
            && (!Retrimmed(q[7]) ==> d.Failed?)
            && (q[0] == MAGIC && q[1][..3] == Header(r)[..3] && q[3] == Parts(r)[3] && q[5] == Parts(r)[5] && ReadsAsId(q[7])
                ==> d == Failed(ChecksumMismatch))
  {
    FieldSizes(r);
    hide Utf8.ByteLength;
    hide Utf8.Encode;
    hide Utf8.Decode;
    hide Flatten;
    hide Body;
    var sum := BigEndian(Crc32.Checksum(Body(r)), 4);
    if q[0] != MAGIC {
      ConcatTen(q);
      var tail := q[1] + ((q[2] + q[3]) + ((q[4] + q[5]) + ((q[6] + q[7]) + (q[8] + q[9]))));
      Assoc(q[0], tail, sum + rest);
      SplitAppend(q[0], tail + (sum + rest));
      hide DecodeRest;
    } else {
      hide DecodeBytes;
      ShapeIsLayout(r, q);
      Crc32.BurstDetected(Body(r), Flatten(q), at);
      LimitValues();
      ReadWrite(Crc32.Checksum(Body(r)), 4);
      WrongChecksum(q[1], q[3], q[5], q[7], q[9], sum, rest);
      hide Layout;
      if q[1][..3] == Header(r)[..3] && q[3] == Parts(r)[3] && q[5] == Parts(r)[5] && ReadsAsId(q[7]) {
        Utf8.DecodeEncode(r.namespace);
        Utf8.DecodeEncode(r.collection);
        SurvivingHeader(r, q[1]);
      }
    }
  }

  lemma SurvivingHeader(r: NbfRecord, h: seq<byte>)
    requires |h| == HEADER_SIZE && h[..3] == Header(r)[..3]
    ensures DecodeHeader(h).Ok?
  {
    HeaderSlices(r.recordType, r.flags, r.sequence, RawTx(r.txId), r.timestamp);
    assert h[..2] == h[..3][..2] && Header(r)[..2] == Header(r)[..3][..2];
    assert h[2] == h[..3][2] && Header(r)[2] == Header(r)[..3][2];
    LimitValues();
    ReadWrite(VERSION, 2);
  }

  /** Damage to the stored checksum itself is detected too. */
  lemma ChecksumDamageDetected(r: NbfRecord, sum: seq<byte>, rest: seq<byte>)
    requires Encodable(r) && |sum| == 4 && sum != BigEndian(Crc32.Checksum(Body(r)), 4)
    ensures DecodeBytes(Body(r) + (sum + rest)) == Failed(ChecksumMismatch)
  {
    FieldSizes(r);
    hide Utf8.ByteLength;
    hide Utf8.Encode;
    hide Utf8.Decode;
    hide DecodeBytes;
    PartsOfBody(r);
    ShapeIsLayout(r, Parts(r));
    hide Flatten;
    WriteRead(sum);
    Utf8.DecodeEncode(r.namespace);
    Utf8.DecodeEncode(r.collection);
    Utf8.DecodeEncode(r.documentId);
    SurvivingHeader(r, Header(r));
    WrongChecksum(Header(r), Utf8.Encode(r.namespace), Utf8.Encode(r.collection), Utf8.Encode(r.documentId), r.payload, sum, rest);
  }
}
