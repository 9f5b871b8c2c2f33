/** Damaged length prefixes of a record (crates/nova-storage/src/format.rs), which the checksum does not always protect. */
module LengthDamage {
  import opened Core
  import opened Bytes
  import opened DocumentIds
  import opened NbfFormat
  import Crc32
  import Utf8

  datatype LengthField = NamespaceLength | CollectionLength | IdLength | PayloadLength

  function LengthWidth(f: LengthField): nat {
    if f == PayloadLength then 4 else 2
  }

  /** What a record holds in front of a length, that length, and what it holds behind it. */
  function AheadOf(r: NbfRecord, f: LengthField): seq<byte> {
    match f
    case NamespaceLength => MAGIC + Header(r)
    case CollectionLength => MAGIC + (Header(r) + StringField(r.namespace))
    case IdLength => MAGIC + (Header(r) + (StringField(r.namespace) + StringField(r.collection)))
    case PayloadLength => MAGIC + (Header(r) + (StringField(r.namespace) + (StringField(r.collection) + StringField(r.documentId))))
  }

  function LengthOf(r: NbfRecord, f: LengthField): nat {
    match f
    case NamespaceLength => |Utf8.Encode(r.namespace)|
    case CollectionLength => |Utf8.Encode(r.collection)|
    case IdLength => |Utf8.Encode(r.documentId)|
    case PayloadLength => |r.payload|
  }

  function BehindLength(r: NbfRecord, f: LengthField): seq<byte> {
    var sum := BigEndian(Crc32.Checksum(Body(r)), 4);
    match f
    case NamespaceLength =>
      Utf8.Encode(r.namespace) + (StringField(r.collection) + (StringField(r.documentId) + (PayloadField(r.payload) + sum)))
    case CollectionLength => Utf8.Encode(r.collection) + (StringField(r.documentId) + (PayloadField(r.payload) + sum))
    case IdLength => Utf8.Encode(r.documentId) + (PayloadField(r.payload) + sum)
    case PayloadLength => r.payload + sum
  }

  /** The record with one of its lengths replaced. */
  function WithLength(r: NbfRecord, f: LengthField, len: nat): seq<byte> {
    AheadOf(r, f) + (BigEndian(len, LengthWidth(f)) + BehindLength(r, f))
  }

  /** A length that reaches past the end when only `n` bytes follow it. */
  predicate ReachesPast(f: LengthField, len: nat, n: nat) {
    if f == PayloadLength then len <= MAX_PAYLOAD && n < len + 4 else n < len
  }

  /** With its own length the record is itself. */
  lemma OwnLength(r: NbfRecord, f: LengthField)
    ensures WithLength(r, f, LengthOf(r, f)) == RecordBytes(r)
  {
    var sum := BigEndian(Crc32.Checksum(Body(r)), 4);
    var (h, f1, f2, f3, f4) := (Header(r), StringField(r.namespace), StringField(r.collection), StringField(r.documentId), PayloadField(r.payload));
    PartsOfBody(r);
    ShapeIsLayout(r, Parts(r));
    LayoutSplit(h, Utf8.Encode(r.namespace), Utf8.Encode(r.collection), Utf8.Encode(r.documentId), r.payload, sum, []);
    assert sum + [] == sum;
    assert RecordBytes(r) == MAGIC + (h + (f1 + (f2 + (f3 + (f4 + sum)))));
    Regroup(h, f1, f2, f3, BigEndian(|r.payload|, 4), r.payload, sum);
    Assoc(BigEndian(|Utf8.Encode(r.namespace)|, 2), Utf8.Encode(r.namespace), f2 + (f3 + (f4 + sum)));
    Assoc(BigEndian(|Utf8.Encode(r.collection)|, 2), Utf8.Encode(r.collection), f3 + (f4 + sum));
    Assoc(BigEndian(|Utf8.Encode(r.documentId)|, 2), Utf8.Encode(r.documentId), f4 + sum);
  }

  /** One record's bytes, cut in front of each of its four lengths. */
  lemma Regroup(h: seq<byte>, f1: seq<byte>, f2: seq<byte>, f3: seq<byte>, len: seq<byte>, payload: seq<byte>, sum: seq<byte>)
    ensures var f4 := len + payload;
            var whole := MAGIC + (h + (f1 + (f2 + (f3 + (f4 + sum)))));
            && whole == (MAGIC + h) + (f1 + (f2 + (f3 + (f4 + sum))))
            && whole == (MAGIC + (h + f1)) + (f2 + (f3 + (f4 + sum)))
            && whole == (MAGIC + (h + (f1 + f2))) + (f3 + (f4 + sum))
            && whole == (MAGIC + (h + (f1 + (f2 + f3)))) + (len + (payload + sum))
  {
    var f4 := len + payload;
    Assoc(len, payload, sum);
    var t := f4 + sum;
    Assoc(MAGIC, h, f1 + (f2 + (f3 + t)));
    Assoc(MAGIC, h + f1, f2 + (f3 + t));
    Assoc(h, f1, f2 + (f3 + t));
    Assoc(MAGIC, h + (f1 + f2), f3 + t);
    Assoc(h, f1 + f2, f3 + t);
    Assoc(f1, f2, f3 + t);
    Assoc(MAGIC, h + (f1 + (f2 + f3)), t);
    Assoc(h, f1 + (f2 + f3), t);
    Assoc(f1, f2 + f3, t);
    Assoc(f2, f3, t);
  }

  /** A name whose length reaches past the end is a torn write. */
  lemma LongName(len: nat, tail: seq<byte>)
    requires |tail| < len < U16_LIMIT
    ensures ReadString(BigEndian(len, 2) + tail) == Err(TornWriteDetected)
  {
    LimitValues();
    ReadWrite(len, 2);
    SplitAppend(BigEndian(len, 2), tail);
  }

  /** The payload and the checksum behind it, read with the length `len`. */
  lemma LongPayload(header: seq<byte>, m: Meta, names: Names, len: nat, tail: seq<byte>)
    requires len < U32_LIMIT && NewDocumentId(names.idText).Ok?
    ensures DecodeTail(header, m, names, BigEndian(len, 4) + tail) == Err(TornWriteDetected)
            <==> ReachesPast(PayloadLength, len, |tail|)
  {
    LimitValues();
    ReadWrite(len, 4);
    SplitAppend(BigEndian(len, 4), tail);
  }

  /** With magic and header intact, a torn write shows in the names or behind them. */
  lemma IntactFront(r: NbfRecord, s: seq<byte>)
    ensures DecodeHeader(Header(r)).Ok?
    ensures DecodeBytes(MAGIC + (Header(r) + s)) == Failed(TornWriteDetected) <==>
            || ReadNames(s) == Err(TornWriteDetected)
            || (ReadNames(s).Ok? && DecodeTail(Header(r), DecodeHeader(Header(r)).value, ReadNames(s).value.0, ReadNames(s).value.1)
                                    == Err(TornWriteDetected))
  {
    SurvivingHeader(r, Header(r));
    SplitAppend(MAGIC, Header(r) + s);
    SplitAppend(Header(r), s);
    hide DecodeTail;
    hide ReadNames;
    hide DecodeHeader;
    hide Header;
  }

  lemma NamesTorn(r: NbfRecord, f: LengthField, len: nat, tail: seq<byte>)
    requires Encodable(r) && f != PayloadLength && |tail| < len < U16_LIMIT
    ensures DecodeBytes(AheadOf(r, f) + (BigEndian(len, 2) + tail)) == Failed(TornWriteDetected)
  {
    FieldSizes(r);
    hide Utf8.ByteLength;
    hide Utf8.Encode;
    hide StringField;
    hide DecodeBytes;
    hide BigEndian;
    LongName(len, tail);
    var (f1, f2, s) := (StringField(r.namespace), StringField(r.collection), BigEndian(len, 2) + tail);
    match f {
      case NamespaceLength =>
        Assoc(MAGIC, Header(r), s);
        IntactFront(r, s);
      case CollectionLength =>
        ReadStringBack(r.namespace, s);
        hide ReadString;
        Assoc(MAGIC, Header(r) + f1, s);
        Assoc(Header(r), f1, s);
        IntactFront(r, f1 + s);
      case IdLength =>
        ReadStringBack(r.namespace, f2 + s);
        ReadStringBack(r.collection, s);
        hide ReadString;
        Assoc(MAGIC, Header(r) + (f1 + f2), s);
        Assoc(Header(r), f1 + f2, s);
        Assoc(f1, f2, s);
        IntactFront(r, f1 + (f2 + s));
    }
  }

  lemma PayloadTorn(r: NbfRecord, len: nat, tail: seq<byte>)
    requires Encodable(r) && len < U32_LIMIT
    ensures DecodeBytes(AheadOf(r, PayloadLength) + (BigEndian(len, 4) + tail)) == Failed(TornWriteDetected)
            <==> ReachesPast(PayloadLength, len, |tail|)
  {
    FieldSizes(r);
    hide Utf8.ByteLength;
    hide Utf8.Encode;
    hide StringField;
    hide DecodeBytes;
    hide BigEndian;
    hide DecodeTail;
    hide ReachesPast;
    var (f1, f2, f3, s) := (StringField(r.namespace), StringField(r.collection), StringField(r.documentId), BigEndian(len, 4) + tail);
    ReadStringBack(r.namespace, f2 + (f3 + s));
    ReadStringBack(r.collection, f3 + s);
    ReadStringBack(r.documentId, s);
    hide ReadString;
    Assoc(MAGIC, Header(r) + (f1 + (f2 + f3)), s);
    Assoc(Header(r), f1 + (f2 + f3), s);
    Assoc(f1, f2 + f3, s);
    Assoc(f2, f3, s);
    IntactFront(r, f1 + (f2 + (f3 + s)));
    LongPayload(Header(r), DecodeHeader(Header(r)).value, Names(r.namespace, r.collection, r.documentId), len, tail);
  }

  /**
   A length that reaches past the end of the file reads as a torn write, whatever the record and the
   bytes behind it are. Of the payload length, whose limit is checked first, that is all that does.
   */
  lemma LengthDamageLooksTorn(r: NbfRecord, f: LengthField, len: nat, rest: seq<byte>)
    requires Encodable(r) && len < Limit(LengthWidth(f))
    ensures ReachesPast(f, len, |BehindLength(r, f) + rest|) ==> DecodeBytes(WithLength(r, f, len) + rest) == Failed(TornWriteDetected)
    ensures f == PayloadLength && !ReachesPast(f, len, |BehindLength(r, f) + rest|) ==>
              DecodeBytes(WithLength(r, f, len) + rest) != Failed(TornWriteDetected)
  {
    LimitValues();
    hide Limit;
    hide BehindLength;
    hide AheadOf;
    hide DecodeBytes;
    hide Encodable;
    hide BigEndian;
    var (a, b, c) := (AheadOf(r, f), BigEndian(len, LengthWidth(f)), BehindLength(r, f));
    Assoc(a, b + c, rest);
    Assoc(b, c, rest);
    if f == PayloadLength {
      PayloadTorn(r, len, c + rest);
    } else if |c + rest| < len {
      NamesTorn(r, f, len, c + rest);
    }
  }
}
