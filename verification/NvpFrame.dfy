/**
 NOVA protocol frames (crates/nova-protocol/src/frame.rs) and the codec that takes them off a growing
 buffer (crates/nova-protocol/src/codec.rs).
 */
module NvpFrame {
  import opened Core
  import opened Bytes
  import Crc32

  const MAGIC: seq<byte> := [0x4E, 0x56, 0x50, 0x31]
  const VERSION: nat := 1
  const HEADER_SIZE: nat := 20
  const CHECKSUM_SIZE: nat := 4
  const MAX_PAYLOAD: nat := 16 * 1024 * 1024

  type u64 = n: nat | n < U64_LIMIT

  datatype FrameType = Request | Response | Event | Error | Ping | Pong

  function TypeByte(t: FrameType): byte {
    match t
    case Request => 1
    case Response => 2
    case Event => 3
    case Error => 4
    case Ping => 5
    case Pong => 6
  }

  /** `FrameType::from_u8`. */
  function TypeFromByte(b: byte): (r: Result<FrameType>)
    ensures r.Ok? ==> TypeByte(r.value) == b
    ensures r.Ok? <==> 1 <= b <= 6
  {
    match b
    case 1 => Ok(Request)
    case 2 => Ok(Response)
    case 3 => Ok(Event)
    case 4 => Ok(Error)
    case 5 => Ok(Ping)
    case 6 => Ok(Pong)
    case _ => Err(ProtocolViolation)
  }

  datatype Frame = Frame(frameType: FrameType, flags: byte, requestId: u64, payload: seq<byte>)

  function Header(f: Frame): (s: seq<byte>)
    ensures |s| == HEADER_SIZE
  {
    MAGIC + BigEndian(VERSION, 2) + [TypeByte(f.frameType), f.flags] + BigEndian(f.requestId, 8) + BigEndian(|f.payload|, 4)
  }

  function Body(f: Frame): seq<byte> {
    Header(f) + f.payload
  }

  function FrameBytes(f: Frame): seq<byte> {
    Body(f) + BigEndian(Crc32.Checksum(Body(f)), 4)
  }

  /** `NvpFrame::encode`. */
  method Encode(f: Frame) returns (res: Result<seq<byte>>)
    ensures res == if |f.payload| <= MAX_PAYLOAD then Ok(FrameBytes(f)) else Err(FrameTooLarge)
  {
    if |f.payload| > MAX_PAYLOAD { return Err(FrameTooLarge); }
    var buf := MAGIC;
    buf := buf + BigEndian(VERSION, 2);
    buf := buf + [TypeByte(f.frameType)];
    buf := buf + [f.flags];
    assert buf == MAGIC + BigEndian(VERSION, 2) + [TypeByte(f.frameType), f.flags];
    buf := buf + BigEndian(f.requestId, 8);
    buf := buf + BigEndian(|f.payload|, 4);
    buf := buf + f.payload;
    var hasher := new Crc32.Hasher();
    hasher.Feed(buf);
    var checksum := hasher.Finalize();
    buf := buf + BigEndian(checksum, 4);
    return Ok(buf);
  }

  // ---- decoding ----

  datatype HeaderInfo = HeaderInfo(frameType: FrameType, flags: byte, requestId: u64, payloadLen: nat)

  function ReadU64(s: seq<byte>): u64
    requires |s| == 8
  {
    FromBigEndianBound(s);
    LimitValues();
    FromBigEndian(s)
  }

  /** The checks on the fixed-size header. */
  function ReadHeader(h: seq<byte>): Result<HeaderInfo>
    requires |h| == HEADER_SIZE
  {
    if h[..4] != MAGIC then Err(ProtocolViolation)
    else if FromBigEndian(h[4..6]) != VERSION then Err(ProtocolViolation)
    else
      var t :- TypeFromByte(h[6]);
      var len := FromBigEndian(h[16..20]);
      if len > MAX_PAYLOAD then Err(FrameTooLarge)
      else Ok(HeaderInfo(t, h[7], ReadU64(h[8..16]), len))
  }

  /** The frame behind a header that passed its checks. */
  function ReadBody(src: seq<byte>, h: HeaderInfo): (r: Result<Option<(Frame, nat)>>)
    requires |src| >= HEADER_SIZE
    ensures r.Ok? && r.value.Some? ==> HEADER_SIZE + CHECKSUM_SIZE <= r.value.value.1 <= |src|
  {
    var covered := HEADER_SIZE + h.payloadLen;
    var total := covered + CHECKSUM_SIZE;
    if |src| < total then Ok(None)
    else if FromBigEndian(src[covered..total]) != Crc32.Checksum(src[..covered]) then Err(ChecksumMismatch)
    else Ok(Some((Frame(h.frameType, h.flags, h.requestId, src[HEADER_SIZE..covered]), total)))
  }

  /** `NvpFrame::decode_from_slice`: a frame with its length, nothing yet, or an error. */
  function DecodeSlice(src: seq<byte>): (r: Result<Option<(Frame, nat)>>)
    ensures r.Ok? && r.value.Some? ==> HEADER_SIZE + CHECKSUM_SIZE <= r.value.value.1 <= |src|
  {
    if |src| < HEADER_SIZE then Ok(None)
    else
      var h :- ReadHeader(src[..HEADER_SIZE]);
      ReadBody(src, h)
  }

  lemma PrefixSlices(src: seq<byte>, more: seq<byte>, i: nat, j: nat)
    requires i <= j <= |src|
    ensures (src + more)[i..j] == src[i..j] && (src + more)[..j] == src[..j]
  {
  }

  lemma ReadBodyStable(src: seq<byte>, more: seq<byte>, h: HeaderInfo)
    requires |src| >= HEADER_SIZE + h.payloadLen + CHECKSUM_SIZE
    ensures ReadBody(src + more, h) == ReadBody(src, h)
  {
    var covered := HEADER_SIZE + h.payloadLen;
    PrefixSlices(src, more, covered, covered + CHECKSUM_SIZE);
    PrefixSlices(src, more, HEADER_SIZE, covered);
  }

  /** More bytes never change a verdict that is already there. */
  lemma VerdictStable(src: seq<byte>, more: seq<byte>)
    requires DecodeSlice(src) != Ok(None)
    ensures DecodeSlice(src + more) == DecodeSlice(src)
  {
    PrefixSlices(src, more, 0, HEADER_SIZE);
    hide ReadHeader;
    var header := ReadHeader(src[..HEADER_SIZE]);
    if header.Ok? {
      ReadBodyStable(src, more, header.value);
    }
  }

  lemma HeaderSlices(f: Frame)
    ensures var h := Header(f);
            && h[..4] == MAGIC && h[4..6] == BigEndian(VERSION, 2) && h[6] == TypeByte(f.frameType) && h[7] == f.flags
            && h[8..16] == BigEndian(f.requestId, 8) && h[16..20] == BigEndian(|f.payload|, 4)
  {
  }

  lemma ReadHeaderBack(f: Frame)
    requires |f.payload| <= MAX_PAYLOAD
    ensures ReadHeader(Header(f)) == Ok(HeaderInfo(f.frameType, f.flags, f.requestId, |f.payload|))
  {
    HeaderSlices(f);
    LimitValues();
    ReadWrite(VERSION, 2);
    ReadWrite(f.requestId, 8);
    ReadWrite(|f.payload|, 4);
  }

  /** Decoding what was encoded gives the frame back and consumes exactly its bytes. */
  lemma RoundTrip(f: Frame, rest: seq<byte>)
    requires |f.payload| <= MAX_PAYLOAD
    ensures DecodeSlice(FrameBytes(f) + rest) == Ok(Some((f, |FrameBytes(f)|)))
  {
    var sum := BigEndian(Crc32.Checksum(Body(f)), 4);
    var src := FrameBytes(f) + rest;
    ReadHeaderBack(f);
    FrameSlices(Header(f), f.payload, sum, rest);
    LimitValues();
    ReadWrite(Crc32.Checksum(Body(f)), 4);
  }

  lemma FrameSlices(h: seq<byte>, payload: seq<byte>, sum: seq<byte>, rest: seq<byte>)
    ensures var src := h + payload + sum + rest;
            var n := |h| + |payload|;
            && src[..|h|] == h && src[|h|..n] == payload && src[..n] == h + payload && src[n..n + |sum|] == sum
  {
  }

  /** A frame that is not complete yet is waited for, never refused. */
  lemma StrictPrefix(f: Frame, k: nat)
    requires |f.payload| <= MAX_PAYLOAD && k < |FrameBytes(f)|
    ensures DecodeSlice(FrameBytes(f)[..k]) == Ok(None)
  {
    if k >= HEADER_SIZE {
      FrameSlices(Header(f), f.payload, BigEndian(Crc32.Checksum(Body(f)), 4), []);
      assert FrameBytes(f) + [] == FrameBytes(f);
      assert FrameBytes(f)[..k][..HEADER_SIZE] == Header(f);
      ReadHeaderBack(f);
    }
  }

  lemma SurvivingHeader(f: Frame, header: seq<byte>)
    requires |f.payload| <= MAX_PAYLOAD
    requires |header| == HEADER_SIZE && header[..7] == Header(f)[..7] && header[16..20] == Header(f)[16..20]
    ensures ReadHeader(header).Ok? && ReadHeader(header).value.payloadLen == |f.payload|
  {
    HeaderSlices(f);
    var (g, h) := (header[..7], Header(f)[..7]);
    assert header[..4] == g[..4] && Header(f)[..4] == h[..4];
    assert header[4..6] == g[4..6] && Header(f)[4..6] == h[4..6];
    assert header[6] == g[6] && Header(f)[6] == h[6];
    LimitValues();
    ReadWrite(VERSION, 2);
    ReadWrite(|f.payload|, 4);
  }

  /**
   A frame changed inside four consecutive bytes of flags, request id or payload is refused with a
   checksum mismatch, whatever follows it.
   */
  lemma CorruptionDetected(f: Frame, header: seq<byte>, payload: seq<byte>, at: nat, rest: seq<byte>)
    requires |f.payload| <= MAX_PAYLOAD && |payload| == |f.payload|
    requires |header| == HEADER_SIZE && header[..7] == Header(f)[..7] && header[16..20] == Header(f)[16..20]
    requires Crc32.DifferInWindow(Body(f), header + payload, at)
    ensures DecodeSlice(header + payload + BigEndian(Crc32.Checksum(Body(f)), 4) + rest) == Err(ChecksumMismatch)
  {
    var n := Crc32.Checksum(Body(f));
    Crc32.BurstDetected(Body(f), header + payload, at);
    SurvivingHeader(f, header);
    LimitValues();
    ReadWrite(n, 4);
    WrongChecksum(header, payload, n, rest);
  }

  lemma WrongChecksum(header: seq<byte>, payload: seq<byte>, n: nat, rest: seq<byte>)
    requires |header| == HEADER_SIZE && ReadHeader(header).Ok? && ReadHeader(header).value.payloadLen == |payload|
    requires n != Crc32.Checksum(header + payload) && FromBigEndian(BigEndian(n, 4)) == n
    ensures DecodeSlice(header + payload + BigEndian(n, 4) + rest) == Err(ChecksumMismatch)
  {
    hide ReadHeader;
    hide Crc32.Checksum;
    FrameSlices(header, payload, BigEndian(n, 4), rest);
  }
}
