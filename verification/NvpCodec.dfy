/**
 The stream codec (crates/nova-protocol/src/codec.rs): frames are taken off a buffer that a
 connection extends chunk by chunk. How the bytes were cut into chunks does not matter.
 */
module NvpCodec {
  import opened Core
  import opened Bytes
  import opened NvpFrame

  /** The shared byte buffer of a connection. */
  class BytesMut {
    var bytes: seq<byte>

    constructor (bytes: seq<byte>)
      ensures this.bytes == bytes
    {
      this.bytes := bytes;
    }
  }

  /** `Decoder::decode`: splits one complete frame off the front. */
  method Decode(src: BytesMut) returns (res: Result<Option<Frame>>)
    modifies src
    ensures match DecodeSlice(old(src.bytes))
            case Ok(Some((frame, n))) => res == Ok(Some(frame)) && src.bytes == old(src.bytes)[n..]
            case Ok(None) => res == Ok(None) && src.bytes == old(src.bytes)
            case Err(code) => res == Err(code) && src.bytes == old(src.bytes)
  {
    match DecodeSlice(src.bytes)
    case Ok(Some((frame, consumed))) =>
      src.bytes := src.bytes[consumed..];
      return Ok(Some(frame));
    case Ok(None) => return Ok(None);
    case Err(code) => return Err(code);
  }

  /** `Encoder::encode`: appends a frame to the destination. */
  method EncodeTo(item: Frame, dst: BytesMut) returns (res: Result<()>)
    modifies dst
    ensures |item.payload| <= MAX_PAYLOAD ==> res == Ok(()) && dst.bytes == old(dst.bytes) + FrameBytes(item)
    ensures |item.payload| > MAX_PAYLOAD ==> res == Err(FrameTooLarge) && dst.bytes == old(dst.bytes)
  {
    var bytes :- Encode(item);
    dst.bytes := dst.bytes + bytes;
    return Ok(());
  }

  /** Frames delivered, bytes still waiting, and the error that ended the stream, if any. */
  datatype Delivered = Delivered(frames: seq<Frame>, waiting: seq<byte>, error: Option<ErrorCode>)

  /** Decoding until the buffer holds no complete frame. */
  function Drain(buf: seq<byte>): Delivered
    decreases |buf|
  {
    match DecodeSlice(buf)
    case Ok(None) => Delivered([], buf, None)
    case Err(code) => Delivered([], buf, Some(code))
    case Ok(Some((frame, n))) =>
      var d := Drain(buf[n..]);
      d.(frames := [frame] + d.frames)
  }

  /** `Drain` as the reading side runs it, on a buffer. */
  method DrainBuffer(src: BytesMut) returns (frames: seq<Frame>, error: Option<ErrorCode>)
    modifies src
    ensures Delivered(frames, src.bytes, error) == Drain(old(src.bytes))
  {
    hide DecodeSlice;
    frames := [];
    while true
      invariant var d := Drain(src.bytes); Drain(old(src.bytes)) == d.(frames := frames + d.frames)
      decreases |src.bytes|
    {
      ghost var before := src.bytes;
      var res := Decode(src);
      match res {
        case Err(code) =>
          assert frames + [] == frames;
          return frames, Some(code);
        case Ok(None) =>
          assert frames + [] == frames;
          return frames, None;
        case Ok(Some(frame)) =>
          assert frames + ([frame] + Drain(src.bytes).frames) == (frames + [frame]) + Drain(src.bytes).frames;
          frames := frames + [frame];
      }
    }
  }

  /** One more chunk arrives; after an error the stream is over. */
  function Feed(d: Delivered, chunk: seq<byte>): Delivered {
    if d.error.Some? then d
    else
      var more := Drain(d.waiting + chunk);
      more.(frames := d.frames + more.frames)
  }

  function FeedAll(d: Delivered, chunks: seq<seq<byte>>): Delivered
    decreases |chunks|
  {
    if chunks == [] then d else FeedAll(Feed(d, chunks[0]), chunks[1..])
  }

  const START := Delivered([], [], None)

  /** Same frames, same error, and the same waiting bytes unless there was an error. */
  predicate SameDelivery(a: Delivered, b: Delivered) {
    a.frames == b.frames && a.error == b.error && (a.error.None? ==> a.waiting == b.waiting)
  }

  /** Draining a longer buffer is draining the shorter one and going on with what waited. */
  lemma {:induction false} DrainExtend(a: seq<byte>, b: seq<byte>)
    ensures SameDelivery(Feed(Drain(a), b), Drain(a + b))
    decreases |a|
  {
    hide DecodeSlice;
    if DecodeSlice(a) != Ok(None) {
      VerdictStable(a, b);
      match DecodeSlice(a) {
        case Err(_) =>
        case Ok(Some((frame, n))) =>
          DrainExtend(a[n..], b);
          assert (a + b)[n..] == a[n..] + b;
          var tail := Drain(a[n..]);
          if tail.error.None? {
            var more := Drain(tail.waiting + b);
            assert ([frame] + tail.frames) + more.frames == [frame] + (tail.frames + more.frames);
          }
      }
    } else {
      assert [] + Drain(a + b).frames == Drain(a + b).frames;
    }
  }

  lemma {:induction false} FeedAllFrom(seen: seq<byte>, d: Delivered, chunks: seq<seq<byte>>)
    requires SameDelivery(d, Drain(seen))
    ensures SameDelivery(FeedAll(d, chunks), Drain(seen + Flatten(chunks)))
    decreases |chunks|
  {
    hide DecodeSlice;
    hide Drain;
    if chunks == [] {
      assert seen + Flatten(chunks) == seen;
    } else {
      DrainExtend(seen, chunks[0]);
      FeedAllFrom(seen + chunks[0], Feed(d, chunks[0]), chunks[1..]);
      assert seen + chunks[0] + Flatten(chunks[1..]) == seen + Flatten(chunks);
    }
  }

  /** Whatever the bytes, and however they are cut into chunks, the delivery depends on the bytes alone. */
  lemma ChunkingIndependent(chunks: seq<seq<byte>>)
    ensures SameDelivery(FeedAll(START, chunks), Drain(Flatten(chunks)))
  {
    FeedAllFrom([], START, chunks);
    assert [] + Flatten(chunks) == Flatten(chunks);
  }

  lemma {:induction false} DrainFrames(frames: seq<Frame>)
    requires forall i :: 0 <= i < |frames| ==> |frames[i].payload| <= MAX_PAYLOAD
    ensures Drain(EncodeAll(FrameBytes, frames)) == Delivered(frames, [], None)
  {
    hide DecodeSlice;
    hide FrameBytes;
    var buf := EncodeAll(FrameBytes, frames);
    if frames == [] {
      NothingYet([]);
    } else {
      RoundTrip(frames[0], EncodeAll(FrameBytes, frames[1..]));
      SplitAppend(FrameBytes(frames[0]), EncodeAll(FrameBytes, frames[1..]));
      DrainFrames(frames[1..]);
      assert frames == [frames[0]] + frames[1..];
    }
  }

  lemma NothingYet(buf: seq<byte>)
    requires |buf| < HEADER_SIZE
    ensures DecodeSlice(buf) == Ok(None)
  {
  }

  /** Any list of frames, in any chunks, arrives as that list and leaves the buffer empty. */
  lemma FramesArrive(frames: seq<Frame>, chunks: seq<seq<byte>>)
    requires forall i :: 0 <= i < |frames| ==> |frames[i].payload| <= MAX_PAYLOAD
    requires Flatten(chunks) == EncodeAll(FrameBytes, frames)
    ensures FeedAll(START, chunks) == Delivered(frames, [], None)
  {
    ChunkingIndependent(chunks);
    DrainFrames(frames);
  }
}
