/** Frames on a channel: a 12-byte header and a payload within the channel's limit
    (protocol/frame.rs). */
module Frame {
  import opened Wrappers
  import opened Identity
  import opened Bytes

  type u32 = x: nat | x < 0x1_0000_0000

  const HEADER_LENGTH: nat := 12
  const PROTOCOL_VERSION: u8 := 1
  /** The letters CP. */
  function Magic(): seq<u8> { [0x43, 0x50] }

  datatype Channel = Control | Input

  function PayloadLimit(channel: Channel): nat {
    if channel.Control? then 4096 else 256
  }

  datatype MessageType =
    | Hello | HelloOk | IdentityMessage | InputAttach | InputAttachOk | Status | Ping | Pong
    | GetFeature | FeatureResult | SetFeature | SetFeatureResult
    | SetOutput | SetOutputResult | Write | WriteResult | Ioctl | IoctlResult
    | InputReport

  function Code(messageType: MessageType): u8 {
    match messageType
    case Hello => 0x01
    case HelloOk => 0x02
    case IdentityMessage => 0x03
    case InputAttach => 0x04
    case InputAttachOk => 0x05
    case Status => 0x06
    case Ping => 0x07
    case Pong => 0x08
    case GetFeature => 0x10
    case FeatureResult => 0x11
    case SetFeature => 0x12
    case SetFeatureResult => 0x13
    case SetOutput => 0x14
    case SetOutputResult => 0x15
    case Write => 0x16
    case WriteResult => 0x17
    case Ioctl => 0x18
    case IoctlResult => 0x19
    case InputReport => 0x30
  }

  function TypeOf(code: u8): Option<MessageType> {
    if code == 0x01 then Some(Hello)
    else if code == 0x02 then Some(HelloOk)
    else if code == 0x03 then Some(IdentityMessage)
    else if code == 0x04 then Some(InputAttach)
    else if code == 0x05 then Some(InputAttachOk)
    else if code == 0x06 then Some(Status)
    else if code == 0x07 then Some(Ping)
    else if code == 0x08 then Some(Pong)
    else if code == 0x10 then Some(GetFeature)
    else if code == 0x11 then Some(FeatureResult)
    else if code == 0x12 then Some(SetFeature)
    else if code == 0x13 then Some(SetFeatureResult)
    else if code == 0x14 then Some(SetOutput)
    else if code == 0x15 then Some(SetOutputResult)
    else if code == 0x16 then Some(Write)
    else if code == 0x17 then Some(WriteResult)
    else if code == 0x18 then Some(Ioctl)
    else if code == 0x19 then Some(IoctlResult)
    else if code == 0x30 then Some(InputReport)
    else None
  }

  datatype Header = Header(messageType: MessageType, id: u32, payloadLength: u32)

  datatype FrameError =
    | BadMagic(first: u8, second: u8)
    | UnsupportedVersion(version: u8)
    | UnknownMessageType(code: u8)
    | PayloadTooLarge(channel: Channel, length: nat, limit: nat)
    | PayloadLengthMismatch(declared: nat, actual: nat)
    | UnexpectedEof

  datatype Frame = Frame(header: Header, payload: seq<u8>)

  function NewFrame(messageType: MessageType, id: u32, payload: seq<u8>): Frame {
    Frame(Header(messageType, id, |payload| % 0x1_0000_0000), payload)
  }

  function EncodeHeader(header: Header): (r: seq<u8>)
    ensures |r| == HEADER_LENGTH
  {
    Magic() + [PROTOCOL_VERSION, Code(header.messageType)]
    + ToLittleEndian(header.id, 4) + ToLittleEndian(header.payloadLength, 4)
  }

  function DecodeU32(bytes: seq<u8>): u32
    requires |bytes| == 4
  {
    BytesRoundTrip(bytes);
    Powers();
    FromLittleEndian(bytes)
  }

  function DecodeHeader(bytes: seq<u8>): Result<Header, FrameError>
    requires |bytes| == HEADER_LENGTH
  {
    if bytes[..2] != Magic() then Err(BadMagic(bytes[0], bytes[1]))
    else if bytes[2] != PROTOCOL_VERSION then Err(UnsupportedVersion(bytes[2]))
    else
      match TypeOf(bytes[3])
      case None => Err(UnknownMessageType(bytes[3]))
      case Some(messageType) => Ok(Header(messageType, DecodeU32(bytes[4..8]), DecodeU32(bytes[8..12])))
  }

  /** Takes one frame off the stream; what is left comes with it. */
  function ReadFrame(stream: seq<u8>, channel: Channel): (r: Result<(Frame, seq<u8>), FrameError>)
    ensures r.Ok? ==> |r.value.1| < |stream|
  {
    if |stream| < HEADER_LENGTH then Err(UnexpectedEof)
    else
      match DecodeHeader(stream[..HEADER_LENGTH])
      case Err(error) => Err(error)
      case Ok(header) =>
        var length := header.payloadLength;
        if length > PayloadLimit(channel) then Err(PayloadTooLarge(channel, length, PayloadLimit(channel)))
        else if |stream| < HEADER_LENGTH + length then Err(UnexpectedEof)
        else Ok((Frame(header, stream[HEADER_LENGTH..HEADER_LENGTH + length]), stream[HEADER_LENGTH + length..]))
  }

  function WriteFrame(stream: seq<u8>, frame: Frame, channel: Channel): Result<seq<u8>, FrameError> {
    if frame.header.payloadLength != |frame.payload| then
      Err(PayloadLengthMismatch(frame.header.payloadLength, |frame.payload|))
    else if |frame.payload| > PayloadLimit(channel) then
      Err(PayloadTooLarge(channel, |frame.payload|, PayloadLimit(channel)))
    else Ok(stream + EncodeHeader(frame.header) + frame.payload)
  }

  /** Reads frames until the stream is empty. */
  function ReadFrames(stream: seq<u8>, channel: Channel): Result<seq<Frame>, FrameError>
    decreases |stream|
  {
    if stream == [] then Ok([])
    else
      match ReadFrame(stream, channel)
      case Err(error) => Err(error)
      case Ok((frame, rest)) =>
        match ReadFrames(rest, channel)
        case Err(error) => Err(error)
        case Ok(frames) => Ok([frame] + frames)
  }

  /** Writes frames one after the other, stopping at the first error. */
  function WriteFrames(stream: seq<u8>, frames: seq<Frame>, channel: Channel): Result<seq<u8>, FrameError>
    decreases |frames|
  {
    if frames == [] then Ok(stream)
    else
      match WriteFrame(stream, frames[0], channel)
      case Err(error) => Err(error)
      case Ok(next) => WriteFrames(next, frames[1..], channel)
  }

  // ---------------------------------------------------------------- headers

  lemma CodeRoundTrip(messageType: MessageType)
    ensures TypeOf(Code(messageType)) == Some(messageType)
  {}

  lemma KnownCode(code: u8)
    requires TypeOf(code).Some?
    ensures Code(TypeOf(code).value) == code
  {}

  lemma NumberDecoded(n: u32)
    ensures DecodeU32(ToLittleEndian(n, 4)) == n
  {
    Powers();
    NumberRoundTrip(n, 4);
  }

  lemma HeaderRoundTrip(header: Header)
    ensures DecodeHeader(EncodeHeader(header)) == Ok(header)
  {
    hide Code, TypeOf, DecodeU32, ToLittleEndian;
    var bytes := EncodeHeader(header);
    assert bytes[..2] == Magic() && bytes[2] == PROTOCOL_VERSION && bytes[3] == Code(header.messageType);
    assert bytes[4..8] == ToLittleEndian(header.id, 4) && bytes[8..12] == ToLittleEndian(header.payloadLength, 4);
    CodeRoundTrip(header.messageType);
    NumberDecoded(header.id);
    NumberDecoded(header.payloadLength);
  }

  lemma BytesDecoded(bytes: seq<u8>)
    requires |bytes| == 4
    ensures ToLittleEndian(DecodeU32(bytes), 4) == bytes
  {
    BytesRoundTrip(bytes);
  }

  /** Exactly the encodings of headers are accepted. */
  lemma {:induction false} AcceptedHeader(bytes: seq<u8>, header: Header)
    requires |bytes| == HEADER_LENGTH
    ensures DecodeHeader(bytes) == Ok(header) <==> bytes == EncodeHeader(header)
  {
    hide Code, TypeOf, DecodeU32, ToLittleEndian, EncodeHeader;
    if DecodeHeader(bytes) == Ok(header) {
      KnownCode(bytes[3]);
      BytesDecoded(bytes[4..8]);
      BytesDecoded(bytes[8..12]);
      HeaderParts(bytes, header);
    }
    HeaderRoundTrip(header);
  }

  lemma HeaderParts(bytes: seq<u8>, header: Header)
    requires |bytes| == HEADER_LENGTH && bytes[..2] == Magic() && bytes[2] == PROTOCOL_VERSION
    requires bytes[3] == Code(header.messageType)
    requires bytes[4..8] == ToLittleEndian(header.id, 4) && bytes[8..12] == ToLittleEndian(header.payloadLength, 4)
    ensures bytes == EncodeHeader(header)
  {
    hide Code, ToLittleEndian;
    assert bytes == bytes[..2] + [bytes[2], bytes[3]] + bytes[4..8] + bytes[8..12];
  }

  // ---------------------------------------------------------------- streams

  /** The frame can be written to the channel. */
  predicate Fits(frame: Frame, channel: Channel) {
    frame.header.payloadLength == |frame.payload| <= PayloadLimit(channel)
  }

  /** A new frame can be written exactly if its payload is within the limit. */
  lemma {:induction false} NewFrameFits(messageType: MessageType, id: u32, payload: seq<u8>, channel: Channel)
    ensures Fits(NewFrame(messageType, id, payload), channel) <==> |payload| <= PayloadLimit(channel)
  {
    assert |payload| < 0x1_0000_0000 ==> |payload| % 0x1_0000_0000 == |payload|;
  }

  function FrameBytes(frame: Frame): seq<u8> {
    EncodeHeader(frame.header) + frame.payload
  }

  /** A frame is read off the front of a stream exactly if its bytes are there. */
  lemma {:induction false} ReadsWritten(stream: seq<u8>, frame: Frame, rest: seq<u8>, channel: Channel)
    ensures ReadFrame(stream, channel) == Ok((frame, rest)) <==> Fits(frame, channel) && stream == FrameBytes(frame) + rest
  {
    hide DecodeHeader, EncodeHeader;
    if |stream| >= HEADER_LENGTH {
      AcceptedHeader(stream[..HEADER_LENGTH], frame.header);
      var length := frame.header.payloadLength;
      if Fits(frame, channel) && stream == FrameBytes(frame) + rest {
        assert stream[..HEADER_LENGTH] == EncodeHeader(frame.header);
        assert stream[HEADER_LENGTH..HEADER_LENGTH + length] == frame.payload && stream[HEADER_LENGTH + length..] == rest;
      }
      if ReadFrame(stream, channel) == Ok((frame, rest)) {
        assert stream == stream[..HEADER_LENGTH] + stream[HEADER_LENGTH..HEADER_LENGTH + length] + stream[HEADER_LENGTH + length..];
      }
    }
  }

  lemma {:induction false} WrittenAfter(stream: seq<u8>, frames: seq<Frame>, channel: Channel)
    ensures WriteFrames(stream, frames, channel).Ok? <==> WriteFrames([], frames, channel).Ok?
    ensures WriteFrames([], frames, channel).Ok? ==>
              WriteFrames(stream, frames, channel).value == stream + WriteFrames([], frames, channel).value
    decreases |frames|
  {
    hide EncodeHeader;
    if frames != [] && Fits(frames[0], channel) {
      var bytes := FrameBytes(frames[0]);
      assert [] + EncodeHeader(frames[0].header) + frames[0].payload == bytes;
      assert stream + EncodeHeader(frames[0].header) + frames[0].payload == stream + bytes;
      WrittenAfter(bytes, frames[1..], channel);
      WrittenAfter(stream + bytes, frames[1..], channel);
      if WriteFrames([], frames[1..], channel).Ok? {
        var tail := WriteFrames([], frames[1..], channel).value;
        assert stream + bytes + tail == stream + (bytes + tail);
      }
    }
  }

  /** What writing a nonempty list of frames amounts to. */
  lemma WriteFirst(frames: seq<Frame>, channel: Channel, stream: seq<u8>)
    requires frames != []
    ensures WriteFrames([], frames, channel) == Ok(stream) <==>
              && Fits(frames[0], channel) && WriteFrames([], frames[1..], channel).Ok?
              && stream == FrameBytes(frames[0]) + WriteFrames([], frames[1..], channel).value
  {
    hide EncodeHeader;
    if Fits(frames[0], channel) {
      assert [] + EncodeHeader(frames[0].header) + frames[0].payload == FrameBytes(frames[0]);
      WrittenAfter(FrameBytes(frames[0]), frames[1..], channel);
    }
  }

  /** Reading and writing are inverse: the bytes of a list of frames read back as that
      list with nothing left, and no other bytes do. */
  lemma {:induction false} ReadIffWritten(stream: seq<u8>, frames: seq<Frame>, channel: Channel)
    ensures ReadFrames(stream, channel) == Ok(frames) <==> WriteFrames([], frames, channel) == Ok(stream)
    decreases |stream| + |frames|
  {
    hide ReadFrame, WriteFrame;
    if frames == [] {
      if stream != [] && ReadFrame(stream, channel).Ok? {
        NonEmptyRead(stream, channel);
      }
    } else {
      WriteFirst(frames, channel, stream);
      if stream == [] {
        assert |FrameBytes(frames[0])| > 0;
      } else if ReadFrame(stream, channel).Ok? {
        var (frame, rest) := ReadFrame(stream, channel).value;
        ReadsWritten(stream, frame, rest, channel);
        FirstFrames(stream, frames, channel, frame, rest);
      } else {
        UnreadableFirst(stream, frames, channel);
      }
    }
  }

  lemma NonEmptyRead(stream: seq<u8>, channel: Channel)
    requires stream != [] && ReadFrame(stream, channel).Ok?
    ensures ReadFrames(stream, channel) != Ok([])
  {
    hide ReadFrame;
  }

  lemma UnreadableFirst(stream: seq<u8>, frames: seq<Frame>, channel: Channel)
    requires stream != [] && frames != [] && ReadFrame(stream, channel).Err?
    ensures ReadFrames(stream, channel).Err? && WriteFrames([], frames, channel) != Ok(stream)
  {
    hide ReadFrame, WriteFrame, WriteFrames, FrameBytes;
    WriteFirst(frames, channel, stream);
    if WriteFrames([], frames, channel) == Ok(stream) {
      ReadsWritten(stream, frames[0], WriteFrames([], frames[1..], channel).value, channel);
    }
  }

  lemma FirstFrames(stream: seq<u8>, frames: seq<Frame>, channel: Channel, frame: Frame, rest: seq<u8>)
    requires stream != [] && frames != [] && ReadFrame(stream, channel) == Ok((frame, rest))
    ensures ReadFrames(stream, channel) == Ok(frames) <==> WriteFrames([], frames, channel) == Ok(stream)
    decreases |stream| + |frames|, 0
  {
    hide ReadFrame, WriteFrame, FrameBytes, WriteFrames;
    WriteFirst(frames, channel, stream);
    if WriteFrames([], frames[1..], channel).Ok? {
      var tail := WriteFrames([], frames[1..], channel).value;
      ReadsWritten(stream, frames[0], tail, channel);
    }
    ReadIffWritten(rest, frames[1..], channel);
    if ReadFrames(rest, channel).Ok? {
      var others := ReadFrames(rest, channel).value;
      assert ([frame] + others)[0] == frame && ([frame] + others)[1..] == others;
      if [frame] + others == frames {
        assert others == frames[1..];
      }
      if frames[0] == frame && others == frames[1..] {
        assert frames == [frames[0]] + frames[1..];
      }
    }
  }
}
