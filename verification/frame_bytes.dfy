/** Frames byte by byte (protocol/frame.rs): which streams start with a frame, what it is,
    and why another stream is refused. */
module FrameBytes {
  import opened Wrappers
  import opened Identity
  import opened Bytes
  import F = Frame

  /** The message types by their codes. */
  predicate IsCode(code: u8, t: F.MessageType) {
    || (code == 1 && t.Hello?) || (code == 2 && t.HelloOk?) || (code == 3 && t.IdentityMessage?)
    || (code == 4 && t.InputAttach?) || (code == 5 && t.InputAttachOk?) || (code == 6 && t.Status?)
    || (code == 7 && t.Ping?) || (code == 8 && t.Pong?)
    || (code == 16 && t.GetFeature?) || (code == 17 && t.FeatureResult?)
    || (code == 18 && t.SetFeature?) || (code == 19 && t.SetFeatureResult?)
    || (code == 20 && t.SetOutput?) || (code == 21 && t.SetOutputResult?)
    || (code == 22 && t.Write?) || (code == 23 && t.WriteResult?)
    || (code == 24 && t.Ioctl?) || (code == 25 && t.IoctlResult?)
    || (code == 48 && t.InputReport?)
  }

  predicate KnownCode(code: u8) {
    1 <= code <= 8 || 16 <= code <= 25 || code == 48
  }

  /** Four bytes, the lowest first. */
  function Word(stream: seq<u8>, at: nat): nat
    requires at + 4 <= |stream|
  {
    Joined(stream[at], stream[at + 1], stream[at + 2], stream[at + 3])
  }

  function Joined(a: nat, b: nat, c: nat, d: nat): nat {
    a + 0x100 * b + 0x1_0000 * c + 0x100_0000 * d
  }

  /** The largest payload on each channel. */
  function Limit(channel: F.Channel): nat {
    match channel
    case Control => 4096
    case Input => 256
  }

  /** Why no frame can be read off the stream, if so: the first reason that holds. */
  function Fault(stream: seq<u8>, channel: F.Channel): Option<F.FrameError> {
    if |stream| < 12 then Some(F.UnexpectedEof)
    else if stream[0] != 67 || stream[1] != 80 then Some(F.BadMagic(stream[0], stream[1]))
    else if stream[2] != 1 then Some(F.UnsupportedVersion(stream[2]))
    else if !KnownCode(stream[3]) then Some(F.UnknownMessageType(stream[3]))
    else if Word(stream, 8) > Limit(channel) then Some(F.PayloadTooLarge(channel, Word(stream, 8), Limit(channel)))
    else if |stream| < 12 + Word(stream, 8) then Some(F.UnexpectedEof)
    else None
  }

  lemma WordDecoded(bytes: seq<u8>)
    requires |bytes| == 4
    ensures F.DecodeU32(bytes) == Joined(bytes[0], bytes[1], bytes[2], bytes[3])
  {
    var b, c, d := bytes[1..], bytes[2..], bytes[3..];
    assert b[1..] == c && c[1..] == d && d[1..] == [];
    assert FromLittleEndian(d) == d[0];
    assert FromLittleEndian(c) == c[0] + 256 * FromLittleEndian(d);
    assert FromLittleEndian(b) == b[0] + 256 * FromLittleEndian(c);
  }

  lemma CodeIs(code: u8)
    ensures KnownCode(code) <==> F.TypeOf(code).Some?
    ensures F.TypeOf(code).Some? ==> IsCode(code, F.TypeOf(code).value)
  {}

  lemma HeaderIs(bytes: seq<u8>)
    requires |bytes| == 12
    ensures var r := F.DecodeHeader(bytes);
            if bytes[0] != 67 || bytes[1] != 80 then r == Err(F.BadMagic(bytes[0], bytes[1]))
            else if bytes[2] != 1 then r == Err(F.UnsupportedVersion(bytes[2]))
            else if !KnownCode(bytes[3]) then r == Err(F.UnknownMessageType(bytes[3]))
            else r.Ok? && IsCode(bytes[3], r.value.messageType) && r.value.id == Word(bytes, 4) && r.value.payloadLength == Word(bytes, 8)
  {
    hide F.TypeOf, F.DecodeU32;
    assert bytes[..2] == [bytes[0], bytes[1]];
    CodeIs(bytes[3]);
    WordDecoded(bytes[4..8]);
    WordDecoded(bytes[8..12]);
  }

  // ---------------------------------------------------------------- writing

  /** The bytes of a header, in order. */
  lemma HeaderBytes(header: F.Header)
    ensures var bytes := F.EncodeHeader(header);
            && bytes[0] == 67 && bytes[1] == 80 && bytes[2] == 1 && IsCode(bytes[3], header.messageType)
            && Word(bytes, 4) == header.id && Word(bytes, 8) == header.payloadLength
  {
    hide F.Code, F.TypeOf, F.DecodeU32;
    F.HeaderRoundTrip(header);
    HeaderIs(F.EncodeHeader(header));
  }

  /** A frame is written iff its length field is right and its payload within the
      channel's limit: its header's bytes and its payload are appended. Otherwise the
      error says by which numbers it fails, the length field first. */
  lemma {:induction false} FrameWritten(stream: seq<u8>, frame: F.Frame, channel: F.Channel)
    ensures var r := F.WriteFrame(stream, frame, channel);
            var (declared, actual) := (frame.header.payloadLength, |frame.payload|);
            if declared != actual then r == Err(F.PayloadLengthMismatch(declared, actual))
            else if actual > Limit(channel) then r == Err(F.PayloadTooLarge(channel, actual, Limit(channel)))
            else
              && r.Ok? && |r.value| == |stream| + 12 + actual
              && r.value[..|stream|] == stream && r.value[|stream| + 12..] == frame.payload
              && var header := r.value[|stream|..|stream| + 12];
                 && header[0] == 67 && header[1] == 80 && header[2] == 1 && IsCode(header[3], frame.header.messageType)
                 && Word(header, 4) == frame.header.id && Word(header, 8) == actual
  {
    hide F.EncodeHeader;
    HeaderBytes(frame.header);
    var bytes := F.EncodeHeader(frame.header);
    var whole := stream + bytes + frame.payload;
    assert whole[|stream|..|stream| + 12] == bytes && whole[..|stream|] == stream && whole[|stream| + 12..] == frame.payload;
  }

  /** A new frame's length field holds the low 32 bits of its payload's length, so a
      payload that is too large is refused as such unless it does not fit them. */
  lemma {:induction false} NewFrameWritten(stream: seq<u8>, t: F.MessageType, id: F.u32, payload: seq<u8>, channel: F.Channel)
    ensures var r := F.WriteFrame(stream, F.NewFrame(t, id, payload), channel);
            && (r.Ok? <==> |payload| <= Limit(channel))
            && (Limit(channel) < |payload| < 0x1_0000_0000 ==> r == Err(F.PayloadTooLarge(channel, |payload|, Limit(channel))))
            && (|payload| >= 0x1_0000_0000 ==> r == Err(F.PayloadLengthMismatch(|payload| % 0x1_0000_0000, |payload|)))
  {
    hide F.EncodeHeader;
    assert |payload| < 0x1_0000_0000 ==> |payload| % 0x1_0000_0000 == |payload|;
  }

  // ---------------------------------------------------------------- reading

  /** A frame is read off a stream iff nothing is wrong with its bytes: the letters CP,
      version 1, a known code, and a payload that is there and within the channel's
      limit; type, id and payload are then what the bytes say. */
  lemma {:induction false} FrameOnTheWire(stream: seq<u8>, channel: F.Channel)
    ensures var r := F.ReadFrame(stream, channel);
            if Fault(stream, channel).Some? then r == Err(Fault(stream, channel).value)
            else
              && r.Ok?
              && var (frame, rest) := r.value;
                 var end := 12 + Word(stream, 8);
                 && IsCode(stream[3], frame.header.messageType) && frame.header.id == Word(stream, 4)
                 && frame.header.payloadLength == Word(stream, 8)
                 && frame.payload == stream[12..end] && rest == stream[end..]
  {
    hide F.DecodeHeader;
    if |stream| >= 12 {
      HeaderIs(stream[..12]);
    }
  }
}
