/** The encoder's output buffer, the decoder's offset and the frame stream as objects. */
module Wire {
  import opened Wrappers
  import opened Identity
  import opened Bytes
  import opened Codec
  import Frame

  class Encoder {
    var out: seq<u8>

    constructor ()
      ensures out == []
    {
      out := [];
    }

    method Push(field: Field)
      requires !field.String?
      modifies this
      ensures out == old(out) + EncodeField(field).value
    {
      out := out + EncodeField(field).value;
    }

    /** The length first: nothing is written when it does not fit. */
    method PushString(text: Utf8) returns (result: Result<(), CodecError>)
      modifies this
      ensures if |text| < 0x1_0000 then result == Ok(()) && out == old(out) + EncodeField(String(text)).value
              else result == Err(StringTooLong(|text|)) && out == old(out)
    {
      if |text| >= 0x1_0000 {
        return Err(StringTooLong(|text|));
      }
      Push(Number16(|text|));
      Push(Data(text));
      result := Ok(());
    }
  }

  class Decoder {
    const input: seq<u8>
    var offset: nat

    predicate Valid()
      reads this
    {
      offset <= |input|
    }

    constructor (input: seq<u8>)
      ensures Valid() && this.input == input && offset == 0
    {
      this.input := input;
      offset := 0;
    }

    method Finish() returns (result: Result<(), CodecError>)
      requires Valid()
      ensures result == if offset == |input| then Ok(()) else Err(TrailingBytes(|input| - offset))
    {
      var trailing := |input| - offset;
      result := if trailing == 0 then Ok(()) else Err(TrailingBytes(trailing));
    }

    method TakeBytes(length: nat) returns (result: Result<seq<u8>, CodecError>)
      requires Valid()
      modifies this
      ensures Valid()
      ensures var taken := Take(input, old(offset), length);
              if taken.Err? then result == Err(taken.error) && offset == old(offset)
              else result == Ok(taken.value.0) && offset == taken.value.1
    {
      var end := offset + length;
      if end > |input| {
        return Err(InvalidLength);
      }
      result := Ok(input[offset..end]);
      offset := end;
    }

    /** One field of the given kind; after an error the payload is given up. */
    method Next(kind: Kind) returns (result: Result<Field, CodecError>)
      requires Valid()
      modifies this
      ensures Valid()
      ensures var decoded := DecodeField(kind, input, old(offset));
              if decoded.Err? then result == Err(decoded.error)
              else result == Ok(decoded.value.0) && offset == decoded.value.1
    {
      var taken := TakeBytes(Width(kind));
      if taken.Err? {
        return Err(taken.error);
      }
      if kind.Raw? {
        return Ok(Data(taken.value));
      }
      if kind.Text? {
        var text := TakeBytes(FromLittleEndian(taken.value));
        if text.Err? {
          return Err(text.error);
        }
        return if IsUtf8(text.value) then Ok(String(text.value)) else Err(InvalidUtf8);
      }
      result := Number(kind, taken.value);
    }

    /** A payload's fields, then the end of the payload. */
    method ReadPayload(kinds: seq<Kind>) returns (result: Result<seq<Field>, CodecError>)
      requires Valid()
      modifies this
      ensures result == DecodeFields(kinds, input, old(offset))
    {
      var fields: seq<Field> := [];
      var i := 0;
      PrependNothing(DecodeFields(kinds, input, offset));
      assert kinds[0..] == kinds;
      while i < |kinds|
        invariant 0 <= i <= |kinds| && Valid()
        invariant DecodeFields(kinds, input, old(offset)) == Prepended(fields, DecodeFields(kinds[i..], input, offset))
      {
        assert kinds[i..][1..] == kinds[i + 1..];
        var field := Next(kinds[i]);
        if field.Err? {
          return Err(field.error);
        }
        PrependedMore(fields, field.value, DecodeFields(kinds[i + 1..], input, offset));
        fields := fields + [field.value];
        i := i + 1;
      }
      var end := Finish();
      assert kinds[i..] == [] && fields + [] == fields;
      result := if end.Err? then Err(end.error) else Ok(fields);
    }
  }

  function Prepended(fields: seq<Field>, rest: Result<seq<Field>, CodecError>): Result<seq<Field>, CodecError> {
    if rest.Err? then rest else Ok(fields + rest.value)
  }

  lemma PrependNothing(rest: Result<seq<Field>, CodecError>)
    ensures Prepended([], rest) == rest
  {
    if rest.Ok? {
      assert [] + rest.value == rest.value;
    }
  }

  lemma PrependedMore(fields: seq<Field>, field: Field, rest: Result<seq<Field>, CodecError>)
    ensures Prepended(fields, Prepended([field], rest)) == Prepended(fields + [field], rest)
  {
    if rest.Ok? {
      assert fields + ([field] + rest.value) == fields + [field] + rest.value;
    }
  }

  class ByteStream {
    var bytes: seq<u8>

    constructor (bytes: seq<u8>)
      ensures this.bytes == bytes
    {
      this.bytes := bytes;
    }

    /** Exactly this many bytes off the front. */
    method ReadExact(length: nat) returns (result: Result<seq<u8>, Frame.FrameError>)
      modifies this
      ensures if |old(bytes)| < length then result == Err(Frame.UnexpectedEof)
              else result == Ok(old(bytes)[..length]) && bytes == old(bytes)[length..]
    {
      if |bytes| < length {
        return Err(Frame.UnexpectedEof);
      }
      result := Ok(bytes[..length]);
      bytes := bytes[length..];
    }

    method ReadFrame(channel: Frame.Channel) returns (result: Result<Frame.Frame, Frame.FrameError>)
      modifies this
      ensures var read := Frame.ReadFrame(old(bytes), channel);
              if read.Err? then result == Err(read.error)
              else result == Ok(read.value.0) && bytes == read.value.1
    {
      var head := ReadExact(Frame.HEADER_LENGTH);
      if head.Err? {
        return Err(head.error);
      }
      var header := Frame.DecodeHeader(head.value);
      if header.Err? {
        return Err(header.error);
      }
      var length := header.value.payloadLength;
      if length > Frame.PayloadLimit(channel) {
        return Err(Frame.PayloadTooLarge(channel, length, Frame.PayloadLimit(channel)));
      }
      var payload := ReadExact(length);
      if payload.Err? {
        return Err(payload.error);
      }
      assert payload.value == old(bytes)[Frame.HEADER_LENGTH..Frame.HEADER_LENGTH + length];
      assert bytes == old(bytes)[Frame.HEADER_LENGTH + length..];
      result := Ok(Frame.Frame(header.value, payload.value));
    }

    /** Nothing is written unless the frame fits. */
    method WriteFrame(frame: Frame.Frame, channel: Frame.Channel) returns (result: Result<(), Frame.FrameError>)
      modifies this
      ensures var written := Frame.WriteFrame(old(bytes), frame, channel);
              if written.Err? then result == Err(written.error) && bytes == old(bytes)
              else result == Ok(()) && bytes == written.value
    {
      var actual := |frame.payload|;
      if frame.header.payloadLength != actual {
        return Err(Frame.PayloadLengthMismatch(frame.header.payloadLength, actual));
      }
      if actual > Frame.PayloadLimit(channel) {
        return Err(Frame.PayloadTooLarge(channel, actual, Frame.PayloadLimit(channel)));
      }
      var header := FillHeader(frame.header);
      bytes := bytes + header[..];
      bytes := bytes + frame.payload;
      result := Ok(());
    }
  }

  /** `copy_from_slice` into a part of an array. */
  method CopyInto(target: array<u8>, at: nat, source: seq<u8>)
    requires at + |source| <= target.Length
    modifies target
    ensures target[..] == old(target[..at]) + source + old(target[at + |source|..])
  {
    for i := 0 to |source|
      invariant target[..at] == old(target[..at]) && target[at..at + i] == source[..i]
      invariant target[at + i..] == old(target[at + i..])
    {
      target[at + i] := source[i];
    }
    assert target[..] == target[..at] + target[at..at + |source|] + target[at + |source|..];
  }

  /** The header in a fixed array, part by part. */
  method FillHeader(header: Frame.Header) returns (filled: array<u8>)
    ensures fresh(filled) && filled[..] == Frame.EncodeHeader(header)
  {
    filled := new u8[12](_ => 0);
    CopyInto(filled, 0, Frame.Magic());
    filled[2] := Frame.PROTOCOL_VERSION;
    filled[3] := Frame.Code(header.messageType);
    ghost var front := filled[..4];
    assert front == Frame.Magic() + [Frame.PROTOCOL_VERSION, Frame.Code(header.messageType)];
    CopyInto(filled, 4, ToLittleEndian(header.id, 4));
    assert filled[..8] == front + ToLittleEndian(header.id, 4);
    CopyInto(filled, 8, ToLittleEndian(header.payloadLength, 4));
  }
}
