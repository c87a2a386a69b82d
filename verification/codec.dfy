/** Payload fields on the wire (protocol/codec.rs): what the encoder appends is what the
    decoder, asked for the same kinds of fields, takes off again. */
module Codec {
  import opened Wrappers
  import opened Identity
  import opened Bytes

  datatype CodecError =
    | InvalidUtf8
    | InvalidLength
    | InvalidReserved
    | TrailingBytes(count: nat)
    | StringTooLong(length: nat)

  predicate IsContinuation(byte: u8) {
    0x80 <= byte <= 0xBF
  }

  /** The length of the well-formed UTF-8 sequence at the front (table 3-7 of the Unicode
      standard), or 0. */
  function SequenceLength(bytes: seq<u8>): (n: nat)
    ensures n <= |bytes|
  {
    if bytes == [] then 0
    else if bytes[0] <= 0x7F then 1
    else if |bytes| < 2 || !IsContinuation(bytes[1]) then 0
    else if 0xC2 <= bytes[0] <= 0xDF then 2
    else if |bytes| < 3 || !IsContinuation(bytes[2]) then 0
    else if bytes[0] == 0xE0 then (if bytes[1] >= 0xA0 then 3 else 0)
    else if bytes[0] == 0xED then (if bytes[1] <= 0x9F then 3 else 0)
    else if 0xE1 <= bytes[0] <= 0xEF then 3
    else if |bytes| < 4 || !IsContinuation(bytes[3]) then 0
    else if bytes[0] == 0xF0 then (if bytes[1] >= 0x90 then 4 else 0)
    else if 0xF1 <= bytes[0] <= 0xF3 then 4
    else if bytes[0] == 0xF4 then (if bytes[1] <= 0x8F then 4 else 0)
    else 0
  }

  predicate IsUtf8(bytes: seq<u8>) {
    bytes == [] || (SequenceLength(bytes) > 0 && IsUtf8(bytes[SequenceLength(bytes)..]))
  }

  type Utf8 = bytes: seq<u8> | IsUtf8(bytes) witness []

  /** What the decoder is asked for. */
  datatype Kind = U8 | U16 | U32 | U64 | Reserved8 | Reserved16 | Raw(length: nat) | Text

  /** A field as it is encoded; reserved ones are written as zeros. */
  datatype Field =
    | Number8(byte: u8)
    | Number16(value: nat)
    | Number32(value: nat)
    | Number64(value: nat)
    | Zero8
    | Zero16
    | Data(data: seq<u8>)
    | String(text: Utf8)

  /** The number fits its width. */
  predicate InRange(field: Field) {
    && (field.Number16? ==> field.value < 0x1_0000)
    && (field.Number32? ==> field.value < 0x1_0000_0000)
    && (field.Number64? ==> field.value < 0x1_0000_0000_0000_0000)
  }

  function KindOf(field: Field): Kind {
    match field
    case Number8(_) => U8
    case Number16(_) => U16
    case Number32(_) => U32
    case Number64(_) => U64
    case Zero8 => Reserved8
    case Zero16 => Reserved16
    case Data(data) => Raw(|data|)
    case String(_) => Text
  }

  function Kinds(fields: seq<Field>): seq<Kind> {
    if fields == [] then [] else [KindOf(fields[0])] + Kinds(fields[1..])
  }

  // --------------------------------------------------------------- encoding

  function EncodeField(field: Field): Result<seq<u8>, CodecError> {
    match field
    case Number8(byte) => Ok([byte])
    case Number16(value) => Ok(ToLittleEndian(value, 2))
    case Number32(value) => Ok(ToLittleEndian(value, 4))
    case Number64(value) => Ok(ToLittleEndian(value, 8))
    case Zero8 => Ok([0])
    case Zero16 => Ok(ToLittleEndian(0, 2))
    case Data(data) => Ok(data)
    case String(text) =>
      if |text| >= 0x1_0000 then Err(StringTooLong(|text|)) else Ok(ToLittleEndian(|text|, 2) + text)
  }

  function EncodeFields(fields: seq<Field>): Result<seq<u8>, CodecError> {
    if fields == [] then Ok([])
    else
      match EncodeField(fields[0])
      case Err(error) => Err(error)
      case Ok(bytes) =>
        match EncodeFields(fields[1..])
        case Err(error) => Err(error)
        case Ok(rest) => Ok(bytes + rest)
  }

  // --------------------------------------------------------------- decoding

  /** The next `length` bytes and where they end. */
  function Take(input: seq<u8>, offset: nat, length: nat): (r: Result<(seq<u8>, nat), CodecError>)
    requires offset <= |input|
    ensures r.Ok? ==> |r.value.0| == length && r.value.1 == offset + length <= |input|
  {
    if offset + length > |input| then Err(InvalidLength)
    else Ok((input[offset..offset + length], offset + length))
  }

  function Number(kind: Kind, bytes: seq<u8>): Result<Field, CodecError>
    requires match kind
             case U8 => |bytes| == 1
             case U16 => |bytes| == 2
             case U32 => |bytes| == 4
             case U64 => |bytes| == 8
             case Reserved8 => |bytes| == 1
             case Reserved16 => |bytes| == 2
             case _ => false
  {
    BytesRoundTrip(bytes);
    Powers();
    match kind
    case U8 => Ok(Number8(bytes[0]))
    case U16 => Ok(Number16(FromLittleEndian(bytes)))
    case U32 => Ok(Number32(FromLittleEndian(bytes)))
    case U64 => Ok(Number64(FromLittleEndian(bytes)))
    case Reserved8 => if bytes[0] == 0 then Ok(Zero8) else Err(InvalidReserved)
    case Reserved16 => if FromLittleEndian(bytes) == 0 then Ok(Zero16) else Err(InvalidReserved)
  }

  function Width(kind: Kind): nat {
    match kind
    case U8 => 1
    case U16 => 2
    case U32 => 4
    case U64 => 8
    case Reserved8 => 1
    case Reserved16 => 2
    case Raw(length) => length
    case Text => 2
  }

  function DecodeField(kind: Kind, input: seq<u8>, offset: nat): (r: Result<(Field, nat), CodecError>)
    requires offset <= |input|
    ensures r.Ok? ==> offset <= r.value.1 <= |input|
  {
    match Take(input, offset, Width(kind))
    case Err(error) => Err(error)
    case Ok((bytes, end)) =>
      if kind.Raw? then Ok((Data(bytes), end))
      else if kind.Text? then
        match Take(input, end, FromLittleEndian(bytes))
        case Err(error) => Err(error)
        case Ok((text, stop)) => if IsUtf8(text) then Ok((String(text), stop)) else Err(InvalidUtf8)
      else
        match Number(kind, bytes)
        case Err(error) => Err(error)
        case Ok(field) => Ok((field, end))
  }

  /** Decodes the fields in order; `finish` accepts no bytes behind the last one. */
  function DecodeFields(kinds: seq<Kind>, input: seq<u8>, offset: nat): Result<seq<Field>, CodecError>
    requires offset <= |input|
    decreases |kinds|
  {
    if kinds == [] then (if offset == |input| then Ok([]) else Err(TrailingBytes(|input| - offset)))
    else
      match DecodeField(kinds[0], input, offset)
      case Err(error) => Err(error)
      case Ok((field, end)) =>
        match DecodeFields(kinds[1..], input, end)
        case Err(error) => Err(error)
        case Ok(fields) => Ok([field] + fields)
  }

  // -------------------------------------------------------------- round trips

  /** A field is decoded exactly if its encoding is at the offset. */
  predicate EncodedAt(field: Field, input: seq<u8>, offset: nat, end: nat)
    requires offset <= |input|
  {
    && InRange(field) && EncodeField(field).Ok?
    && end == offset + |EncodeField(field).value| <= |input|
    && input[offset..end] == EncodeField(field).value
  }

  lemma NumberFound(bytes: seq<u8>, n: nat, width: nat)
    requires |bytes| == width
    ensures FromLittleEndian(bytes) == n <==> n < Power(width) && bytes == ToLittleEndian(n, width)
  {
    BytesRoundTrip(bytes);
    if n < Power(width) {
      NumberRoundTrip(n, width);
    }
  }

  lemma NumberDecoded(kind: Kind, input: seq<u8>, offset: nat, field: Field, end: nat)
    requires offset <= |input| && !kind.Raw? && !kind.Text?
    ensures DecodeField(kind, input, offset) == Ok((field, end)) <==> KindOf(field) == kind && EncodedAt(field, input, offset, end)
  {
    hide ToLittleEndian, FromLittleEndian, Power, IsUtf8;
    Powers();
    if Take(input, offset, Width(kind)).Ok? {
      var bytes := input[offset..offset + Width(kind)];
      match field
      case Number8(_) =>
      case Number16(value) => NumberFound(bytes, value, Width(kind));
      case Number32(value) => NumberFound(bytes, value, Width(kind));
      case Number64(value) => NumberFound(bytes, value, Width(kind));
      case Zero8 =>
      case Zero16 => NumberFound(bytes, 0, Width(kind));
      case Data(_) =>
      case String(_) =>
    }
  }

  lemma TextDecoded(input: seq<u8>, offset: nat, field: Field, end: nat)
    requires offset <= |input|
    ensures DecodeField(Text, input, offset) == Ok((field, end)) <==> KindOf(field) == Text && EncodedAt(field, input, offset, end)
  {
    hide ToLittleEndian, FromLittleEndian, Power, IsUtf8;
    Powers();
    if Take(input, offset, 2).Ok? {
      var bytes := input[offset..offset + 2];
      if field.String? {
        NumberFound(bytes, |field.text|, 2);
        TextBytes(input, offset, field.text, end);
      }
    }
  }

  lemma TextBytes(input: seq<u8>, offset: nat, text: seq<u8>, end: nat)
    requires offset + 2 <= |input|
    ensures end == offset + 2 + |text| <= |input| ==>
      (input[offset..end] == ToLittleEndian(|text|, 2) + text
       <==> input[offset..offset + 2] == ToLittleEndian(|text|, 2) && input[offset + 2..end] == text)
  {
    if end == offset + 2 + |text| <= |input| {
      var length, whole := ToLittleEndian(|text|, 2), input[offset..end];
      assert whole == input[offset..offset + 2] + input[offset + 2..end];
      if whole == length + text {
        assert whole[..2] == length && whole[2..] == text;
        assert whole[..2] == input[offset..offset + 2] && whole[2..] == input[offset + 2..end];
      }
    }
  }

  lemma FieldDecoded(kind: Kind, input: seq<u8>, offset: nat, field: Field, end: nat)
    requires offset <= |input|
    ensures DecodeField(kind, input, offset) == Ok((field, end)) <==> KindOf(field) == kind && EncodedAt(field, input, offset, end)
  {
    if kind.Text? {
      TextDecoded(input, offset, field, end);
    } else if !kind.Raw? {
      NumberDecoded(kind, input, offset, field, end);
    }
  }

  predicate AllInRange(fields: seq<Field>) {
    forall i :: 0 <= i < |fields| ==> InRange(fields[i])
  }

  /** The fields encode to what is left of the input. */
  predicate EncodeToRest(fields: seq<Field>, input: seq<u8>, offset: nat)
    requires offset <= |input|
  {
    AllInRange(fields) && EncodeFields(fields) == Ok(input[offset..])
  }

  lemma EncodeFirst(fields: seq<Field>, input: seq<u8>, offset: nat, end: nat)
    requires fields != [] && offset <= end <= |input| && EncodedAt(fields[0], input, offset, end)
    ensures EncodeToRest(fields, input, offset) <==> EncodeToRest(fields[1..], input, end)
  {
    hide EncodeField;
    var bytes := EncodeField(fields[0]).value;
    assert input[offset..] == bytes + input[end..];
    if EncodeFields(fields[1..]).Ok? {
      var rest := EncodeFields(fields[1..]).value;
      if bytes + rest == bytes + input[end..] {
        assert (bytes + rest)[|bytes|..] == rest && (bytes + input[end..])[|bytes|..] == input[end..];
      }
    }
    assert AllInRange(fields[1..]) && InRange(fields[0]) ==> AllInRange(fields);
  }

  lemma EncodedFirst(fields: seq<Field>, input: seq<u8>, offset: nat)
    requires fields != [] && offset <= |input| && EncodeToRest(fields, input, offset)
    ensures EncodeField(fields[0]).Ok?
    ensures EncodedAt(fields[0], input, offset, offset + |EncodeField(fields[0]).value|)
  {
    hide EncodeField;
    var bytes := EncodeField(fields[0]).value;
    var rest := EncodeFields(fields[1..]).value;
    assert input[offset..] == bytes + rest;
    assert |input[offset..]| == |bytes| + |rest|;
    assert input[offset..offset + |bytes|] == input[offset..][..|bytes|];
  }

  /** Decoding is the inverse of encoding: asked for the same kinds, the decoder returns
      the encoder's fields with nothing left over, and accepts no other bytes. */
  lemma {:induction false} DecodeIffEncoded(kinds: seq<Kind>, input: seq<u8>, offset: nat, fields: seq<Field>)
    requires offset <= |input|
    ensures DecodeFields(kinds, input, offset) == Ok(fields) <==> Kinds(fields) == kinds && EncodeToRest(fields, input, offset)
    decreases |kinds|
  {
    hide DecodeField, EncodeField, EncodedAt, KindOf;
    if kinds == [] {
      assert offset == |input| <==> input[offset..] == [];
    } else if fields == [] {
    } else {
      assert Kinds(fields) == kinds <==> KindOf(fields[0]) == kinds[0] && Kinds(fields[1..]) == kinds[1..] by {
        assert kinds == [kinds[0]] + kinds[1..];
        assert Kinds(fields)[0] == KindOf(fields[0]) && Kinds(fields)[1..] == Kinds(fields[1..]);
      }
      FirstDecoded(kinds, input, offset, fields);
    }
  }

  lemma FirstDecoded(kinds: seq<Kind>, input: seq<u8>, offset: nat, fields: seq<Field>)
    requires offset <= |input| && kinds != [] && fields != []
    ensures DecodeFields(kinds, input, offset) == Ok(fields)
       <==> KindOf(fields[0]) == kinds[0] && Kinds(fields[1..]) == kinds[1..] && EncodeToRest(fields, input, offset)
    decreases |kinds|, 0
  {
    hide EncodeField, EncodedAt, KindOf, EncodeToRest;
    var first := DecodeField(kinds[0], input, offset);
    if first.Ok? {
      var (field, end) := first.value;
      FieldDecoded(kinds[0], input, offset, field, end);
      DecodeIffEncoded(kinds[1..], input, end, fields[1..]);
      SplitFirst(kinds, input, offset, fields, field, end);
      if field == fields[0] {
        EncodeFirst(fields, input, offset, end);
      }
    }
    if EncodeToRest(fields, input, offset) && KindOf(fields[0]) == kinds[0] {
      EncodedFirst(fields, input, offset);
      FieldDecoded(kinds[0], input, offset, fields[0], offset + |EncodeField(fields[0]).value|);
    }
  }

  lemma SplitFirst(kinds: seq<Kind>, input: seq<u8>, offset: nat, fields: seq<Field>, field: Field, end: nat)
    requires offset <= |input| && kinds != [] && fields != [] && DecodeField(kinds[0], input, offset) == Ok((field, end))
    ensures DecodeFields(kinds, input, offset) == Ok(fields)
       <==> field == fields[0] && DecodeFields(kinds[1..], input, end) == Ok(fields[1..])
  {
    hide DecodeField;
    var rest := DecodeFields(kinds[1..], input, end);
    if rest.Ok? {
      assert ([field] + rest.value)[0] == field && ([field] + rest.value)[1..] == rest.value;
      if rest.value == fields[1..] {
        assert fields == [fields[0]] + fields[1..];
      }
    }
  }

  /** Any sequence of fields that can be encoded is read back in order, to the end. */
  lemma {:induction false} EncodedReadsBack(fields: seq<Field>)
    requires AllInRange(fields) && EncodeFields(fields).Ok?
    ensures DecodeFields(Kinds(fields), EncodeFields(fields).value, 0) == Ok(fields)
  {
    var bytes := EncodeFields(fields).value;
    assert bytes[0..] == bytes;
    DecodeIffEncoded(Kinds(fields), bytes, 0, fields);
  }

  /** Only a text of 64 KiB or more cannot be encoded. */
  lemma {:induction false} EncodableIff(fields: seq<Field>)
    ensures EncodeFields(fields).Ok? <==> forall i :: 0 <= i < |fields| && fields[i].String? ==> |fields[i].text| < 0x1_0000
  {
    if fields != [] {
      EncodableIff(fields[1..]);
      assert forall i :: 0 <= i < |fields[1..]| ==> fields[1..][i] == fields[i + 1];
      assert (forall i :: 0 <= i < |fields| && fields[i].String? ==> |fields[i].text| < 0x1_0000)
        ==> forall i :: 0 <= i < |fields[1..]| && fields[1..][i].String? ==> |fields[1..][i].text| < 0x1_0000;
    }
  }
}
