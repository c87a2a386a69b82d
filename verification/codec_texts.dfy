/** Texts and refusals of the payload decoder: UTF-8 is what scalar values encode to, and
    every refusal names the first thing that is wrong (protocol/codec.rs). */
module CodecTexts {
  import opened Wrappers
  import opened Identity
  import opened Bytes
  import opened Codec

  // ------------------------------------------------------------------- UTF-8

  predicate IsScalar(c: nat) {
    c <= 0x10FFFF && !(0xD800 <= c <= 0xDFFF)
  }

  /** The UTF-8 bytes of a scalar value: its bits, six to a continuation byte. */
  function ScalarBytes(c: nat): seq<u8>
    requires IsScalar(c)
  {
    if c < 0x80 then [c]
    else if c < 0x800 then [0xC0 + c / 64, 0x80 + c % 64]
    else if c < 0x1_0000 then [0xE0 + c / 4096, 0x80 + c / 64 % 64, 0x80 + c % 64]
    else [0xF0 + c / 262144, 0x80 + c / 4096 % 64, 0x80 + c / 64 % 64, 0x80 + c % 64]
  }

  function TextOf(scalars: seq<nat>): seq<u8>
    requires forall c :: c in scalars ==> IsScalar(c)
  {
    if scalars == [] then [] else ScalarBytes(scalars[0]) + TextOf(scalars[1..])
  }

  lemma ScalarLength(c: nat, rest: seq<u8>)
    requires IsScalar(c)
    ensures SequenceLength(ScalarBytes(c) + rest) == |ScalarBytes(c)|
  {
    if c < 0x80 {
    } else if c < 0x800 {
      assert 2 <= c / 64 < 32;
    } else if c < 0x1_0000 {
      Digits(c);
    } else {
      Digits(c);
    }
  }

  lemma Digits(c: nat)
    requires IsScalar(c) && c >= 0x800
    ensures c == c / 4096 * 4096 + c / 64 % 64 * 64 + c % 64
    ensures c / 4096 == c / 262144 * 64 + c / 4096 % 64
    ensures c < 0x1_0000 ==> c / 4096 < 16 && (c / 4096 == 0 ==> c / 64 % 64 >= 0x20) && (c / 4096 == 13 ==> c / 64 % 64 < 0x20)
    ensures c >= 0x1_0000 ==> c / 262144 <= 4 && (c / 262144 == 0 ==> c / 4096 % 64 >= 0x10)
                              && (c / 262144 == 4 ==> c / 4096 % 64 < 0x10)
  {}

  /** The scalar value of a well-formed sequence. */
  lemma SequenceScalar(bytes: seq<u8>) returns (c: nat)
    requires SequenceLength(bytes) > 0
    ensures IsScalar(c) && ScalarBytes(c) == bytes[..SequenceLength(bytes)]
  {
    var n := SequenceLength(bytes);
    if n == 1 {
      c := bytes[0];
    } else if n == 2 {
      c := Joined(bytes[0] - 0xC0, bytes[1] - 0x80);
    } else if n == 3 {
      c := ThreeByteScalar(bytes);
    } else {
      c := FourByteScalar(bytes);
    }
  }

  lemma ThreeByteScalar(bytes: seq<u8>) returns (c: nat)
    requires SequenceLength(bytes) == 3
    ensures IsScalar(c) && ScalarBytes(c) == bytes[..3]
  {
    hide Joined;
    c := Joined(Joined(bytes[0] - 0xE0, bytes[1] - 0x80), bytes[2] - 0x80);
    ThreeBytes(bytes[0] - 0xE0, bytes[1] - 0x80, bytes[2] - 0x80);
  }

  lemma FourByteScalar(bytes: seq<u8>) returns (c: nat)
    requires SequenceLength(bytes) == 4
    ensures IsScalar(c) && ScalarBytes(c) == bytes[..4]
  {
    hide Joined;
    c := Joined(Joined(Joined(bytes[0] - 0xF0, bytes[1] - 0x80), bytes[2] - 0x80), bytes[3] - 0x80);
    FourBytes(bytes[0] - 0xF0, bytes[1] - 0x80, bytes[2] - 0x80, bytes[3] - 0x80);
  }

  function Joined(high: nat, low: nat): nat {
    64 * high + low
  }

  lemma ThreeBytes(a: nat, b: nat, d: nat)
    requires a < 16 && b < 64 && d < 64
    ensures var c := Joined(Joined(a, b), d);
            c / 4096 == a && c / 64 % 64 == b && c % 64 == d && c < 0x1_0000 && (c < 0x800 <==> a == 0 && b < 0x20)
            && (0xD800 <= c <= 0xDFFF <==> a == 13 && b >= 0x20)
  {}

  lemma FourBytes(a: nat, b: nat, d: nat, e: nat)
    requires a <= 4 && b < 64 && d < 64 && e < 64
    ensures var c := Joined(Joined(Joined(a, b), d), e);
            c / 262144 == a && c / 4096 % 64 == b && c / 64 % 64 == d && c % 64 == e
            && (c < 0x1_0000 <==> a == 0 && b < 0x10) && (c > 0x10FFFF <==> a == 4 && b >= 0x10)
  {
    hide Joined;
    var first := Joined(a, b);
    var second := Joined(first, d);
    var c := Joined(second, e);
    LastBits(a, b);
    LastBits(first, d);
    LastBits(second, e);
    assert c / 4096 == c / 64 / 64 && c / 262144 == c / 64 / 64 / 64;
    FourByteRange(a, b, d, e);
  }

  lemma LastBits(high: nat, low: nat)
    requires low < 64
    ensures Joined(high, low) / 64 == high && Joined(high, low) % 64 == low
  {}

  lemma FourByteRange(a: nat, b: nat, d: nat, e: nat)
    requires a <= 4 && b < 64 && d < 64 && e < 64
    ensures var c := Joined(Joined(Joined(a, b), d), e);
            (c < 0x1_0000 <==> a == 0 && b < 0x10) && (c > 0x10FFFF <==> a == 4 && b >= 0x10)
  {}

  lemma {:induction false} TextIsUtf8(scalars: seq<nat>)
    requires forall c :: c in scalars ==> IsScalar(c)
    ensures IsUtf8(TextOf(scalars))
  {
    hide ScalarBytes, SequenceLength;
    if scalars != [] {
      var bytes, rest := ScalarBytes(scalars[0]), TextOf(scalars[1..]);
      TextIsUtf8(scalars[1..]);
      ScalarLength(scalars[0], rest);
      ScalarNotEmpty(scalars[0]);
      assert (bytes + rest)[|bytes|..] == rest;
    }
  }

  lemma ScalarNotEmpty(c: nat)
    requires IsScalar(c)
    ensures ScalarBytes(c) != []
  {}

  lemma {:induction false} Utf8IsText(bytes: seq<u8>) returns (scalars: seq<nat>)
    requires IsUtf8(bytes)
    ensures (forall c :: c in scalars ==> IsScalar(c)) && TextOf(scalars) == bytes
    decreases |bytes|
  {
    hide ScalarBytes, SequenceLength, IsScalar;
    if bytes == [] {
      scalars := [];
    } else {
      var n := SequenceLength(bytes);
      var first := SequenceScalar(bytes);
      var rest := Utf8IsText(bytes[n..]);
      scalars := [first] + rest;
      assert scalars[1..] == rest && bytes == bytes[..n] + bytes[n..];
    }
  }

  /** Bytes are accepted as a text iff they are the UTF-8 of some scalar values. */
  lemma {:induction false} Utf8Iff(bytes: seq<u8>)
    ensures IsUtf8(bytes) <==> exists scalars :: (forall c :: c in scalars ==> IsScalar(c)) && TextOf(scalars) == bytes
  {
    if IsUtf8(bytes) {
      var scalars := Utf8IsText(bytes);
    }
    if scalars :| (forall c :: c in scalars ==> IsScalar(c)) && TextOf(scalars) == bytes {
      TextIsUtf8(scalars);
    }
  }

  // ---------------------------------------------------------------- refusals

  function Pair(low: nat, high: nat): nat {
    low + 256 * high
  }

  /** What is wrong at the front of `rest` for a field of this kind, if anything. */
  function Fault(kind: Kind, rest: seq<u8>): Option<CodecError> {
    match kind
    case U8 => if |rest| < 1 then Some(InvalidLength) else None
    case U16 => if |rest| < 2 then Some(InvalidLength) else None
    case U32 => if |rest| < 4 then Some(InvalidLength) else None
    case U64 => if |rest| < 8 then Some(InvalidLength) else None
    case Reserved8 => if |rest| < 1 then Some(InvalidLength) else if rest[0] != 0 then Some(InvalidReserved) else None
    case Reserved16 =>
      if |rest| < 2 then Some(InvalidLength) else if rest[0] != 0 || rest[1] != 0 then Some(InvalidReserved) else None
    case Raw(length) => if |rest| < length then Some(InvalidLength) else None
    case Text =>
      if |rest| < 2 || |rest| < 2 + Pair(rest[0], rest[1]) then Some(InvalidLength)
      else if !IsUtf8(rest[2..2 + Pair(rest[0], rest[1])]) then Some(InvalidUtf8)
      else None
  }

  lemma TwoBytes(bytes: seq<u8>)
    requires |bytes| == 2
    ensures FromLittleEndian(bytes) == Pair(bytes[0], bytes[1])
  {
    var high := bytes[1..];
    assert high[1..] == [] && FromLittleEndian(high) == high[0];
  }

  lemma BothZero(low: u8, high: u8)
    ensures Pair(low, high) == 0 <==> low == 0 && high == 0
  {}

  lemma FaultAt(kind: Kind, input: seq<u8>, offset: nat)
    requires offset <= |input|
    ensures var fault := Fault(kind, input[offset..]);
            if fault.Some? then DecodeField(kind, input, offset) == Err(fault.value) else DecodeField(kind, input, offset).Ok?
  {
    hide FromLittleEndian, ToLittleEndian, IsUtf8;
    var rest := input[offset..];
    var taken := Take(input, offset, Width(kind));
    if taken.Ok? {
      assert taken.value.0 == rest[..Width(kind)];
      if kind.Text? || kind.Reserved16? {
        TwoBytes(taken.value.0);
        BothZero(rest[0], rest[1]);
      }
      if kind.Text? {
        var length := Pair(rest[0], rest[1]);
        assert |rest| >= 2 + length ==> rest[2..2 + length] == input[offset + 2..offset + 2 + length];
      }
    }
  }

  /** Decoding stops at the first field that something is wrong with, for that reason, and
      bytes behind the last field are counted. */
  lemma {:induction false} FirstFault(fields: seq<Field>, kinds: seq<Kind>, input: seq<u8>, offset: nat)
    requires AllInRange(fields) && EncodeFields(fields).Ok? && offset <= |input|
    requires offset + |EncodeFields(fields).value| <= |input|
    requires input[offset..offset + |EncodeFields(fields).value|] == EncodeFields(fields).value
    ensures var rest := input[offset + |EncodeFields(fields).value|..];
            && (kinds != [] && Fault(kinds[0], rest).Some? ==>
                  DecodeFields(Kinds(fields) + kinds, input, offset) == Err(Fault(kinds[0], rest).value))
            && (rest != [] ==> DecodeFields(Kinds(fields), input, offset) == Err(TrailingBytes(|rest|)))
    decreases fields
  {
    hide DecodeField, EncodeField, EncodedAt, KindOf, Fault, Kinds, DecodeFields;
    if fields == [] {
      NoFieldsLeft(kinds, input, offset);
    } else {
      var bytes, more := EncodeField(fields[0]).value, EncodeFields(fields[1..]).value;
      var end := offset + |bytes|;
      FirstEncoded(input, offset, bytes, more);
      FirstAt(fields, input, offset);
      FieldDecoded(KindOf(fields[0]), input, offset, fields[0], end);
      assert AllInRange(fields[1..]);
      FirstFault(fields[1..], kinds, input, end);
      StepOver(fields, kinds, input, offset, end);
      StepOver(fields, [], input, offset, end);
      assert Kinds(fields) + [] == Kinds(fields) && Kinds(fields[1..]) + [] == Kinds(fields[1..]);
    }
  }

  lemma NoFieldsLeft(kinds: seq<Kind>, input: seq<u8>, offset: nat)
    requires offset <= |input|
    ensures kinds != [] && Fault(kinds[0], input[offset..]).Some? ==>
              DecodeFields(Kinds([]) + kinds, input, offset) == Err(Fault(kinds[0], input[offset..]).value)
    ensures offset < |input| ==> DecodeFields(Kinds([]), input, offset) == Err(TrailingBytes(|input| - offset))
  {
    hide DecodeField, Fault;
    assert Kinds([]) + kinds == kinds;
    if kinds != [] {
      FaultAt(kinds[0], input, offset);
    }
  }

  /** Behind a field that is decoded the errors are those of the rest. */
  lemma StepOver(fields: seq<Field>, kinds: seq<Kind>, input: seq<u8>, offset: nat, end: nat)
    requires fields != [] && offset <= end <= |input| && DecodeField(KindOf(fields[0]), input, offset) == Ok((fields[0], end))
    ensures var rest := DecodeFields(Kinds(fields[1..]) + kinds, input, end);
            rest.Err? ==> DecodeFields(Kinds(fields) + kinds, input, offset) == Err(rest.error)
  {
    hide DecodeField, KindOf, Kinds;
    FirstKind(fields, kinds);
  }

  lemma FirstKind(fields: seq<Field>, kinds: seq<Kind>)
    requires fields != []
    ensures var all := Kinds(fields) + kinds;
            all != [] && all[0] == KindOf(fields[0]) && all[1..] == Kinds(fields[1..]) + kinds
  {
    hide KindOf;
    KindsFirst([KindOf(fields[0])], Kinds(fields[1..]), kinds);
  }

  lemma KindsFirst(first: seq<Kind>, rest: seq<Kind>, kinds: seq<Kind>)
    requires |first| == 1
    ensures var all := (first + rest) + kinds;
            all[0] == first[0] && all[1..] == rest + kinds
  {}

  predicate TooLong(field: Field) {
    field.String? && |field.text| > 65535
  }

  /** Encoding fails iff a text has more bytes than its length field can count, and names
      the first such text's length. */
  lemma {:induction false} FirstTooLong(fields: seq<Field>, k: nat)
    requires k < |fields| && TooLong(fields[k]) && forall i :: 0 <= i < k ==> !TooLong(fields[i])
    ensures EncodeFields(fields) == Err(StringTooLong(|fields[k].text|))
  {
    hide ToLittleEndian;
    if k > 0 {
      assert !TooLong(fields[0]);
      FirstTooLong(fields[1..], k - 1);
    }
  }

  lemma FirstEncoded(input: seq<u8>, offset: nat, bytes: seq<u8>, more: seq<u8>)
    requires offset + |bytes| + |more| <= |input| && input[offset..offset + |bytes| + |more|] == bytes + more
    ensures input[offset..offset + |bytes|] == bytes
    ensures input[offset + |bytes|..offset + |bytes| + |more|] == more
  {
    var whole := input[offset..offset + |bytes| + |more|];
    assert whole[..|bytes|] == bytes && whole[|bytes|..] == more;
    assert whole[..|bytes|] == input[offset..offset + |bytes|];
  }

  lemma FirstAt(fields: seq<Field>, input: seq<u8>, offset: nat)
    requires fields != [] && AllInRange(fields) && EncodeField(fields[0]).Ok? && offset <= |input|
    requires offset + |EncodeField(fields[0]).value| <= |input|
    requires input[offset..offset + |EncodeField(fields[0]).value|] == EncodeField(fields[0]).value
    ensures EncodedAt(fields[0], input, offset, offset + |EncodeField(fields[0]).value|)
  {}
}
