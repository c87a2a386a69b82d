/** Little-endian numbers as bytes. */
module Bytes {
  import opened Identity

  function Power(width: nat): nat {
    if width == 0 then 1 else 256 * Power(width - 1)
  }

  /** The low `width` bytes of a number, lowest first. */
  function ToLittleEndian(n: nat, width: nat): (r: seq<u8>)
    ensures |r| == width
    decreases width
  {
    if width == 0 then [] else [n % 256] + ToLittleEndian(n / 256, width - 1)
  }

  function FromLittleEndian(bytes: seq<u8>): nat {
    if bytes == [] then 0 else bytes[0] + 256 * FromLittleEndian(bytes[1..])
  }

  lemma {:induction false} NumberRoundTrip(n: nat, width: nat)
    requires n < Power(width)
    ensures FromLittleEndian(ToLittleEndian(n, width)) == n
    decreases width
  {
    if width > 0 {
      NumberRoundTrip(n / 256, width - 1);
      assert ToLittleEndian(n, width)[1..] == ToLittleEndian(n / 256, width - 1);
    }
  }

  lemma {:induction false} BytesRoundTrip(bytes: seq<u8>)
    ensures ToLittleEndian(FromLittleEndian(bytes), |bytes|) == bytes && FromLittleEndian(bytes) < Power(|bytes|)
  {
    if bytes != [] {
      BytesRoundTrip(bytes[1..]);
      LowByte(bytes[0], FromLittleEndian(bytes[1..]));
    }
  }

  lemma LowByte(low: u8, high: nat)
    ensures (low + 256 * high) % 256 == low && (low + 256 * high) / 256 == high
  {}

  lemma Powers()
    ensures Power(1) == 0x100 && Power(2) == 0x1_0000 && Power(4) == 0x1_0000_0000 && Power(8) == 0x1_0000_0000_0000_0000
  {
    assert Power(3) == 256 * Power(2) && Power(4) == 256 * Power(3);
    assert Power(5) == 256 * Power(4) && Power(6) == 256 * Power(5) && Power(7) == 256 * Power(6);
  }
}
