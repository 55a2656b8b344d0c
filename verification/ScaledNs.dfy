/** ScaledNs, the signed 96-bit count of 2^-16 ns in which a Follow_Up reports a phase
    change: the bridge's writer and the station's reader. */
module ScaledNs {
  import opened Arith
  import opened Bytes

  const TWO64: int := 0x1_0000_0000_0000_0000

  /** The two's complement of a 64-bit value, and back. */
  function ToUnsigned(v: int): nat
    requires FitsInt64(v)
  {
    if v < 0 then v + TWO64 else v
  }

  function ToSigned(u: nat): int { if u >= TWO64 / 2 then u - TWO64 else u }

  /** A signed 96-bit count of 2^-16 ns. */
  function EncodeScaled(v: int): (s: seq<byte>)
    requires FitsInt64(v)
    ensures |s| == 12
  {
    var sign: byte := if v < 0 then 0xff else 0;
    [sign, sign] + BigEndian(ToUnsigned(v), 8) + [0, 0]
  }

  /** The whole nanoseconds, when the first 16 bits only extend the sign. */
  function DecodeScaled(s: seq<byte>): Option<int>
    requires |s| == 12
  {
    var sign: byte := if s[2] >= 128 then 0xff else 0;
    if s[0] != sign || s[1] != sign then None else Some(ToSigned(FromBigEndian(s[2..10])))
  }

  method WriteScaled(value: int, scaled: array<byte>)
    requires FitsInt64(value) && scaled.Length == 12
    modifies scaled
    ensures scaled[..] == EncodeScaled(value)
  {
    var sign: byte := if value < 0 then 0xff else 0;
    scaled[0] := sign;
    scaled[1] := sign;
    var unsigned := if value < 0 then value + TWO64 else value;
    var i := 0;
    while i < 8
      invariant 0 <= i <= 8
      invariant scaled[0] == scaled[1] == sign
      invariant forall k :: 0 <= k < i ==> scaled[2 + k] == BigEndian(unsigned, 8)[k]
    {
      BigEndianAt(unsigned, 8, i);
      scaled[2 + i] := unsigned / Pow256(7 - i) % 256;
      i := i + 1;
    }
    scaled[10] := 0;
    scaled[11] := 0;
    assert scaled[2..10] == BigEndian(unsigned, 8);
    assert scaled[..] == scaled[..2] + scaled[2..10] + scaled[10..];
  }

  method ReadScaled(scaled: seq<byte>) returns (phase: Option<int>)
    requires |scaled| == 12
    ensures phase == DecodeScaled(scaled)
  {
    var sign: byte := if scaled[2] >= 128 then 0xff else 0;
    if scaled[0] != sign || scaled[1] != sign { return None; }
    var value := 0;
    var i := 2;
    while i < 10
      invariant 2 <= i <= 10
      invariant value == FromBigEndian(scaled[2..i])
    {
      assert scaled[2..i + 1][..i - 2] == scaled[2..i];
      value := value * 256 + scaled[i];
      i := i + 1;
    }
    return Some(if value >= TWO64 / 2 then value - TWO64 else value);
  }

  lemma Pow256Of8()
    ensures Pow256(8) == TWO64 && Pow256(7) == TWO64 / 256
  {
    assert Pow256(1) == 256 && Pow256(2) == 65536 && Pow256(3) == 0x100_0000 && Pow256(4) == 0x1_0000_0000;
    assert Pow256(5) == 0x100_0000_0000 && Pow256(6) == 0x1_0000_0000_0000;
  }

  /** The station's decoder recovers every 64-bit phase change. */
  lemma ScaledRoundTrip(v: int)
    requires FitsInt64(v)
    ensures DecodeScaled(EncodeScaled(v)) == Some(v)
  {
    Pow256Of8();
    var u, s := ToUnsigned(v), EncodeScaled(v);
    BigEndianRoundTrip(u, 8);
    BigEndianAt(u, 8, 0);
    assert s[2..10] == BigEndian(u, 8);
    assert s[2] == BigEndian(u, 8)[0];
    assert s[2] >= 128 <==> v < 0 by {
      TopByte(u);
    }
  }

  lemma TopByte(u: nat)
    requires u < TWO64
    ensures u / (TWO64 / 256) % 256 >= 128 <==> u >= TWO64 / 2
  {
    var q := u / (TWO64 / 256);
    assert 0 <= q < 256;
  }

  /** Conversely, whatever it decodes is, apart from the fraction, an encoding of it. */
  lemma DecodedIsEncoded(s: seq<byte>)
    requires |s| == 12 && DecodeScaled(s).Some?
    ensures var v := DecodeScaled(s).value; FitsInt64(v) && EncodeScaled(v)[..10] == s[..10]
  {
    Pow256Of8();
    var body := s[2..10];
    FromBigEndianRoundTrip(body);
    var u := FromBigEndian(body);
    BigEndianAt(u, 8, 0);
    TopByte(u);
    assert body[0] == s[2];
    var v := DecodeScaled(s).value;
    assert ToUnsigned(v) == u;
    assert s[..10] == [s[0], s[1]] + body;
    assert EncodeScaled(v)[..10] == [s[0], s[1]] + BigEndian(u, 8);
  }
}
