/** Byte strings: clock identities and big-endian numbers. */
module Bytes {
  import opened Arith

  datatype Option<T> = None | Some(value: T)

  type Identity = i: seq<byte> | |i| == 8 witness [0, 0, 0, 0, 0, 0, 0, 0]

  function Pow256(n: nat): (p: int)
    ensures p > 0
  {
    if n == 0 then 1 else 256 * Pow256(n - 1)
  }

  /** The n low-order bytes of u, most significant first. */
  function BigEndian(u: nat, n: nat): (s: seq<byte>)
    ensures |s| == n
  {
    if n == 0 then [] else BigEndian(u / 256, n - 1) + [u % 256]
  }

  function FromBigEndian(s: seq<byte>): nat
    decreases |s|
  {
    if s == [] then 0 else FromBigEndian(s[..|s| - 1]) * 256 + s[|s| - 1]
  }

  lemma {:induction false} BigEndianAt(u: nat, n: nat, i: nat)
    requires i < n
    ensures BigEndian(u, n)[i] == u / Pow256(n - 1 - i) % 256
    decreases n
  {
    if i < n - 1 {
      BigEndianAt(u / 256, n - 1, i);
      DivideTwice(u, 256, Pow256(n - 2 - i));
    } else {
      assert Pow256(0) == 1;
    }
  }

  lemma DivideTwice(u: nat, a: int, b: int)
    requires a > 0 && b > 0
    ensures a * b > 0 && u / a / b == u / (a * b)
  {
    SignOfProduct(a, b);
    Quotient(u, a);
    Quotient(u / a, b);
    Nested(u, a, b, u / a, u / a / b);
    TruncUnique(u, a * b, u / a / b);
  }

  lemma Nested(u: int, a: int, b: int, v: int, q: int)
    requires a > 0 && a * v <= u < a * v + a && b * q <= v < b * q + b
    ensures (a * b) * q <= u < (a * b) * q + a * b
  {
    Distribute2(a, b, q, b);
    StrictlyBelow(a, v, b * q + b);
    if b * q < v {
      StrictlyBelow(a, b * q, v);
    }
    Regroup(a, b, q);
  }

  lemma Regroup(a: int, b: int, q: int)
    ensures a * (b * q) == (a * b) * q
  {
  }

  lemma {:induction false} BigEndianRoundTrip(u: nat, n: nat)
    requires u < Pow256(n)
    ensures FromBigEndian(BigEndian(u, n)) == u
  {
    if n == 0 {
    } else {
      BigEndianRoundTrip(u / 256, n - 1);
      assert BigEndian(u, n)[..n - 1] == BigEndian(u / 256, n - 1);
    }
  }

  lemma ShiftIn(u: nat, last: byte, limit: int)
    requires u < limit
    ensures (u * 256 + last) / 256 == u && (u * 256 + last) % 256 == last && u * 256 + last < 256 * limit
  {
  }

  lemma {:induction false} FromBigEndianRoundTrip(s: seq<byte>)
    ensures FromBigEndian(s) < Pow256(|s|) && BigEndian(FromBigEndian(s), |s|) == s
    decreases |s|
  {
    if s == [] {
    } else {
      var front, last := s[..|s| - 1], s[|s| - 1];
      FromBigEndianRoundTrip(front);
      var u := FromBigEndian(front);
      ShiftIn(u, last, Pow256(|front|));
      assert s == front + [last];
    }
  }
}
