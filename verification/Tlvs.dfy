/** Chains of type-length-value items, as Announce and Signaling messages carry them. */
module Tlvs {
  import opened Arith
  import opened Bytes

  datatype Tlv = Tlv(kind: nat, body: seq<byte>)

  predicate Encodable(t: Tlv) { t.kind < 65536 && |t.body| < 65536 }

  function Two(n: nat): (s: seq<byte>)
    requires n < 65536
    ensures |s| == 2 && Word(s, 0) == n
  {
    [n / 256, n % 256]
  }

  /** The 16-bit number at an offset. */
  function Word(s: seq<byte>, at: nat): (n: nat)
    requires at + 2 <= |s|
    ensures n < 65536
  {
    var high: int, low: int := s[at], s[at + 1];
    high * 256 + low
  }

  function Encode(t: Tlv): (s: seq<byte>)
    requires Encodable(t)
    ensures |s| == 4 + |t.body|
  {
    Two(t.kind) + Two(|t.body|) + t.body
  }

  /** Some item starts here and ends within the string. */
  predicate Starts(s: seq<byte>) { |s| >= 4 && Word(s, 2) <= |s| - 4 }

  function First(s: seq<byte>): (t: Tlv)
    requires Starts(s)
    ensures Encodable(t) && |t.body| == Word(s, 2)
  {
    Tlv(Word(s, 0), s[4..4 + Word(s, 2)])
  }

  /** The whole string as a chain, if it is one. */
  function Split(s: seq<byte>): Option<seq<Tlv>>
    decreases |s|
  {
    if s == [] then Some([])
    else if !Starts(s) then None
    else
      match Split(s[4 + Word(s, 2)..])
      case None => None
      case Some(rest) => Some([First(s)] + rest)
  }

  function Join(tlvs: seq<Tlv>): seq<byte>
    requires forall t <- tlvs :: Encodable(t)
  {
    if tlvs == [] then [] else Encode(tlvs[0]) + Join(tlvs[1..])
  }

  lemma EncodeBytes(t: Tlv)
    requires Encodable(t)
    ensures Encode(t) == [t.kind / 256, t.kind % 256, |t.body| / 256, |t.body| % 256] + t.body
  {
    var head := [t.kind / 256, t.kind % 256, |t.body| / 256, |t.body| % 256];
    assert Two(t.kind) + Two(|t.body|) == head;
  }

  lemma Slice(s: seq<byte>, from: nat, to: nat, i: nat, j: nat)
    requires from <= to <= |s| && i <= j <= to - from
    ensures s[from..to][i..j] == s[from + i..from + j]
  {
    var t := s[from..to];
    forall k | 0 <= k < j - i
      ensures t[i..j][k] == s[from + i..from + j][k]
    {
      assert t[i..j][k] == t[i + k] == s[from + (i + k)];
    }
  }

  lemma FirstOfEncoded(t: Tlv, rest: seq<byte>)
    requires Encodable(t)
    ensures var s := Encode(t) + rest; Starts(s) && First(s) == t && s[4 + Word(s, 2)..] == rest
  {
    var s := Encode(t) + rest;
    assert s[0] == Two(t.kind)[0] && s[1] == Two(t.kind)[1];
    assert s[2] == Two(|t.body|)[0] && s[3] == Two(|t.body|)[1];
    assert s[4..4 + |t.body|] == t.body;
  }

  /** Every chain of items is read back from its bytes. */
  lemma {:induction false} SplitJoin(tlvs: seq<Tlv>)
    requires forall t <- tlvs :: Encodable(t)
    ensures Split(Join(tlvs)) == Some(tlvs)
  {
    if tlvs == [] {
    } else {
      SplitJoin(tlvs[1..]);
      FirstOfEncoded(tlvs[0], Join(tlvs[1..]));
      assert tlvs == [tlvs[0]] + tlvs[1..];
    }
  }

  /** Conversely, whatever splits is the bytes of its items. */
  lemma {:induction false} JoinSplit(s: seq<byte>)
    requires Split(s).Some?
    ensures forall t <- Split(s).value :: Encodable(t)
    ensures Join(Split(s).value) == s
    decreases |s|
  {
    if s == [] {
    } else {
      var n := 4 + Word(s, 2);
      JoinSplit(s[n..]);
      var t, rest := First(s), Split(s[n..]).value;
      assert Split(s).value == [t] + rest && ([t] + rest)[1..] == rest;
      EncodeFirst(s);
      assert s == s[..n] + s[n..];
    }
  }

  lemma EncodeFirst(s: seq<byte>)
    requires Starts(s)
    ensures Encode(First(s)) == s[..4 + Word(s, 2)]
  {
    var n := 4 + Word(s, 2);
    WordBack(s, 0);
    WordBack(s, 2);
    assert s[..n] == s[..2] + s[2..4] + s[4..n];
  }

  lemma WordBack(s: seq<byte>, at: nat)
    requires at + 2 <= |s|
    ensures Two(Word(s, at)) == s[at..at + 2]
  {
    var high: int, low: int := s[at], s[at + 1];
    assert (high * 256 + low) / 256 == high && (high * 256 + low) % 256 == low;
  }

  /** What is left to read decides, given what has been read. */
  ghost predicate Continues(done: seq<Tlv>, rest: seq<byte>, whole: seq<byte>) {
    match Split(rest)
    case None => Split(whole).None?
    case Some(tlvs) => Split(whole) == Some(done + tlvs)
  }

  lemma Begin(whole: seq<byte>)
    ensures Continues([], whole, whole)
  {
    if Split(whole).Some? {
      assert [] + Split(whole).value == Split(whole).value;
    }
  }

  /** The item at an offset of a message whose chain ends at `length`. */
  predicate StartsAt(message: seq<byte>, at: nat, length: nat)
    requires at <= length <= |message|
  {
    length - at >= 4 && Word(message, at + 2) <= length - at - 4
  }

  function ItemAt(message: seq<byte>, at: nat, length: nat): Tlv
    requires at <= length <= |message| && StartsAt(message, at, length)
  {
    Tlv(Word(message, at), message[at + 4..at + 4 + Word(message, at + 2)])
  }

  lemma Advance(done: seq<Tlv>, message: seq<byte>, at: nat, length: nat, whole: seq<byte>)
    requires at < length <= |message| && Continues(done, message[at..length], whole)
    ensures !StartsAt(message, at, length) ==> Split(whole).None?
    ensures StartsAt(message, at, length) ==>
      Continues(done + [ItemAt(message, at, length)], message[at + 4 + Word(message, at + 2)..length], whole)
  {
    var rest := message[at..length];
    if |rest| >= 4 {
      assert Word(rest, 0) == Word(message, at) && Word(rest, 2) == Word(message, at + 2);
    }
    if Starts(rest) {
      var n := 4 + Word(rest, 2);
      assert rest[n..] == message[at + n..length];
      Slice(message, at, length, 4, n);
      assert First(rest) == ItemAt(message, at, length);
      if Split(rest).Some? {
        var tail := Split(rest[n..]).value;
        assert done + ([First(rest)] + tail) == done + [First(rest)] + tail;
      }
    }
  }

  /** The items from `base` up to `at` have been read. */
  ghost predicate Reached(message: seq<byte>, base: nat, at: nat, length: nat, done: seq<Tlv>) {
    base <= at <= length <= |message| && Continues(done, message[at..length], message[base..length])
  }

  function Next(message: seq<byte>, at: nat, length: nat): (next: nat)
    requires at <= length <= |message| && StartsAt(message, at, length)
    ensures at < next <= length
  {
    at + 4 + Word(message, at + 2)
  }

  lemma ReachNext(message: seq<byte>, base: nat, at: nat, length: nat, done: seq<Tlv>)
    requires Reached(message, base, at, length, done) && at < length
    ensures !StartsAt(message, at, length) ==> Split(message[base..length]).None?
    ensures StartsAt(message, at, length) ==>
      Reached(message, base, Next(message, at, length), length, done + [ItemAt(message, at, length)])
  {
    Advance(done, message, at, length, message[base..length]);
  }

  lemma ReachEnd(message: seq<byte>, base: nat, length: nat, done: seq<Tlv>)
    requires Reached(message, base, length, length, done)
    ensures Split(message[base..length]) == Some(done)
  {
    assert message[length..length] == [] && done + [] == done;
  }

  lemma SplitOne(t: Tlv)
    requires Encodable(t)
    ensures Split(Encode(t)) == Some([t])
  {
    SplitJoin([t]);
    assert [t][1..] == [] && Join([t]) == Encode(t) + [] == Encode(t);
  }
}
