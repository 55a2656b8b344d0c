/** Signaling messages: the reader that validates the whole chain before it exposes an
    item, the writers, and their round trip over the wire. */
module Signaling {
  import opened Arith
  import opened Bytes
  import opened Tlvs
  import opened Wire
  import opened CapableReceive
  import CapableSchedule

  const BODY: nat := 44
  const WILDCARD: seq<byte> := [255, 255, 255, 255, 255, 255, 255, 255, 255, 255]

  const INTERVALS: byte := 2        // message interval request
  const CAPABLE: byte := 4          // gPTP-capable indication
  const CAPABLE_INTERVAL: byte := 5 // gPTP-capable interval request

  // ---- Items ------------------------------------------------------------------------------

  predicate OfStandard(t: Tlv) {
    |t.body| >= 6 && t.body[..5] == [0, 0x80, 0xc2, 0, 0]
  }

  /** The subtype of an item this reader knows. */
  function Known(t: Tlv): Option<byte> {
    if !OfStandard(t) then None
    else if t.body[5] == INTERVALS && t.kind == 0x0003 then Some(INTERVALS)
    else if (t.body[5] == CAPABLE || t.body[5] == CAPABLE_INTERVAL) && t.kind == 0x8000 then Some(t.body[5])
    else None
  }

  predicate Shaped(t: Tlv) {
    && |t.body| % 2 == 0
    && (Known(t).Some? ==> |t.body| == if Known(t).value == CAPABLE_INTERVAL then 10 else 12)
  }

  /** Every item is shaped and no known one comes twice. */
  predicate WellFormed(tlvs: seq<Tlv>) {
    && (forall t <- tlvs :: Shaped(t))
    && (forall i, j :: 0 <= i < j < |tlvs| && Known(tlvs[i]).Some? ==> Known(tlvs[i]) != Known(tlvs[j]))
  }

  function Pick(tlvs: seq<Tlv>, subtype: byte): (t: Option<Tlv>)
    ensures t.Some? ==> t.value in tlvs && Known(t.value) == Some(subtype)
    ensures t.None? ==> forall u <- tlvs :: Known(u) != Some(subtype)
  {
    if tlvs == [] then None
    else if Known(tlvs[|tlvs| - 1]) == Some(subtype) then Some(tlvs[|tlvs| - 1])
    else Pick(tlvs[..|tlvs| - 1], subtype)
  }

  // ---- Reading -----------------------------------------------------------------------------

  datatype Reading<T> = Malformed | Ignored | Read(value: T)

  /** For this domain and port, and not from this clock. */
  predicate Addressed(m: seq<byte>, domain: byte, local: PortId)
    requires |m| >= BODY
  {
    && m[0] == 0x1c && m[1] % 16 == 2 && m[4] == domain && m[5] == 0
    && (m[34..44] == WILDCARD || m[34..44] == local)
    && m[20..28] != local[..8]
  }

  function Find(m: seq<byte>, domain: byte, local: PortId, subtype: byte): (r: Reading<Tlv>)
    ensures r.Read? ==> |m| >= BODY && Known(r.value) == Some(subtype) && Shaped(r.value)
  {
    if |m| < BODY || Word(m, 2) < BODY || Word(m, 2) > |m| then Malformed
    else if !Addressed(m, domain, local) then Ignored
    else Outcome(m[BODY..Word(m, 2)], subtype)
  }

  function Outcome(chain: seq<byte>, subtype: byte): (r: Reading<Tlv>)
    ensures r.Read? ==> Known(r.value) == Some(subtype) && Shaped(r.value)
  {
    match Split(chain)
    case None => Malformed
    case Some(tlvs) =>
      if !WellFormed(tlvs) then Malformed
      else
        match Pick(tlvs, subtype)
        case None => Ignored
        case Some(t) => Read(t)
  }

  /** The items before an offset: nothing wrong so far. */
  ghost predicate Reads(done: seq<Tlv>, seen: set<byte>, found: Option<Tlv>, subtype: byte) {
    && WellFormed(done) && found == Pick(done, subtype)
    && forall k: byte :: k in seen <==> Occurs(done, k)
  }

  ghost predicate Occurs(tlvs: seq<Tlv>, subtype: byte) {
    exists i :: 0 <= i < |tlvs| && Known(tlvs[i]) == Some(subtype)
  }

  lemma OccursNext(done: seq<Tlv>, t: Tlv, subtype: byte)
    ensures Occurs(done + [t], subtype) <==> Occurs(done, subtype) || Known(t) == Some(subtype)
  {
    var all, n := done + [t], |done|;
    assert all[n] == t;
    if i :| 0 <= i < n && Known(done[i]) == Some(subtype) {
      assert all[i] == done[i];
    }
  }

  /** A bad or repeated item spoils the message whatever follows. */
  lemma Spoils(m: seq<byte>, at: nat, length: nat, done: seq<Tlv>, t: Tlv, subtype: byte)
    requires Reached(m, BODY, at, length, done + [t])
    requires !Shaped(t) || (Known(t).Some? && Occurs(done, Known(t).value))
    ensures Outcome(m[BODY..length], subtype).Malformed?
  {
    var n := |done|;
    if Split(m[at..length]).Some? {
      var all := done + [t] + Split(m[at..length]).value;
      assert all[n] == t;
      if Shaped(t) {
        var i :| 0 <= i < |done| && Known(done[i]) == Known(t);
        assert all[i] == done[i];
      }
    }
  }

  lemma ReadsNext(done: seq<Tlv>, seen: set<byte>, found: Option<Tlv>, subtype: byte, t: Tlv)
    requires Reads(done, seen, found, subtype) && Shaped(t)
    requires Known(t).Some? ==> Known(t).value !in seen
    ensures Reads(done + [t], if Known(t).Some? then seen + {Known(t).value} else seen,
                  if Known(t) == Some(subtype) then Some(t) else found, subtype)
  {
    var all, n := done + [t], |done|;
    assert all[..n] == done && all[n] == t;
    forall k: byte
      ensures Occurs(all, k) <==> Occurs(done, k) || Known(t) == Some(k)
    {
      OccursNext(done, t, k);
    }
    StaysWellFormed(done, t);
  }

  lemma StaysWellFormed(done: seq<Tlv>, t: Tlv)
    requires WellFormed(done) && Shaped(t) && (Known(t).Some? ==> !Occurs(done, Known(t).value))
    ensures WellFormed(done + [t])
  {
  }

  lemma ReadsAll(m: seq<byte>, length: nat, done: seq<Tlv>, seen: set<byte>, found: Option<Tlv>, subtype: byte)
    requires Reached(m, BODY, length, length, done) && Reads(done, seen, found, subtype)
    ensures Outcome(m[BODY..length], subtype) == if found.Some? then Read(found.value) else Ignored
  {
    ReachEnd(m, BODY, length, done);
  }

  method FindTlv(m: seq<byte>, domain: byte, local: PortId, subtype: byte) returns (reading: Reading<Tlv>)
    ensures reading == Find(m, domain, local, subtype)
  {
    if |m| < BODY { return Malformed; }
    var length := Word(m, 2);
    if length < BODY || length > |m| { return Malformed; }
    if m[0] != 0x1c || m[1] % 16 != 2 || m[4] != domain || m[5] != 0 { return Ignored; }
    if m[34..44] != WILDCARD && m[34..44] != local { return Ignored; }
    if m[20..28] == local[..8] { return Ignored; }
    reading := FindInChain(m, length, subtype);
  }

  method FindInChain(m: seq<byte>, length: nat, subtype: byte) returns (reading: Reading<Tlv>)
    requires BODY <= length <= |m|
    ensures reading == Outcome(m[BODY..length], subtype)
  {
    var found: Option<Tlv> := None;
    var seen: set<byte> := {};
    var offset := BODY;
    ghost var done := [];
    Begin(m[BODY..length]);
    while offset < length
      invariant Reached(m, BODY, offset, length, done)
      invariant Reads(done, seen, found, subtype)
      decreases length - offset
    {
      ReachNext(m, BODY, offset, length, done);
      if !StartsAt(m, offset, length) { return Malformed; }
      var item := ItemAt(m, offset, length);
      offset := Next(m, offset, length);
      if |item.body| % 2 == 1 {
        Spoils(m, offset, length, done, item, subtype);
        return Malformed;
      }
      ghost var seenBefore, foundBefore := seen, found;
      if |item.body| >= 6 && item.body[..5] == [0, 0x80, 0xc2, 0, 0] {
        var kind := item.body[5];
        var expectedKind := if kind == 2 then 0x0003 else 0x8000;
        if (kind == 2 || kind == 4 || kind == 5) && item.kind == expectedKind {
          var expectedBody := if kind == 5 then 10 else 12;
          if |item.body| != expectedBody || kind in seen {
            Spoils(m, offset, length, done, item, subtype);
            return Malformed;
          }
          seen := seen + {kind};
          if kind == subtype { found := Some(item); }
        }
      }
      ReadsNext(done, seenBefore, foundBefore, subtype, item);
      done := done + [item];
    }
    ReadsAll(m, length, done, seen, found, subtype);
    return if found.Some? then Read(found.value) else Ignored;
  }

  function Signed8(b: byte): int8 {
    var n: int := b;
    if n >= 128 then n - 256 else n
  }

  function Unsigned8(i: int8): byte {
    var n: int := i;
    if n < 0 then n + 256 else n
  }

  datatype Intervals = Intervals(sourcePort: PortId, linkDelay: int8, sync: int8, announce: int8, flags: byte)

  /** The indication (CAPABLE) and the interval request (CAPABLE_INTERVAL) read alike. */
  function ReadCapable(m: seq<byte>, domain: byte, local: PortId, subtype: byte): Reading<Message>
    requires subtype == CAPABLE || subtype == CAPABLE_INTERVAL
  {
    match Find(m, domain, local, subtype)
    case Malformed => Malformed
    case Ignored => Ignored
    case Read(t) => Read(Message(m[20..30], Signed8(t.body[6])))
  }

  function ReadIntervals(m: seq<byte>, domain: byte, local: PortId): Reading<Intervals> {
    match Find(m, domain, local, INTERVALS)
    case Malformed => Malformed
    case Ignored => Ignored
    case Read(t) => Read(Intervals(m[20..30], Signed8(t.body[6]), Signed8(t.body[7]), Signed8(t.body[8]), t.body[9]))
  }

  /** What makes a message malformed does not depend on what is looked for. */
  predicate IsMalformed(m: seq<byte>, domain: byte, local: PortId) {
    || |m| < BODY || Word(m, 2) < BODY || Word(m, 2) > |m|
    || (Addressed(m, domain, local) &&
        (Split(m[BODY..Word(m, 2)]).None? || !WellFormed(Split(m[BODY..Word(m, 2)]).value)))
  }

  /** For every byte string the three readers agree on whether it is malformed, and one
      not malformed yields exactly the known items it holds. */
  lemma ReadersAgree(m: seq<byte>, domain: byte, local: PortId)
    ensures ReadCapable(m, domain, local, CAPABLE).Malformed? <==> IsMalformed(m, domain, local)
    ensures ReadCapable(m, domain, local, CAPABLE_INTERVAL).Malformed? <==> IsMalformed(m, domain, local)
    ensures ReadIntervals(m, domain, local).Malformed? <==> IsMalformed(m, domain, local)
    ensures !IsMalformed(m, domain, local) && Addressed(m, domain, local) ==>
      var tlvs := Split(m[BODY..Word(m, 2)]).value;
      && (ReadCapable(m, domain, local, CAPABLE).Read? <==> exists t :: t in tlvs && Known(t) == Some(CAPABLE))
      && (ReadCapable(m, domain, local, CAPABLE_INTERVAL).Read? <==>
          exists t :: t in tlvs && Known(t) == Some(CAPABLE_INTERVAL))
      && (ReadIntervals(m, domain, local).Read? <==> exists t :: t in tlvs && Known(t) == Some(INTERVALS))
  {
  }

  /** The dispatcher: reads all three, and acts on none if any is malformed. */
  method Decode(m: seq<byte>, domain: byte, local: PortId)
    returns (ok: bool, indication: Option<Message>, request: Option<Message>, intervals: Option<Intervals>)
    ensures ok <==> !IsMalformed(m, domain, local)
    ensures !ok ==> indication.None? && request.None? && intervals.None?
    ensures ok ==>
      ReadCapable(m, domain, local, CAPABLE) == (if indication.Some? then Read(indication.value) else Ignored)
    ensures ok ==>
      ReadCapable(m, domain, local, CAPABLE_INTERVAL) == (if request.Some? then Read(request.value) else Ignored)
    ensures ok ==> ReadIntervals(m, domain, local) == (if intervals.Some? then Read(intervals.value) else Ignored)
  {
    indication, request, intervals := None, None, None;
    ReadersAgree(m, domain, local);
    var capable := FindTlv(m, domain, local, CAPABLE);
    var interval := FindTlv(m, domain, local, CAPABLE_INTERVAL);
    var timing := FindTlv(m, domain, local, INTERVALS);
    if capable.Malformed? || interval.Malformed? || timing.Malformed? { return false, None, None, None; }
    ok := true;
    if capable.Read? { indication := Some(Message(m[20..30], Signed8(capable.value.body[6]))); }
    if interval.Read? { request := Some(Message(m[20..30], Signed8(interval.value.body[6]))); }
    if timing.Read? {
      var body := timing.value.body;
      intervals := Some(Intervals(m[20..30], Signed8(body[6]), Signed8(body[7]), Signed8(body[8]), body[9]));
    }
  }

  // ---- Writing -----------------------------------------------------------------------------

  function Header(length: byte, source: PortId, domain: byte, sequence: uint16): (h: seq<byte>)
    ensures |h| == BODY
  {
    [0x1c, 0x12, 0, length, domain] + NO_BYTES + source +
    [sequence / 256, sequence % 256, 0, 0x7f] + WILDCARD
  }

  function Item(subtype: byte, log: int8): (t: Tlv)
    requires subtype == CAPABLE || subtype == CAPABLE_INTERVAL
    ensures Known(t) == Some(subtype) && Shaped(t) && Encodable(t) && |t.body| <= 12
  {
    Tlv(0x8000, [0, 0x80, 0xc2, 0, 0, subtype, Unsigned8(log), 0, 0, 0] + if subtype == CAPABLE then [0, 0] else [])
  }

  /** A capability indication, or an interval request, as it is written. */
  function Written(subtype: byte, source: PortId, domain: byte, sequence: uint16, log: int8): (w: seq<byte>)
    requires subtype == CAPABLE || subtype == CAPABLE_INTERVAL
    ensures |w| == Length(subtype)
  {
    Header(Length(subtype), source, domain, sequence) + Encode(Item(subtype, log))
  }

  function Length(subtype: byte): byte { if subtype == CAPABLE then 60 else 58 }

  method WriteCapable(message: array<byte>, source: PortId, domain: byte, sequence: uint16, log: int8) returns (n: nat)
    modifies message
    ensures n == if message.Length >= 60 && -24 <= log <= 24 then 60 else 0
    ensures n == 0 ==> message[..] == old(message[..])
    ensures n > 0 ==>
      message[..n] == Written(CAPABLE, source, domain, sequence, log) && message[n..] == old(message[..])[n..]
  {
    if message.Length < 60 || log < -24 || log > 24 { return 0; }
    ghost var before, header, item := message[..], Header(60, source, domain, sequence), Encode(Item(CAPABLE, log));
    WriteHeader(message, source, domain, sequence);
    ItemBytes(log);
    Paste(message, BODY, CapableItem(Unsigned8(log)));
    AfterHeader(header, before[BODY..], item);
    assert message[..] == Written(CAPABLE, source, domain, sequence, log) + before[BODY..][16..];
    return 60;
  }

  method WriteHeader(message: array<byte>, source: PortId, domain: byte, sequence: uint16)
    requires message.Length >= BODY
    modifies message
    ensures message[..] == Header(60, source, domain, sequence) + old(message[..])[BODY..]
  {
    var lead: seq<byte> := [0x1c, 0x12, 0, 60, domain] + NO_BYTES;
    var trail: seq<byte> := [sequence / 256, sequence % 256, 0, 0x7f] + WILDCARD;
    HeaderParts(source, domain, sequence);
    PasteThree(message, lead, source, trail);
  }

  const NO_BYTES: seq<byte> := [0, 0, 0, 0, 0, 0, 0, 0, 0, 0, 0, 0, 0, 0, 0]

  lemma HeaderParts(source: PortId, domain: byte, sequence: uint16)
    ensures ([0x1c, 0x12, 0, 60, domain] + NO_BYTES) + (source + ([sequence / 256, sequence % 256, 0, 0x7f] + WILDCARD))
         == Header(60, source, domain, sequence)
  {
  }

  lemma AfterHeader(header: seq<byte>, rest: seq<byte>, item: seq<byte>)
    requires |rest| >= |item|
    ensures Patched(header + rest, |header|, item) == header + item + rest[|item|..]
  {
  }

  function CapableItem(log: byte): seq<byte> { [0x80, 0, 0, 12, 0, 0x80, 0xc2, 0, 0, 4, log, 0, 0, 0, 0, 0] }

  lemma ItemBytes(log: int8)
    ensures Encode(Item(CAPABLE, log)) == CapableItem(Unsigned8(log))
    ensures Encode(Item(CAPABLE_INTERVAL, log)) == CapableItem(Unsigned8(log))[3 := 10][9 := 5][..14]
  {
    EncodeBytes(Item(CAPABLE, log));
    EncodeBytes(Item(CAPABLE_INTERVAL, log));
  }

  predicate Requestable(log: int8) { -24 <= log <= 24 || log == -128 || log == 126 || log == 127 }

  method WriteCapableInterval(message: array<byte>, source: PortId, domain: byte, sequence: uint16, log: int8)
    returns (n: nat)
    modifies message
    ensures n == if message.Length >= 58 && Requestable(log) then 58 else 0
    ensures n == 0 ==> message[..] == old(message[..])
    ensures n > 0 ==>
      message[..n] == Written(CAPABLE_INTERVAL, source, domain, sequence, log) && message[n..] == old(message[..])[n..]
  {
    if message.Length < 58 || !Requestable(log) { return 0; }
    var encoded := EncodeInterval(source, domain, sequence, log);
    ghost var before := message[..];
    Paste(message, 0, encoded);
    PatchedFirst(before, encoded);
    return 58;
  }

  method EncodeInterval(source: PortId, domain: byte, sequence: uint16, log: int8) returns (bytes: seq<byte>)
    ensures bytes == Written(CAPABLE_INTERVAL, source, domain, sequence, log)
  {
    var encoded := new byte[60];
    var n := WriteCapable(encoded, source, domain, sequence, 0);
    assert encoded[..60] == encoded[..];
    encoded[3] := 58;
    encoded[47] := 10;
    encoded[53] := 5;
    encoded[54] := Unsigned8(log);
    IntervalFromCapable(source, domain, sequence, log);
    return encoded[..58];
  }

  /** An interval request is a capability indication with five bytes changed. */
  lemma IntervalFromCapable(source: PortId, domain: byte, sequence: uint16, log: int8)
    ensures Written(CAPABLE, source, domain, sequence, 0)[3 := 58][47 := 10][53 := 5][54 := Unsigned8(log)][..58] ==
            Written(CAPABLE_INTERVAL, source, domain, sequence, log)
  {
    ItemBytes(0);
    ItemBytes(log);
    HeaderLength(source, domain, sequence);
    PatchItem(Header(60, source, domain, sequence), CapableItem(0), Unsigned8(log));
  }

  lemma HeaderLength(source: PortId, domain: byte, sequence: uint16)
    ensures Header(60, source, domain, sequence)[3 := 58] == Header(58, source, domain, sequence)
  {
  }

  lemma PatchItem(h: seq<byte>, i: seq<byte>, log: byte)
    requires |h| == BODY && |i| == 16
    ensures (h + i)[3 := 58][47 := 10][53 := 5][54 := log][..58] == h[3 := 58] + i[3 := 10][9 := 5][10 := log][..14]
  {
  }

  // ---- Over the wire -------------------------------------------------------------------------

  /** What a reader gets of a message after normalization, padding and the length bound. */
  function Received(w: seq<byte>, gptp: bool, minor: byte, padding: seq<byte>): seq<byte> {
    var frame := Normalize(w, gptp, minor) + padding;
    frame[..BoundedLength(frame)]
  }

  lemma HeaderFields(w: seq<byte>, length: byte, source: PortId, domain: byte, sequence: uint16)
    requires |w| >= BODY && w[..BODY] == Header(length, source, domain, sequence)
    ensures w[0] == 0x1c && w[1] == 0x12 && Word(w, 2) == length && w[4] == domain && w[5] == 0
    ensures w[20..30] == source && w[34..44] == WILDCARD
  {
    var h := w[..BODY];
    assert w[0] == h[0] && w[1] == h[1] && w[2] == h[2] && w[3] == h[3] && w[4] == h[4] && w[5] == h[5];
    assert w[20..30] == h[20..30] && w[34..44] == h[34..44];
  }

  lemma WrittenArrives(subtype: byte, source: PortId, domain: byte, sequence: uint16, log: int8, gptp: bool,
                       minor: byte, padding: seq<byte>)
    requires subtype == CAPABLE || subtype == CAPABLE_INTERVAL
    ensures var w, m := Written(subtype, source, domain, sequence, log),
                        Received(Written(subtype, source, domain, sequence, log), gptp, minor, padding);
      && |m| == |w| == Word(m, 2) && m[0] == 0x1c && m[1] % 16 == 2 && m[4] == domain && m[5] == 0
      && m[20..30] == source && m[34..44] == WILDCARD
      && m[BODY..] == Encode(Item(subtype, log))
  {
    var w := Written(subtype, source, domain, sequence, log);
    assert w[..BODY] == Header(Length(subtype), source, domain, sequence);
    HeaderFields(w, Length(subtype), source, domain, sequence);
    BoundUndoesPadding(w, gptp, minor, padding);
    var m := Received(w, gptp, minor, padding);
    assert m == Normalize(w, gptp, minor);
    SignalingUntouched(w, gptp, minor);
    Slice(m, 20, 32, 0, 10);
    Slice(w, 20, 32, 0, 10);
    Slice(m, 34, |w|, 0, 10);
    Slice(w, 34, |w|, 0, 10);
    Slice(m, 34, |w|, 10, |w| - 34);
    Slice(w, 34, |w|, 10, |w| - 34);
  }

  lemma OneItem(t: Tlv, subtype: byte)
    requires Encodable(t) && Shaped(t) && Known(t).Some?
    ensures Outcome(Encode(t), subtype) == if Known(t).value == subtype then Read(t) else Ignored
  {
    SplitOne(t);
    assert [t][..0] == [];
  }

  /** A written message reaches every other clock of its domain as it was written: the
      reader it is for reads the source and the interval, the two others ignore it; the
      writer's own clock and other domains ignore it; nobody finds it malformed. */
  lemma WrittenIsRead(subtype: byte, source: PortId, domain: byte, sequence: uint16, log: int8,
                      gptp: bool, minor: byte, padding: seq<byte>, reader: PortId, readerDomain: byte)
    requires subtype == CAPABLE || subtype == CAPABLE_INTERVAL
    ensures var m := Received(Written(subtype, source, domain, sequence, log), gptp, minor, padding);
      var other := if subtype == CAPABLE then CAPABLE_INTERVAL else CAPABLE;
      && ReadCapable(m, readerDomain, reader, subtype) ==
         (if reader[..8] != source[..8] && readerDomain == domain then Read(Message(source, log)) else Ignored)
      && ReadCapable(m, readerDomain, reader, other) == Ignored
      && ReadIntervals(m, readerDomain, reader) == Ignored
  {
    WrittenArrives(subtype, source, domain, sequence, log, gptp, minor, padding);
    var m := Received(Written(subtype, source, domain, sequence, log), gptp, minor, padding);
    var t := Item(subtype, log);
    assert m[20..28] == m[20..30][..8];
    assert m[BODY..Word(m, 2)] == m[BODY..] == Encode(t);
    OneItem(t, CAPABLE);
    OneItem(t, CAPABLE_INTERVAL);
    OneItem(t, INTERVALS);
    assert t.body[6] == Unsigned8(log) && Signed8(Unsigned8(log)) == log;
  }

  /** The message interval request another implementation may send, by its bytes. */
  function IntervalRequest(linkDelay: byte, sync: byte, announce: byte, flags: byte): seq<byte> {
    [0x00, 0x03, 0, 12, 0x00, 0x80, 0xc2, 0, 0, 2, linkDelay, sync, announce, flags, 0, 0]
  }

  /** An addressed message that carries it alone is read as these values, each from its own
      byte, and by the other two readers not at all. */
  lemma IntervalsAreRead(m: seq<byte>, domain: byte, local: PortId, linkDelay: byte, sync: byte, announce: byte,
                         flags: byte)
    requires |m| >= 60 && Word(m, 2) == 60 && Addressed(m, domain, local)
    requires m[BODY..60] == IntervalRequest(linkDelay, sync, announce, flags)
    ensures ReadIntervals(m, domain, local) ==
      Read(Intervals(m[20..30], Signed8(linkDelay), Signed8(sync), Signed8(announce), flags))
    ensures ReadCapable(m, domain, local, CAPABLE) == Ignored
    ensures ReadCapable(m, domain, local, CAPABLE_INTERVAL) == Ignored
  {
    var t := Tlv(3, [0x00, 0x80, 0xc2, 0, 0, 2, linkDelay, sync, announce, flags, 0, 0]);
    EncodeBytes(t);
    assert Encode(t) == IntervalRequest(linkDelay, sync, announce, flags);
    OneItem(t, CAPABLE);
    OneItem(t, CAPABLE_INTERVAL);
    OneItem(t, INTERVALS);
  }

  /** What can be asked for is what a schedule serves. */
  lemma RequestsAreServed(log: int8)
    ensures Requestable(log) <==> CapableSchedule.Supported(log)
  {
  }
}
