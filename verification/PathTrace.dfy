/** The path trace of an Announce: parsing it at a clock, appending the clock to it, and
    what that guarantees along a chain of relays. */
module PathTrace {
  import opened Arith
  import opened Bytes
  import opened Tlvs
  import opened Wire

  const BODY: nat := 64
  const MAX_CLOCKS: nat := 16
  const PATH_TRACE: nat := 8

  type Path = seq<Identity>

  // ---- Identities and bytes --------------------------------------------------------------

  function Octets(path: Path): (s: seq<byte>)
    ensures |s| == 8 * |path|
  {
    if path == [] then [] else Octets(path[..|path| - 1]) + path[|path| - 1]
  }

  function Clocks(s: seq<byte>): (path: Path)
    requires |s| % 8 == 0
    ensures |path| == |s| / 8
    decreases |s|
  {
    if s == [] then [] else Clocks(s[..|s| - 8]) + [s[|s| - 8..]]
  }

  lemma {:induction false} ClocksOfOctets(path: Path)
    ensures Clocks(Octets(path)) == path
  {
    if path == [] {
    } else {
      var front := path[..|path| - 1];
      ClocksOfOctets(front);
      var s := Octets(path);
      assert s[..|s| - 8] == Octets(front) && s[|s| - 8..] == path[|path| - 1];
    }
  }

  lemma {:induction false} ClockAt(s: seq<byte>, i: nat)
    requires |s| % 8 == 0 && i < |s| / 8
    ensures Clocks(s)[i] == s[8 * i..8 * i + 8]
    decreases |s|
  {
    var front := s[..|s| - 8];
    if i == |front| / 8 {
      assert 8 * i == |s| - 8;
      assert Clocks(s)[i] == s[|s| - 8..];
    } else {
      ClockAt(front, i);
      Slice(s, 0, |s| - 8, 8 * i, 8 * i + 8);
      assert s[0..|s| - 8] == front;
      assert Clocks(s)[i] == Clocks(front)[i];
    }
  }

  // ---- Parsing -----------------------------------------------------------------------------

  predicate SoundTrace(t: Tlv, local: Identity) {
    0 < |t.body| <= 8 * MAX_CLOCKS && |t.body| % 8 == 0 && local !in Clocks(t.body)
  }

  function Traces(tlvs: seq<Tlv>): seq<Tlv> {
    if tlvs == [] then []
    else Traces(tlvs[..|tlvs| - 1]) + if tlvs[|tlvs| - 1].kind == PATH_TRACE then [tlvs[|tlvs| - 1]] else []
  }

  /** At most one path trace, and a sound one that the reader is not on. */
  function PathOf(tlvs: seq<Tlv>, local: Identity): Option<Path> {
    var traces := Traces(tlvs);
    if traces == [] then Some([])
    else if |traces| == 1 && SoundTrace(traces[0], local) then Some(Clocks(traces[0].body))
    else None
  }

  function Parse(message: seq<byte>, local: Identity): Option<Path> {
    if |message| < BODY then None
    else
      var length := Word(message, 2);
      if length < BODY || length > |message| then None
      else
        Outcome(message[BODY..length], local)
  }

  lemma {:induction false} TracesOfParts(a: seq<Tlv>, b: seq<Tlv>)
    ensures Traces(a + b) == Traces(a) + Traces(b)
    decreases |b|
  {
    if b == [] {
      assert a + b == a;
    } else {
      var front := b[..|b| - 1];
      assert (a + b)[..|a + b| - 1] == a + front;
      TracesOfParts(a, front);
    }
  }

  function Outcome(chain: seq<byte>, local: Identity): Option<Path> {
    match Split(chain)
    case None => None
    case Some(tlvs) => PathOf(tlvs, local)
  }

  /** A bad or second path trace spoils the message whatever follows. */
  lemma Spoils(done: seq<Tlv>, t: Tlv, rest: seq<byte>, whole: seq<byte>, local: Identity)
    requires Continues(done + [t], rest, whole) && t.kind == PATH_TRACE
    requires Traces(done) != [] || !SoundTrace(t, local)
    ensures Outcome(whole, local).None?
  {
    assert (done + [t])[..|done|] == done;
    if Split(rest).Some? {
      TracesOfParts(done + [t], Split(rest).value);
    }
  }

  /** The path read so far, from the items before an offset. */
  ghost predicate Reads(done: seq<Tlv>, found: bool, path: Path, local: Identity) {
    (found <==> Traces(done) != []) && PathOf(done, local) == Some(path)
  }

  lemma ReadsNext(done: seq<Tlv>, t: Tlv, found: bool, path: Path, local: Identity)
    requires Reads(done, found, path, local)
    requires t.kind == PATH_TRACE ==> !found && SoundTrace(t, local)
    ensures if t.kind == PATH_TRACE then Reads(done + [t], true, Clocks(t.body), local)
            else Reads(done + [t], found, path, local)
  {
    assert (done + [t])[..|done|] == done;
  }

  lemma ReadsAll(message: seq<byte>, length: nat, done: seq<Tlv>, found: bool, path: Path, local: Identity)
    requires Reached(message, BODY, length, length, done) && Reads(done, found, path, local)
    ensures Outcome(message[BODY..length], local) == Some(path)
  {
    ReachEnd(message, BODY, length, done);
  }

  method ParseTrace(message: seq<byte>, local: Identity) returns (path: Option<Path>)
    ensures path == Parse(message, local)
  {
    if |message| < BODY { return None; }
    var length := Word(message, 2);
    if length < BODY || length > |message| { return None; }
    path := ParseChain(message, length, local);
  }

  method ParseChain(message: seq<byte>, length: nat, local: Identity) returns (path: Option<Path>)
    requires BODY <= length <= |message|
    ensures path == Outcome(message[BODY..length], local)
  {
    var parsed: Path := [];
    var found := false;
    var offset := BODY;
    ghost var done := [];
    Begin(message[BODY..length]);
    while offset < length
      invariant Reached(message, BODY, offset, length, done)
      invariant Reads(done, found, parsed, local)
      decreases length - offset
    {
      ReachNext(message, BODY, offset, length, done);
      if !StartsAt(message, offset, length) { return None; }
      var item := ItemAt(message, offset, length);
      offset := Next(message, offset, length);
      if item.kind == PATH_TRACE {
        var clocks := ReadClocks(item.body, local);
        if found || clocks.None? {
          Spoils(done, item, message[offset..length], message[BODY..length], local);
          return None;
        }
        ReadsNext(done, item, found, parsed, local);
        found, parsed := true, clocks.value;
      } else {
        ReadsNext(done, item, found, parsed, local);
      }
      done := done + [item];
    }
    ReadsAll(message, length, done, found, parsed, local);
    return Some(parsed);
  }

  method ReadClocks(body: seq<byte>, local: Identity) returns (clocks: Option<Path>)
    ensures clocks.Some? <==> SoundTrace(Tlv(PATH_TRACE, body), local)
    ensures clocks.Some? ==> clocks.value == Clocks(body)
  {
    if |body| == 0 || |body| % 8 != 0 || |body| / 8 > MAX_CLOCKS { return None; }
    var path: Path := [];
    for index := 0 to |body| / 8
      invariant path == Clocks(body)[..index] && local !in path
    {
      ClockAt(body, index);
      var identity := body[8 * index..8 * index + 8];
      if identity == local { return None; }
      path := path + [identity];
    }
    assert Clocks(body)[..|body| / 8] == Clocks(body);
    return Some(path);
  }

  // ---- Writing -------------------------------------------------------------------------------

  function Trace(path: Path): Tlv { Tlv(PATH_TRACE, Octets(path)) }

  predicate Appends(upstream: Path, local: Identity) { |upstream| < MAX_CLOCKS && local !in upstream }

  /** Appends this clock once, or writes nothing. */
  method WriteTrace(output: array<byte>, upstream: Path, local: Identity) returns (n: nat)
    modifies output
    ensures n == if Appends(upstream, local) && output.Length >= 12 + 8 * |upstream| then 12 + 8 * |upstream| else 0
    ensures n == 0 ==> output[..] == old(output[..])
    ensures n > 0 ==> output[..n] == Encode(Trace(upstream + [local])) && output[n..] == old(output[..])[n..]
  {
    if |upstream| >= MAX_CLOCKS { return 0; }
    var bytes := (|upstream| + 1) * 8;
    if output.Length < bytes + 4 { return 0; }
    for index := 0 to |upstream|
      invariant local !in upstream[..index]
    {
      if upstream[index] == local { return 0; }
    }
    Fill(output, upstream, local);
    return bytes + 4;
  }

  method Fill(output: array<byte>, upstream: Path, local: Identity)
    requires |upstream| < MAX_CLOCKS && output.Length >= 12 + 8 * |upstream|
    modifies output
    ensures output[..12 + 8 * |upstream|] == Encode(Trace(upstream + [local]))
    ensures output[12 + 8 * |upstream|..] == old(output[..])[12 + 8 * |upstream|..]
  {
    TraceOctets(upstream, local);
    PasteThree(output, TraceHead(|upstream| + 1), Octets(upstream), local);
  }

  /** Type and length, big-endian. */
  function TraceHead(clocks: nat): (head: seq<byte>)
    requires clocks <= MAX_CLOCKS
    ensures head == [0, 8, 0, clocks * 8]
  {
    [0, 8, clocks * 8 / 256, clocks * 8 % 256]
  }

  lemma TraceOctets(upstream: Path, local: Identity)
    requires |upstream| < MAX_CLOCKS
    ensures var body := Octets(upstream) + local;
      |body| == 8 * |upstream| + 8 && Encode(Trace(upstream + [local])) == [0, 8, 0, |body|] + body
  {
    OctetsAppend(upstream, local);
    ShortEncoding(Octets(upstream) + local);
  }

  lemma ShortEncoding(body: seq<byte>)
    requires |body| < 256
    ensures Encode(Tlv(PATH_TRACE, body)) == [0, 8, 0, |body|] + body
  {
    EncodeBytes(Tlv(PATH_TRACE, body));
  }

  lemma OctetsAppend(upstream: Path, local: Identity)
    ensures Octets(upstream + [local]) == Octets(upstream) + local
  {
    assert (upstream + [local])[..|upstream|] == upstream;
  }

  // ---- Relay chains -------------------------------------------------------------------------

  /** The fixed part of an Announce, with the type and version every clock sends. */
  type Body = b: seq<byte> | |b| == BODY && b[0] % 16 == 11 && b[1] % 16 == 2 witness [11, 2] + seq(62, _ => 0)

  /** A clock on the way: what it sends around the path trace, and the padding its
      frames collect. */
  datatype Hop = Hop(clock: Identity, body: Body, gptp: bool, minor: byte, padding: seq<byte>)

  function Announcement(body: Body, chain: seq<byte>): (w: seq<byte>)
    requires |chain| <= 4 + 8 * MAX_CLOCKS
    ensures |w| == BODY + |chain|
  {
    body[..2] + Two(BODY + |chain|) + body[4..] + chain
  }

  function OnWire(hop: Hop, chain: seq<byte>): seq<byte>
    requires |chain| <= 4 + 8 * MAX_CLOCKS
  {
    Normalize(Announcement(hop.body, chain), hop.gptp, hop.minor) + hop.padding
  }

  /** An unknown upstream path stays unknown; a full one, or one with this clock on it,
      is not relayed. */
  function Send(hop: Hop, path: Path, relaying: bool): Option<seq<byte>> {
    if relaying && path == [] then Some(OnWire(hop, []))
    else if !Appends(path, hop.clock) then None
    else Some(OnWire(hop, Encode(Trace(path + [hop.clock]))))
  }

  function Hear(frame: seq<byte>, reader: Identity): Option<Path> {
    var length := BoundedLength(frame);
    if length == 0 then None else Parse(frame[..length], reader)
  }

  /** What leaves the last clock when the first originates and each next one relays. */
  function Chain(hops: seq<Hop>): Option<seq<byte>>
    requires hops != []
  {
    var last := hops[|hops| - 1];
    if |hops| == 1 then Send(last, [], false)
    else
      match Chain(hops[..|hops| - 1])
      case None => None
      case Some(frame) =>
        match Hear(frame, last.clock)
        case None => None
        case Some(path) => Send(last, path, true)
  }

  function Visited(hops: seq<Hop>): (path: Path)
    ensures |path| == |hops|
  {
    if hops == [] then [] else Visited(hops[..|hops| - 1]) + [hops[|hops| - 1].clock]
  }

  ghost predicate Distinct(path: Path) {
    forall i, j :: 0 <= i < j < |path| ==> path[i] != path[j]
  }

  lemma DistinctAppend(path: Path, clock: Identity)
    ensures Distinct(path + [clock]) <==> Distinct(path) && clock !in path
  {
    var all := path + [clock];
    if Distinct(all) {
      forall i | 0 <= i < |path|
        ensures path[i] != clock
      {
        assert all[i] != all[|path|];
      }
      assert forall i :: 0 <= i < |path| ==> path[i] == all[i];
    }
  }

  lemma AnnouncementArrives(hop: Hop, chain: seq<byte>)
    requires |chain| <= 4 + 8 * MAX_CLOCKS
    ensures var frame := OnWire(hop, chain);
      var length := BoundedLength(frame);
      && length == BODY + |chain| && Word(frame[..length], 2) == length && frame[..length][BODY..length] == chain
  {
    var w := Announcement(hop.body, chain);
    assert w[0] == hop.body[0] && w[1] == hop.body[1];
    assert w[2] == Two(|w|)[0] && w[3] == Two(|w|)[1];
    BoundUndoesPadding(w, hop.gptp, hop.minor, hop.padding);
    var sent := Normalize(w, hop.gptp, hop.minor);
    assert sent[2] == w[2] && sent[3] == w[3];
    assert sent[BODY..] == w[BODY..] == chain;
  }

  /** A written trace is read as it was by every clock not on it, and refused by every
      clock on it, through normalization, padding and the length bound. */
  lemma TraceRoundTrip(hop: Hop, path: Path, reader: Identity)
    requires 0 < |path| <= MAX_CLOCKS
    ensures Hear(OnWire(hop, Encode(Trace(path))), reader) == if reader in path then None else Some(path)
  {
    var t := Trace(path);
    AnnouncementArrives(hop, Encode(t));
    SplitOne(t);
    assert [t][..0] == [] && Traces([t]) == Traces([]) + [t];
    ClocksOfOctets(path);
  }

  /** Without a trace the path reads as unknown. */
  lemma UnknownStaysUnknown(hop: Hop, reader: Identity)
    ensures Send(hop, [], true).Some? && Hear(Send(hop, [], true).value, reader) == Some([])
  {
    AnnouncementArrives(hop, []);
  }

  /** Along any chain from an originating clock the Announce passes exactly when no clock
      repeats and at most sixteen are on it, and then the path any other clock reads is
      the clocks visited, in order. */
  lemma {:induction false} ChainIsLoopFree(hops: seq<Hop>, reader: Identity)
    requires hops != []
    ensures Chain(hops).Some? <==> Distinct(Visited(hops)) && |hops| <= MAX_CLOCKS
    ensures Chain(hops).Some? ==>
      Hear(Chain(hops).value, reader) == if reader in Visited(hops) then None else Some(Visited(hops))
  {
    var front, last := hops[..|hops| - 1], hops[|hops| - 1];
    DistinctAppend(Visited(front), last.clock);
    if |hops| > 1 {
      ChainIsLoopFree(front, last.clock);
    }
    if Chain(hops).Some? {
      TraceRoundTrip(last, Visited(hops), reader);
    }
  }
}
