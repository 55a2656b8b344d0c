/** The best clock: the comparison of two Announce messages as one total order, and the
    selection that keeps the best announcer heard. */
module BestClock {
  import opened Arith
  import opened Bytes

  type Pair = p: seq<byte> | |p| == 2 witness [0, 0]
  type Quality = q: seq<byte> | |q| == 4 witness [0, 0, 0, 0]

  /** The fields of an Announce that the selection reads. */
  datatype Announce = Announce(
    priority1: byte,
    quality: Quality,
    priority2: byte,
    root: Identity,
    steps: Pair,
    source: Identity,
    port: Pair)

  /** Lexicographic comparison of equally long byte strings, as `memcmp` makes it. */
  function Memcmp(a: seq<byte>, b: seq<byte>): int
    requires |a| == |b|
  {
    if a == [] then 0
    else
      var x: int, y: int := a[0], b[0];
      if x != y then x - y else Memcmp(a[1..], b[1..])
  }

  /** The fourteen bytes from priority1 to the root identity, in wire order. */
  function System(a: Announce): (s: seq<byte>)
    ensures |s| == 14
  {
    [a.priority1] + a.quality + [a.priority2] + a.root
  }

  predicate Better(a: Announce, b: Announce) {
    var system, steps := Memcmp(System(a), System(b)), Memcmp(a.steps, b.steps);
    || system < 0
    || (system == 0 && steps < 0)
    || (system == 0 && steps == 0 && Memcmp(a.source, b.source) < 0)
    || (system == 0 && steps == 0 && Memcmp(a.source, b.source) == 0 && Memcmp(a.port, b.port) < 0)
  }

  // ---- One total order ---------------------------------------------------------------

  /** The 26 bytes that decide, most significant first, and the number they spell. */
  function Key(a: Announce): (k: seq<byte>)
    ensures |k| == 26
  {
    System(a) + (a.steps + (a.source + a.port))
  }

  function Rank(a: Announce): nat { FromBigEndian(Key(a)) }

  ghost predicate DiffersFirstAt(x: seq<byte>, y: seq<byte>, k: nat)
    requires |x| == |y|
  {
    k < |x| && x[..k] == y[..k] && x[k] < y[k]
  }

  lemma {:induction false} MemcmpOfParts(a: seq<byte>, c: seq<byte>, b: seq<byte>, d: seq<byte>)
    requires |a| == |b| && |c| == |d|
    ensures Memcmp(a + c, b + d) == if Memcmp(a, b) != 0 then Memcmp(a, b) else Memcmp(c, d)
  {
    if a == [] {
      assert a + c == c && b + d == d;
    } else {
      assert (a + c)[1..] == a[1..] + c && (b + d)[1..] == b[1..] + d;
      MemcmpOfParts(a[1..], c, b[1..], d);
    }
  }

  lemma {:induction false} LeadingByte(x: byte, s: seq<byte>)
    ensures FromBigEndian([x] + s) == Pow256(|s|) * x + FromBigEndian(s)
    decreases |s|
  {
    var t := [x] + s;
    if s == [] {
      assert t[..|t| - 1] == [];
    } else {
      var front := s[..|s| - 1];
      assert t[..|t| - 1] == [x] + front;
      LeadingByte(x, front);
      Distribute(Pow256(|front|), x, FromBigEndian(front), 256);
      assert Pow256(|front|) * (x * 256) == Pow256(|s|) * x;
    }
  }

  /** Comparing byte by byte is comparing the numbers. */
  lemma {:induction false} MemcmpIsNumeric(a: seq<byte>, b: seq<byte>)
    requires |a| == |b|
    ensures Memcmp(a, b) < 0 <==> FromBigEndian(a) < FromBigEndian(b)
    ensures Memcmp(a, b) == 0 <==> a == b
  {
    if a == [] {
    } else {
      var s, t := a[1..], b[1..];
      assert a == [a[0]] + s && b == [b[0]] + t;
      MemcmpIsNumeric(s, t);
      LeadingByte(a[0], s);
      LeadingByte(b[0], t);
      FromBigEndianRoundTrip(s);
      FromBigEndianRoundTrip(t);
      StrictlyBelow(Pow256(|s|), a[0], b[0]);
      StrictlyBelow(Pow256(|s|), b[0], a[0]);
    }
  }

  lemma {:induction false} MemcmpFindsDifference(a: seq<byte>, b: seq<byte>)
    requires |a| == |b|
    ensures Memcmp(a, b) < 0 <==> exists k :: DiffersFirstAt(a, b, k)
  {
    if a == [] {
    } else {
      var s, t := a[1..], b[1..];
      if a[0] == b[0] {
        MemcmpFindsDifference(s, t);
        if k: nat :| DiffersFirstAt(s, t, k) {
          assert a[..k + 1] == [a[0]] + s[..k] && b[..k + 1] == [b[0]] + t[..k];
          assert DiffersFirstAt(a, b, k + 1);
        }
        if k: nat :| DiffersFirstAt(a, b, k) {
          assert k > 0;
          assert s[..k - 1] == a[..k][1..] && t[..k - 1] == b[..k][1..];
          assert DiffersFirstAt(s, t, k - 1);
        }
      } else {
        assert a[0] < b[0] ==> DiffersFirstAt(a, b, 0);
        forall k: nat | 0 < k <= |a|
          ensures a[..k] != b[..k]
        {
          assert a[..k][0] != b[..k][0];
        }
      }
    }
  }

  /** The four-way comparison is the lexicographic order of the 26-byte key, which is
      the order of the numbers it spells. */
  lemma BetterIsLexicographic(a: Announce, b: Announce)
    ensures Better(a, b) <==> exists k :: DiffersFirstAt(Key(a), Key(b), k)
    ensures Better(a, b) <==> Rank(a) < Rank(b)
    ensures Rank(a) == Rank(b) <==> a == b
  {
    MemcmpOfParts(System(a), a.steps + (a.source + a.port), System(b), b.steps + (b.source + b.port));
    MemcmpOfParts(a.steps, a.source + a.port, b.steps, b.source + b.port);
    MemcmpOfParts(a.source, a.port, b.source, b.port);
    MemcmpIsNumeric(Key(a), Key(b));
    MemcmpFindsDifference(Key(a), Key(b));
    if Rank(a) == Rank(b) {
      FromBigEndianRoundTrip(Key(a));
      FromBigEndianRoundTrip(Key(b));
      KeyDetermines(a, b);
    }
  }

  lemma KeyDetermines(a: Announce, b: Announce)
    requires Key(a) == Key(b)
    ensures a == b
  {
    var k := Key(a);
    assert [a.priority1] == k[..1] == [b.priority1];
    assert a.quality == k[1..5] == b.quality;
    assert [a.priority2] == k[5..6] == [b.priority2];
    assert a.root == k[6..14] == b.root;
    assert a.steps == k[14..16] == b.steps;
    assert a.source == k[16..24] == b.source;
    assert a.port == k[24..26] == b.port;
  }

  lemma BetterIsStrictTotalOrder(a: Announce, b: Announce, c: Announce)
    ensures !Better(a, a)
    ensures Better(a, b) && Better(b, c) ==> Better(a, c)
    ensures a == b || Better(a, b) || Better(b, a)
  {
    BetterIsLexicographic(a, a);
    BetterIsLexicographic(a, b);
    BetterIsLexicographic(b, a);
    BetterIsLexicographic(b, c);
    BetterIsLexicographic(a, c);
  }

  // ---- Selection -----------------------------------------------------------------------

  /** No source stands for the zeroed one that nothing has been announced for. */
  datatype Selection = Selection(source: Option<Announce>, path: seq<Identity>, valid: bool)

  const NOTHING: Selection := Selection(None, [], false)

  /** The clock that selects: what it would announce itself, and whether it runs gPTP. */
  datatype Local = Local(own: Announce, gptp: bool)

  function Number(p: Pair): nat {
    var high: int, low: int := p[0], p[1];
    high * 256 + low
  }

  /** The path trace parsed, the station (if any) is bound to this neighbor, and gPTP
      neither heard itself nor a message from too far away. */
  predicate Admits(local: Local, msg: Announce, path: Option<seq<Identity>>, bound: bool) {
    && path.Some? && bound
    && (local.gptp ==> Number(msg.steps) < 255 && msg.source != local.own.source)
  }

  /** The zeroed source compares as one with a port of all zero bytes. */
  predicate SamePort(s: Selection, msg: Announce) {
    match s.source
    case Some(selected) => msg.source == selected.source && msg.port == selected.port
    case None => msg.source == [0, 0, 0, 0, 0, 0, 0, 0] && msg.port == [0, 0]
  }

  /** A message is taken from the selected port, or when it beats a valid selection. */
  predicate Takes(s: Selection, local: Local, msg: Announce, path: Option<seq<Identity>>, bound: bool) {
    && Admits(local, msg, path, bound) && Better(msg, local.own)
    && (SamePort(s, msg) || !s.valid || (s.source.Some? ==> Better(msg, s.source.value)))
  }

  function Process(s: Selection, local: Local, msg: Announce, path: Option<seq<Identity>>, bound: bool): Selection {
    if Takes(s, local, msg, path, bound) then Selection(Some(msg), path.value, s.valid)
    else if Admits(local, msg, path, bound) && !Better(msg, local.own) && SamePort(s, msg) then NOTHING
    else s
  }

  class Selector {
    const local: Local
    var source: Option<Announce>
    var path: seq<Identity>
    var valid: bool

    function Value(): Selection
      reads this
    {
      Selection(source, path, valid)
    }

    constructor (local: Local)
      ensures Value() == NOTHING && this.local == local
    {
      this.local := local;
      source, path, valid := None, [], false;
    }

    method ProcessAnnounce(msg: Announce, parsed: Option<seq<Identity>>, bound: bool) returns (switched: bool)
      requires valid ==> source.Some?
      modifies this
      ensures Value() == Process(old(Value()), local, msg, parsed, bound)
      ensures switched <==>
        && Takes(old(Value()), local, msg, parsed, bound)
        && (old(valid) ==> !SamePort(old(Value()), msg) || old(source).value.root != msg.root)
    {
      if parsed.None? { return false; }
      var steps := Number(msg.steps);
      if local.gptp && (steps >= 255 || msg.source == local.own.source) { return false; }
      if !bound { return false; }
      var samePort := if source.Some? then msg.source == source.value.source && msg.port == source.value.port
                      else msg.source == [0, 0, 0, 0, 0, 0, 0, 0] && msg.port == [0, 0];
      if !Better(msg, local.own) {
        if samePort { source, path, valid := None, [], false; }
        return false;
      }
      if !samePort && valid && !Better(msg, source.value) { return false; }
      switched := !valid || !samePort || msg.root != source.value.root;
      source, path := Some(msg), parsed.value;
    }

    /** The daemon's own check: a source is there and its messages are still recent. */
    method Revalidate(timely: bool)
      modifies this`valid
      ensures Value() == Step(old(Value()), local, Checked(timely))
    {
      valid := source.Some? && timely;
    }
  }

  datatype Event =
    | Announced(msg: Announce, path: Option<seq<Identity>>, bound: bool)
    | Checked(timely: bool)
    | Withdrawn // the wired port is no longer capable
    | Cleared   // the link or the profile changed

  function Step(s: Selection, local: Local, e: Event): Selection {
    match e
    case Announced(msg, path, bound) => Process(s, local, msg, path, bound)
    case Checked(timely) => s.(valid := s.source.Some? && timely)
    case Withdrawn => s.(valid := false)
    case Cleared => NOTHING
  }

  function Run(s: Selection, local: Local, events: seq<Event>): Selection
    decreases |events|
  {
    if events == [] then s else Run(Step(s, local, events[0]), local, events[1..])
  }

  /** What is retained beats the local clock, and under gPTP came from another clock
      fewer than 255 steps from its root. */
  ghost predicate Worthy(s: Selection, local: Local) {
    && (s.valid ==> s.source.Some?)
    && (s.source.Some? ==>
          && Better(s.source.value, local.own)
          && (local.gptp ==> Number(s.source.value.steps) < 255 && s.source.value.source != local.own.source))
  }

  lemma {:induction false} RetainedIsWorthy(s: Selection, local: Local, events: seq<Event>)
    requires Worthy(s, local)
    ensures Worthy(Run(s, local, events), local)
    decreases |events|
  {
    if events == [] {
    } else {
      RetainedIsWorthy(Step(s, local, events[0]), local, events[1..]);
    }
  }

  /** Whatever is announced, a valid selection moves to another port only for a
      strictly better message. */
  lemma SwitchImproves(s: Selection, local: Local, e: Event)
    requires Worthy(s, local) && s.valid
    ensures var t := Step(s, local, e);
      t.source.Some? && !SamePort(s, t.source.value) ==> e.Announced? && Better(t.source.value, s.source.value)
  {
  }

  /** The selected port's own word is always taken: its newer message replaces the one
      retained, and one that no longer beats the local clock ends the selection. */
  lemma SelectedPortIsHeeded(s: Selection, local: Local, e: Event)
    requires e.Announced? && Admits(local, e.msg, e.path, e.bound) && s.source.Some? && SamePort(s, e.msg)
    ensures Step(s, local, e) ==
      if Better(e.msg, local.own) then Selection(Some(e.msg), e.path.value, s.valid) else Selection(None, [], false)
  {
  }

  /** With nothing selected, exactly these messages are taken up: a path that parsed, a bound
      station, under gPTP fewer than 255 steps from another clock, and better than the local
      one. A message that fails one of the first three changes no selection whatever. */
  lemma TakenUpExactly(s: Selection, local: Local, msg: Announce, path: Option<seq<Identity>>, bound: bool)
    ensures Step(NOTHING, local, Announced(msg, path, bound)).source == Some(msg) <==>
      && path.Some? && bound && Better(msg, local.own)
      && (local.gptp ==> FromBigEndian(msg.steps) < 255 && msg.source != local.own.source)
    ensures path.None? || !bound ==> Step(s, local, Announced(msg, path, bound)) == s
    ensures local.gptp && (FromBigEndian(msg.steps) >= 255 || msg.source == local.own.source) ==>
      Step(s, local, Announced(msg, path, bound)) == s
  {
    PairIsNumber(msg.steps);
  }

  /** The last admitted message of a port in a run, with the path it came by. */
  function LastHeard(local: Local, events: seq<Event>, source: Identity, port: Pair)
    : Option<(Announce, seq<Identity>)>
  {
    if events == [] then None
    else
      var e := events[|events| - 1];
      if e.Announced? && Admits(local, e.msg, e.path, e.bound) && e.msg.source == source && e.msg.port == port
      then Some((e.msg, e.path.value))
      else LastHeard(local, events[..|events| - 1], source, port)
  }

  lemma {:induction false} RunThenStep(s: Selection, local: Local, events: seq<Event>)
    requires events != []
    ensures Run(s, local, events) == Step(Run(s, local, events[..|events| - 1]), local, events[|events| - 1])
    decreases |events|
  {
    if |events| == 1 {
      assert events[1..] == [] && events[..0] == [];
    } else {
      var front, rest := events[..|events| - 1], events[1..];
      RunThenStep(Step(s, local, events[0]), local, rest);
      assert front[0] == events[0] && front[1..] == rest[..|rest| - 1];
    }
  }

  /** Over every run from nothing, whatever the announcers send and whatever the daemon
      finds, the source retained is the last admitted message heard from its port, and the
      path beside it is the one that message came by. */
  lemma {:induction false} RetainedIsLastHeard(local: Local, events: seq<Event>)
    ensures var t := Run(NOTHING, local, events);
      if t.source.Some?
      then LastHeard(local, events, t.source.value.source, t.source.value.port) == Some((t.source.value, t.path))
      else t.path == []
    decreases |events|
  {
    if events == [] {
    } else {
      RetainedIsLastHeard(local, events[..|events| - 1]);
      RunThenStep(NOTHING, local, events);
    }
  }

  // ---- Constant announcers --------------------------------------------------------------

  /** Every port announces one message. */
  type Announcers = map<(Identity, Pair), Announce>

  ghost predicate Announces(announcers: Announcers, msg: Announce) {
    (msg.source, msg.port) in announcers && announcers[(msg.source, msg.port)] == msg
  }

  /** The selection stays valid and every message is the one its port always sends. */
  ghost predicate Constant(announcers: Announcers, events: seq<Event>) {
    forall e <- events :: if e.Announced? then Announces(announcers, e.msg) else e == Checked(true)
  }

  predicate Candidate(local: Local, e: Event) {
    e.Announced? && Admits(local, e.msg, e.path, e.bound) && Better(e.msg, local.own)
  }

  /** The admitted messages that beat the local clock. */
  function Candidates(local: Local, events: seq<Event>): set<Announce>
    decreases |events|
  {
    if events == [] then {}
    else
      (if Candidate(local, events[0]) then {events[0].msg} else {}) +
      Candidates(local, events[1..])
  }

  ghost predicate Best(a: Announce, all: set<Announce>) {
    a in all && forall b <- all :: !Better(b, a)
  }

  /** One message: the better of the two stays. */
  lemma KeepsBetter(s: Selection, local: Local, e: Event, announcers: Announcers)
    requires Worthy(s, local) && s.valid && Announces(announcers, s.source.value)
    requires if e.Announced? then Announces(announcers, e.msg) else e == Checked(true)
    ensures var t := Step(s, local, e);
      && Worthy(t, local) && t.valid && Announces(announcers, t.source.value)
      && Best(t.source.value, {s.source.value} + Candidates(local, [e]))
  {
    var t := Step(s, local, e);
    assert [e][1..] == [];
    BetterIsStrictTotalOrder(s.source.value, t.source.value, t.source.value);
    BetterIsStrictTotalOrder(t.source.value, s.source.value, t.source.value);
  }

  /** While the selection stays valid and announcers are constant, it is the best of the
      messages heard, whatever their order and number. */
  lemma {:induction false} SelectionIsBest(s: Selection, local: Local, events: seq<Event>, announcers: Announcers)
    requires Worthy(s, local) && s.valid && Announces(announcers, s.source.value)
    requires Constant(announcers, events)
    ensures var t := Run(s, local, events);
      && Worthy(t, local) && t.valid && Announces(announcers, t.source.value)
      && Best(t.source.value, {s.source.value} + Candidates(local, events))
    decreases |events|
  {
    if events == [] {
      BetterIsStrictTotalOrder(s.source.value, s.source.value, s.source.value);
    } else {
      var e, rest := events[0], events[1..];
      KeepsBetter(s, local, e, announcers);
      var m := Step(s, local, e);
      SelectionIsBest(m, local, rest, announcers);
      var t := Run(s, local, events);
      assert [e][1..] == [] && Candidates(local, [e]) <= Candidates(local, events);
      BestIsTransitive(t.source.value, m.source.value, {s.source.value} + Candidates(local, [e]),
                       Candidates(local, rest));
      assert {s.source.value} + Candidates(local, events) ==
             {s.source.value} + Candidates(local, [e]) + Candidates(local, rest);
    }
  }

  lemma BestIsTransitive(a: Announce, m: Announce, early: set<Announce>, late: set<Announce>)
    requires Best(m, early) && Best(a, {m} + late)
    ensures Best(a, early + late)
  {
    forall b | b in early + late
      ensures !Better(b, a)
    {
      BetterIsStrictTotalOrder(b, a, m);
      BetterIsStrictTotalOrder(a, m, m);
    }
  }

  /** Two receivers that hear the same messages in any order agree. */
  lemma OrderIsIrrelevant(s: Selection, local: Local, first: seq<Event>, second: seq<Event>, announcers: Announcers)
    requires Worthy(s, local) && s.valid && Announces(announcers, s.source.value)
    requires Constant(announcers, first) && Constant(announcers, second)
    requires Candidates(local, first) == Candidates(local, second)
    ensures Run(s, local, first).source == Run(s, local, second).source
  {
    SelectionIsBest(s, local, first, announcers);
    SelectionIsBest(s, local, second, announcers);
    var a, b := Run(s, local, first).source.value, Run(s, local, second).source.value;
    BetterIsStrictTotalOrder(a, b, a);
  }

  /** From nothing: the first candidate is taken, and once the daemon has checked it the
      selection is the best of everything heard. */
  lemma BestFromTheStart(local: Local, first: Event, events: seq<Event>, announcers: Announcers)
    requires first.Announced? && Candidates(local, [first]) != {}
    requires Announces(announcers, first.msg) && Constant(announcers, events)
    ensures var t := Run(NOTHING, local, [first, Checked(true)] + events);
      t.valid && t.source.Some? && Best(t.source.value, {first.msg} + Candidates(local, events))
  {
    var all := [first, Checked(true)] + events;
    assert [first][1..] == [];
    assert all[1..][0] == Checked(true) && all[1..][1..] == events;
    var s := Step(Step(NOTHING, local, first), local, Checked(true));
    assert Run(NOTHING, local, all) == Run(Step(NOTHING, local, first), local, all[1..]) == Run(s, local, events);
    SelectionIsBest(s, local, events, announcers);
  }

  // ---- Validity is exactly what keeps the best ------------------------------------------

  /** A candidate of another port leaves the better of the two selected if and only if
      the selection is valid or the candidate is the better one. So a source that was
      retained without being valid, first heard, timed out or withdrawn, loses to any
      candidate. */
  lemma KeepsBestExactly(s: Selection, local: Local, e: Event)
    requires Worthy(s, local) && s.source.Some? && Candidate(local, e) && !SamePort(s, e.msg)
    ensures Step(s, local, e).source.Some?
    ensures Best(Step(s, local, e).source.value, {s.source.value, e.msg}) <==> s.valid || Better(e.msg, s.source.value)
  {
    BetterIsStrictTotalOrder(s.source.value, e.msg, s.source.value);
    BetterIsStrictTotalOrder(e.msg, s.source.value, e.msg);
  }

  /** Nothing validates the selection, and every message is the one its port always sends. */
  ghost predicate Unchecked(announcers: Announcers, events: seq<Event>) {
    forall e <- events ::
      if e.Announced? then Announces(announcers, e.msg) else e.Withdrawn? || e == Checked(false)
  }

  ghost function LastCandidate(local: Local, events: seq<Event>): Option<Announce> {
    if events == [] then None
    else if Candidate(local, events[|events| - 1]) then Some(events[|events| - 1].msg)
    else LastCandidate(local, events[..|events| - 1])
  }

  /** Over a run in which nothing validates the selection, exactly the last candidate is
      left, or the source there was; hence the best one only if that came last. */
  lemma {:induction false} UncheckedKeepsLast(s: Selection, local: Local, events: seq<Event>, announcers: Announcers)
    requires Worthy(s, local) && !s.valid && (s.source.Some? ==> Announces(announcers, s.source.value))
    requires Unchecked(announcers, events)
    ensures var t := Run(s, local, events);
      && Worthy(t, local) && !t.valid && (t.source.Some? ==> Announces(announcers, t.source.value))
      && t.source == if LastCandidate(local, events).Some? then LastCandidate(local, events) else s.source
    decreases |events|
  {
    if events == [] {
    } else {
      var last := |events| - 1;
      assert forall e <- events[..last] :: e in events;
      UncheckedKeepsLast(s, local, events[..last], announcers);
      RunThenStep(s, local, events);
      UncheckedStep(Run(s, local, events[..last]), local, events[last], announcers);
    }
  }

  lemma UncheckedStep(s: Selection, local: Local, e: Event, announcers: Announcers)
    requires Worthy(s, local) && !s.valid && (s.source.Some? ==> Announces(announcers, s.source.value))
    requires if e.Announced? then Announces(announcers, e.msg) else e.Withdrawn? || e == Checked(false)
    ensures var t := Step(s, local, e);
      && Worthy(t, local) && !t.valid && (t.source.Some? ==> Announces(announcers, t.source.value))
      && t.source == if Candidate(local, e) then Some(e.msg) else s.source
  {
  }

  /** So the selection is the best of what was heard if and only if the last candidate is. */
  lemma UncheckedIsBestExactly(s: Selection, local: Local, events: seq<Event>, announcers: Announcers)
    requires Worthy(s, local) && !s.valid && s.source.Some? && Announces(announcers, s.source.value)
    requires Unchecked(announcers, events) && LastCandidate(local, events).Some?
    ensures var all := {s.source.value} + Candidates(local, events);
      Run(s, local, events).source.Some? &&
      (Best(Run(s, local, events).source.value, all) <==>
       forall b <- all :: !Better(b, LastCandidate(local, events).value))
  {
    UncheckedKeepsLast(s, local, events, announcers);
    LastIsCandidate(local, events);
  }

  lemma {:induction false} LastIsCandidate(local: Local, events: seq<Event>)
    requires LastCandidate(local, events).Some?
    ensures LastCandidate(local, events).value in Candidates(local, events)
    decreases |events|
  {
    var last := |events| - 1;
    if Candidate(local, events[last]) {
      CandidatesHold(local, events, last);
    } else {
      LastIsCandidate(local, events[..last]);
      CandidatesGrow(local, events);
    }
  }

  lemma {:induction false} CandidatesHold(local: Local, events: seq<Event>, i: nat)
    requires i < |events| && Candidate(local, events[i])
    ensures events[i].msg in Candidates(local, events)
    decreases |events|
  {
    if i == 0 {
    } else {
      CandidatesHold(local, events[1..], i - 1);
    }
  }

  lemma {:induction false} CandidatesGrow(local: Local, events: seq<Event>)
    requires events != []
    ensures Candidates(local, events[..|events| - 1]) <= Candidates(local, events)
    decreases |events|
  {
    if |events| == 1 {
    } else {
      var front, rest := events[..|events| - 1], events[1..];
      assert front[0] == events[0] && front[1..] == rest[..|rest| - 1];
      CandidatesGrow(local, rest);
    }
  }

  // ---- Relaying -------------------------------------------------------------------------

  /** The Announce a bridge sends on port `port` for the selected source. */
  function Relayed(selected: Announce, local: Local, port: Pair): Option<Announce> {
    var steps := Number(selected.steps);
    if steps == 65535 then None
    else Some(selected.(steps := [(steps + 1) / 256, (steps + 1) % 256], source := local.own.source, port := port))
  }

  /** Each relay makes the message strictly worse, so no selection can feed itself; it
      still beats the local clock unless it leads back to the local clock's own root. */
  lemma RelayDescends(selected: Announce, local: Local, port: Pair)
    requires Number(selected.steps) < 65535
    ensures Relayed(selected, local, port).Some?
    ensures var relayed := Relayed(selected, local, port).value;
      && Better(selected, relayed)
      && Number(relayed.steps) == Number(selected.steps) + 1
      && relayed.source == local.own.source && relayed.port == port && System(relayed) == System(selected)
      && (Better(selected, local.own) && System(selected) != System(local.own) ==> Better(relayed, local.own))
  {
    var relayed := Relayed(selected, local, port).value;
    MemcmpIsNumeric(System(selected), System(relayed));
    MemcmpIsNumeric(System(selected), System(local.own));
    PairIsNumber(selected.steps);
    PairIsNumber(relayed.steps);
    MemcmpIsNumeric(selected.steps, relayed.steps);
  }

  lemma PairIsNumber(p: Pair)
    ensures FromBigEndian(p) == Number(p)
  {
    assert p[..1] == [p[0]] && [p[0]][..0] == [];
    assert FromBigEndian([p[0]]) == p[0];
  }
}
