/** Time base publication: which fields a Follow_Up carries while relaying or while this
    clock is the best one, when a change is held back, and the phase change it reports.
    The publisher keeps counters; the theorems speak of the history a bystander could
    write down, with the bytes that were actually published. */
module TimeBase {
  import opened Arith
  import opened Bytes
  import opened ScaledNs

  const FIELDS: nat := 18
  const NO_FIELDS: seq<byte> := [0, 0] + NO_REST
  const NO_REST: seq<byte> := [0, 0, 0, 0, 0, 0, 0, 0, 0, 0, 0, 0, 0, 0, 0, 0]

  /** The indicator (2 bytes), the last phase change (12) and the last frequency change (4). */
  type Fields = f: seq<byte> | |f| == FIELDS witness NO_FIELDS

  function Indicator(f: Fields): (n: nat)
    ensures n < 65536
  {
    var high: int, low: int := f[0], f[1];
    high * 256 + low
  }

  function OwnFields(indicator: nat): Fields
    requires indicator < 65536
  {
    [indicator / 256, indicator % 256] + NO_REST
  }

  /** `f` with another phase change. */
  function WithPhase(f: Fields, phase: seq<byte>): (g: Fields)
    requires |phase| == 12
    ensures g[..2] == f[..2] && g[2..14] == phase && g[14..] == f[14..]
  {
    f[..2] + phase + f[14..]
  }

  datatype State = State(
    source: Option<Identity>,
    upstream: Fields,
    upstreamValid: bool,
    own: bool,
    ownIndicator: nat,
    publishedValid: bool,
    publishedBtc: Identity,
    published: Fields,
    publishedUpdates: uint32,
    baseline: int,
    updates: uint32,
    steps: int)

  const INITIAL: State := State(None, NO_FIELDS, false, false, 0, false, [0, 0, 0, 0, 0, 0, 0, 0], NO_FIELDS, 0, 0,
                                0, 0)

  predicate Usable(s: State) { s.ownIndicator < 65536 && FitsInt64(s.steps - s.baseline) }

  /** A publication first settles whether it relays, and on becoming the best clock takes
      an indicator one above the upstream one. */
  function Settled(s: State): State {
    if s.source.Some? && s.upstreamValid then s.(own := false)
    else if s.own then s
    else s.(own := true, ownIndicator := (Indicator(s.upstream) + 1) % 65536)
  }

  function Describes(s: State, self: Identity): (Identity, Fields)
    requires s.ownIndicator < 65536 && (!s.own ==> s.source.Some?)
  {
    if s.own then (self, OwnFields(s.ownIndicator)) else (s.source.value, s.upstream)
  }

  function Fill(s: State, self: Identity): (t: State)
    requires Usable(s)
  {
    var noted := Settled(s);
    Release(noted, Describes(noted, self).0, Describes(noted, self).1)
  }

  function Release(s: State, btc: Identity, wanted: Fields): State
    requires Usable(s)
  {
    var changed := s.publishedValid && (btc != s.publishedBtc || wanted[..2] != s.published[..2]);
    if changed && !s.own && s.updates == s.publishedUpdates then s
    else
      s.(publishedBtc := btc, publishedUpdates := s.updates, publishedValid := true,
         published := if !s.publishedValid then wanted
                      else if !changed then WithPhase(wanted, s.published[2..14])
                      else WithPhase(wanted, EncodeScaled(if s.own then 0 else s.steps - s.baseline)),
         baseline := if changed || !s.own || !s.publishedValid then s.steps else s.baseline)
  }

  /** How a clock update moves the clock: by a jump only past the threshold, and only
      if the clock could be set. The jump leaves out the path delay. */
  function Jump(offset: int, delay: int, limit: int, settable: bool): Option<int> {
    if Abs(offset + delay) > limit && settable then Some(offset) else None
  }

  /** A jump is made exactly when remote time, with the delay, is further from local time than
      the threshold and the clock can be set; and it is the change of the clock's reading when
      remote time is carried on from there. */
  lemma JumpExactly(reading: int, remote: int, local: int, delay: int, limit: nat, settable: bool)
    ensures var newTime := remote + (reading - local);
      Jump(remote - local, delay, limit, settable) ==
        if settable && (remote + delay > local + limit || remote + delay < local - limit) then Some(newTime - reading)
        else None
  {
  }

  /** `counter++` of an unsigned 32-bit counter. */
  function Wrapping(x: uint32): uint32 { if x == UINT32_MAX then 0 else x + 1 }

  lemma WrappingExactly(x: uint32)
    ensures Wrapping(x) == (x + 1) % 0x1_0000_0000
  {
  }

  function Moved(s: State, jump: Option<int>): State {
    s.(steps := s.steps + (if jump.Some? then jump.value else 0), updates := Wrapping(s.updates))
  }

  class Publisher {
    var source: Option<Identity>
    var upstream: Fields
    var upstreamValid: bool
    var own: bool
    var ownIndicator: nat
    var publishedValid: bool
    var publishedBtc: Identity
    var published: Fields
    var publishedUpdates: uint32
    var baseline: int
    var updates: uint32
    var steps: int

    function Value(): State
      reads this
    {
      State(source, upstream, upstreamValid, own, ownIndicator, publishedValid, publishedBtc, published,
            publishedUpdates, baseline, updates, steps)
    }

    constructor ()
      ensures Value() == INITIAL
    {
      source, upstream, upstreamValid, own, ownIndicator := None, NO_FIELDS, false, false, 0;
      publishedValid, publishedBtc, published, publishedUpdates := false, [0, 0, 0, 0, 0, 0, 0, 0], NO_FIELDS, 0;
      baseline, updates, steps := 0, 0, 0;
    }

    method FillGmFields(self: Identity) returns (fields: Fields)
      requires Usable(Value())
      modifies this
      ensures Value() == Fill(old(Value()), self)
      ensures fields == published
    {
      var btc := self;
      if source.Some? && upstreamValid {
        fields := upstream;
        btc := source.value;
        own := false;
      } else {
        if !own {
          ownIndicator := (Indicator(upstream) + 1) % 65536;
          own := true;
        }
        fields := OwnFields(ownIndicator);
      }
      assert Value() == Settled(old(Value()));
      fields := ReleaseFields(btc, fields);
    }

    method ReleaseFields(btc: Identity, wanted: Fields) returns (fields: Fields)
      requires Usable(Value())
      modifies this
      ensures Value() == Release(old(Value()), btc, wanted)
      ensures fields == published
    {
      fields := wanted;
      if !publishedValid {
        baseline := steps;
      } else if btc == publishedBtc && wanted[..2] == published[..2] {
        fields := WithPhase(wanted, published[2..14]);
        if !own { baseline := steps; }
      } else if own {
        fields := WithPhase(wanted, EncodeScaled(0));
        baseline := steps;
      } else {
        if updates == publishedUpdates { return published; }
        fields := WithPhase(wanted, EncodeScaled(steps - baseline));
        baseline := steps;
      }
      publishedBtc := btc;
      published := fields;
      publishedUpdates := updates;
      publishedValid := true;
    }

    /** Remote time was `remote` at the local time `local`; the clock reads `reading` now.
        Past the threshold it is set, to `newTime`; otherwise it slews. A jump is accounted
        for by exactly what it moves the reading by. */
    method UpdateLocalClock(remote: int, local: int, delay: int, limit: int, reading: int, settable: bool)
      returns (newTime: Option<int>)
      modifies this`steps, this`updates
      ensures Value() == Moved(old(Value()), Jump(remote - local, delay, limit, settable))
      ensures newTime.Some? <==> Abs(remote + delay - local) > limit
      ensures newTime.Some? ==> newTime.value - remote == reading - local
      ensures steps - old(steps) == if newTime.Some? && settable then newTime.value - reading else 0
    {
      var delta := remote - local + delay;
      newTime := None;
      if (if delta < 0 then -delta else delta) > limit {
        newTime := Some(reading - local + remote);
        if settable { steps := steps + (remote - local); }
      }
      updates := Wrapping(updates);
    }

    method AcceptFollowUp(fields: Fields)
      modifies this`upstream, this`upstreamValid
      ensures Value() == old(Value()).(upstream := fields, upstreamValid := true)
    {
      upstream, upstreamValid := fields, true;
    }
  }

  // ---- Histories -----------------------------------------------------------------------

  datatype Event =
    | Selected(btc: Identity)
    | Lost
    | Heard(fields: Fields)
    | Updated(jump: Option<int>)
    | Published(fields: Fields)

  type History = seq<Event>

  function JumpOf(e: Event): int { if e.Updated? && e.jump.Some? then e.jump.value else 0 }

  /** The clock has travelled no further than 64 bits reach. */
  function Travel(h: History): nat {
    if h == [] then 0 else Travel(Before(h)) + Abs(JumpOf(Last(h)))
  }

  function Before(h: History): (g: History)
    requires h != []
    ensures |g| == |h| - 1 && h == g + [Last(h)]
  {
    h[..|h| - 1]
  }

  function Last(h: History): Event
    requires h != []
  {
    h[|h| - 1]
  }

  function Apply(s: State, e: Event, self: Identity): (t: State)
    requires Usable(s)
  {
    match e
    case Selected(btc) => s.(source := Some(btc))
    case Lost => s.(source := None)
    case Heard(fields) => s.(upstream := fields, upstreamValid := true)
    case Updated(jump) => Moved(s, jump)
    case Published(_) => Fill(s, self)
  }

  predicate Within(s: State, travel: nat) { s.ownIndicator < 65536 && Abs(s.steps - s.baseline) <= travel }

  lemma ApplyStaysWithin(s: State, e: Event, self: Identity, travel: nat)
    requires Within(s, travel) && travel <= INT64_MAX
    ensures Within(Apply(s, e, self), travel + Abs(JumpOf(e)))
  {
  }

  /** The publisher after a history. */
  function After(h: History, self: Identity): (s: State)
    requires Travel(h) <= INT64_MAX
    ensures Within(s, Travel(h))
  {
    if h == [] then INITIAL
    else
      var s := After(Before(h), self);
      ApplyStaysWithin(s, Last(h), self, Travel(Before(h)));
      Apply(s, Last(h), self)
  }

  /** Every published entry holds the bytes the publisher gave. */
  predicate Genuine(h: History, self: Identity)
    requires Travel(h) <= INT64_MAX
  {
    h != [] ==>
      Genuine(Before(h), self) &&
      (Last(h).Published? ==> Last(h).fields == After(h, self).published)
  }

  // ---- What the history says, without the publisher's counters -----------------------

  function Source(h: History): Option<Identity> {
    if h == [] || Last(h).Lost? then None else if Last(h).Selected? then Some(Last(h).btc) else Source(Before(h))
  }

  function Upstream(h: History): Option<Fields> {
    if h == [] then None else if Last(h).Heard? then Some(Last(h).fields) else Upstream(Before(h))
  }

  function UpstreamIndicator(h: History): nat {
    if Upstream(h).Some? then Indicator(Upstream(h).value) else 0
  }

  predicate Relaying(h: History) { Source(h).Some? && Upstream(h).Some? }

  /** The bytes stations saw last. */
  function Seen(h: History): Option<Fields> {
    if h == [] then None else if Last(h).Published? then Some(Last(h).fields) else Seen(Before(h))
  }

  /** No clock update since anything was last published. */
  predicate Quiet(h: History) {
    h != [] && !Last(h).Updated? && (Last(h).Published? || Quiet(Before(h)))
  }

  /** The indicator this clock took when it last began to publish as the best clock. */
  function Taken(h: History): (t: Option<nat>)
    ensures t.Some? ==> t.value < 65536
    decreases |h|, 0
  {
    if h == [] then None
    else if !Last(h).Published? then Taken(Before(h))
    else if Relaying(Before(h)) then None
    else Some(OwnIndicator(Before(h)))
  }

  function OwnIndicator(h: History): (n: nat)
    ensures n < 65536
    decreases |h|, 1
  {
    if Taken(h).Some? then Taken(h).value else (UpstreamIndicator(h) + 1) % 65536
  }

  /** The best clock and indicator a publication now would describe. */
  function Wanted(h: History, self: Identity): (Identity, Fields) {
    if Relaying(h) then (Source(h).value, Upstream(h).value) else (self, OwnFields(OwnIndicator(h)))
  }

  /** The best clock that the bytes seen last described. */
  function SeenBtc(h: History, self: Identity): Identity
    decreases |h|, 0
  {
    if h == [] then [0, 0, 0, 0, 0, 0, 0, 0]
    else if Last(h).Published? && !KindOf(Before(h), self).Held? then Wanted(Before(h), self).0
    else SeenBtc(Before(h), self)
  }

  datatype Kind =
    | First     // nothing had been published
    | Steady    // the same best clock and time base as seen
    | BecameOwn // another best clock or time base, and it is this clock's own
    | Held      // another one while relaying, but the clock has not moved since
    | Changed   // another one while relaying

  /** What a publication now amounts to. */
  function KindOf(h: History, self: Identity): Kind
    decreases |h|, 1
  {
    var (btc, fields) := Wanted(h, self);
    if Seen(h).None? then First
    else if btc == SeenBtc(h, self) && fields[..2] == Seen(h).value[..2] then Steady
    else if !Relaying(h) then BecameOwn
    else if Quiet(h) then Held
    else Changed
  }

  /** The clock's jumps since it last relayed steadily or published a change. */
  function Pending(h: History, self: Identity): int {
    if h == [] then 0
    else if Last(h).Published? then
      match KindOf(Before(h), self)
      case Held => Pending(Before(h), self)
      case Steady => if Relaying(Before(h)) then 0 else Pending(Before(h), self)
      case _ => 0
    else Pending(Before(h), self) + JumpOf(Last(h))
  }

  function Updates(h: History): (n: nat)
    ensures n <= |h|
  {
    if h == [] then 0 else Updates(Before(h)) + (if Last(h).Updated? then 1 else 0)
  }

  /** The publisher's counters say what the history says. */
  ghost predicate Matches(s: State, h: History, self: Identity) {
    && s.source == Source(h)
    && s.upstreamValid == Upstream(h).Some?
    && s.upstream == (if Upstream(h).Some? then Upstream(h).value else NO_FIELDS)
    && s.own == Taken(h).Some? && (s.own ==> s.ownIndicator == Taken(h).value)
    && s.publishedValid == Seen(h).Some?
    && (s.publishedValid ==> s.published == Seen(h).value && s.publishedBtc == SeenBtc(h, self))
    && s.publishedUpdates <= s.updates == Updates(h)
    && (s.publishedValid ==> (s.updates == s.publishedUpdates <==> Quiet(h)))
    && s.steps - s.baseline == Pending(h, self)
  }

  ghost predicate Possible(h: History, self: Identity) {
    Travel(h) <= INT64_MAX && |h| <= UINT32_MAX && Genuine(h, self)
  }

  lemma SettledMatches(s: State, h: History, self: Identity)
    requires Usable(s) && Matches(s, h, self)
    ensures var t := Settled(s);
      && Usable(t) && t.own == !Relaying(h) && (t.own ==> t.ownIndicator == OwnIndicator(h))
      && Describes(t, self) == Wanted(h, self)
  {
    assert Indicator(NO_FIELDS) == 0;
  }

  lemma PublishMatches(s: State, h: History, self: Identity)
    requires Usable(s) && Matches(s, h, self)
    ensures var t := Fill(s, self); Matches(t, h + [Published(t.published)], self)
  {
    SettledMatches(s, h, self);
    PublishFolds(h, Fill(s, self).published, self);
  }

  /** What a publication adds to the bystander's record. */
  lemma PublishFolds(h: History, f: Fields, self: Identity)
    ensures var g, kind := h + [Published(f)], KindOf(h, self);
      && Source(g) == Source(h) && Upstream(g) == Upstream(h) && Updates(g) == Updates(h)
      && Taken(g) == (if Relaying(h) then None else Some(OwnIndicator(h)))
      && Seen(g) == Some(f) && Quiet(g)
      && SeenBtc(g, self) == (if kind.Held? then SeenBtc(h, self) else Wanted(h, self).0)
      && Pending(g, self) ==
         (if kind.Held? || (kind.Steady? && !Relaying(h)) then Pending(h, self) else 0)
  {
    var g := h + [Published(f)];
    assert Before(g) == h && Last(g) == Published(f);
  }

  /** Between publications the bystander's record moves on one entry at a time. */
  lemma OtherFolds(h: History, e: Event, self: Identity)
    requires !e.Published?
    ensures var g := h + [e];
      && Source(g) == (if e.Lost? then None else if e.Selected? then Some(e.btc) else Source(h))
      && Upstream(g) == (if e.Heard? then Some(e.fields) else Upstream(h))
      && Taken(g) == Taken(h) && Seen(g) == Seen(h) && SeenBtc(g, self) == SeenBtc(h, self)
      && (Quiet(g) <==> Quiet(h) && !e.Updated?)
      && Updates(g) == Updates(h) + (if e.Updated? then 1 else 0)
      && Pending(g, self) == Pending(h, self) + JumpOf(e)
  {
    var g := h + [e];
    assert Before(g) == h && Last(g) == e;
  }

  lemma OtherMatches(s: State, h: History, e: Event, self: Identity)
    requires Usable(s) && Matches(s, h, self) && !e.Published? && |h| < UINT32_MAX
    ensures Matches(Apply(s, e, self), h + [e], self)
  {
    if e.Updated? {
      UpdateMatches(s, h, e, self);
    } else {
      OtherFolds(h, e, self);
    }
  }

  lemma UpdateMatches(s: State, h: History, e: Event, self: Identity)
    requires Usable(s) && Matches(s, h, self) && e.Updated? && |h| < UINT32_MAX
    ensures Matches(Moved(s, e.jump), h + [e], self)
  {
    OtherFolds(h, e, self);
    var t := Moved(s, e.jump);
    assert t.updates == s.updates + 1 && t.steps - t.baseline == Pending(h, self) + JumpOf(e);
  }

  lemma {:induction false} HistoryMatches(h: History, self: Identity)
    requires Possible(h, self)
    ensures Matches(After(h, self), h, self)
  {
    if h == [] {
    } else {
      HistoryMatches(Before(h), self);
      var s := After(Before(h), self);
      if Last(h).Published? {
        PublishMatches(s, Before(h), self);
      } else {
        OtherMatches(s, Before(h), Last(h), self);
      }
    }
  }

  // ---- Main results --------------------------------------------------------------------

  /** What the publisher would publish after a history. */
  function Publication(h: History, self: Identity): Fields
    requires Travel(h) <= INT64_MAX
  {
    Fill(After(h, self), self).published
  }

  lemma PublicationMatches(h: History, self: Identity)
    requires Possible(h, self)
    ensures var s := Settled(After(h, self));
      && Usable(s) && s.own == !Relaying(h) && s.steps - s.baseline == Pending(h, self)
      && Publication(h, self) == Release(s, Wanted(h, self).0, Wanted(h, self).1).published
    ensures Matches(After(h, self), h, self)
  {
    HistoryMatches(h, self);
    SettledMatches(After(h, self), h, self);
  }

  /** A change while relaying carries exactly the jumps since the last steady relay or
      published change, in a form the station decodes, and follows a clock update. */
  lemma ChangeReportsJumps(h: History, self: Identity)
    requires Possible(h, self) && KindOf(h, self).Changed?
    ensures var f := Publication(h, self);
      && DecodeScaled(f[2..14]) == Some(Pending(h, self))
      && f[..2] == Upstream(h).value[..2] && f[14..] == Upstream(h).value[14..]
      && (Source(h).value != SeenBtc(h, self) || f[..2] != Seen(h).value[..2])
    ensures exists i :: UpdatedUnseen(h, i)
  {
    ChangedFields(h, self);
    NotQuiet(h);
  }

  lemma ChangedFields(h: History, self: Identity)
    requires Possible(h, self) && KindOf(h, self).Changed?
    ensures var f := Publication(h, self);
      && DecodeScaled(f[2..14]) == Some(Pending(h, self))
      && f[..2] == Upstream(h).value[..2] && f[14..] == Upstream(h).value[14..]
  {
    PublicationMatches(h, self);
    ScaledRoundTrip(Pending(h, self));
    var s := Settled(After(h, self));
    assert s.publishedValid && s.updates != s.publishedUpdates;
    assert Wanted(h, self) == (Source(h).value, Upstream(h).value);
    ReleasesChange(s, Source(h).value, Upstream(h).value);
  }

  lemma ReleasesChange(s: State, btc: Identity, wanted: Fields)
    requires Usable(s) && s.publishedValid && !s.own && s.updates != s.publishedUpdates
    requires btc != s.publishedBtc || wanted[..2] != s.published[..2]
    ensures Release(s, btc, wanted).published == WithPhase(wanted, EncodeScaled(s.steps - s.baseline))
  {
  }

  ghost predicate UpdatedUnseen(h: History, i: int) {
    0 <= i < |h| && h[i].Updated? && forall j :: i < j < |h| ==> !h[j].Published?
  }

  lemma {:induction false} NotQuiet(h: History)
    requires Seen(h).Some?
    ensures !Quiet(h) <==> exists i :: UpdatedUnseen(h, i)
  {
    var g, n := Before(h), |h| - 1;
    if h[n].Updated? {
      assert UpdatedUnseen(h, n);
    } else if !h[n].Published? {
      NotQuiet(g);
      if !Quiet(g) {
        var i :| UpdatedUnseen(g, i);
        assert UpdatedUnseen(h, i);
      }
      if i :| UpdatedUnseen(h, i) {
        assert UpdatedUnseen(g, i);
      }
    }
  }

  /** Held back, a change shows stations the bytes they saw before; and exactly then:
      the time base differs, it is relayed and the clock has not updated. */
  lemma HeldRepeats(h: History, self: Identity)
    requires Possible(h, self) && KindOf(h, self).Held?
    ensures Publication(h, self) == Seen(h).value
    ensures !exists i :: UpdatedUnseen(h, i)
    ensures Pending(h + [Published(Publication(h, self))], self) == Pending(h, self)
  {
    PublicationMatches(h, self);
    NotQuiet(h);
    var g := h + [Published(Publication(h, self))];
    assert Before(g) == h;
  }

  /** With the time base unchanged, only the frequency change may differ; so the phase
      change that stations hold moves only together with a published change. */
  lemma SteadyKeepsPhase(h: History, self: Identity)
    requires Possible(h, self) && KindOf(h, self).Steady?
    ensures var f := Publication(h, self);
      f[..14] == Seen(h).value[..14] && f[14..] == Wanted(h, self).1[14..]
  {
    PublicationMatches(h, self);
    var f, seen := Publication(h, self), Seen(h).value;
    assert f[..14] == f[..2] + f[2..14] && seen[..14] == seen[..2] + seen[2..14];
  }

  /** On becoming the best clock the reported phase change is zero. */
  lemma OwnReportsZero(h: History, self: Identity)
    requires Possible(h, self) && KindOf(h, self).BecameOwn?
    ensures DecodeScaled(Publication(h, self)[2..14]) == Some(0)
    ensures Taken(h).None?
    ensures Indicator(Publication(h, self)) == (UpstreamIndicator(h) + 1) % 65536
  {
    PublicationMatches(h, self);
    ScaledRoundTrip(0);
    if Taken(h).Some? { TakenIsSeen(h, self); }
    IndicatorOfOwn(Publication(h, self), OwnIndicator(h));
  }

  lemma IndicatorOfOwn(f: Fields, n: nat)
    requires n < 65536 && f[..2] == OwnFields(n)[..2]
    ensures Indicator(f) == n
  {
    var own := OwnFields(n);
    assert f[0] == f[..2][0] && f[1] == f[..2][1] && own[0] == own[..2][0] && own[1] == own[..2][1];
  }

  lemma {:induction false} TakenIsSeen(h: History, self: Identity)
    requires Possible(h, self) && Taken(h).Some?
    ensures Seen(h).Some? && SeenBtc(h, self) == self
    ensures Seen(h).value[..2] == OwnFields(Taken(h).value)[..2]
  {
    if Last(h).Published? {
      PublicationMatches(Before(h), self);
    } else {
      TakenIsSeen(Before(h), self);
    }
  }

  /** Stations notice that this clock became the best one if and only if the upstream
      indicator was not one below the indicator they saw. */
  lemma StationsNoticeOwn(h: History, self: Identity)
    requires Possible(h, self) && KindOf(h, self).BecameOwn?
    ensures Indicator(Publication(h, self)) != Indicator(Seen(h).value) <==>
            UpstreamIndicator(h) != (Indicator(Seen(h).value) + 65535) % 65536
  {
    OwnReportsZero(h, self);
    NextIndicator(UpstreamIndicator(h), Indicator(Seen(h).value));
  }

  lemma NextIndicator(upstream: nat, seen: nat)
    requires upstream < 65536 && seen < 65536
    ensures (upstream + 1) % 65536 == seen <==> upstream == (seen + 65535) % 65536
  {
  }

  /** They do not always: a source announces a lower indicator that is never relayed,
      then falls silent. */
  lemma OwnMayGoUnnoticed(self: Identity, btc: Identity)
    requires self != btc
    ensures var h := LostUnrelayed(btc);
      && Possible(h, self) && KindOf(h, self).BecameOwn?
      && Indicator(Publication(h, self)) == Indicator(Seen(h).value)
  {
    LostUnrelayedPossible(self, btc);
    OneBelowIsUnnoticed(LostUnrelayed(btc), self);
  }

  lemma OneBelowIsUnnoticed(h: History, self: Identity)
    requires Possible(h, self) && KindOf(h, self).BecameOwn?
    requires Seen(h) == Some(OwnFields(6)) && Upstream(h) == Some(OwnFields(5))
    ensures Indicator(Publication(h, self)) == Indicator(Seen(h).value)
  {
    OwnReportsZero(h, self);
    IndicatorOfOwn(OwnFields(6), 6);
    IndicatorOfOwn(OwnFields(5), 5);
  }

  function LostUnrelayed(btc: Identity): History {
    RelayedOnce(btc) + [Heard(OwnFields(5))] + [Lost]
  }

  lemma LostUnrelayedPossible(self: Identity, btc: Identity)
    requires self != btc
    ensures var h := LostUnrelayed(btc);
      && Possible(h, self) && KindOf(h, self).BecameOwn?
      && Seen(h) == Some(OwnFields(6)) && Upstream(h) == Some(OwnFields(5))
  {
    RelayedOncePossible(self, btc);
    var h3 := RelayedOnce(btc);
    var h4 := h3 + [Heard(OwnFields(5))];
    StaysPossible(h3, Heard(OwnFields(5)), self);
    OtherFolds(h3, Heard(OwnFields(5)), self);
    StaysPossible(h4, Lost, self);
    OtherFolds(h4, Lost, self);
  }

  /** Another entry that is genuine and moves the clock nowhere. */
  lemma StaysPossible(h: History, e: Event, self: Identity)
    requires Possible(h, self) && |h| < UINT32_MAX && JumpOf(e) == 0
    requires e.Published? ==> e.fields == Publication(h, self)
    ensures Possible(h + [e], self)
  {
    assert Before(h + [e]) == h && Last(h + [e]) == e;
  }

  function RelayedOnce(btc: Identity): History {
    [Selected(btc)] + [Heard(OwnFields(6))] + [Published(OwnFields(6))]
  }

  lemma RelayedOncePossible(self: Identity, btc: Identity)
    ensures var h := RelayedOnce(btc);
      Possible(h, self) && Taken(h).None? && SeenBtc(h, self) == btc && Seen(h) == Some(OwnFields(6))
  {
    var seen := OwnFields(6);
    var h1, h2 := [Selected(btc)], [Selected(btc)] + [Heard(seen)];
    assert [] + h1 == h1;
    assert Possible([], self);
    StaysPossible([], Selected(btc), self);
    OtherFolds([], Selected(btc), self);
    StaysPossible(h1, Heard(seen), self);
    OtherFolds(h1, Heard(seen), self);
    FirstIsWanted(h2, self);
    StaysPossible(h2, Published(seen), self);
    PublishFolds(h2, seen, self);
  }

  /** The first publication carries the fields as they are. */
  lemma FirstIsWanted(h: History, self: Identity)
    requires Possible(h, self) && KindOf(h, self).First?
    ensures Publication(h, self) == Wanted(h, self).1
  {
    PublicationMatches(h, self);
  }

  // ---- Conservation ---------------------------------------------------------------------

  function Jumps(h: History): int {
    if h == [] then 0 else Jumps(Before(h)) + JumpOf(Last(h))
  }

  /** What stations are told, as they decode it, change by change. */
  function Told(h: History, self: Identity): int {
    if h == [] then 0
    else
      Told(Before(h), self) +
      if Last(h).Published? && KindOf(Before(h), self).Changed? && DecodeScaled(Last(h).fields[2..14]).Some?
      then DecodeScaled(Last(h).fields[2..14]).value else 0
  }

  /** Jumps that fell into a steady relay, the first publication or a handover to this
      clock: there stations carry on without a phase change. */
  function Untold(h: History, self: Identity): int {
    if h == [] then 0
    else
      Untold(Before(h), self) +
      if Last(h).Published? && !KindOf(Before(h), self).Changed? then Pending(Before(h), self) - Pending(h, self) else 0
  }

  /** Every jump of the clock is told once, falls into a steady stretch, or is pending. */
  lemma {:induction false} EveryJumpOnce(h: History, self: Identity)
    requires Possible(h, self)
    ensures Jumps(h) == Told(h, self) + Untold(h, self) + Pending(h, self)
  {
    if h == [] {
    } else {
      EveryJumpOnce(Before(h), self);
      if Last(h).Published? && KindOf(Before(h), self).Changed? {
        ChangeReportsJumps(Before(h), self);
      }
    }
  }
}
