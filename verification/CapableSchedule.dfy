/** Capability transmission: the advertised interval with its nine-message slow-down,
    and the deadline schedule with one outstanding token. */
module CapableSchedule {
  import opened Arith

  const SLOWDOWN_MESSAGES: nat := 9
  const STOPPED: int := 127
  const AGE_LIMIT: int := 1_000_000

  function Pow2(n: nat): (p: nat)
    ensures p >= 1
  {
    if n == 0 then 1 else 2 * Pow2(n - 1)
  }

  /** Microseconds of a logarithmic interval, 0 outside the supported range. */
  function IntervalUs(log: int): (us: int)
    ensures us > 0 <==> -3 <= log <= 24
    ensures us >= 0
  {
    if log < -3 || log > 24 then 0
    else if log < 0 then assert Pow2(1) == 2 && Pow2(2) == 4 && Pow2(3) == 8; 1_000_000 / Pow2(-log)
    else 1_000_000 * Pow2(log)
  }

  datatype Interval = Interval(logInterval: int8, slowdown: nat, oldUs: int)

  /** The period in force: 0 when stopped, the old one while slowing down. */
  function Period(i: Interval): int {
    if i.logInterval == STOPPED then 0
    else if i.slowdown > 0 then i.oldUs
    else IntervalUs(i.logInterval)
  }

  /** What a request asks for: 126 resets, too fast selects the fastest supported. */
  function Normalize(request: int8): int8 {
    if request == 126 then 0 else if -24 <= request < -3 then -3 else request
  }

  predicate Supported(request: int8) {
    request == -128 || Normalize(request) == STOPPED || IntervalUs(Normalize(request)) > 0
  }

  function RequestInterval(i: Interval, request: int8): Interval {
    if request == -128 || !Supported(request) || Normalize(request) == i.logInterval then i
    else
      var previous, next := Period(i), IntervalUs(Normalize(request));
      Interval(Normalize(request), if previous != 0 && next > previous then SLOWDOWN_MESSAGES else 0, previous)
  }

  function Sent(i: Interval, advertised: int8, accepted: bool): Interval {
    if accepted && i.logInterval == advertised && i.slowdown > 0 then i.(slowdown := i.slowdown - 1) else i
  }

  datatype Schedule = Schedule(interval: Interval, nextUs: int, queuedUs: int, serial: uint32,
                               pending: uint32, sequence: nat, advertised: int8, active: bool)

  const ZERO := Schedule(Interval(0, 0, 0), 0, 0, 0, 0, 0, 0, false)

  function Request(s: Schedule, request: int8): Schedule {
    var interval := RequestInterval(s.interval, request);
    if interval.logInterval != s.interval.logInterval then s.(interval := interval, pending := 0, active := false)
    else s
  }

  /** A poll can issue: enabled, running, and the sum with the period fits 64 bits. */
  predicate CanPoll(s: Schedule, now: int) {
    Period(s.interval) != 0 && 0 <= now <= INT64_MAX - Period(s.interval)
  }

  predicate Blocked(s: Schedule, now: int) {
    s.pending != 0 && (now < s.queuedUs || now - s.queuedUs < AGE_LIMIT)
  }

  predicate Due(s: Schedule, now: int) { !s.active || now >= s.nextUs }

  predicate Issues(s: Schedule, enabled: bool, now: int) {
    enabled && CanPoll(s, now) && !Blocked(s, now) && Due(s, now)
  }

  /** Small delays keep the grid; a fully missed period restarts it. */
  function NextDeadline(s: Schedule, now: int): int {
    var period := Period(s.interval);
    if !s.active || now - s.nextUs >= period then now + period else s.nextUs + period
  }

  function Begin(s: Schedule, enabled: bool, now: int): Schedule {
    if !enabled then s.(pending := 0, active := false)
    else if !CanPoll(s, now) || Blocked(s, now) then s
    else if !Due(s, now) then s.(pending := 0)
    else s.(nextUs := NextDeadline(s, now), queuedUs := now, active := true, serial := Next32(s.serial),
            pending := Next32(s.serial), advertised := s.interval.logInterval, sequence := (s.sequence + 1) % 65536)
  }

  predicate Honours(s: Schedule, token: uint32, now: int) {
    token != 0 && s.pending == token && 0 <= now - s.queuedUs < AGE_LIMIT
  }

  function Finish(s: Schedule, token: uint32, accepted: bool, now: int): Schedule {
    if token == 0 || s.pending != token then s
    else if !Honours(s, token, now) then s.(pending := 0)
    else
      var interval := Sent(s.interval, s.advertised, accepted);
      var period := Period(interval);
      s.(pending := 0, interval := interval,
         nextUs := if period != Period(s.interval) && now <= INT64_MAX - period then now + period else s.nextUs)
  }

  function WaitMs(s: Schedule, now: int, maximum: int): int {
    if maximum <= 0 || now < 0 || Period(s.interval) == 0 then maximum
    else
      var delay := if s.active && s.nextUs > now then s.nextUs - now else 0;
      var polled :=
        if s.pending != 0 && delay == 0 && now >= s.queuedUs && now - s.queuedUs < AGE_LIMIT then 10_000 else delay;
      var milliseconds := polled / 1000 + (if polled % 1000 != 0 then 1 else 0);
      if milliseconds < maximum then milliseconds else maximum
  }

  class CapableTransmit {
    var logInterval: int8
    var slowdown: nat
    var oldUs: int
    var nextUs: int
    var queuedUs: int
    var serial: uint32
    var pending: uint32
    var sequence: nat
    var advertised: int8
    var active: bool

    function Value(): Schedule
      reads this
    {
      Schedule(Interval(logInterval, slowdown, oldUs), nextUs, queuedUs, serial, pending, sequence, advertised, active)
    }

    constructor ()
      ensures Value() == ZERO
    {
      logInterval, slowdown, oldUs, nextUs, queuedUs := 0, 0, 0, 0, 0;
      serial, pending, sequence, advertised, active := 0, 0, 0, 0, false;
    }

    method RequestRate(request: int8) returns (ok: bool)
      modifies this
      ensures Value() == Request(old(Value()), request)
      ensures ok == Supported(request)
    {
      if request == -128 { return true; }
      var wanted: int8 := request;
      if wanted == 126 { wanted := 0; }
      if -24 <= wanted < -3 { wanted := -3; }
      if wanted != STOPPED && IntervalUs(wanted) == 0 { return false; }
      if wanted == logInterval { return true; }
      var previous, next := Period(Interval(logInterval, slowdown, oldUs)), IntervalUs(wanted);
      logInterval := wanted;
      slowdown := if previous != 0 && next > previous then SLOWDOWN_MESSAGES else 0;
      oldUs := previous;
      pending, active := 0, false;
      return true;
    }

    method Poll(enabled: bool, now: int) returns (token: uint32)
      modifies this
      ensures Value() == Begin(old(Value()), enabled, now)
      ensures token == if Issues(old(Value()), enabled, now) then pending else 0
      ensures token != 0 <==> Issues(old(Value()), enabled, now)
    {
      if !enabled {
        pending, active := 0, false;
        return 0;
      }
      var period := Period(Interval(logInterval, slowdown, oldUs));
      if period == 0 || now < 0 || now > INT64_MAX - period { return 0; }
      if pending != 0 {
        if now < queuedUs || now - queuedUs < AGE_LIMIT { return 0; }
        pending := 0;
      }
      if active && now < nextUs { return 0; }
      if !active || now - nextUs >= period { nextUs := now + period; } else { nextUs := nextUs + period; }
      queuedUs := now;
      active := true;
      serial := Next32(serial);
      pending := serial;
      advertised := logInterval;
      sequence := (sequence + 1) % 65536;
      return pending;
    }

    method Complete(token: uint32, accepted: bool, now: int) returns (honoured: bool)
      modifies this
      ensures Value() == Finish(old(Value()), token, accepted, now)
      ensures honoured <==> Honours(old(Value()), token, now)
    {
      if token == 0 || pending != token { return false; }
      pending := 0;
      if now < queuedUs || now - queuedUs >= AGE_LIMIT { return false; }
      var previous := Period(Interval(logInterval, slowdown, oldUs));
      if accepted && logInterval == advertised && slowdown > 0 { slowdown := slowdown - 1; }
      var period := Period(Interval(logInterval, slowdown, oldUs));
      if period != previous && now <= INT64_MAX - period { nextUs := now + period; }
      return true;
    }
  }

  // ---- Invariant -----------------------------------------------------------------

  ghost predicate Valid(s: Schedule) {
    && (s.interval.logInterval == STOPPED || IntervalUs(s.interval.logInterval) > 0)
    && s.interval.slowdown <= SLOWDOWN_MESSAGES
    && (s.interval.slowdown > 0 ==>
          s.interval.logInterval != STOPPED && 0 < s.interval.oldUs < IntervalUs(s.interval.logInterval))
    && (s.pending == 0 || (s.pending == s.serial && s.advertised == s.interval.logInterval && s.active))
  }

  datatype Event =
    | Poll(enabled: bool, at: int)
    | Complete(token: uint32, accepted: bool, at: int)
    | Ask(request: int8)

  function Step(s: Schedule, e: Event): Schedule {
    match e
    case Poll(enabled, at) => Begin(s, enabled, at)
    case Complete(token, accepted, at) => Finish(s, token, accepted, at)
    case Ask(request) => Request(s, request)
  }

  function Run(s: Schedule, events: seq<Event>): Schedule
    decreases |events|
  {
    if events == [] then s else Run(Step(s, events[0]), events[1..])
  }

  /** The rule every request keeps to: the period in force never exceeds the
      advertised one, and only a restart lengthens it at once. */
  lemma StepKeepsValid(s: Schedule, e: Event)
    requires Valid(s)
    ensures Valid(Step(s, e))
    ensures Period(s.interval) <= IntervalUs(s.interval.logInterval)
    ensures e.Ask? ==> (Period(Step(s, e).interval) > Period(s.interval) <==>
                        s.interval.logInterval == STOPPED && Step(s, e).interval.logInterval != STOPPED)
  {
  }

  lemma {:induction false} RunKeepsValid(s: Schedule, events: seq<Event>)
    requires Valid(s)
    ensures Valid(Run(s, events))
    decreases |events|
  {
    if events == [] {
    } else {
      StepKeepsValid(s, events[0]);
      RunKeepsValid(Step(s, events[0]), events[1..]);
    }
  }

  /** No request in the run changes the interval. */
  predicate Undisturbed(s: Schedule, events: seq<Event>)
    decreases |events|
  {
    events == [] ||
    ((events[0].Ask? ==> Step(s, events[0]) == s) && Undisturbed(Step(s, events[0]), events[1..]))
  }

  /** Accepted completions of the outstanding token, in time. */
  function AcceptedCount(s: Schedule, events: seq<Event>): nat
    decreases |events|
  {
    if events == [] then 0
    else (if events[0].Complete? && events[0].accepted && Honours(s, events[0].token, events[0].at) then 1 else 0) +
         AcceptedCount(Step(s, events[0]), events[1..])
  }

  /** After a slow-down the longer period takes effect exactly at the ninth accepted,
      timely completion, not one earlier and not one later. */
  lemma {:induction false} SlowdownIsCounted(s: Schedule, events: seq<Event>)
    requires Valid(s) && Undisturbed(s, events)
    ensures var after, count := Run(s, events).interval, AcceptedCount(s, events);
      && after.logInterval == s.interval.logInterval
      && after.slowdown == Max(0, s.interval.slowdown - count)
      && Period(after) == (if count < s.interval.slowdown then s.interval.oldUs
                           else if s.interval.logInterval == STOPPED then 0 else IntervalUs(s.interval.logInterval))
    decreases |events|
  {
    if events == [] {
    } else {
      StepKeepsValid(s, events[0]);
      SlowdownIsCounted(Step(s, events[0]), events[1..]);
    }
  }

  /** Tokens the run honours, in order. */
  function HonouredTokens(s: Schedule, events: seq<Event>): seq<uint32>
    decreases |events|
  {
    if events == [] then []
    else (if events[0].Complete? && Honours(s, events[0].token, events[0].at) then [events[0].token] else []) +
         HonouredTokens(Step(s, events[0]), events[1..])
  }

  predicate StrictlyIncreasing(xs: seq<uint32>) {
    forall i, j :: 0 <= i < j < |xs| ==> xs[i] < xs[j]
  }

  /** While the serial does not wrap, every token is honoured at most once, and one
      honoured after a request was issued after it: a request leaves nothing pending. */
  lemma {:induction false} HonouredOnce(s: Schedule, events: seq<Event>)
    requires Valid(s) && s.serial + |events| <= UINT32_MAX
    ensures var tokens := HonouredTokens(s, events);
      && StrictlyIncreasing(tokens)
      && (forall i :: 0 <= i < |tokens| ==> s.serial < tokens[i] || (s.pending == s.serial == tokens[i]))
    decreases |events|
  {
    if events == [] {
    } else {
      StepKeepsValid(s, events[0]);
      HonouredOnce(Step(s, events[0]), events[1..]);
    }
  }

  // ---- Deadline grid ---------------------------------------------------------------

  /** The instants at which the run issues tokens. */
  function IssueTimes(s: Schedule, events: seq<Event>): seq<int>
    decreases |events|
  {
    if events == [] then []
    else (if events[0].Poll? && Issues(s, events[0].enabled, events[0].at) then [events[0].at] else []) +
         IssueTimes(Step(s, events[0]), events[1..])
  }

  predicate AlwaysEnabled(events: seq<Event>) {
    forall i :: 0 <= i < |events| ==> events[i].Poll? ==> events[i].enabled
  }

  lemma {:induction false} SpacedFrom(s: Schedule, events: seq<Event>, base: int, period: int, k: nat)
    requires Valid(s) && Undisturbed(s, events) && AlwaysEnabled(events)
    requires s.active && 0 < period <= Period(s.interval)
    requires base <= s.nextUs && base <= s.queuedUs + period
    requires k < |IssueTimes(s, events)|
    ensures IssueTimes(s, events)[k] >= base + k * period
    decreases |events|
  {
    var next, rest := Step(s, events[0]), events[1..];
    assert AlwaysEnabled(rest) by {
      forall i | 0 <= i < |rest| ensures rest[i].Poll? ==> rest[i].enabled { assert rest[i] == events[i + 1]; }
    }
    assert events[0].Poll? ==> events[0].enabled;
    StepKeepsValid(s, events[0]);
    if events[0].Poll? && Issues(s, true, events[0].at) {
      if k > 0 {
        SpacedFrom(next, rest, base + period, period, k - 1);
        assert base + period + (k - 1) * period == base + k * period;
      }
    } else {
      SpacedFrom(next, rest, base, period, k);
    }
  }

  /** Within one activation the k-th further token is never issued earlier than k
      starting periods after the first, even across the slow-down re-anchor. */
  lemma NeverEarly(s: Schedule, first: int, events: seq<Event>, k: nat)
    requires Valid(s) && !s.active && Issues(s, true, first)
    requires var started := Begin(s, true, first);
      Undisturbed(started, events) && AlwaysEnabled(events) && k < |IssueTimes(started, events)|
    ensures IssueTimes(Begin(s, true, first), events)[k] >= first + (k + 1) * Period(s.interval)
  {
    var period := Period(s.interval);
    StepKeepsValid(s, Poll(true, first));
    SpacedFrom(Begin(s, true, first), events, first + period, period, k);
    assert first + period + k * period == first + (k + 1) * period;
  }

  /** Every issuing poll is less than one period late. */
  predicate PromptPolls(s: Schedule, events: seq<Event>)
    decreases |events|
  {
    events == [] ||
    ((events[0].Poll? && Issues(s, events[0].enabled, events[0].at) ==> events[0].at - s.nextUs < Period(s.interval)) &&
     PromptPolls(Step(s, events[0]), events[1..]))
  }

  /** With prompt polls and a constant period the deadlines stay exactly on the grid of
      the first one: lateness does not accumulate. */
  lemma {:induction false} StaysOnGrid(s: Schedule, events: seq<Event>)
    requires Valid(s) && s.active && Undisturbed(s, events) && AlwaysEnabled(events) && PromptPolls(s, events)
    requires s.interval.slowdown == 0 || AcceptedCount(s, events) < s.interval.slowdown
    ensures Run(s, events).nextUs == s.nextUs + |IssueTimes(s, events)| * Period(s.interval)
    ensures Period(Run(s, events).interval) == Period(s.interval)
    decreases |events|
  {
    if events == [] {
    } else {
      var next, rest := Step(s, events[0]), events[1..];
      assert AlwaysEnabled(rest) by {
        forall i | 0 <= i < |rest| ensures rest[i].Poll? ==> rest[i].enabled { assert rest[i] == events[i + 1]; }
      }
      assert events[0].Poll? ==> events[0].enabled;
      StepKeepsValid(s, events[0]);
      StaysOnGrid(next, rest);
      var n, period := |IssueTimes(next, rest)|, Period(s.interval);
      assert Period(next.interval) == period;
      assert (n + 1) * period == period + n * period;
    }
  }

  /** The daemon's sleep ends at the deadline, late by less than a millisecond, unless
      the caller's own maximum is shorter. */
  lemma WakesAtDeadline(s: Schedule, now: int, maximum: int)
    requires maximum > 0 && now >= 0 && Period(s.interval) != 0 && s.active && s.nextUs > now
    ensures var wait := WaitMs(s, now, maximum);
      0 < wait <= maximum && (wait < maximum ==> s.nextUs <= now + 1000 * wait < s.nextUs + 1000)
  {
  }

  /** From a slow-down request on, the old period holds for exactly eight accepted, timely
      completions, and the requested one from the ninth. Asking again for the interval
      already asked for does not start over. */
  lemma SlowdownFromRequest(s: Schedule, request: int8, events: seq<Event>)
    requires Valid(s) && request != -128 && -3 <= Normalize(request) <= 24
    requires 0 < Period(s.interval) < IntervalUs(Normalize(request))
    requires Undisturbed(Request(s, request), events)
    ensures Normalize(request) == s.interval.logInterval ==> Request(s, request) == s
    ensures Normalize(request) != s.interval.logInterval ==>
      var asked := Request(s, request);
      Period(Run(asked, events).interval) ==
        if AcceptedCount(asked, events) < 9 then Period(s.interval) else IntervalUs(Normalize(request))
  {
    StepKeepsValid(s, Ask(request));
    SlowdownIsCounted(Request(s, request), events);
  }

  /** A faster rate, a restart and a stop take effect at once; 126 asks for one second, and
      a rate beyond the fastest for the fastest, eight in a second. */
  lemma OtherRequestsActAtOnce(s: Schedule, request: int8)
    requires Valid(s)
    ensures request == 126 ==> Request(s, 126) == Request(s, 0)
    ensures -24 <= request <= -3 ==> Request(s, request) == Request(s, -3) && IntervalUs(-3) == 125_000
    ensures request == 127 ==> Period(Request(s, 127).interval) == 0
    ensures -3 <= request <= 24 && (Period(s.interval) == 0 || IntervalUs(request) <= Period(s.interval)) ==>
      Period(Request(s, request).interval) == IntervalUs(request)
    ensures request < -24 || 24 < request < 126 ==> Request(s, request) == s
  {
    assert Pow2(1) == 2 && Pow2(2) == 4 && Pow2(3) == 8;
  }

  // ---- Exactly when, and with what ---------------------------------------------------------

  /** A poll of a running, enabled schedule whose next deadline fits the clock issues a token
      if and only if none is outstanding, or the outstanding one is a second old, and the
      deadline has come or there is none. Any other poll of an enabled schedule issues none. */
  lemma PollExactly(s: Schedule, now: int)
    requires Valid(s)
    ensures var p := Period(s.interval);
      if p > 0 && 0 <= now && now + p <= INT64_MAX
      then Issues(s, true, now) <==>
             (s.pending == 0 || now >= s.queuedUs + 1_000_000) && (!s.active || now >= s.nextUs)
      else !Issues(s, true, now) && Begin(s, true, now) == s
    ensures !Issues(s, false, now) && Begin(s, false, now) == s.(pending := 0, active := false)
  {
  }

  /** What is issued: the next serial and sequence number, the interval in force, and a next
      deadline that lies ahead, on the grid unless a whole period was missed. */
  lemma IssuedExactly(s: Schedule, now: int)
    requires Valid(s) && Issues(s, true, now)
    ensures var t, p := Begin(s, true, now), Period(s.interval);
      && t.pending == t.serial == Next32(s.serial)
      && t.sequence == (if s.sequence % 65536 == 65535 then 0 else s.sequence % 65536 + 1)
      && t.interval == s.interval && t.advertised == s.interval.logInterval && t.active && t.queuedUs == now
      && now < t.nextUs <= now + p
      && (s.active && now < s.nextUs + p ==> t.nextUs == s.nextUs + p)
      && (!s.active || now >= s.nextUs + p ==> t.nextUs == now + p)
  {
  }

  /** A completion counts for the outstanding token within a second of its issue, and for no
      other; it settles that token whether it counts or not, and touches nothing else unless
      it is the last of a slow-down, which starts the new period then. */
  lemma CompletedExactly(s: Schedule, token: uint32, accepted: bool, now: int)
    requires Valid(s)
    ensures Honours(s, token, now) <==> 0 < token == s.pending && s.queuedUs <= now < s.queuedUs + 1_000_000
    ensures var t := Finish(s, token, accepted, now);
      if token == 0 || token != s.pending then t == s
      else if accepted && s.queuedUs <= now < s.queuedUs + 1_000_000 && s.interval.slowdown > 0 then
        && t.pending == 0 && t.interval == s.interval.(slowdown := s.interval.slowdown - 1)
        && t.(pending := s.pending, interval := s.interval, nextUs := s.nextUs) == s
        && (s.interval.slowdown > 1 ==> t.nextUs == s.nextUs)
        && (s.interval.slowdown == 1 ==>
              var p := IntervalUs(s.interval.logInterval);
              t.nextUs == if now + p <= INT64_MAX then now + p else s.nextUs)
      else t == s.(pending := 0)
  {
  }

  /** A request that changes the interval withdraws the outstanding token, and the next
      enabled poll of the new rate issues at once. */
  lemma RequestRestarts(s: Schedule, request: int8, now: int)
    requires Valid(s) && Request(s, request) != s
    ensures var t := Request(s, request);
      && t.pending == 0 && !t.active && t.serial == s.serial && t.sequence == s.sequence
      && t.interval.logInterval == Normalize(request)
      && (Period(t.interval) > 0 && 0 <= now && now + Period(t.interval) <= INT64_MAX ==> Issues(t, true, now))
      && forall token, at :: !Honours(t, token, at)
  {
  }

  /** The rates that are served: 2^-24 to 2^24 seconds, and the three special requests. */
  lemma SupportedExactly(request: int8)
    ensures Supported(request) <==> -24 <= request <= 24 || request == -128 || request == 126 || request == 127
  {
  }

  /** Serial and sequence numbers count the tokens issued. */
  lemma {:induction false} NumbersCountTokens(s: Schedule, events: seq<Event>)
    requires Valid(s) && s.serial + |events| <= UINT32_MAX
    ensures var t, n := Run(s, events), |IssueTimes(s, events)|;
      t.serial == s.serial + n && t.sequence % 65536 == (s.sequence + n) % 65536
    decreases |events|
  {
    if events == [] {
    } else {
      var e := events[0];
      StepKeepsValid(s, e);
      StepNumbers(s, e);
      NumbersCountTokens(Step(s, e), events[1..]);
      var k, n := if e.Poll? && Issues(s, e.enabled, e.at) then 1 else 0, |IssueTimes(Step(s, e), events[1..])|;
      assert |IssueTimes(s, events)| == k + n;
      SameRemainder(Step(s, e).sequence, s.sequence + k, n);
    }
  }

  lemma StepNumbers(s: Schedule, e: Event)
    requires Valid(s) && s.serial < UINT32_MAX
    ensures var t, n := Step(s, e), if e.Poll? && Issues(s, e.enabled, e.at) then 1 else 0;
      t.serial == s.serial + n && t.sequence % 65536 == (s.sequence + n) % 65536
  {
  }

  lemma SameRemainder(x: nat, y: nat, n: nat)
    requires x % 65536 == y % 65536
    ensures (x + n) % 65536 == (y + n) % 65536
  {
  }

  /** No deadline ever lies beyond the 64-bit clock. */
  lemma {:induction false} DeadlinesFit(s: Schedule, events: seq<Event>)
    requires Valid(s) && s.nextUs <= INT64_MAX
    ensures Run(s, events).nextUs <= INT64_MAX
    decreases |events|
  {
    if events == [] {
    } else {
      StepKeepsValid(s, events[0]);
      DeadlinesFit(Step(s, events[0]), events[1..]);
    }
  }

  /** How long the daemon sleeps: to the deadline, rounded up to a millisecond; not at all
      when it has come, but 10 ms while a recent token is still outstanding; and never longer
      than it was going to anyway, which is what it does when there is nothing to wait for. */
  lemma WaitExactly(s: Schedule, now: int, maximum: int)
    ensures var w := WaitMs(s, now, maximum);
      if maximum <= 0 || now < 0 || Period(s.interval) == 0 then w == maximum
      else if s.active && now < s.nextUs then
        0 < w <= maximum && 1000 * (w - 1) < s.nextUs - now && (w < maximum ==> s.nextUs - now <= 1000 * w)
      else if s.pending != 0 && s.queuedUs <= now < s.queuedUs + 1_000_000 then
        w == if maximum < 10 then maximum else 10
      else w == 0
  {
  }
}
