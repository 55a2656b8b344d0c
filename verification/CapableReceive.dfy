/** The capability receipt timer, and what it and the sender's schedule guarantee
    together: on a punctual sender eight more messages always precede the timeout. */
module CapableReceive {
  import opened Arith
  import opened CapableSchedule

  /** A port identity: eight bytes of clock identity and a two-byte port number. */
  type PortId = p: seq<byte> | |p| == 10 witness ZERO_PORT

  const ZERO_PORT: seq<byte> := [0, 0, 0, 0, 0, 0, 0, 0, 0, 0]

  datatype Message = Message(sourcePort: PortId, logInterval: int8)

  datatype Receipt = Receipt(message: Message, lifecycle: uint32, receivedUs: int, expiresUs: int, valid: bool)

  /** How long an indication with this advertised interval holds. */
  function Window(log: int): (us: int)
    requires -24 <= log <= 24
    ensures us >= 1
  {
    if log >= 0 then 9_000_000 * Pow2(log)
    else
      var divisor := Pow2(-log);
      Ceiling(9_000_000, divisor);
      (9_000_000 + divisor - 1) / divisor
  }

  predicate Admits(message: Message, neighbor: PortId, now: int) {
    && message.sourcePort == neighbor && -24 <= message.logInterval <= 24
    && 0 <= now <= INT64_MAX - Window(message.logInterval)
  }

  class CapableReceipt {
    var message: Message
    var lifecycle: uint32
    var receivedUs: int
    var expiresUs: int
    var valid: bool

    function Value(): Receipt
      reads this
    {
      Receipt(message, lifecycle, receivedUs, expiresUs, valid)
    }

    /** Overwrites the receipt state, or leaves it alone. */
    method Receive(incoming: Message, neighbor: PortId, cycle: uint32, now: int) returns (ok: bool)
      modifies this
      ensures ok <==> Admits(incoming, neighbor, now)
      ensures Value() == if ok then Received(incoming, cycle, now) else old(Value())
    {
      if incoming.sourcePort != neighbor || incoming.logInterval < -24 || incoming.logInterval > 24 || now < 0 {
        return false;
      }
      var interval := 9_000_000;
      if incoming.logInterval >= 0 {
        interval := interval * Pow2(incoming.logInterval);
      } else {
        var divisor := Pow2(-incoming.logInterval);
        interval := (interval + divisor - 1) / divisor;
      }
      if now > INT64_MAX - interval { return false; }
      message, lifecycle, receivedUs, expiresUs, valid := incoming, cycle, now, now + interval, true;
      return true;
    }
  }

  function Received(message: Message, lifecycle: uint32, now: int): Receipt
    requires -24 <= message.logInterval <= 24
  {
    Receipt(message, lifecycle, now, now + Window(message.logInterval), true)
  }

  predicate NeighborCapable(r: Receipt, neighbor: PortId, lifecycle: uint32, now: int) {
    r.valid && r.lifecycle == lifecycle && r.message.sourcePort == neighbor && r.receivedUs <= now < r.expiresUs
  }

  // ---- Sender and receiver together ------------------------------------------------

  /** The deadline of the next token: moved by an issue or a re-anchor, kept by a
      request, after which the daemon polls at once. */
  function DueAfterStep(s: Schedule, due: int, e: Event): int {
    var next := Step(s, e);
    if next.active then next.nextUs else due
  }

  /** A punctual run: every poll comes no later than the deadline, every token is
      completed before it, nothing stops the sender, and the 64-bit clock has room. */
  predicate OnTime(s: Schedule, due: int, events: seq<Event>)
    decreases |events|
  {
    events == [] ||
    (Prompt(s, due, events[0]) && OnTime(Step(s, events[0]), DueAfterStep(s, due, events[0]), events[1..]))
  }

  predicate Prompt(s: Schedule, due: int, e: Event) {
    match e
    case Poll(enabled, at) => enabled && at <= due && CanPoll(s, at) && (Due(s, at) ==> s.pending == 0)
    case Complete(_, _, at) => at < due && at <= INT64_MAX - IntervalUs(24)
    case Ask(request) => Normalize(request) != STOPPED
  }

  function DueAfter(s: Schedule, due: int, events: seq<Event>): int
    decreases |events|
  {
    if events == [] then due else DueAfter(Step(s, events[0]), DueAfterStep(s, due, events[0]), events[1..])
  }

  /** n tokens after the indication, the state cannot miss its timeout. Before a
      re-anchor token n+1 is due within n+1 advertised periods; the one re-anchor that
      can fall before the eighth token adds less than one period. A request made since
      the indication cannot lengthen the period before nine tokens have gone out. */
  ghost predicate Punctual(s: Schedule, due: int, sent: int, period: int, n: nat, asked: bool, stretched: bool) {
    && Valid(s) && s.interval.logInterval != STOPPED && 0 < Period(s.interval) <= period && n <= 7
    && (if stretched then due < sent + (n + 2) * period else due <= sent + (n + 1) * period)
    && (s.active ==> due == s.nextUs)
    && (!asked ==> IntervalUs(s.interval.logInterval) == period)
    && (s.interval.slowdown > 0 ==>
          if asked then n + s.interval.slowdown >= 9 + (if s.pending != 0 then 1 else 0) else !stretched)
  }

  lemma IntervalGrows(log: int)
    requires -3 <= log <= 24
    ensures IntervalUs(log) <= IntervalUs(24)
    decreases 24 - log
  {
    if log < 24 {
      IntervalGrows(log + 1);
      assert Pow2(1) == 2 && Pow2(2) == 4 && Pow2(3) == 8;
    }
  }

  /** Each step of a punctual run keeps the state punctual; only a poll that is due
      sends a token, and only a completion re-anchors. */
  lemma PunctualPoll(s: Schedule, due: int, at: int, sent: int, period: int, n: nat, asked: bool, stretched: bool)
    requires Punctual(s, due, sent, period, n, asked, stretched)
    requires at <= due && CanPoll(s, at) && (Due(s, at) ==> s.pending == 0)
    ensures Due(s, at) <==> Issues(s, true, at)
    ensures var next, newDue := Begin(s, true, at), DueAfterStep(s, due, Poll(true, at));
      if Due(s, at) then n < 7 ==> Punctual(next, newDue, sent, period, n + 1, asked, stretched)
      else Punctual(next, newDue, sent, period, n, asked, stretched)
  {
    Scale(n, period);
    if n < 7 { Scale(n + 1, period); }
    StepKeepsValid(s, Poll(true, at));
  }

  lemma PunctualComplete(s: Schedule, due: int, token: uint32, accepted: bool, at: int,
                         sent: int, period: int, n: nat, asked: bool, stretched: bool)
    requires Punctual(s, due, sent, period, n, asked, stretched)
    requires at < due && at <= INT64_MAX - IntervalUs(24)
    ensures var next := Finish(s, token, accepted, at);
      Punctual(next, DueAfterStep(s, due, Complete(token, accepted, at)), sent, period, n, asked,
               stretched || Period(next.interval) != Period(s.interval))
  {
    Scale(n, period);
    IntervalGrows(s.interval.logInterval);
    StepKeepsValid(s, Complete(token, accepted, at));
  }

  lemma PunctualAsk(s: Schedule, due: int, request: int8, sent: int, period: int, n: nat, asked: bool, stretched: bool)
    requires Punctual(s, due, sent, period, n, asked, stretched) && Normalize(request) != STOPPED
    ensures Punctual(Request(s, request), DueAfterStep(s, due, Ask(request)), sent, period, n,
                     asked || Request(s, request) != s, stretched)
  {
    StepKeepsValid(s, Ask(request));
  }

  /** The eighth token is among the times and early enough, or the next one will be. */
  ghost predicate InTime(times: seq<int>, due: int, n: nat, limit: int) {
    n <= 7 && if n + |times| >= 8 then times[7 - n] < limit else due < limit
  }

  lemma OneMore(at: int, times: seq<int>, due: int, n: nat, limit: int)
    requires at < limit && n <= 7
    requires n < 7 ==> InTime(times, due, n + 1, limit)
    ensures InTime([at] + times, due, n, limit)
  {
    assert n < 7 && n + 1 + |times| >= 8 ==> ([at] + times)[7 - n] == times[6 - n];
  }

  predicate Sends(s: Schedule, e: Event) { e.Poll? && Issues(s, e.enabled, e.at) }

  /** Only a poll sends, by the deadline; only a request or a re-anchor is held against it. */
  lemma PunctualStep(s: Schedule, due: int, e: Event, sent: int, period: int, n: nat, asked: bool, stretched: bool)
    requires Punctual(s, due, sent, period, n, asked, stretched) && Prompt(s, due, e)
    ensures Sends(s, e) ==> e.at <= due
    ensures var next := Step(s, e);
      !Sends(s, e) || n < 7 ==>
        Punctual(next, DueAfterStep(s, due, e), sent, period, if Sends(s, e) then n + 1 else n,
                 asked || (e.Ask? && next != s),
                 stretched || (e.Complete? && Period(next.interval) != Period(s.interval)))
  {
    match e {
      case Poll(_, at) => PunctualPoll(s, due, at, sent, period, n, asked, stretched);
      case Complete(token, accepted, at) =>
        PunctualComplete(s, due, token, accepted, at, sent, period, n, asked, stretched);
      case Ask(request) => PunctualAsk(s, due, request, sent, period, n, asked, stretched);
    }
  }

  lemma {:induction false} PunctualRun(s: Schedule, due: int, events: seq<Event>, sent: int, period: int,
                                       n: nat, asked: bool, stretched: bool)
    requires Punctual(s, due, sent, period, n, asked, stretched) && OnTime(s, due, events)
    ensures InTime(IssueTimes(s, events), DueAfter(s, due, events), n, sent + 9 * period)
    decreases |events|
  {
    Scale(n, period);
    if events == [] {
    } else {
      var e, rest := events[0], events[1..];
      var next, newDue := Step(s, e), DueAfterStep(s, due, e);
      var sends := Sends(s, e);
      PunctualStep(s, due, e, sent, period, n, asked, stretched);
      if !sends || n < 7 {
        PunctualRun(next, newDue, rest, sent, period, if sends then n + 1 else n, asked || (e.Ask? && next != s),
                    stretched || (e.Complete? && Period(next.interval) != Period(s.interval)));
      }
      if sends {
        OneMore(e.at, IssueTimes(next, rest), DueAfter(next, newDue, rest), n, sent + 9 * period);
      } else {
        assert IssueTimes(s, events) == IssueTimes(next, rest);
      }
    }
  }

  lemma Scale(n: nat, period: int)
    requires period > 0 && n <= 7
    ensures (n + 2) * period == (n + 1) * period + period
    ensures (n + 1) * period <= 8 * period && (n + 2) * period <= 9 * period
  {
  }

  lemma WindowIsNinePeriods(log: int)
    requires -3 <= log <= 24
    ensures Window(log) == 9 * IntervalUs(log)
  {
    assert Pow2(1) == 2 && Pow2(2) == 4 && Pow2(3) == 8;
    assert log == -3 || log == -2 || log == -1 || log >= 0;
  }

  /** Exactly the neighbor's own messages are taken, with an interval from 2^-24 to 2^24
      seconds, at a time that is not negative and leaves the expiry within 64 bits. */
  lemma AdmittedExactly(m: Message, neighbor: PortId, lifecycle: uint32, now: int)
    ensures Admits(m, neighbor, now) <==>
      && m.sourcePort == neighbor && -24 <= m.logInterval <= 24
      && 0 <= now && Received(m, lifecycle, now).expiresUs <= INT64_MAX
  {
  }

  /** The receipt timer, in the sender's periods: it holds for exactly nine of them from the
      receipt on, for that neighbor in that lifecycle and nobody else. */
  lemma HoldsForNinePeriods(m: Message, lifecycle: uint32, received: int, neighbor: PortId, cycle: uint32, now: int)
    requires -3 <= m.logInterval <= 24
    ensures NeighborCapable(Received(m, lifecycle, received), neighbor, cycle, now) <==>
      neighbor == m.sourcePort && cycle == lifecycle && received <= now < received + 9 * IntervalUs(m.logInterval)
  {
    WindowIsNinePeriods(m.logInterval);
  }

  /** For every interval a message can advertise, in seconds: while the elapsed time is less
      than nine intervals of 2^log seconds. */
  lemma HoldsForNineIntervals(m: Message, lifecycle: uint32, received: int, now: int)
    requires -24 <= m.logInterval <= 24
    ensures NeighborCapable(Received(m, lifecycle, received), m.sourcePort, lifecycle, now) <==>
      received <= now &&
      if m.logInterval >= 0 then now - received < 9_000_000 * Pow2(m.logInterval)
      else (now - received) * Pow2(-m.logInterval) < 9_000_000
  {
    if m.logInterval < 0 && received <= now {
      BelowCeiling(now - received, 9_000_000, Pow2(-m.logInterval));
    }
  }

  lemma BelowCeiling(x: nat, n: nat, d: int)
    requires d > 0
    ensures x < (n + d - 1) / d <==> x * d < n
  {
    var q := (n + d - 1) / d;
    Ceiling(n, d);
    StrictlyBelow(d, x, q);
    StrictlyBelow(d, q - 1, x);
    Difference(d, q, 1);
    assert x * d == d * x;
  }

  /** The two-party guarantee. A token is issued at `sent` and its indication delivered
      at `delivered`; whatever punctual run of polls, completions and requests follows,
      the eighth further token is issued strictly before the receipt timeout, or, if the
      run ends earlier, the next one is still due before it. Until then the receiver
      holds the sender capable. */
  lemma EightMoreBeforeTimeout(s: Schedule, sent: int, events: seq<Event>, neighbor: PortId, lifecycle: uint32,
                               delivered: int)
    requires Valid(s) && Issues(s, true, sent) && sent <= delivered
    requires OnTime(Begin(s, true, sent), Begin(s, true, sent).nextUs, events)
    ensures -24 <= s.interval.logInterval <= 24
    ensures var issued := Begin(s, true, sent);
      var times := IssueTimes(issued, events);
      var receipt := Received(Message(neighbor, issued.advertised), lifecycle, delivered);
      var last := if |times| >= 8 then times[7] else DueAfter(issued, issued.nextUs, events);
      && last < receipt.expiresUs
      && forall now :: delivered <= now <= last ==> NeighborCapable(receipt, neighbor, lifecycle, now)
  {
    var issued := Begin(s, true, sent);
    var log := s.interval.logInterval;
    StepKeepsValid(s, Poll(true, sent));
    WindowIsNinePeriods(log);
    var period := IntervalUs(log);
    assert (0 + 1) * period == period;
    PunctualRun(issued, issued.nextUs, events, sent, period, 0, false, false);
  }
}
