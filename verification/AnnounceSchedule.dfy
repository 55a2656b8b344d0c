/** Announce transmission of one association: base rate and slower, a three-message
    slow-down, and revisions that retire work copied before an interval change. */
module AnnounceSchedule {
  import opened Arith
  import CapableSchedule

  const SLOWDOWN_MESSAGES: nat := 3
  const STOPPED: int := 127
  const AGE_LIMIT: int := 1_000_000

  function PeriodUs(log: int): (us: int)
    ensures us > 0 <==> -24 <= log <= 24
    ensures us >= 0
  {
    if log < -24 || log > 24 then 0
    else if log >= 0 then 1_000_000 * CapableSchedule.Pow2(log)
    else
      var divisor := CapableSchedule.Pow2(-log);
      Ceiling(1_000_000, divisor);
      (1_000_000 + divisor - 1) / divisor
  }

  datatype Announce = Announce(initialized: bool, active: bool, initialLog: int8, logInterval: int8, pendingLog: int8,
                               slowdown: nat, sequence: nat, revision: uint32, serial: uint32, pending: uint32,
                               informationRevision: uint32, oldPeriodUs: int, nextUs: int, queuedUs: int)

  const ZERO := Announce(false, false, 0, 0, 0, 0, 0, 0, 0, 0, 0, 0, 0, 0)

  /** A new revision: whatever was copied out before is stale, while serial and sequence run on. */
  function Reset(s: Announce): Announce {
    ZERO.(revision := Next32(s.revision), serial := s.serial, sequence := s.sequence)
  }

  predicate CanInitialize(s: Announce, initial: int8) {
    PeriodUs(initial) > 0 && (s.initialized ==> s.initialLog == initial)
  }

  function Initialize(s: Announce, initial: int8): Announce {
    if s.initialized then s else s.(initialized := true, initialLog := initial, logInterval := initial)
  }

  function Period(s: Announce): int {
    if s.logInterval == STOPPED then 0
    else if s.slowdown > 0 then s.oldPeriodUs
    else PeriodUs(s.logInterval)
  }

  predicate Supported(request: int8) {
    request == -128 || request == 126 || request == STOPPED || -24 <= request <= 24
  }

  function Normalize(request: int8, initial: int8): int8 {
    if request == 126 || (request != STOPPED && request < initial) then initial else request
  }

  predicate Accepts(s: Announce, initial: int8, request: int8) {
    Supported(request) && CanInitialize(s, initial)
  }

  function Request(s: Announce, initial: int8, request: int8): Announce {
    if !Accepts(s, initial, request) then s
    else
      var ready, wanted := Initialize(s, initial), Normalize(request, initial);
      if request == -128 || wanted == ready.logInterval then ready
      else
        var previous, next := Period(ready), PeriodUs(wanted);
        ready.(logInterval := wanted, oldPeriodUs := previous,
               slowdown := if previous != 0 && next > previous then SLOWDOWN_MESSAGES else 0,
               pending := 0, active := false, revision := Next32(ready.revision))
  }

  predicate CanPoll(s: Announce, initial: int8, expected: uint32, now: int) {
    && s.revision == expected && CanInitialize(s, initial)
    && var period := Period(Initialize(s, initial)); period != 0 && 0 <= now <= INT64_MAX - period
  }

  /** New information restarts the schedule. */
  function Refresh(s: Announce, information: uint32): Announce {
    if s.informationRevision == information then s
    else s.(informationRevision := information, pending := 0, active := false)
  }

  /** The state in which an admissible poll decides. */
  function Prepared(s: Announce, initial: int8, information: uint32): Announce {
    Refresh(Initialize(s, initial), information)
  }

  predicate Blocked(s: Announce, now: int) {
    s.pending != 0 && (now < s.queuedUs || now - s.queuedUs < AGE_LIMIT)
  }

  predicate Due(s: Announce, now: int) { !s.active || now >= s.nextUs }

  predicate Issues(s: Announce, initial: int8, expected: uint32, information: uint32, now: int) {
    var ready := Prepared(s, initial, information);
    CanPoll(s, initial, expected, now) && !Blocked(ready, now) && Due(ready, now)
  }

  function NextDeadline(s: Announce, now: int): int {
    if !s.active || now - s.nextUs >= Period(s) then now + Period(s) else s.nextUs + Period(s)
  }

  function Begin(s: Announce, initial: int8, expected: uint32, information: uint32, now: int): Announce {
    if s.revision != expected || !CanInitialize(s, initial) then s
    else if !CanPoll(s, initial, expected, now) then Initialize(s, initial)
    else
      var ready := Prepared(s, initial, information);
      if Blocked(ready, now) then ready
      else if !Due(ready, now) then ready.(pending := 0)
      else ready.(nextUs := NextDeadline(ready, now), active := true, queuedUs := now,
                  serial := Next32(ready.serial), pending := Next32(ready.serial),
                  pendingLog := ready.logInterval, sequence := (ready.sequence + 1) % 65536)
  }

  predicate Honours(s: Announce, token: uint32, now: int) {
    token != 0 && token == s.pending && 0 <= now - s.queuedUs < AGE_LIMIT
  }

  predicate Counts(s: Announce, accepted: bool) {
    accepted && s.pendingLog == s.logInterval && s.slowdown > 0
  }

  function Finish(s: Announce, token: uint32, accepted: bool, now: int): Announce {
    if token == 0 || token != s.pending then s
    else if !Honours(s, token, now) || !Counts(s, accepted) then s.(pending := 0)
    else
      var period := PeriodUs(s.logInterval);
      s.(pending := 0, slowdown := s.slowdown - 1,
         nextUs := if s.slowdown == 1 && now <= INT64_MAX - period then now + period else s.nextUs)
  }

  class AnnounceTransmit {
    var initialized: bool
    var active: bool
    var initialLog: int8
    var logInterval: int8
    var pendingLog: int8
    var slowdown: nat
    var sequence: nat
    var revision: uint32
    var serial: uint32
    var pending: uint32
    var informationRevision: uint32
    var oldPeriodUs: int
    var nextUs: int
    var queuedUs: int

    function Value(): Announce
      reads this
    {
      Announce(initialized, active, initialLog, logInterval, pendingLog, slowdown, sequence, revision, serial,
               pending, informationRevision, oldPeriodUs, nextUs, queuedUs)
    }

    constructor ()
      ensures Value() == ZERO
    {
      initialized, active, initialLog, logInterval, pendingLog, slowdown, sequence := false, false, 0, 0, 0, 0, 0;
      revision, serial, pending, informationRevision, oldPeriodUs, nextUs, queuedUs := 0, 0, 0, 0, 0, 0, 0;
    }

    method Retire()
      modifies this
      ensures Value() == Reset(old(Value()))
    {
      revision := Next32(revision);
      ForgetRate();
      ForgetWork();
    }

    method ForgetRate()
      modifies this`initialized, this`initialLog, this`logInterval, this`slowdown, this`oldPeriodUs
      ensures !initialized && initialLog == 0 && logInterval == 0 && slowdown == 0 && oldPeriodUs == 0
    {
      initialized := false;
      initialLog := 0;
      logInterval := 0;
      slowdown := 0;
      oldPeriodUs := 0;
    }

    method ForgetWork()
      modifies this`active, this`pendingLog, this`pending, this`informationRevision, this`nextUs, this`queuedUs
      ensures !active && pendingLog == 0 && pending == 0 && informationRevision == 0 && nextUs == 0 && queuedUs == 0
    {
      active := false;
      pendingLog := 0;
      pending := 0;
      informationRevision := 0;
      nextUs := 0;
      queuedUs := 0;
    }

    method Prepare(initial: int8) returns (ok: bool)
      modifies this`initialized, this`initialLog, this`logInterval
      ensures ok == CanInitialize(old(Value()), initial)
      ensures Value() == if ok then Initialize(old(Value()), initial) else old(Value())
    {
      if PeriodUs(initial) == 0 { return false; }
      if initialized { return initialLog == initial; }
      initialized := true;
      initialLog := initial;
      logInterval := initial;
      return true;
    }

    method RequestRate(initial: int8, request: int8) returns (ok: bool)
      modifies this
      ensures ok == Accepts(old(Value()), initial, request)
      ensures Value() == Request(old(Value()), initial, request)
    {
      if request != -128 && request != 126 && request != STOPPED && (request < -24 || request > 24) { return false; }
      var ready := Prepare(initial);
      if !ready { return false; }
      if request == -128 { return true; }
      var wanted := request;
      if wanted == 126 { wanted := initial; }
      if wanted != STOPPED && wanted < initial { wanted := initial; }
      if wanted == logInterval { return true; }
      var previous, next := Period(Value()), PeriodUs(wanted);
      logInterval := wanted;
      oldPeriodUs := previous;
      slowdown := if previous != 0 && next > previous then SLOWDOWN_MESSAGES else 0;
      pending := 0;
      active := false;
      revision := Next32(revision);
      return true;
    }

    method Poll(initial: int8, expected: uint32, information: uint32, now: int)
      returns (token: uint32, advertised: int8, number: nat)
      modifies this
      ensures Value() == Begin(old(Value()), initial, expected, information, now)
      ensures token != 0 <==> Issues(old(Value()), initial, expected, information, now)
      ensures token != 0 ==> token == pending && advertised == logInterval && number == sequence
    {
      token, advertised, number := 0, 0, 0;
      if revision != expected { return; }
      var ready := Prepare(initial);
      if !ready { return; }
      var period := Period(Value());
      if period == 0 || now < 0 || now > INT64_MAX - period { return; }
      if informationRevision != information {
        informationRevision := information;
        pending := 0;
        active := false;
      }
      if pending != 0 {
        if now < queuedUs || now - queuedUs < AGE_LIMIT { return; }
        pending := 0;
      }
      if active && now < nextUs { return; }
      Issue(now, period);
      token := pending;
      advertised := logInterval;
      number := sequence;
    }

    /** Takes the next deadline, token and sequence number. */
    method Issue(now: int, period: int)
      modifies this`active, this`queuedUs, this`serial, this`pending, this`pendingLog, this`sequence, this`nextUs
      ensures nextUs == if !old(active) || now - old(nextUs) >= period then now + period else old(nextUs) + period
      ensures active && queuedUs == now && serial == pending == Next32(old(serial))
      ensures pendingLog == logInterval && sequence == (old(sequence) + 1) % 65536
    {
      if !active || now - nextUs >= period { nextUs := now + period; } else { nextUs := nextUs + period; }
      active := true;
      queuedUs := now;
      serial := Next32(serial);
      pending := serial;
      pendingLog := logInterval;
      sequence := (sequence + 1) % 65536;
    }

    method Complete(token: uint32, accepted: bool, now: int) returns (honoured: bool)
      modifies this
      ensures Value() == Finish(old(Value()), token, accepted, now)
      ensures honoured <==> Honours(old(Value()), token, now)
    {
      if token == 0 || token != pending { return false; }
      pending := 0;
      if now < queuedUs || now - queuedUs >= AGE_LIMIT { return false; }
      if accepted && pendingLog == logInterval && slowdown > 0 {
        slowdown := slowdown - 1;
        if slowdown == 0 {
          var period := PeriodUs(logInterval);
          if now <= INT64_MAX - period { nextUs := now + period; }
        }
      }
      return true;
    }
  }

  // ---- Invariant and runs ------------------------------------------------------------

  ghost predicate Valid(s: Announce) {
    && (s.initialized ==> PeriodUs(s.initialLog) > 0)
    && (s.initialized ==> s.logInterval == STOPPED || s.initialLog <= s.logInterval <= 24)
    && s.slowdown <= SLOWDOWN_MESSAGES
    && (s.slowdown > 0 ==> s.initialized && s.logInterval != STOPPED && 0 < s.oldPeriodUs < PeriodUs(s.logInterval))
    && (s.pending == 0 || (s.pending == s.serial && s.initialized && s.active && s.pendingLog == s.logInterval))
    && (s.active ==> s.initialized)
  }

  datatype Event =
    | Retire
    | Ask(initial: int8, request: int8)
    | Poll(initial: int8, expected: uint32, information: uint32, at: int)
    | Complete(token: uint32, accepted: bool, at: int)

  function Step(s: Announce, e: Event): Announce {
    match e
    case Retire => Reset(s)
    case Ask(initial, request) => Request(s, initial, request)
    case Poll(initial, expected, information, at) => Begin(s, initial, expected, information, at)
    case Complete(token, accepted, at) => Finish(s, token, accepted, at)
  }

  function Run(s: Announce, events: seq<Event>): Announce
    decreases |events|
  {
    if events == [] then s else Run(Step(s, events[0]), events[1..])
  }

  /** The period in force never exceeds the advertised one; among requests to a
      prepared schedule only a restart lengthens it at once. */
  lemma StepKeepsValid(s: Announce, e: Event)
    requires Valid(s)
    ensures Valid(Step(s, e))
    ensures s.initialized ==> Period(s) <= PeriodUs(s.logInterval)
    ensures e.Ask? && s.initialized ==>
      (Period(Step(s, e)) > Period(s) <==> s.logInterval == STOPPED && Step(s, e).logInterval != STOPPED)
  {
    match e {
      case Retire =>
      case Ask(initial, request) => RequestKeepsValid(s, initial, request);
      case Poll(initial, expected, information, at) => BeginKeepsValid(s, initial, expected, information, at);
      case Complete(token, accepted, at) => assert Valid(Finish(s, token, accepted, at));
    }
  }

  lemma RequestKeepsValid(s: Announce, initial: int8, request: int8)
    requires Valid(s)
    ensures Valid(Request(s, initial, request))
  {
  }

  lemma BeginKeepsValid(s: Announce, initial: int8, expected: uint32, information: uint32, at: int)
    requires Valid(s)
    ensures Valid(Begin(s, initial, expected, information, at))
  {
    assert CanInitialize(s, initial) ==> Valid(Initialize(s, initial)) && Valid(Prepared(s, initial, information));
  }

  /** What later steps can make of a schedule, while its counters do not wrap: numbers
      only grow, an equal revision means an equal interval, and a token issued earlier
      is outstanding only if nothing was revised since. */
  ghost predicate Succeeds(a: Announce, b: Announce) {
    && a.revision <= b.revision && a.serial <= b.serial
    && (a.revision == b.revision && a.initialized ==>
          b.initialized && b.initialLog == a.initialLog && b.logInterval == a.logInterval)
    && (0 < b.pending <= a.serial ==> b.pending == a.pending && b.revision == a.revision)
  }

  lemma StepSucceeds(s: Announce, e: Event)
    requires Valid(s) && s.revision < UINT32_MAX && s.serial < UINT32_MAX
    ensures Succeeds(s, Step(s, e))
    ensures Step(s, e).revision <= s.revision + 1 && Step(s, e).serial <= s.serial + 1
  {
  }

  lemma SucceedsIsTransitive(a: Announce, b: Announce, c: Announce)
    requires Succeeds(a, b) && Succeeds(b, c)
    ensures Succeeds(a, c)
  {
  }

  lemma {:induction false} RunSucceeds(s: Announce, events: seq<Event>)
    requires Valid(s) && s.revision + |events| <= UINT32_MAX && s.serial + |events| <= UINT32_MAX
    ensures Valid(Run(s, events)) && Succeeds(s, Run(s, events))
    decreases |events|
  {
    if events == [] {
    } else {
      StepKeepsValid(s, events[0]);
      StepSucceeds(s, events[0]);
      RunSucceeds(Step(s, events[0]), events[1..]);
      SucceedsIsTransitive(s, Step(s, events[0]), Run(s, events));
    }
  }

  /** Nothing in the run revises the schedule. */
  predicate Undisturbed(s: Announce, events: seq<Event>)
    decreases |events|
  {
    events == [] ||
    (!events[0].Retire? && (events[0].Ask? ==> Step(s, events[0]) == s) && Undisturbed(Step(s, events[0]), events[1..]))
  }

  function AcceptedCount(s: Announce, events: seq<Event>): nat
    decreases |events|
  {
    if events == [] then 0
    else (if events[0].Complete? && events[0].accepted && Honours(s, events[0].token, events[0].at) then 1 else 0) +
         AcceptedCount(Step(s, events[0]), events[1..])
  }

  /** The longer period takes effect exactly at the third accepted, timely completion. */
  lemma {:induction false} SlowdownIsCounted(s: Announce, events: seq<Event>)
    requires Valid(s) && s.initialized && Undisturbed(s, events)
    ensures var after, count := Run(s, events), AcceptedCount(s, events);
      && after.initialized && after.logInterval == s.logInterval && after.revision == s.revision
      && after.slowdown == Max(0, s.slowdown - count)
      && Period(after) == (if count < s.slowdown then s.oldPeriodUs
                           else if s.logInterval == STOPPED then 0 else PeriodUs(s.logInterval))
    decreases |events|
  {
    if events == [] {
    } else {
      StepKeepsValid(s, events[0]);
      StepCounts(s, events[0]);
      SlowdownIsCounted(Step(s, events[0]), events[1..]);
    }
  }

  lemma StepCounts(s: Announce, e: Event)
    requires Valid(s) && s.initialized && !e.Retire? && (e.Ask? ==> Step(s, e) == s)
    ensures var next := Step(s, e);
      && next.initialized && next.logInterval == s.logInterval && next.revision == s.revision
      && next.slowdown == Max(0, s.slowdown - if e.Complete? && e.accepted && Honours(s, e.token, e.at) then 1 else 0)
      && (s.slowdown > 0 ==> next.oldPeriodUs == s.oldPeriodUs)
  {
  }

  function HonouredTokens(s: Announce, events: seq<Event>): seq<uint32>
    decreases |events|
  {
    if events == [] then []
    else (if events[0].Complete? && Honours(s, events[0].token, events[0].at) then [events[0].token] else []) +
         HonouredTokens(Step(s, events[0]), events[1..])
  }

  /** Every token is honoured at most once, across revisions too. */
  lemma {:induction false} HonouredOnce(s: Announce, events: seq<Event>)
    requires Valid(s) && s.serial + |events| <= UINT32_MAX
    ensures CapableSchedule.StrictlyIncreasing(HonouredTokens(s, events))
    ensures NotBefore(HonouredTokens(s, events), s.serial, s.pending)
    decreases |events|
  {
    if events == [] {
    } else {
      var e, next := events[0], Step(s, events[0]);
      var rest := HonouredTokens(next, events[1..]);
      StepKeepsValid(s, e);
      StepTokens(s, e);
      HonouredOnce(next, events[1..]);
      Postdate(rest, s.serial, s.pending, next.serial, next.pending);
      if e.Complete? && Honours(s, e.token, e.at) {
        assert HonouredTokens(s, events) == [e.token] + rest;
      } else {
        assert HonouredTokens(s, events) == rest;
      }
    }
  }

  /** Tokens issued after this serial, or the one outstanding at it. */
  predicate NotBefore(tokens: seq<uint32>, serial: uint32, pending: uint32) {
    forall i :: 0 <= i < |tokens| ==> serial < tokens[i] || 0 < pending == serial == tokens[i]
  }

  /** A step issues at most the next token, and honours only the outstanding one. */
  lemma StepTokens(s: Announce, e: Event)
    requires Valid(s) && s.serial < UINT32_MAX
    ensures var next := Step(s, e);
      && s.serial <= next.serial <= s.serial + 1
      && (next.serial == s.serial ==> next.pending == 0 || next.pending == s.pending)
      && (e.Complete? && Honours(s, e.token, e.at) ==>
            e.token == s.pending == s.serial == next.serial && next.pending == 0 && e.token != 0)
  {
  }

  lemma Postdate(tokens: seq<uint32>, serial: uint32, pending: uint32, laterSerial: uint32, laterPending: uint32)
    requires NotBefore(tokens, laterSerial, laterPending) && serial <= laterSerial
    requires laterSerial == serial ==> laterPending == 0 || laterPending == pending
    ensures NotBefore(tokens, serial, pending)
    ensures laterSerial == serial && laterPending == 0 ==> forall i :: 0 <= i < |tokens| ==> serial < tokens[i]
  {
  }

  function IssueTimes(s: Announce, events: seq<Event>): seq<int>
    decreases |events|
  {
    if events == [] then []
    else (if events[0].Poll? && Issues(s, events[0].initial, events[0].expected, events[0].information, events[0].at)
          then [events[0].at] else []) +
         IssueTimes(Step(s, events[0]), events[1..])
  }

  /** Every poll carries the information already announced. */
  predicate SameInformation(information: uint32, events: seq<Event>) {
    forall i :: 0 <= i < |events| ==> events[i].Poll? ==> events[i].information == information
  }

  lemma SameInformationTail(information: uint32, events: seq<Event>)
    requires SameInformation(information, events) && events != []
    ensures SameInformation(information, events[1..])
  {
    var rest := events[1..];
    forall i | 0 <= i < |rest|
      ensures rest[i].Poll? ==> rest[i].information == information
    {
      assert rest[i] == events[i + 1];
    }
  }

  predicate Leaves(s: Announce, e: Event) {
    && !e.Retire? && (e.Ask? ==> Step(s, e) == s)
    && (e.Poll? ==> e.information == s.informationRevision)
  }

  predicate IssuedBy(s: Announce, e: Event) {
    e.Poll? && Issues(s, e.initial, e.expected, e.information, e.at)
  }

  lemma SpacedStep(s: Announce, e: Event, base: int, period: int)
    requires Valid(s) && s.active && Leaves(s, e) && 0 < period <= Period(s)
    requires base <= s.nextUs && base <= s.queuedUs + period
    ensures var next := Step(s, e);
      && next.active && next.informationRevision == s.informationRevision && period <= Period(next)
      && (if IssuedBy(s, e) then base <= e.at && base + period <= next.nextUs && base <= next.queuedUs
          else base <= next.nextUs && base <= next.queuedUs + period)
  {
  }

  lemma GridStep(s: Announce, e: Event)
    requires Valid(s) && s.active && Leaves(s, e) && (IssuedBy(s, e) ==> e.at - s.nextUs < Period(s))
    requires s.slowdown <= 1 ==> s.slowdown == 0 || !(e.Complete? && e.accepted && Honours(s, e.token, e.at))
    ensures var next := Step(s, e);
      && next.active && next.informationRevision == s.informationRevision && Period(next) == Period(s)
      && next.nextUs == s.nextUs + (if IssuedBy(s, e) then Period(s) else 0)
      && next.slowdown == Max(0, s.slowdown - if e.Complete? && e.accepted && Honours(s, e.token, e.at) then 1 else 0)
  {
  }

  lemma {:induction false} SpacedFrom(s: Announce, events: seq<Event>, base: int, period: int, k: nat)
    requires Valid(s) && Undisturbed(s, events) && SameInformation(s.informationRevision, events)
    requires s.active && 0 < period <= Period(s)
    requires base <= s.nextUs && base <= s.queuedUs + period
    requires k < |IssueTimes(s, events)|
    ensures IssueTimes(s, events)[k] >= base + k * period
    decreases |events|
  {
    var e, next, rest := events[0], Step(s, events[0]), events[1..];
    SameInformationTail(s.informationRevision, events);
    SpacedStep(s, e, base, period);
    StepKeepsValid(s, e);
    if e.Poll? && Issues(s, e.initial, e.expected, e.information, e.at) {
      if k > 0 {
        SpacedFrom(next, rest, base + period, period, k - 1);
        assert base + period + (k - 1) * period == base + k * period;
      }
    } else {
      SpacedFrom(next, rest, base, period, k);
    }
  }

  lemma FirstIsAnchored(s: Announce, first: Event)
    requires Valid(s) && IssuedBy(s, first) && !Prepared(s, first.initial, first.information).active
    ensures var next, period := Step(s, first), Period(Initialize(s, first.initial));
      && next.active && next.informationRevision == first.information && 0 < period <= Period(next)
      && next.nextUs == first.at + period && next.queuedUs == first.at
  {
  }

  /** Within one activation the k-th further Announce is never earlier than k starting
      periods after the first. */
  lemma NeverEarly(s: Announce, first: Event, events: seq<Event>, k: nat)
    requires Valid(s) && first.Poll? && Issues(s, first.initial, first.expected, first.information, first.at)
    requires !Prepared(s, first.initial, first.information).active
    requires Undisturbed(Step(s, first), events) && SameInformation(first.information, events)
    requires k < |IssueTimes(Step(s, first), events)|
    ensures IssueTimes(Step(s, first), events)[k] >= first.at + (k + 1) * Period(Initialize(s, first.initial))
  {
    var period := Period(Initialize(s, first.initial));
    StepKeepsValid(s, first);
    FirstIsAnchored(s, first);
    SpacedFrom(Step(s, first), events, first.at + period, period, k);
    Distribute(1, k, 1, period);
  }

  predicate PromptPolls(s: Announce, events: seq<Event>)
    decreases |events|
  {
    events == [] ||
    ((events[0].Poll? && Issues(s, events[0].initial, events[0].expected, events[0].information, events[0].at) ==>
        events[0].at - s.nextUs < Period(s)) &&
     PromptPolls(Step(s, events[0]), events[1..]))
  }

  /** With prompt polls and a constant period the deadlines stay exactly on the grid. */
  lemma {:induction false} StaysOnGrid(s: Announce, events: seq<Event>)
    requires Valid(s) && s.active && Undisturbed(s, events)
    requires SameInformation(s.informationRevision, events) && PromptPolls(s, events)
    requires s.slowdown == 0 || AcceptedCount(s, events) < s.slowdown
    ensures Run(s, events).nextUs == s.nextUs + |IssueTimes(s, events)| * Period(s)
    decreases |events|
  {
    if events == [] {
    } else {
      var next, rest := Step(s, events[0]), events[1..];
      SameInformationTail(s.informationRevision, events);
      GridStep(s, events[0]);
      StepKeepsValid(s, events[0]);
      StaysOnGrid(next, rest);
      var n, period := |IssueTimes(next, rest)|, Period(s);
      assert (n + 1) * period == period + n * period;
    }
  }

  /** From a slow-down request on, the old period holds for exactly two accepted, timely
      completions, and the requested one from the third. Asking again for the interval
      already asked for does not start over. */
  lemma SlowdownFromRequest(s: Announce, initial: int8, request: int8, events: seq<Event>)
    requires Valid(s) && s.initialized && s.initialLog == initial && initial <= request <= 24
    requires 0 < Period(s) < PeriodUs(request)
    requires Undisturbed(Request(s, initial, request), events)
    ensures request == s.logInterval ==> Request(s, initial, request) == s
    ensures request != s.logInterval ==>
      var asked := Request(s, initial, request);
      Period(Run(asked, events)) == if AcceptedCount(asked, events) < 3 then Period(s) else PeriodUs(request)
  {
    StepKeepsValid(s, Ask(initial, request));
    SlowdownIsCounted(Request(s, initial, request), events);
  }

  /** A faster rate, a restart and a stop take effect at once, but never faster than the
      configured rate, which 126 asks for. */
  lemma OtherRequestsActAtOnce(s: Announce, initial: int8, request: int8)
    requires Valid(s) && s.initialized && s.initialLog == initial
    ensures request == 126 ==> Request(s, initial, 126) == Request(s, initial, initial)
    ensures -24 <= request <= initial ==> Request(s, initial, request) == Request(s, initial, initial)
    ensures request == 127 ==> Period(Request(s, initial, 127)) == 0
    ensures initial <= request <= 24 && (Period(s) == 0 || PeriodUs(request) <= Period(s)) ==>
      Period(Request(s, initial, request)) == PeriodUs(request)
    ensures -128 <= request < -24 || 24 < request < 126 ==> Request(s, initial, request) == s
  {
  }

  // ---- Exactly when, and with what ---------------------------------------------------------

  /** 2^log seconds in microseconds, rounded up, for -24 to 24. */
  lemma PeriodExactly(log: int)
    ensures log < -24 || log > 24 ==> PeriodUs(log) == 0
    ensures 0 <= log <= 24 ==> PeriodUs(log) == 1_000_000 * CapableSchedule.Pow2(log)
    ensures -24 <= log < 0 ==>
      var us, parts := PeriodUs(log), CapableSchedule.Pow2(-log);
      parts * us >= 1_000_000 && parts * (us - 1) < 1_000_000
  {
    if -24 <= log < 0 {
      Ceiling(1_000_000, CapableSchedule.Pow2(-log));
    }
  }

  /** The period a poll goes by: the one in force, or the configured one on the first poll. */
  function PolledPeriod(s: Announce, initial: int8): int {
    if s.initialized then Period(s) else PeriodUs(initial)
  }

  /** A poll under the current revision and the configured rate, whose next deadline fits the
      clock, issues a token if and only if there is new information, or nothing outstanding
      (or it is a second old) and the deadline has come or there is none. Any other poll
      issues none, and does no more than initialize the schedule. */
  lemma PollExactly(s: Announce, initial: int8, expected: uint32, information: uint32, now: int)
    requires Valid(s)
    ensures var p := PolledPeriod(s, initial);
      if s.revision != expected || PeriodUs(initial) == 0 || (s.initialized && s.initialLog != initial) then
        !Issues(s, initial, expected, information, now) && Begin(s, initial, expected, information, now) == s
      else if p > 0 && 0 <= now && now + p <= INT64_MAX then
        Issues(s, initial, expected, information, now) <==>
          || information != s.informationRevision
          || ((s.pending == 0 || now >= s.queuedUs + 1_000_000) && (!s.active || now >= s.nextUs))
      else
        && !Issues(s, initial, expected, information, now)
        && Begin(s, initial, expected, information, now) ==
           (if s.initialized then s else s.(initialized := true, initialLog := initial, logInterval := initial))
  {
  }

  /** What is issued: the next serial and sequence number, the interval in force, and a next
      deadline that lies ahead, on the grid unless a whole period was missed or the
      information is new. */
  lemma IssuedExactly(s: Announce, initial: int8, expected: uint32, information: uint32, now: int)
    requires Valid(s) && Issues(s, initial, expected, information, now)
    ensures var t, p := Begin(s, initial, expected, information, now), PolledPeriod(s, initial);
      && t.pending == t.serial == Next32(s.serial)
      && t.sequence == (if s.sequence % 65536 == 65535 then 0 else s.sequence % 65536 + 1)
      && t.revision == s.revision && t.informationRevision == information && t.queuedUs == now
      && t.initialized && t.initialLog == initial && t.active && t.pendingLog == t.logInterval
      && t.logInterval == (if s.initialized then s.logInterval else initial)
      && now < t.nextUs <= now + p
      && (if information == s.informationRevision && s.active && now < s.nextUs + p then t.nextUs == s.nextUs + p
          else t.nextUs == now + p)
  {
  }

  /** A completion counts for the outstanding token within a second of its issue, and for no
      other; it settles that token whether it counts or not, and touches nothing else unless
      it is the last of a slow-down, which starts the new period then. */
  lemma CompletedExactly(s: Announce, token: uint32, accepted: bool, now: int)
    requires Valid(s)
    ensures Honours(s, token, now) <==> 0 < token == s.pending && s.queuedUs <= now < s.queuedUs + 1_000_000
    ensures var t := Finish(s, token, accepted, now);
      if token == 0 || token != s.pending then t == s
      else if accepted && s.queuedUs <= now < s.queuedUs + 1_000_000 && s.slowdown > 0 then
        && t.pending == 0 && t.slowdown == s.slowdown - 1
        && t.(pending := s.pending, slowdown := s.slowdown, nextUs := s.nextUs) == s
        && (s.slowdown > 1 ==> t.nextUs == s.nextUs)
        && (s.slowdown == 1 ==>
              var p := PeriodUs(s.logInterval);
              t.nextUs == if now + p <= INT64_MAX then now + p else s.nextUs)
      else t == s.(pending := 0)
  {
  }

  /** A request that changes the interval withdraws the outstanding token under a new
      revision, and the next poll of the new rate issues at once. */
  lemma RequestRestarts(s: Announce, initial: int8, request: int8, information: uint32, now: int)
    requires Valid(s) && s.initialized && Request(s, initial, request) != s
    ensures var t := Request(s, initial, request);
      && t.pending == 0 && !t.active && t.serial == s.serial && t.sequence == s.sequence
      && t.revision == Next32(s.revision) && t.logInterval == Normalize(request, initial)
      && (Period(t) > 0 && 0 <= now && now + Period(t) <= INT64_MAX ==>
          Issues(t, initial, t.revision, information, now))
      && forall token, at :: !Honours(t, token, at)
  {
  }

  /** The rates that are served: 2^-24 to 2^24 seconds, and the three special requests. */
  lemma SupportedExactly(request: int8)
    ensures Supported(request) <==> -24 <= request <= 24 || request == -128 || request == 126 || request == 127
  {
  }

  /** Retiring forgets everything but the numbers, which run on under a new revision. */
  lemma RetiredExactly(s: Announce)
    ensures var t := Reset(s);
      && t.revision == Next32(s.revision) && t.serial == s.serial && t.sequence == s.sequence
      && t.pending == 0 && !t.initialized && !t.active && t.slowdown == 0
  {
  }

  /** Sequence numbers count the tokens issued, across revisions. */
  lemma {:induction false} NumbersCountTokens(s: Announce, events: seq<Event>)
    requires Valid(s) && s.serial + |events| <= UINT32_MAX
    ensures var t, n := Run(s, events), |IssueTimes(s, events)|;
      t.serial == s.serial + n && t.sequence % 65536 == (s.sequence + n) % 65536
    decreases |events|
  {
    if events == [] {
    } else {
      var e := events[0];
      StepKeepsValid(s, e);
      StepNumbers(s, e);
      NumbersCountTokens(Step(s, e), events[1..]);
      IssueCount(s, events);
      CapableSchedule.SameRemainder(Step(s, e).sequence, s.sequence + (if IssuedBy(s, e) then 1 else 0),
                                    |IssueTimes(Step(s, e), events[1..])|);
    }
  }

  lemma IssueCount(s: Announce, events: seq<Event>)
    requires events != []
    ensures |IssueTimes(s, events)| ==
      (if IssuedBy(s, events[0]) then 1 else 0) + |IssueTimes(Step(s, events[0]), events[1..])|
  {
  }

  lemma StepNumbers(s: Announce, e: Event)
    requires Valid(s) && s.serial < UINT32_MAX
    ensures var t, n := Step(s, e), if IssuedBy(s, e) then 1 else 0;
      t.serial == s.serial + n && t.sequence % 65536 == (s.sequence + n) % 65536
  {
  }

  /** No deadline ever lies beyond the 64-bit clock. */
  lemma {:induction false} DeadlinesFit(s: Announce, events: seq<Event>)
    requires Valid(s) && s.nextUs <= INT64_MAX
    ensures Run(s, events).nextUs <= INT64_MAX
    decreases |events|
  {
    if events == [] {
    } else {
      StepKeepsValid(s, events[0]);
      StepFits(s, events[0]);
      DeadlinesFit(Step(s, events[0]), events[1..]);
    }
  }

  lemma StepFits(s: Announce, e: Event)
    requires Valid(s) && s.nextUs <= INT64_MAX
    ensures Step(s, e).nextUs <= INT64_MAX
  {
  }
}
