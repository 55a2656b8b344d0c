/** Every interleaving of the request timer, the daemon and the link events over one
    wired port, with the log of what happened. From the log follow the provenance of
    every measurement, of asCapable and of the lost-response fallback. */
module PeerRuns {
  import opened Arith
  import opened Bytes
  import opened CapableReceive
  import opened PeerExchange
  import opened PeerPort
  import PeerRate

  /** What happened, and in which generation. */
  datatype Mark =
    | Began(generation: uint32, sequence: uint16, requester: PortId, deadline: int, at: int)
    | Sent(generation: uint32, transmit: Timespec, at: int)
    | Admitted(generation: uint32, kind: Admission, response: Response, receive: Timespec, at: int)
    | Kept(generation: uint32, followUp: FollowUp, at: int)
    | Clashed(generation: uint32, at: int)
    | Completed(generation: uint32, measurement: Measurement, followUp: FollowUp, replayed: bool, at: int)
    | Lost(generation: uint32, at: int)
    | Committed(generation: uint32, lifecycle: uint32, qualified: bool, at: int, measurement: Measurement,
                followUp: FollowUp, delayNs: int)
    | Relinked(generation: uint32)
    | Jumped(generation: uint32)
    | Rearmed(generation: uint32)

  datatype Deferred = Deferred(followUp: FollowUp, generation: uint32)

  datatype InFlight = InFlight(measurement: Measurement, followUp: FollowUp, rate: PeerRate.Rate)

  /** The port, what each task holds between its critical sections, time and the log. */
  datatype World = World(config: Config, port: Port, timer: Option<uint32>, deferred: Option<Deferred>,
                         inFlight: Option<InFlight>, now: int, log: seq<Mark>)

  function Start(config: Config): World { World(config, ZERO_PORT_STATE, None, None, None, 0, []) }

  /** One critical section of one task, or time passing. */
  datatype Step =
    | Waited(us: nat)
    | RequestBegun(sequence: uint16, requester: PortId, deadline: int)
    | RequestSent(sent: bool, transmit: Timespec)
    | ResponseArrived(response: Response, receive: Timespec)
    | FollowUpArrived(followUp: FollowUp)
    | FollowUpTaken
    | FollowUpReplayed
    | MeasurementCommitted
    | LocalClockStepped
    | LinkChanged
    | FallbackChecked
    | FallbackArmed
    | DelayForgotten

  function LossMarks(e: Exchange, now: int): seq<Mark> {
    if Expires(e, now) then [Lost(e.generation, now)] else []
  }

  function OutcomeMarks(e: Exchange, f: FollowUp, replayed: bool, now: int): seq<Mark> {
    match Classify(e, f, now)
    case Rejected => []
    case Clash => [Clashed(e.generation, now)]
    case Retained => [Kept(e.generation, f, now)]
    case Measured(m) => [Completed(e.generation, m, f, replayed, now)]
  }

  function Expired(w: World): World {
    w.(port := w.port.(exchange := Expire(w.port.exchange, w.now)), log := w.log + LossMarks(w.port.exchange, w.now))
  }

  function Requested(w: World, sequence: uint16, requester: PortId, deadline: int): World {
    var begun := Begin(w.port.exchange, sequence, requester, deadline);
    w.(port := w.port.(exchange := begun), timer := Some(begun.generation),
       log := w.log + [Began(begun.generation, sequence, requester, deadline, w.now)])
  }

  function Transmitted(w: World, sent: bool, transmit: Timespec): World
    requires w.timer.Some?
  {
    var e, token := w.port.exchange, w.timer.value;
    if sent && Publishes(e, token, transmit, w.now)
    then w.(port := w.port.(exchange := Publish(e, token, transmit, w.now)), timer := None,
            log := w.log + [Sent(token, transmit, w.now)])
    else w.(port := w.port.(exchange := Cancel(e, token)), timer := None)
  }

  function Responded(w: World, r: Response, rx: Timespec): World {
    var e := w.port.exchange;
    var kind := Admit(e, r, rx, w.now);
    w.(port := Judged(w.port, Respond(e, r, rx, w.now)),
       log := if kind == Ignored then w.log else w.log + [Admitted(e.generation, kind, r, rx, w.now)])
  }

  function Finishing(w: World, f: FollowUp, replayed: bool): World {
    var e := w.port.exchange;
    var outcome := Classify(e, f, w.now);
    w.(port := Judged(w.port, Finish(e, f, w.now)), log := w.log + OutcomeMarks(e, f, replayed, w.now),
       inFlight := if outcome.Measured? then Some(InFlight(outcome.measurement, f, w.port.rate)) else w.inFlight)
  }

  function Taken(w: World): World {
    var e := w.port.exchange;
    w.(port := w.port.(exchange := Take(e, w.now)), deferred := Some(Deferred(e.pendingFollowUp, e.generation)))
  }

  function Replayed(w: World): World
    requires w.deferred.Some?
  {
    if w.port.exchange.generation != w.deferred.value.generation then w.(deferred := None)
    else Finishing(w, w.deferred.value.followUp, true).(deferred := None)
  }

  function CommittedBy(w: World): World
    requires w.inFlight.Some?
  {
    var e, x := w.port.exchange, w.inFlight.value;
    if !Commits(w.port, x.measurement, x.followUp) then w.(inFlight := None)
    else
      var port := Commit(w.port, w.config, x.rate, x.measurement, x.followUp, w.now);
      w.(port := port, inFlight := None, log := w.log + [CommitMark(e, port, x, w.now)])
  }

  function CommitMark(e: Exchange, after: Port, x: InFlight, now: int): Mark {
    Committed(e.generation, e.lifecycle, after.capability.qualified, now, x.measurement, x.followUp, after.delayNs)
  }

  function Stepped(w: World): World {
    var stepped := ClockStepped(w.port);
    w.(port := stepped, log := w.log + [Jumped(stepped.exchange.generation)])
  }

  function Linked(w: World): World {
    var relinked := Invalidate(w.port.exchange);
    w.(port := w.port.(exchange := relinked), log := w.log + [Relinked(relinked.generation)])
  }

  function Armed(w: World): World {
    w.(port := w.port.(exchange := w.port.exchange.(lost := 0)), log := w.log + [Rearmed(w.port.exchange.generation)])
  }

  function Forgotten(w: World): World { w.(port := w.port.(averaged := 0, delayNs := 0)) }

  predicate DaemonIdle(w: World) { w.inFlight.None? && w.deferred.None? }

  /** The effect of a step. A task that is busy elsewhere does nothing: the timer sends
      one request at a time, and the daemon handles one Follow_Up at a time. */
  function Apply(w: World, s: Step): World {
    match s
    case Waited(us) => w.(now := w.now + us)
    case RequestBegun(sequence, requester, deadline) =>
      if w.timer.Some? then w else Requested(Expired(w), sequence, requester, deadline)
    case RequestSent(sent, transmit) => if w.timer.None? then w else Transmitted(w, sent, transmit)
    case ResponseArrived(response, receive) => Responded(w, response, receive)
    case FollowUpArrived(f) => if DaemonIdle(w) then Finishing(w, f, false) else w
    case FollowUpTaken => if DaemonIdle(w) && Takes(w.port.exchange, w.now) then Taken(w) else w
    case FollowUpReplayed => if w.inFlight.None? && w.deferred.Some? then Replayed(w) else w
    case MeasurementCommitted => if w.inFlight.Some? then CommittedBy(w) else w
    case LocalClockStepped => Stepped(w)
    case LinkChanged => Linked(w)
    case FallbackChecked => Expired(w)
    case FallbackArmed => Armed(w)
    case DelayForgotten => Forgotten(w)
  }

  function Run(w: World, steps: seq<Step>): World
    decreases |steps|
  {
    if steps == [] then w else Run(Apply(w, steps[0]), steps[1..])
  }

  // ---- Reading the log ---------------------------------------------------------------

  predicate Fault(m: Mark) { m.Clashed? || (m.Admitted? && m.kind != Accepted) }

  predicate FaultIn(log: seq<Mark>, g: uint32) { exists m :: m in log && Fault(m) && m.generation == g }

  predicate CompletedIn(log: seq<Mark>, g: uint32) { exists m :: m in log && m.Completed? && m.generation == g }

  predicate CompletedWith(log: seq<Mark>, x: Measurement, f: FollowUp) {
    exists m :: m in log && m.Completed? && m.measurement == x && m.followUp == f
  }

  predicate LostIn(log: seq<Mark>, g: uint32) { exists m :: m in log && m.Lost? && m.generation == g }

  predicate IsRequest(m: Mark, g: uint32, sequence: uint16, requester: PortId, deadline: int) {
    m.Began? && m.generation == g && m.sequence == sequence && m.requester == requester && m.deadline == deadline
  }

  predicate BeganIn(log: seq<Mark>, g: uint32, sequence: uint16, requester: PortId, deadline: int) {
    exists m :: m in log && IsRequest(m, g, sequence, requester, deadline)
  }

  predicate SentIn(log: seq<Mark>, g: uint32, t1: Timespec, deadline: int) {
    exists m :: m in log && m.Sent? && m.generation == g && m.transmit == t1 && m.at < deadline
  }

  predicate AcceptedIn(log: seq<Mark>, g: uint32, r: Response, rx: Timespec, deadline: int) {
    exists m :: m in log && m.Admitted? && m.generation == g && m.kind == Accepted && m.response == r &&
      m.receive == rx && m.at < deadline
  }

  predicate KeptIn(log: seq<Mark>, g: uint32, f: FollowUp) {
    exists m :: m in log && m.Kept? && m.generation == g && m.followUp == f
  }

  /** How many replies were admitted in a generation. */
  function Admissions(log: seq<Mark>, g: uint32): nat
    decreases |log|
  {
    if log == [] then 0
    else
      var last := |log| - 1;
      Admissions(log[..last], g) + (if log[last].Admitted? && log[last].generation == g then 1 else 0)
  }

  predicate EndsLosses(m: Mark) { m.Completed? || m.Relinked? || m.Rearmed? }

  /** Losses counted since the last completed exchange, link change or re-arm. */
  function LossRun(log: seq<Mark>): nat
    decreases |log|
  {
    if log == [] then 0
    else
      var last := |log| - 1;
      if EndsLosses(log[last]) then 0
      else LossRun(log[..last]) + (if log[last].Lost? then 1 else 0)
  }

  // ---- Provenance --------------------------------------------------------------------

  /** A measurement's T1, response and Follow_Up all belong to one request: they carry its
      generation, sequence number and requester, come from one responder, and arrived
      before its deadline. */
  ghost predicate Provenance(log: seq<Mark>, m: Mark)
    requires m.Completed?
  {
    exists b :: b in log && Provenanced(log, m, b)
  }

  ghost predicate Provenanced(log: seq<Mark>, m: Mark, b: Mark)
    requires m.Completed?
  {
    var r, f := m.measurement.response, m.followUp;
    && b.Began? && b.generation == m.generation == m.measurement.generation && m.at < b.deadline
    && r.header.sequence == f.header.sequence == b.sequence && r.requester == f.requester == b.requester
    && f.header.source == r.header.source && r.header.source[..8] != b.requester[..8]
    && SentIn(log, m.generation, m.measurement.transmit, b.deadline)
    && AcceptedIn(log, m.generation, r, m.measurement.receive, b.deadline)
    && (m.replayed ==> KeptIn(log, m.generation, f)) && WellTimed(m.measurement, f)
  }

  /** All four time stamps carry less than a second of nanoseconds. */
  predicate WellTimed(x: Measurement, f: FollowUp) {
    && 0 <= x.transmit.nsec <= 999_999_999 && 0 <= x.receive.nsec <= 999_999_999
    && x.response.received.nsec <= 999_999_999 && f.origin.nsec <= 999_999_999
  }

  /** A loss is a published request whose own deadline has passed. */
  ghost predicate LossProvenance(log: seq<Mark>, m: Mark)
    requires m.Lost?
  {
    exists b, s :: b in log && s in log && b.Began? && s.Sent? && b.generation == s.generation == m.generation &&
      b.deadline <= m.at
  }

  /** Two marks of a kind a generation has at most one of. */
  predicate Rival(a: Mark, b: Mark) {
    a.generation == b.generation &&
    ((a.Began? && b.Began?) || (a.Completed? && b.Completed?) || (a.Lost? && b.Lost?) ||
     (a.Completed? && b.Lost?) || (a.Lost? && b.Completed?))
  }

  ghost predicate NoRivals(log: seq<Mark>) {
    forall i, j {:trigger Rival(log[i], log[j])} :: 0 <= i < j < |log| ==> !Rival(log[i], log[j])
  }

  ghost predicate Sound(log: seq<Mark>, m: Mark) {
    (m.Completed? ==> Provenance(log, m)) && (m.Lost? ==> LossProvenance(log, m))
  }

  /** The log as a whole, at the current generation. */
  ghost predicate LogInv(log: seq<Mark>, g: uint32) {
    && (forall m {:trigger m.generation} :: m in log ==> m.generation <= g)
    && NoRivals(log)
    && (forall m {:trigger Sound(log, m)} :: m in log ==> Sound(log, m))
  }

  /** The exchange and what the log says of its generation. */
  ghost predicate ExchangeInv(e: Exchange, log: seq<Mark>, now: int) {
    var g, open := e.generation, e.sending || e.published;
    && (open ==> BeganIn(log, g, e.sequence, e.requester, e.deadlineUs))
    && (e.published ==> !e.sending && SentIn(log, g, e.transmit, e.deadlineUs))
    && (e.responseSeen ==> open && AcceptedIn(log, g, e.response, e.receive, e.deadlineUs))
    && (e.responseSeen ==> Answers(e, e.response.header, e.response.requester))
    && (e.responseSeen ==> e.response.header.source[..8] != e.requester[..8])
    && (e.published ==> ValidTime(e.transmit))
    && (e.responseSeen ==> ValidTime(e.receive) && ValidStamp(e.response.received))
    && (e.followUpPending ==> KeptIn(log, g, e.pendingFollowUp))
    && (e.consumed <==> CompletedIn(log, g)) && (e.consumed ==> e.published && e.responseSeen)
    && (e.lossCounted <==> LostIn(log, g)) && (e.lossCounted ==> e.published && e.deadlineUs <= now)
    && (!e.multiple ==> !FaultIn(log, g) && (open ==> Admissions(log, g) == if e.responseSeen then 1 else 0))
  }

  ghost predicate TaskInv(w: World) {
    var e := w.port.exchange;
    && (w.timer.Some? ==> w.timer.value <= e.generation && (w.timer.value == e.generation ==> !e.published))
    && (w.deferred.Some? ==> w.deferred.value.generation <= e.generation)
    && (w.deferred.Some? ==> KeptIn(w.log, w.deferred.value.generation, w.deferred.value.followUp))
    && (w.inFlight.Some? ==> var x := w.inFlight.value;
          x.measurement.generation <= e.generation && CompletedWith(w.log, x.measurement, x.followUp) &&
          (x.measurement.generation == e.generation ==>
             e.consumed && x.rate == w.port.rate && x.measurement.lifecycle == e.lifecycle))
  }

  /** The commit that qualified the port: one admitted reply in its generation, and
      since then no conflict and, within its lifecycle, no link change. */
  ghost predicate QualifiedAt(own: PortId, log: seq<Mark>, c: int, capability: Capability, lifecycle: uint32) {
    && 0 <= c < |log| && log[c].Committed? && log[c].qualified
    && log[c].lifecycle == capability.lifecycle && log[c].at == capability.receivedUs
    && CompletedWith(log[..c], log[c].measurement, log[c].followUp)
    && log[c].measurement.generation == log[c].generation
    && Plausible(log[c].measurement, log[c].followUp) && Conforming(log[c].measurement, log[c].followUp, own)
    && log[c].delayNs <= QUALIFYING_DELAY
    && Admissions(log[..c], log[c].generation) == 1 && !FaultIn(log[..c], log[c].generation)
    && (forall i :: c < i < |log| ==> !Fault(log[i]))
    && (capability.lifecycle == lifecycle ==> forall i :: c < i < |log| ==> !log[i].Relinked?)
  }

  ghost predicate CapabilityInv(own: PortId, p: Port, log: seq<Mark>, now: int) {
    p.capability.qualified ==>
      p.capability.receivedUs <= now && p.capability.lifecycle <= p.exchange.lifecycle &&
      exists c :: QualifiedAt(own, log, c, p.capability, p.exchange.lifecycle)
  }

  ghost predicate LossInv(e: Exchange, log: seq<Mark>) {
    e.lost == if LossRun(log) < MAX_LOST then LossRun(log) else MAX_LOST
  }

  ghost predicate Inv(w: World) {
    && LogInv(w.log, w.port.exchange.generation) && ExchangeInv(w.port.exchange, w.log, w.now)
    && TaskInv(w) && CapabilityInv(w.config.own, w.port, w.log, w.now) && LossInv(w.port.exchange, w.log)
  }

  // ---- The log only grows --------------------------------------------------------------

  lemma Grows(log: seq<Mark>, m: Mark)
    ensures forall g, t, d :: SentIn(log, g, t, d) ==> SentIn(log + [m], g, t, d)
    ensures forall g, q, p, d :: BeganIn(log, g, q, p, d) ==> BeganIn(log + [m], g, q, p, d)
    ensures forall g, r, x, d :: AcceptedIn(log, g, r, x, d) ==> AcceptedIn(log + [m], g, r, x, d)
    ensures forall g, f :: KeptIn(log, g, f) ==> KeptIn(log + [m], g, f)
    ensures forall g :: CompletedIn(log + [m], g) <==> CompletedIn(log, g) || (m.Completed? && m.generation == g)
    ensures forall x, f :: CompletedWith(log, x, f) ==> CompletedWith(log + [m], x, f)
    ensures forall g :: LostIn(log + [m], g) <==> LostIn(log, g) || (m.Lost? && m.generation == g)
    ensures forall g :: FaultIn(log + [m], g) <==> FaultIn(log, g) || (Fault(m) && m.generation == g)
    ensures forall g ::
      Admissions(log + [m], g) == Admissions(log, g) + if m.Admitted? && m.generation == g then 1 else 0
    ensures LossRun(log + [m]) == if EndsLosses(m) then 0 else LossRun(log) + if m.Lost? then 1 else 0
    ensures m in log + [m] && forall x :: x in log ==> x in log + [m]
  {
    var more := log + [m];
    assert more[..|log|] == log;
    assert forall x :: x in more <==> x in log || x == m;
  }

  lemma SoundGrows(log: seq<Mark>, m: Mark, x: Mark)
    requires Sound(log, x)
    ensures Sound(log + [m], x)
  {
    Grows(log, m);
    if x.Completed? {
      var b :| b in log && Provenanced(log, x, b);
      assert Provenanced(log + [m], x, b);
    }
  }

  lemma LogGrows(log: seq<Mark>, m: Mark, g: uint32, later: uint32)
    requires LogInv(log, g) && g <= later && m.generation <= later && Sound(log + [m], m)
    requires forall x :: x in log ==> !Rival(x, m)
    ensures LogInv(log + [m], later)
  {
    var more := log + [m];
    forall x | x in more ensures x.generation <= later && Sound(more, x) {
      if x in log { assert Sound(log, x); SoundGrows(log, m, x); }
    }
    forall i, j | 0 <= i < j < |more| ensures !Rival(more[i], more[j]) {
      if j < |log| {
        assert more[i] == log[i] && more[j] == log[j] && !Rival(log[i], log[j]);
      } else {
        assert more[i] in log;
      }
    }
  }

  /** A mark that starts, completes or loses nothing. */
  predicate Plain(m: Mark) { !m.Began? && !m.Completed? && !m.Lost? }

  lemma PlainGrows(log: seq<Mark>, m: Mark, g: uint32, later: uint32)
    requires LogInv(log, g) && g <= later && m.generation <= later && Plain(m)
    ensures LogInv(log + [m], later)
  {
    LogGrows(log, m, g, later);
  }

  lemma QualifiedGrows(own: PortId, log: seq<Mark>, m: Mark, c: int, capability: Capability, lifecycle: uint32,
                       later: uint32)
    requires QualifiedAt(own, log, c, capability, lifecycle) && !Fault(m)
    requires (later == lifecycle && !m.Relinked?) || capability.lifecycle != later
    ensures QualifiedAt(own, log + [m], c, capability, later)
  {
    assert (log + [m])[..c] == log[..c];
  }

  lemma CapabilityGrows(own: PortId, p: Port, q: Port, log: seq<Mark>, m: Mark, now: int)
    requires CapabilityInv(own, p, log, now) && q.capability == p.capability && !Fault(m)
    requires (q.exchange.lifecycle == p.exchange.lifecycle && !m.Relinked?) ||
      p.exchange.lifecycle < q.exchange.lifecycle
    ensures CapabilityInv(own, q, log + [m], now)
  {
    if p.capability.qualified {
      var c :| QualifiedAt(own, log, c, p.capability, p.exchange.lifecycle);
      QualifiedGrows(own, log, m, c, p.capability, p.exchange.lifecycle, q.exchange.lifecycle);
    }
  }

  lemma {:induction false} NoAdmissionsYet(log: seq<Mark>, g: uint32)
    requires forall m {:trigger m.generation} :: m in log ==> m.generation < g
    ensures Admissions(log, g) == 0
    decreases |log|
  {
    if log == [] {
    } else {
      var last := |log| - 1;
      assert log[last] in log;
      forall m | m in log[..last] ensures m.generation < g { assert m in log; }
      NoAdmissionsYet(log[..last], g);
    }
  }

  /** A generation nothing has happened in yet. */
  lemma FreshGeneration(log: seq<Mark>, g: uint32, e: Exchange, now: int)
    requires LogInv(log, g) && e.generation > g
    requires !e.published && !e.responseSeen && !e.followUpPending && !e.consumed && !e.lossCounted && !e.multiple
    ensures !e.sending ==> ExchangeInv(e, log, now)
    ensures Admissions(log, e.generation) == 0
    ensures !CompletedIn(log, e.generation) && !LostIn(log, e.generation) && !FaultIn(log, e.generation)
  {
    forall m | m in log ensures m.generation < e.generation {}
    NoAdmissionsYet(log, e.generation);
  }

  // ---- Every step keeps the invariant ----------------------------------------------------

  lemma TimePasses(w: World, after: nat)
    requires Inv(w)
    ensures Inv(w.(now := w.now + after))
  {
  }

  lemma KeepsQualification(own: PortId, p: Port, q: Port, log: seq<Mark>, now: int)
    requires CapabilityInv(own, p, log, now) && q.capability == p.capability &&
      q.exchange.lifecycle == p.exchange.lifecycle
    ensures CapabilityInv(own, q, log, now)
  {
  }

  lemma ExpireKeeps(w: World)
    requires Inv(w)
    ensures Inv(Expired(w))
  {
    var e := w.port.exchange;
    if Expires(e, w.now) {
      var m := Lost(e.generation, w.now);
      Grows(w.log, m);
      assert LossProvenance(w.log + [m], m) by {
        var b :| b in w.log && b.Began? && b.generation == e.generation && b.deadline == e.deadlineUs;
        var s :| s in w.log && s.Sent? && s.generation == e.generation;
        assert b in w.log + [m] && s in w.log + [m];
      }
      LogGrows(w.log, m, e.generation, e.generation);
      CapabilityGrows(w.config.own, w.port, Expired(w).port, w.log, m, w.now);
    } else {
      assert w.log + [] == w.log;
    }
  }

  lemma RequestKeeps(w: World, sequence: uint16, requester: PortId, deadline: int)
    requires Inv(w) && w.timer.None? && w.port.exchange.generation < UINT32_MAX
    ensures Inv(Requested(w, sequence, requester, deadline))
  {
    var e := w.port.exchange;
    var begun := Begin(e, sequence, requester, deadline);
    var m := Began(begun.generation, sequence, requester, deadline, w.now);
    Grows(w.log, m);
    FreshGeneration(w.log, e.generation, begun.(sending := false), w.now);
    LogGrows(w.log, m, e.generation, begun.generation);
    CapabilityGrows(w.config.own, w.port, w.port.(exchange := begun), w.log, m, w.now);
  }

  lemma TransmitKeeps(w: World, sent: bool, transmit: Timespec)
    requires Inv(w) && w.timer.Some?
    ensures Inv(Transmitted(w, sent, transmit))
  {
    var e := w.port.exchange;
    if sent && Publishes(e, w.timer.value, transmit, w.now) {
      var m := Sent(w.timer.value, transmit, w.now);
      Grows(w.log, m);
      PlainGrows(w.log, m, e.generation, e.generation);
      assert SentIn(w.log + [m], e.generation, transmit, e.deadlineUs);
      CapabilityGrows(w.config.own, w.port, w.port.(exchange := Publish(e, w.timer.value, transmit, w.now)), w.log,
                      m, w.now);
    } else {
      KeepsQualification(w.config.own, w.port, w.port.(exchange := Cancel(e, w.timer.value)), w.log, w.now);
    }
  }

  lemma JudgedUnchanged(w: World)
    requires Inv(w)
    ensures Inv(w.(port := Judged(w.port, w.port.exchange)))
  {
    if !w.port.exchange.multiple { assert Judged(w.port, w.port.exchange) == w.port; }
  }

  /** A conflicting reply: the exchange faults and the port is disqualified at once. */
  lemma FaultKeeps(w: World, m: Mark)
    requires Inv(w) && Fault(m) && m.generation == w.port.exchange.generation
    ensures Inv(w.(port := Judged(w.port, w.port.exchange.(multiple := true)), log := w.log + [m]))
  {
    var e := w.port.exchange;
    Grows(w.log, m);
    PlainGrows(w.log, m, e.generation, e.generation);
  }

  lemma AcceptKeeps(w: World, r: Response, rx: Timespec)
    requires Inv(w) && Admit(w.port.exchange, r, rx, w.now) == Accepted
    ensures Inv(Responded(w, r, rx))
  {
    var e := w.port.exchange;
    var m := Admitted(e.generation, Accepted, r, rx, w.now);
    Grows(w.log, m);
    PlainGrows(w.log, m, e.generation, e.generation);
    assert AcceptedIn(w.log + [m], e.generation, r, rx, e.deadlineUs);
    CapabilityGrows(w.config.own, w.port, Responded(w, r, rx).port, w.log, m, w.now);
  }

  lemma ResponseKeeps(w: World, r: Response, rx: Timespec)
    requires Inv(w)
    ensures Inv(Responded(w, r, rx))
  {
    var e := w.port.exchange;
    var kind := Admit(e, r, rx, w.now);
    if kind == Ignored {
      JudgedUnchanged(w);
    } else if kind == Accepted {
      AcceptKeeps(w, r, rx);
    } else {
      var m := Admitted(e.generation, kind, r, rx, w.now);
      FaultKeeps(w, m);
      assert Responded(w, r, rx) == w.(port := Judged(w.port, e.(multiple := true)), log := w.log + [m]);
    }
  }

  lemma RetainKeeps(w: World, f: FollowUp, replayed: bool)
    requires Inv(w) && Classify(w.port.exchange, f, w.now) == Outcome.Retained
    ensures Inv(Finishing(w, f, replayed))
  {
    var e := w.port.exchange;
    var m := Kept(e.generation, f, w.now);
    Grows(w.log, m);
    PlainGrows(w.log, m, e.generation, e.generation);
    assert KeptIn(w.log + [m], e.generation, f);
    CapabilityGrows(w.config.own, w.port, Finishing(w, f, replayed).port, w.log, m, w.now);
  }

  lemma MeasureKeeps(w: World, f: FollowUp, replayed: bool)
    requires Inv(w) && Classify(w.port.exchange, f, w.now).Measured?
    requires replayed ==> KeptIn(w.log, w.port.exchange.generation, f)
    ensures Inv(Finishing(w, f, replayed))
  {
    var e := w.port.exchange;
    var m := Completed(e.generation, Classify(e, f, w.now).measurement, f, replayed, w.now);
    var v := Finishing(w, f, replayed);
    assert v.log == w.log + [m] && v.port.exchange == e.(consumed := true, lost := 0);
    MeasureLogged(w, f, replayed, m);
    Grows(w.log, m);
    assert ExchangeInv(v.port.exchange, v.log, v.now);
    CapabilityGrows(w.config.own, w.port, v.port, w.log, m, w.now);
  }

  lemma MeasureLogged(w: World, f: FollowUp, replayed: bool, m: Mark)
    requires Inv(w) && Classify(w.port.exchange, f, w.now).Measured?
    requires replayed ==> KeptIn(w.log, w.port.exchange.generation, f)
    requires m == Completed(w.port.exchange.generation, Classify(w.port.exchange, f, w.now).measurement, f, replayed,
                            w.now)
    ensures LogInv(w.log + [m], m.generation) && CompletedWith(w.log + [m], m.measurement, f)
  {
    var e := w.port.exchange;
    Grows(w.log, m);
    var b :| b in w.log && IsRequest(b, e.generation, e.sequence, e.requester, e.deadlineUs);
    assert Provenanced(w.log + [m], m, b);
    LogGrows(w.log, m, e.generation, e.generation);
  }

  lemma FinishKeeps(w: World, f: FollowUp, replayed: bool)
    requires Inv(w) && (replayed ==> KeptIn(w.log, w.port.exchange.generation, f))
    ensures Inv(Finishing(w, f, replayed))
  {
    match Classify(w.port.exchange, f, w.now) {
      case Rejected =>
        assert w.log + [] == w.log;
        JudgedUnchanged(w);
      case Clash => FaultKeeps(w, Clashed(w.port.exchange.generation, w.now));
      case Retained => RetainKeeps(w, f, replayed);
      case Measured(_) => MeasureKeeps(w, f, replayed);
    }
  }

  lemma TakeKeeps(w: World)
    requires Inv(w) && Takes(w.port.exchange, w.now)
    ensures Inv(Taken(w))
  {
    KeepsQualification(w.config.own, w.port, w.port.(exchange := Take(w.port.exchange, w.now)), w.log, w.now);
  }

  lemma ReplayKeeps(w: World)
    requires Inv(w) && w.deferred.Some?
    ensures Inv(Replayed(w))
  {
    if w.port.exchange.generation == w.deferred.value.generation { FinishKeeps(w, w.deferred.value.followUp, true); }
  }

  lemma CommitKeeps(w: World)
    requires Inv(w) && w.inFlight.Some?
    ensures Inv(CommittedBy(w))
  {
    var e, x := w.port.exchange, w.inFlight.value;
    if Commits(w.port, x.measurement, x.followUp) {
      var after := Commit(w.port, w.config, x.rate, x.measurement, x.followUp, w.now);
      assert after.exchange == e && after.capability.lifecycle == e.lifecycle && after.capability.receivedUs == w.now;
      assert after.capability.qualified ==> after.delayNs <= QUALIFYING_DELAY;
      assert after.capability.qualified ==> Conforming(x.measurement, x.followUp, w.config.own);
      RecordCommit(w, after);
    }
  }

  lemma RecordCommit(w: World, after: Port)
    requires Inv(w) && w.inFlight.Some? && Commits(w.port, w.inFlight.value.measurement, w.inFlight.value.followUp)
    requires after.exchange == w.port.exchange && after.capability.lifecycle == after.exchange.lifecycle &&
      after.capability.receivedUs == w.now
    requires after.capability.qualified ==> after.delayNs <= QUALIFYING_DELAY
    requires after.capability.qualified ==>
      Conforming(w.inFlight.value.measurement, w.inFlight.value.followUp, w.config.own)
    ensures Inv(w.(port := after, inFlight := None,
                   log := w.log + [CommitMark(w.port.exchange, after, w.inFlight.value, w.now)]))
  {
    var e := w.port.exchange;
    var m := CommitMark(e, after, w.inFlight.value, w.now);
    Grows(w.log, m);
    PlainGrows(w.log, m, e.generation, e.generation);
    assert (w.log + [m])[..|w.log|] == w.log;
    assert m.qualified ==> QualifiedAt(w.config.own, w.log + [m], |w.log|, after.capability, e.lifecycle);
  }

  lemma ClockStepKeeps(w: World)
    requires Inv(w) && w.port.exchange.generation < UINT32_MAX
    ensures Inv(Stepped(w))
  {
    var e, stepped := w.port.exchange, ClockStepped(w.port);
    var m := Jumped(stepped.exchange.generation);
    Grows(w.log, m);
    FreshGeneration(w.log, e.generation, stepped.exchange, w.now);
    PlainGrows(w.log, m, e.generation, stepped.exchange.generation);
    CapabilityGrows(w.config.own, w.port, stepped, w.log, m, w.now);
  }

  lemma LinkKeeps(w: World)
    requires Inv(w) && w.port.exchange.generation < UINT32_MAX && w.port.exchange.lifecycle < UINT32_MAX
    ensures Inv(Linked(w))
  {
    var e := w.port.exchange;
    var relinked := Invalidate(e);
    var m := Relinked(relinked.generation);
    Grows(w.log, m);
    FreshGeneration(w.log, e.generation, relinked, w.now);
    PlainGrows(w.log, m, e.generation, relinked.generation);
    CapabilityGrows(w.config.own, w.port, w.port.(exchange := relinked), w.log, m, w.now);
  }

  lemma ArmKeeps(w: World)
    requires Inv(w)
    ensures Inv(Armed(w))
  {
    var e := w.port.exchange;
    var m := Rearmed(e.generation);
    Grows(w.log, m);
    PlainGrows(w.log, m, e.generation, e.generation);
    CapabilityGrows(w.config.own, w.port, w.port.(exchange := e.(lost := 0)), w.log, m, w.now);
  }

  predicate Room(w: World, n: nat) {
    w.port.exchange.generation + n <= UINT32_MAX && w.port.exchange.lifecycle + n <= UINT32_MAX
  }

  /** The steps of the request timer. */
  lemma TimerKeeps(w: World, s: Step)
    requires Inv(w) && Room(w, 1) && (s.RequestBegun? || s.RequestSent?)
    ensures Inv(Apply(w, s))
  {
    if s.RequestBegun? && w.timer.None? {
      ExpireKeeps(w);
      RequestKeeps(Expired(w), s.sequence, s.requester, s.deadline);
    } else if s.RequestSent? && w.timer.Some? {
      TransmitKeeps(w, s.sent, s.transmit);
    }
  }

  /** The steps of the daemon on received messages. */
  lemma DaemonKeeps(w: World, s: Step)
    requires Inv(w)
    requires s.ResponseArrived? || s.FollowUpArrived? || s.FollowUpTaken? || s.FollowUpReplayed? ||
      s.MeasurementCommitted?
    ensures Inv(Apply(w, s))
  {
    match s {
      case ResponseArrived(response, receive) => ResponseKeeps(w, response, receive);
      case FollowUpArrived(f) => if DaemonIdle(w) { FinishKeeps(w, f, false); }
      case FollowUpTaken => if Takes(w.port.exchange, w.now) { TakeKeeps(w); }
      case FollowUpReplayed => if w.deferred.Some? { ReplayKeeps(w); }
      case MeasurementCommitted => if w.inFlight.Some? { CommitKeeps(w); }
    }
  }

  lemma ApplyKeeps(w: World, s: Step)
    requires Inv(w) && Room(w, 1)
    ensures Inv(Apply(w, s))
  {
    match s {
      case Waited(us) => TimePasses(w, us);
      case LocalClockStepped => ClockStepKeeps(w);
      case LinkChanged => LinkKeeps(w);
      case FallbackChecked => ExpireKeeps(w);
      case FallbackArmed => ArmKeeps(w);
      case DelayForgotten => KeepsQualification(w.config.own, w.port, Forgotten(w).port, w.log, w.now);
      case _ => if s.RequestBegun? || s.RequestSent? { TimerKeeps(w, s); } else { DaemonKeeps(w, s); }
    }
  }

  lemma FollowUpLeavesRoom(w: World, f: FollowUp, replayed: bool, n: nat)
    requires Room(w, n)
    ensures Room(Finishing(w, f, replayed), n)
  {
    match Classify(w.port.exchange, f, w.now) {
      case Rejected =>
      case Clash =>
      case Retained =>
      case Measured(_) =>
    }
  }

  lemma TimerLeavesRoom(w: World, s: Step, n: nat)
    requires Room(w, n) && n > 0 && (s.RequestBegun? || s.RequestSent?)
    ensures Room(Apply(w, s), n - 1)
  {
    if s.RequestBegun? && w.timer.None? {
      assert Room(Expired(w), n);
    } else if s.RequestSent? && w.timer.Some? {
      assert Room(Transmitted(w, s.sent, s.transmit), n);
    }
  }

  lemma DaemonLeavesRoom(w: World, s: Step, n: nat)
    requires Room(w, n)
    requires s.ResponseArrived? || s.FollowUpArrived? || s.FollowUpTaken? || s.FollowUpReplayed? ||
      s.MeasurementCommitted?
    ensures Room(Apply(w, s), n)
  {
    match s {
      case ResponseArrived(response, receive) => assert Room(Responded(w, response, receive), n);
      case FollowUpArrived(f) => FollowUpLeavesRoom(w, f, false, n);
      case FollowUpTaken => assert Room(Taken(w), n);
      case FollowUpReplayed =>
        if w.deferred.Some? { FollowUpLeavesRoom(w, w.deferred.value.followUp, true, n); }
      case MeasurementCommitted =>
        if w.inFlight.Some? { assert Room(CommittedBy(w), n); }
    }
  }

  /** No step advances a counter more than once. */
  lemma ApplyLeavesRoom(w: World, s: Step, n: nat)
    requires Room(w, n) && n > 0
    ensures Room(Apply(w, s), n - 1)
  {
    match s {
      case Waited(_) =>
      case LocalClockStepped => assert Room(Stepped(w), n - 1);
      case LinkChanged => assert Room(Linked(w), n - 1);
      case FallbackChecked => assert Room(Expired(w), n);
      case FallbackArmed => assert Room(Armed(w), n);
      case DelayForgotten => assert Room(Forgotten(w), n);
      case _ => if s.RequestBegun? || s.RequestSent? { TimerLeavesRoom(w, s, n); } else { DaemonLeavesRoom(w, s, n); }
    }
  }

  lemma {:induction false} RunKeeps(w: World, steps: seq<Step>)
    requires Inv(w) && Room(w, |steps|)
    ensures Inv(Run(w, steps))
    decreases |steps|
  {
    if steps == [] {
    } else {
      var next := Apply(w, steps[0]);
      assert Inv(next) by { ApplyKeeps(w, steps[0]); }
      assert Room(next, |steps| - 1) by { ApplyLeavesRoom(w, steps[0], |steps|); }
      RunKeeps(next, steps[1..]);
    }
  }

  // ---- Main results ----------------------------------------------------------------------

  lemma StartHolds(config: Config)
    ensures Inv(Start(config)) && Room(Start(config), UINT32_MAX)
  {
  }

  /** Reached by some interleaving, before a 32-bit counter can wrap. */
  ghost predicate Reachable(w: World) {
    exists config, steps :: |steps| <= UINT32_MAX && w == Run(Start(config), steps)
  }

  lemma ReachableHolds(w: World)
    requires Reachable(w)
    ensures Inv(w)
  {
    var config, steps :| |steps| <= UINT32_MAX && w == Run(Start(config), steps);
    StartHolds(config);
    RunKeeps(Start(config), steps);
  }

  /** Over every interleaving a generation has at most one request and at most one
      measurement, never both a measurement and a loss, and every measurement is made of
      the T1, the response and the Follow_Up of its own request, in time. */
  lemma MeasurementsAreGenuine(w: World, i: nat, j: nat)
    requires Reachable(w) && i < |w.log| && j < |w.log|
    ensures w.log[i].Completed? ==> Provenance(w.log, w.log[i])
    ensures i != j ==> !Rival(w.log[i], w.log[j])
  {
    ReachableHolds(w);
    assert w.log[i] in w.log && Sound(w.log, w.log[i]);
    if i < j {
      assert !Rival(w.log[i], w.log[j]);
    } else if j < i {
      assert !Rival(w.log[j], w.log[i]);
    }
  }

  /** The commit at c qualified the port, less than three intervals ago, and nothing has
      spoiled it since. */
  ghost predicate Earned(own: PortId, p: Port, log: seq<Mark>, now: int, c: int, intervalUs: int) {
    && QualifiedAt(own, log, c, p.capability, p.exchange.lifecycle)
    && now - 3 * intervalUs < log[c].at <= now
    && forall i :: c < i < |log| ==> !Fault(log[i]) && !log[i].Relinked?
  }

  /** Whenever the wired port reports asCapable, a qualifying measurement was committed
      in this link lifecycle less than three request intervals ago, its generation had
      admitted exactly one reply by then, and since then there has been no own, second
      or duplicate reply and no link change. */
  lemma AsCapableIsEarned(w: World, intervalUs: int, enabled: bool, linkUp: bool, gptp: bool, domain: nat,
                          neighborCapable: bool)
    requires Reachable(w)
    requires AsCapable(w.port.capability, w.port.exchange.lifecycle, w.now, intervalUs, enabled, linkUp, gptp, domain,
                       neighborCapable)
    ensures exists c :: Earned(w.config.own, w.port, w.log, w.now, c, intervalUs)
  {
    ReachableHolds(w);
    var c :| QualifiedAt(w.config.own, w.log, c, w.port.capability, w.port.exchange.lifecycle);
    assert Earned(w.config.own, w.port, w.log, w.now, c, intervalUs);
  }

  /** A link change withdraws asCapable at once, whatever is in flight. */
  lemma LinkChangeWithdraws(w: World, now: int, intervalUs: int, domain: nat, neighborCapable: bool)
    requires Reachable(w) && w.port.exchange.lifecycle < UINT32_MAX
    ensures var v := Apply(w, LinkChanged);
      !AsCapable(v.port.capability, v.port.exchange.lifecycle, now, intervalUs, true, true, true, domain,
                 neighborCapable)
  {
    if w.port.capability.qualified { NotAhead(w); }
    var v := Apply(w, LinkChanged);
    assert v.port.capability == w.port.capability && v.port.exchange.lifecycle == w.port.exchange.lifecycle + 1;
  }

  lemma NotAhead(w: World)
    requires Reachable(w) && w.port.capability.qualified
    ensures w.port.capability.lifecycle <= w.port.exchange.lifecycle
  {
    ReachableHolds(w);
  }

  /** The rate a commit extends is the live one: a clock step between the two critical
      sections abandons the exchange, so its re-anchor request is never overwritten. */
  lemma CommitExtendsLiveRate(w: World)
    requires Reachable(w) && w.inFlight.Some?
    requires Commits(w.port, w.inFlight.value.measurement, w.inFlight.value.followUp)
    ensures w.inFlight.value.rate == w.port.rate
  {
    ReachableHolds(w);
  }

  // ---- Losses ------------------------------------------------------------------------------

  /** Generations lost from index `start` on. */
  ghost function LostFrom(log: seq<Mark>, start: nat): set<uint32>
    decreases |log|
  {
    if |log| <= start then {}
    else
      var last := |log| - 1;
      LostFrom(log[..last], start) + if log[last].Lost? then {log[last].generation} else {}
  }

  predicate Uninterrupted(log: seq<Mark>, start: nat) {
    forall i :: start <= i < |log| ==> !EndsLosses(log[i])
  }

  lemma {:induction false} LostFromIsLost(log: seq<Mark>, start: nat, g: uint32)
    requires g in LostFrom(log, start)
    ensures exists i :: start <= i < |log| && log[i].Lost? && log[i].generation == g
    decreases |log|
  {
    var last := |log| - 1;
    if !(log[last].Lost? && log[last].generation == g) {
      LostFromIsLost(log[..last], start, g);
      var i :| start <= i < last && log[..last][i].Lost? && log[..last][i].generation == g;
      assert log[i] == log[..last][i];
    }
  }

  lemma FrontHasNoRivals(log: seq<Mark>)
    requires NoRivals(log) && log != []
    ensures NoRivals(log[..|log| - 1])
  {
    var front := log[..|log| - 1];
    forall i, j | 0 <= i < j < |front|
      ensures !Rival(front[i], front[j])
    {
      assert !Rival(log[i], log[j]);
    }
  }

  /** A generation is lost at most once. */
  lemma NewLossIsNew(log: seq<Mark>, start: nat)
    requires NoRivals(log) && log != [] && log[|log| - 1].Lost?
    ensures log[|log| - 1].generation !in LostFrom(log[..|log| - 1], start)
  {
    var last := |log| - 1;
    var front, g := log[..last], log[last].generation;
    if g in LostFrom(front, start) {
      LostFromIsLost(front, start, g);
      var i :| start <= i < last && front[i].Lost? && front[i].generation == g;
      assert front[i] == log[i] && Rival(log[i], log[last]);
    }
  }

  lemma UninterruptedLonger(log: seq<Mark>, start: nat)
    requires log != [] && !EndsLosses(log[|log| - 1]) && Uninterrupted(log[..|log| - 1], start)
    ensures Uninterrupted(log, start)
  {
    var last := |log| - 1;
    forall i | start <= i < |log|
      ensures !EndsLosses(log[i])
    {
      assert i < last ==> log[i] == log[..last][i];
    }
  }

  lemma {:induction false} LossRunIsASet(log: seq<Mark>) returns (start: nat)
    requires NoRivals(log)
    ensures start <= |log| && Uninterrupted(log, start) && |LostFrom(log, start)| == LossRun(log)
    decreases |log|
  {
    if log == [] || EndsLosses(log[|log| - 1]) {
      start := |log|;
    } else {
      FrontHasNoRivals(log);
      start := LossRunIsASet(log[..|log| - 1]);
      UninterruptedLonger(log, start);
      LossesCounted(log, start);
    }
  }

  lemma LossesCounted(log: seq<Mark>, start: nat)
    requires NoRivals(log) && start < |log| && !EndsLosses(log[|log| - 1])
    requires |LostFrom(log[..|log| - 1], start)| == LossRun(log[..|log| - 1])
    ensures |LostFrom(log, start)| == LossRun(log)
  {
    if log[|log| - 1].Lost? {
      NewLossIsNew(log, start);
    }
  }

  /** A generation lost from `start` on, by a published request past its deadline. */
  ghost predicate LostInTime(log: seq<Mark>, start: nat, g: uint32) {
    exists i :: start <= i < |log| && log[i].Lost? && log[i].generation == g && LossProvenance(log, log[i])
  }

  /** Settings under which nine losses make the daemon leave gPTP. */
  predicate Eligible(s: Setting, now: int) {
    s.gptp && !s.done && !s.bridged && !s.peerIsEndpoint && (s.lastDropUs == 0 || now - s.lastDropUs >= DROP_WINDOW_US)
  }

  /** The lost-response fallback fires exactly when, in an eligible setting, nine distinct
      requests were published and each passed its own deadline with no completed
      exchange, link change or re-arm since the first of them. */
  lemma FallbackNeedsNineLosses(w: World, setting: Setting)
    requires Reachable(w)
    ensures var log := Expired(w).log;
      && (FallbackReason(w.port.exchange, setting, w.now) == 2 <==>
          Eligible(setting, w.now) && LossRun(log) >= FALLBACK_LOSSES)
      && exists start: nat :: Uninterrupted(log, start) && |LostFrom(log, start)| == LossRun(log) &&
           forall g :: g in LostFrom(log, start) ==> LostInTime(log, start, g)
  {
    ReachableHolds(w);
    ExpireKeeps(w);
    FallbackCounts(w, setting);
    LossesAreGenuine(Expired(w).log, Expired(w).port.exchange.generation);
  }

  lemma FallbackCounts(w: World, setting: Setting)
    requires LossInv(Expired(w).port.exchange, Expired(w).log)
    ensures FallbackReason(w.port.exchange, setting, w.now) == 2 <==>
            Eligible(setting, w.now) && LossRun(Expired(w).log) >= FALLBACK_LOSSES
  {
    assert Expired(w).port.exchange == Expire(w.port.exchange, w.now);
  }

  lemma LossesAreGenuine(log: seq<Mark>, g: uint32)
    requires LogInv(log, g)
    ensures exists start: nat :: Uninterrupted(log, start) && |LostFrom(log, start)| == LossRun(log) &&
              forall g :: g in LostFrom(log, start) ==> LostInTime(log, start, g)
  {
    var start := LossRunIsASet(log);
    forall g | g in LostFrom(log, start)
      ensures LostInTime(log, start, g)
    {
      LostFromIsLost(log, start, g);
      var i :| start <= i < |log| && log[i].Lost? && log[i].generation == g;
      assert log[i] in log && Sound(log, log[i]);
    }
  }

  /** A step of the local clock neither adds nor forgets losses. */
  lemma ClockStepKeepsLosses(w: World)
    ensures var v := Apply(w, LocalClockStepped);
      v.port.exchange.lost == w.port.exchange.lost && LossRun(v.log) == LossRun(w.log) &&
        !Expires(v.port.exchange, v.now)
  {
  }

  /** Forgetting the delay forgets the average, and nothing else. */
  lemma ForgetsDelay(w: World)
    ensures var v := Apply(w, DelayForgotten);
      v.port.averaged == 0 && v.port.delayNs == 0 && v.(port := w.port) == w &&
      v.port.(averaged := w.port.averaged, delayNs := w.port.delayNs) == w.port
  {
  }
}
