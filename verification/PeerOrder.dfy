/** Order of publication, over runs: however the transmission of a request, its response
    and its Follow_Up interleave with each other and with steps that do not concern them,
    the exchange ends in the same measurement and the same state. */
module PeerOrder {
  import opened Arith
  import opened Bytes
  import opened CapableReceive
  import opened PeerExchange
  import opened PeerPort
  import opened PeerRuns

  /** A request just begun, and what will be sent and received for it. */
  datatype Query = Query(begun: Exchange, transmit: Timespec, response: Response, receive: Timespec, followUp: FollowUp)

  predicate Sensible(q: Query) {
    && q.begun.sending && !q.begun.published && !q.begun.responseSeen && !q.begun.consumed && !q.begun.multiple
    && !q.begun.lossCounted && !q.begun.followUpPending
    && ValidTime(q.transmit) && ValidTime(q.receive) && ValidStamp(q.response.received) && ValidStamp(q.followUp.origin)
    && Answers(q.begun, q.response.header, q.response.requester)
    && Answers(q.begun, q.followUp.header, q.followUp.requester)
    && q.response.header.source == q.followUp.header.source
    && q.response.header.source[..8] != q.begun.requester[..8]
  }

  function Expected(q: Query): Measurement {
    Measurement(q.begun.generation, q.begun.lifecycle, q.transmit, q.receive, q.response)
  }

  /** The Follow_Up is nowhere, kept by the exchange, or handed back to the daemon. */
  datatype Waiting = Nowhere | InExchange | WithDaemon

  datatype Stage = Stage(sent: bool, answered: bool, heard: bool, waiting: Waiting)

  const BEGUN := Stage(false, false, false, Nowhere)

  predicate Measured(st: Stage) { st.heard && st.waiting.Nowhere? }

  predicate Proper(st: Stage) {
    && (st.heard ==> st.answered) && (!st.heard ==> st.waiting.Nowhere?)
    && (st.heard && !st.waiting.InExchange? ==> st.sent)
  }

  /** The exchange at a stage, apart from the losses counted before it and the slot a
      Follow_Up was kept in. */
  function ExchangeAt(q: Query, st: Stage): Exchange {
    q.begun.(sending := !st.sent, published := st.sent,
             transmit := if st.sent then q.transmit else q.begun.transmit,
             responseSeen := st.answered,
             response := if st.answered then q.response else q.begun.response,
             receive := if st.answered then q.receive else q.begun.receive,
             followUpPending := st.waiting.InExchange?, consumed := Measured(st),
             lost := 0, pendingFollowUp := ZERO_FOLLOW_UP)
  }

  predicate Agrees(e: Exchange, q: Query, st: Stage) {
    && e.(lost := 0, pendingFollowUp := ZERO_FOLLOW_UP) == ExchangeAt(q, st)
    && (st.waiting.InExchange? ==> e.pendingFollowUp == q.followUp)
  }

  predicate At(w: World, q: Query, st: Stage) {
    && Agrees(w.port.exchange, q, st) && w.now < q.begun.deadlineUs
    && w.timer == (if st.sent then None else Some(q.begun.generation))
    && w.deferred == (if st.waiting.WithDaemon? then Some(Deferred(q.followUp, q.begun.generation)) else None)
    && (if Measured(st)
        then w.inFlight.Some? && w.inFlight.value.measurement == Expected(q) && w.inFlight.value.followUp == q.followUp
        else w.inFlight.None?)
  }

  /** The step that brings the exchange on, and the stage it brings it to. */
  function Advanced(q: Query, st: Stage, s: Step): Option<Stage> {
    if s == RequestSent(true, q.transmit) && !st.sent then Some(st.(sent := true))
    else if s == ResponseArrived(q.response, q.receive) && !st.answered then Some(st.(answered := true))
    else if s == FollowUpArrived(q.followUp) && st.answered && !st.heard then
      Some(st.(heard := true, waiting := if st.sent then Nowhere else InExchange))
    else if s.FollowUpTaken? && st.sent && st.waiting.InExchange? then Some(st.(waiting := WithDaemon))
    else if s.FollowUpReplayed? && st.waiting.WithDaemon? then Some(st.(waiting := Nowhere))
    else None
  }

  /** Steps that leave the exchange alone: time before the deadline, replies that are
      ignored, checks and resets elsewhere, and tasks with nothing to do. */
  predicate Harmless(w: World, q: Query, s: Step) {
    match s
    case Waited(us) => w.now + us < q.begun.deadlineUs
    case RequestBegun(_, _, _) => w.timer.Some?
    case RequestSent(_, _) => w.timer.None?
    case ResponseArrived(r, rx) => Admit(w.port.exchange, r, rx, w.now) == Ignored
    case FollowUpArrived(f) => !DaemonIdle(w) || Classify(w.port.exchange, f, w.now) == Rejected
    case FollowUpTaken => !(DaemonIdle(w) && Takes(w.port.exchange, w.now))
    case FollowUpReplayed => w.inFlight.Some? || w.deferred.None?
    case MeasurementCommitted => w.inFlight.None?
    case FallbackChecked => true
    case FallbackArmed => true
    case DelayForgotten => true
    case LocalClockStepped => false
    case LinkChanged => false
  }

  predicate Orderly(w: World, q: Query, st: Stage, steps: seq<Step>)
    decreases |steps|
  {
    steps == [] ||
    (var next := Advanced(q, st, steps[0]);
     if next.Some? then Orderly(Apply(w, steps[0]), q, next.value, steps[1..])
     else Harmless(w, q, steps[0]) && Orderly(Apply(w, steps[0]), q, st, steps[1..]))
  }

  function StageAfter(q: Query, st: Stage, steps: seq<Step>): Stage
    decreases |steps|
  {
    if steps == [] then st
    else
      var next := Advanced(q, st, steps[0]);
      StageAfter(q, if next.Some? then next.value else st, steps[1..])
  }

  // ---- Every step keeps to the stage -------------------------------------------------------

  lemma HarmlessLeaves(w: World, q: Query, st: Stage, s: Step)
    requires Sensible(q) && Proper(st) && At(w, q, st) && Harmless(w, q, s)
    ensures At(Apply(w, s), q, st)
  {
    match s {
      case ResponseArrived(r, rx) => assert Responded(w, r, rx).port.exchange == w.port.exchange;
      case FollowUpArrived(f) => if DaemonIdle(w) { assert Finishing(w, f, false).port.exchange == w.port.exchange; }
      case FallbackChecked => assert !Expires(w.port.exchange, w.now);
      case _ =>
    }
  }

  lemma SentAdvances(w: World, q: Query, st: Stage)
    requires Sensible(q) && Proper(st) && At(w, q, st) && !st.sent
    ensures At(Apply(w, RequestSent(true, q.transmit)), q, st.(sent := true))
  {
    assert Publishes(w.port.exchange, q.begun.generation, q.transmit, w.now);
  }

  lemma ResponseAdvances(w: World, q: Query, st: Stage)
    requires Sensible(q) && Proper(st) && At(w, q, st) && !st.answered
    ensures At(Apply(w, ResponseArrived(q.response, q.receive)), q, st.(answered := true))
  {
    assert Admit(w.port.exchange, q.response, q.receive, w.now) == Accepted;
  }

  lemma FollowUpAdvances(w: World, q: Query, st: Stage)
    requires Sensible(q) && Proper(st) && At(w, q, st) && st.answered && !st.heard
    ensures At(Apply(w, FollowUpArrived(q.followUp)), q, Advanced(q, st, FollowUpArrived(q.followUp)).value)
  {
    assert Classify(w.port.exchange, q.followUp, w.now) ==
           if st.sent then Outcome.Measured(Expected(q)) else Outcome.Retained;
  }

  lemma TakeAdvances(w: World, q: Query, st: Stage)
    requires Sensible(q) && Proper(st) && At(w, q, st) && st.sent && st.waiting.InExchange?
    ensures At(Apply(w, FollowUpTaken), q, st.(waiting := WithDaemon))
  {
    assert Takes(w.port.exchange, w.now);
  }

  lemma ReplayAdvances(w: World, q: Query, st: Stage)
    requires Sensible(q) && Proper(st) && At(w, q, st) && st.waiting.WithDaemon?
    ensures At(Apply(w, FollowUpReplayed), q, st.(waiting := Nowhere))
  {
    assert Classify(w.port.exchange, q.followUp, w.now) == Outcome.Measured(Expected(q));
  }

  lemma AdvancedIsProper(q: Query, st: Stage, s: Step)
    requires Proper(st) && Advanced(q, st, s).Some?
    ensures Proper(Advanced(q, st, s).value)
  {
  }

  lemma AdvancedReaches(w: World, q: Query, st: Stage, s: Step)
    requires Sensible(q) && Proper(st) && At(w, q, st) && Advanced(q, st, s).Some?
    ensures At(Apply(w, s), q, Advanced(q, st, s).value)
  {
    match s {
      case RequestSent(_, _) => SentAdvances(w, q, st);
      case ResponseArrived(_, _) => ResponseAdvances(w, q, st);
      case FollowUpArrived(_) => FollowUpAdvances(w, q, st);
      case FollowUpTaken => TakeAdvances(w, q, st);
      case FollowUpReplayed => ReplayAdvances(w, q, st);
    }
  }

  lemma {:induction false} RunKeepsStage(w: World, q: Query, st: Stage, steps: seq<Step>)
    requires Sensible(q) && Proper(st) && At(w, q, st) && Orderly(w, q, st, steps)
    ensures Proper(StageAfter(q, st, steps)) && At(Run(w, steps), q, StageAfter(q, st, steps))
    decreases |steps|
  {
    if steps == [] {
    } else {
      var next := Advanced(q, st, steps[0]);
      if next.Some? {
        AdvancedIsProper(q, st, steps[0]);
        AdvancedReaches(w, q, st, steps[0]);
        RunKeepsStage(Apply(w, steps[0]), q, next.value, steps[1..]);
      } else {
        HarmlessLeaves(w, q, st, steps[0]);
        RunKeepsStage(Apply(w, steps[0]), q, st, steps[1..]);
      }
    }
  }

  // ---- What a run contains decides its stage -------------------------------------------------

  /** The Follow_Up comes, at some point after the response. */
  predicate Hears(q: Query, answered: bool, steps: seq<Step>)
    decreases |steps|
  {
    steps != [] &&
    ((answered && steps[0] == FollowUpArrived(q.followUp)) ||
     Hears(q, answered || steps[0] == ResponseArrived(q.response, q.receive), steps[1..]))
  }

  lemma {:induction false} StageIsContent(q: Query, st: Stage, steps: seq<Step>)
    requires Proper(st)
    ensures var end := StageAfter(q, st, steps);
      && (end.sent <==> st.sent || RequestSent(true, q.transmit) in steps)
      && (end.answered <==> st.answered || ResponseArrived(q.response, q.receive) in steps)
      && (end.heard <==> st.heard || Hears(q, st.answered, steps))
    decreases |steps|
  {
    if steps == [] {
    } else {
      var next := Advanced(q, st, steps[0]);
      assert steps == [steps[0]] + steps[1..];
      StageIsContent(q, if next.Some? then next.value else st, steps[1..]);
    }
  }

  // ---- Main results ------------------------------------------------------------------------------

  /** The world right after a request began, and what is to come for it. */
  predicate Begins(w: World, q: Query) {
    Sensible(q) && w.port.exchange == q.begun && At(w, q, BEGUN)
  }

  /** Every request begun on an idle port is such a beginning. */
  lemma RequestBegins(w: World, sequence: uint16, requester: PortId, deadline: int, q: Query)
    requires w.timer.None? && DaemonIdle(w) && w.now < deadline
    requires ValidTime(q.transmit) && ValidTime(q.receive) && ValidStamp(q.response.received) &&
      ValidStamp(q.followUp.origin)
    requires q.response.header.sequence == q.followUp.header.sequence == sequence
    requires q.response.requester == q.followUp.requester == requester
    requires q.response.header.source == q.followUp.header.source && q.response.header.source[..8] != requester[..8]
    requires q.begun == Apply(w, RequestBegun(sequence, requester, deadline)).port.exchange
    ensures Begins(Apply(w, RequestBegun(sequence, requester, deadline)), q)
  {
    var v := Requested(Expired(w), sequence, requester, deadline);
    assert v.port.exchange == q.begun == Begin(Expired(w).port.exchange, sequence, requester, deadline);
    assert v.now == w.now && v.deferred.None? && v.inFlight.None?;
  }

  /** A run that contains the transmission, and the response followed by its Follow_Up, in
      any order and among any harmless steps, has either measured exactly what is expected,
      or keeps the Follow_Up and measures it once the daemon takes and replays it. */
  lemma AnyOrderMeasures(w: World, q: Query, steps: seq<Step>)
    requires Begins(w, q) && Orderly(w, q, BEGUN, steps)
    requires RequestSent(true, q.transmit) in steps && Hears(q, false, steps)
    ensures var v := Run(w, steps);
      || MeasuresExactly(v, q)
      || MeasuresExactly(Run(v, [FollowUpReplayed]), q)
      || MeasuresExactly(Run(v, [FollowUpTaken, FollowUpReplayed]), q)
  {
    RunKeepsStage(w, q, BEGUN, steps);
    StageIsContent(q, BEGUN, steps);
    var v, st := Run(w, steps), StageAfter(q, BEGUN, steps);
    match st.waiting {
      case Nowhere => assert MeasuresExactly(v, q);
      case WithDaemon => ReplayMeasures(v, q, st);
      case InExchange => TakeMeasures(v, q, st);
    }
  }

  /** The measurement in the daemon's hands and the exchange that is left, which depend on
      the query alone. */
  predicate MeasuresExactly(w: World, q: Query) {
    && w.inFlight.Some? && w.inFlight.value.measurement == Expected(q) && w.inFlight.value.followUp == q.followUp
    && w.timer.None? && w.deferred.None?
    && w.port.exchange.(lost := 0, pendingFollowUp := ZERO_FOLLOW_UP) == ExchangeAt(q, Stage(true, true, true, Nowhere))
  }

  lemma ReplayMeasures(v: World, q: Query, st: Stage)
    requires Sensible(q) && Proper(st) && At(v, q, st) && st.waiting.WithDaemon?
    ensures MeasuresExactly(Run(v, [FollowUpReplayed]), q)
  {
    ReplayAdvances(v, q, st);
    assert Run(v, [FollowUpReplayed]) == Run(Apply(v, FollowUpReplayed), [FollowUpReplayed][1..]);
  }

  lemma TakeMeasures(v: World, q: Query, st: Stage)
    requires Sensible(q) && Proper(st) && At(v, q, st) && st.sent && st.waiting.InExchange?
    ensures MeasuresExactly(Run(v, [FollowUpTaken, FollowUpReplayed]), q)
  {
    TakeAdvances(v, q, st);
    var u, late := Apply(v, FollowUpTaken), [FollowUpTaken, FollowUpReplayed];
    ReplayMeasures(u, q, st.(waiting := WithDaemon));
    assert late[1..] == [FollowUpReplayed];
    assert Run(v, late) == Run(u, late[1..]);
  }

  /** Two runs from the same request that have both measured agree, whatever the order of
      their steps, on the measurement and on the exchange left. */
  lemma OrderIsIrrelevant(w: World, q: Query, first: seq<Step>, second: seq<Step>)
    requires Begins(w, q) && Orderly(w, q, BEGUN, first) && Orderly(w, q, BEGUN, second)
    requires Run(w, first).inFlight.Some? && Run(w, second).inFlight.Some?
    ensures MeasuresExactly(Run(w, first), q) && MeasuresExactly(Run(w, second), q)
    ensures Run(w, first).inFlight.value.measurement == Run(w, second).inFlight.value.measurement
  {
    RunKeepsStage(w, q, BEGUN, first);
    RunKeepsStage(w, q, BEGUN, second);
  }
}
