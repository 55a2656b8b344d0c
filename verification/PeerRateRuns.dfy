/** The rate estimate inside the runs of the wired port: it is always the estimate of the
    samples committed and the clock steps logged, so the rate behind asCapable was measured
    with the responder that earned it. */
module PeerRateRuns {
  import opened Arith
  import opened Bytes
  import opened CapableReceive
  import opened PeerExchange
  import opened PeerPort
  import opened PeerRuns
  import PeerRate

  /** What a mark of the log means to the estimate. */
  function EventOf(m: Mark): seq<PeerRate.Event> {
    match m
    case Committed(_, _, _, _, measurement, followUp, _) => [PeerRate.Completed(SampleOf(measurement, followUp))]
    case Jumped(_) => [PeerRate.ClockStep]
    case _ => []
  }

  function EventsOf(log: seq<Mark>): seq<PeerRate.Event>
    decreases |log|
  {
    if log == [] then [] else EventsOf(log[..|log| - 1]) + EventOf(log[|log| - 1])
  }

  lemma EventsGrow(log: seq<Mark>, m: Mark)
    ensures EventsOf(log + [m]) == EventsOf(log) + EventOf(m)
    ensures EventOf(m) == [] ==> EventsOf(log + [m]) == EventsOf(log)
  {
    assert (log + [m])[..|log|] == log;
    assert EventsOf(log) + [] == EventsOf(log);
  }

  lemma RunGrows(events: seq<PeerRate.Event>, e: PeerRate.Event)
    ensures PeerRate.Run(events + [e]) == PeerRate.Next(PeerRate.Run(events), e)
  {
    assert (events + [e])[..|events|] == events;
  }

  type Estimate = seq<PeerRate.Event> -> PeerRate.Rate
  type Judgement = (PeerRate.Rate, Measurement, FollowUp) -> bool

  /** A qualifying commit was judged at the estimate of the samples before it. */
  ghost predicate Rated(before: seq<Mark>, m: Mark, estimate: Estimate, judge: Judgement) {
    m.Committed? && m.qualified ==> judge(estimate(EventsOf(before)), m.measurement, m.followUp)
  }

  ghost predicate AllRated(log: seq<Mark>, estimate: Estimate, judge: Judgement)
    decreases |log|
  {
    log == [] ||
    (AllRated(log[..|log| - 1], estimate, judge) && Rated(log[..|log| - 1], log[|log| - 1], estimate, judge))
  }

  /** The rate is the estimate of the log, and so it was at every qualifying commit. */
  ghost predicate Follows(rate: PeerRate.Rate, log: seq<Mark>, estimate: Estimate, judge: Judgement) {
    rate == estimate(EventsOf(log)) && AllRated(log, estimate, judge)
  }

  ghost predicate RateInv(w: World) { Follows(w.port.rate, w.log, PeerRate.Run, DelayValid) }

  lemma RatedGrows(log: seq<Mark>, m: Mark, estimate: Estimate, judge: Judgement)
    requires AllRated(log, estimate, judge) && Rated(log, m, estimate, judge)
    ensures AllRated(log + [m], estimate, judge)
  {
    assert (log + [m])[..|log|] == log;
  }

  lemma {:induction false} RatedAt(log: seq<Mark>, c: nat, estimate: Estimate, judge: Judgement)
    requires AllRated(log, estimate, judge) && c < |log|
    ensures Rated(log[..c], log[c], estimate, judge)
    decreases |log|
  {
    var last := |log| - 1;
    if c == last {
    } else {
      RatedAt(log[..last], c, estimate, judge);
      assert log[..last][..c] == log[..c];
    }
  }

  lemma FollowsSilent(rate: PeerRate.Rate, log: seq<Mark>, m: Mark, estimate: Estimate, judge: Judgement)
    requires Follows(rate, log, estimate, judge) && EventOf(m) == []
    ensures Follows(rate, log + [m], estimate, judge)
  {
    EventsGrow(log, m);
    RatedGrows(log, m, estimate, judge);
  }

  lemma FollowsEvent(rate: PeerRate.Rate, log: seq<Mark>, m: Mark, next: PeerRate.Rate, estimate: Estimate,
                     judge: Judgement)
    requires Follows(rate, log, estimate, judge) && Rated(log, m, estimate, judge)
    requires next == estimate(EventsOf(log) + EventOf(m))
    ensures Follows(next, log + [m], estimate, judge)
  {
    EventsGrow(log, m);
    RatedGrows(log, m, estimate, judge);
  }

  /** What the daemon holds was measured with the live estimate, or will not be committed. */
  predicate LiveRate(w: World) {
    w.inFlight.Some? && Commits(w.port, w.inFlight.value.measurement, w.inFlight.value.followUp) ==>
      w.inFlight.value.rate == w.port.rate
  }

  lemma CommitRates(w: World)
    requires LiveRate(w) && RateInv(w) && w.inFlight.Some?
    ensures RateInv(CommittedBy(w))
  {
    var x := w.inFlight.value;
    if Commits(w.port, x.measurement, x.followUp) {
      var port := Commit(w.port, w.config, x.rate, x.measurement, x.followUp, w.now);
      CommitFollows(w, port, x);
    }
  }

  lemma CommitFollows(w: World, port: Port, x: InFlight)
    requires RateInv(w) && x.rate == w.port.rate && Commits(w.port, x.measurement, x.followUp)
    requires port == Commit(w.port, w.config, x.rate, x.measurement, x.followUp, w.now)
    ensures Follows(port.rate, w.log + [CommitMark(w.port.exchange, port, x, w.now)], PeerRate.Run, DelayValid)
  {
    var m := CommitMark(w.port.exchange, port, x, w.now);
    RunGrows(EventsOf(w.log), PeerRate.Completed(SampleOf(x.measurement, x.followUp)));
    assert m.qualified ==> DelayValid(x.rate, x.measurement, x.followUp);
    FollowsEvent(w.port.rate, w.log, m, port.rate, PeerRate.Run, DelayValid);
  }

  lemma StepRates(w: World)
    requires RateInv(w)
    ensures RateInv(Stepped(w))
  {
    var m := Jumped(Stepped(w).port.exchange.generation);
    RunGrows(EventsOf(w.log), PeerRate.ClockStep);
    FollowsEvent(w.port.rate, w.log, m, Stepped(w).port.rate, PeerRate.Run, DelayValid);
  }

  /** Marks the estimate does not see; a step logs two at most. */
  predicate Silent(marks: seq<Mark>) { |marks| <= 2 && forall i :: 0 <= i < |marks| ==> EventOf(marks[i]) == [] }

  /** The step leaves the estimate alone and logs nothing it sees. */
  ghost predicate Quiet(v: World, w: World) {
    w.port.rate == v.port.rate && exists marks :: Silent(marks) && w.log == v.log + marks
  }

  lemma QuietRates(v: World, w: World)
    requires RateInv(v) && Quiet(v, w)
    ensures RateInv(w)
  {
    var marks :| Silent(marks) && w.log == v.log + marks;
    FollowsMarks(v.port.rate, v.log, marks, w.log, PeerRate.Run, DelayValid);
  }

  lemma FollowsMarks(rate: PeerRate.Rate, log: seq<Mark>, marks: seq<Mark>, more: seq<Mark>, estimate: Estimate,
                     judge: Judgement)
    requires Follows(rate, log, estimate, judge) && Silent(marks) && more == log + marks
    ensures Follows(rate, more, estimate, judge)
  {
    if |marks| == 0 {
      assert more == log;
    } else if |marks| == 1 {
      assert marks == [marks[0]];
      FollowsSilent(rate, log, marks[0], estimate, judge);
    } else {
      TwoMarks(log, marks);
      FollowsTwo(rate, log, marks[0], marks[1], estimate, judge);
    }
  }

  lemma TwoMarks(log: seq<Mark>, marks: seq<Mark>)
    requires |marks| == 2
    ensures log + marks == log + [marks[0]] + [marks[1]]
  {
  }

  lemma FollowsTwo(rate: PeerRate.Rate, log: seq<Mark>, a: Mark, b: Mark, estimate: Estimate, judge: Judgement)
    requires Follows(rate, log, estimate, judge) && EventOf(a) == [] && EventOf(b) == []
    ensures Follows(rate, log + [a] + [b], estimate, judge)
  {
    FollowsSilent(rate, log, a, estimate, judge);
    FollowsSilent(rate, log + [a], b, estimate, judge);
  }

  lemma QuietBy(v: World, w: World, marks: seq<Mark>)
    requires w.port.rate == v.port.rate && Silent(marks) && w.log == v.log + marks
    ensures Quiet(v, w)
  {
  }

  /** Every step but a commit and a clock step is quiet. */
  lemma FinishIsQuiet(w: World, f: FollowUp, replayed: bool)
    ensures Quiet(w, Finishing(w, f, replayed))
  {
    QuietBy(w, Finishing(w, f, replayed), OutcomeMarks(w.port.exchange, f, replayed, w.now));
  }

  lemma RequestIsQuiet(w: World, sequence: uint16, requester: PortId, deadline: int)
    ensures Quiet(w, Requested(Expired(w), sequence, requester, deadline))
  {
    var v := Requested(Expired(w), sequence, requester, deadline);
    var began := Began(v.port.exchange.generation, sequence, requester, deadline, w.now);
    var marks := LossMarks(w.port.exchange, w.now) + [began];
    assert v.log == w.log + marks;
    QuietBy(w, v, marks);
  }

  lemma TransmitIsQuiet(w: World, sent: bool, transmit: Timespec)
    requires w.timer.Some?
    ensures Quiet(w, Transmitted(w, sent, transmit))
  {
    var token := w.timer.value;
    var published := sent && Publishes(w.port.exchange, token, transmit, w.now);
    var marks := if published then [Sent(token, transmit, w.now)] else [];
    QuietBy(w, Transmitted(w, sent, transmit), marks);
  }

  lemma RespondIsQuiet(w: World, r: Response, rx: Timespec)
    ensures Quiet(w, Responded(w, r, rx))
  {
    var e := w.port.exchange;
    var kind := Admit(e, r, rx, w.now);
    QuietBy(w, Responded(w, r, rx), if kind == Ignored then [] else [Admitted(e.generation, kind, r, rx, w.now)]);
  }

  lemma SameIsQuiet(v: World, w: World)
    requires w.port.rate == v.port.rate && w.log == v.log
    ensures Quiet(v, w)
  {
    QuietBy(v, w, []);
  }

  lemma ReplayIsQuiet(w: World)
    requires w.deferred.Some?
    ensures Quiet(w, Replayed(w))
  {
    if w.port.exchange.generation == w.deferred.value.generation {
      FinishIsQuiet(w, w.deferred.value.followUp, true);
    } else {
      SameIsQuiet(w, Replayed(w));
    }
  }

  lemma MessageIsQuiet(w: World, s: Step)
    requires s.ResponseArrived? || s.FollowUpArrived? || s.FollowUpTaken? || s.FollowUpReplayed?
    ensures Quiet(w, Apply(w, s))
  {
    var v := Apply(w, s);
    if v == w {
      SameIsQuiet(w, v);
    } else {
      match s {
        case ResponseArrived(r, rx) => RespondIsQuiet(w, r, rx);
        case FollowUpArrived(f) => FinishIsQuiet(w, f, false);
        case FollowUpTaken => SameIsQuiet(w, v);
        case FollowUpReplayed => ReplayIsQuiet(w);
      }
    }
  }

  lemma ApplyIsQuiet(w: World, s: Step)
    requires !s.MeasurementCommitted? && !s.LocalClockStepped?
    ensures Quiet(w, Apply(w, s))
  {
    match s {
      case Waited(_) => SameIsQuiet(w, Apply(w, s));
      case RequestBegun(sequence, requester, deadline) =>
        if w.timer.Some? { SameIsQuiet(w, w); } else { RequestIsQuiet(w, sequence, requester, deadline); }
      case RequestSent(sent, transmit) =>
        if w.timer.None? { SameIsQuiet(w, w); } else { TransmitIsQuiet(w, sent, transmit); }
      case LinkChanged => QuietBy(w, Linked(w), [Relinked(Linked(w).port.exchange.generation)]);
      case FallbackChecked => QuietBy(w, Expired(w), LossMarks(w.port.exchange, w.now));
      case FallbackArmed => QuietBy(w, Armed(w), [Rearmed(w.port.exchange.generation)]);
      case DelayForgotten => SameIsQuiet(w, Forgotten(w));
      case _ => MessageIsQuiet(w, s);
    }
  }

  lemma QuietStepRates(w: World, s: Step)
    requires RateInv(w) && !s.MeasurementCommitted? && !s.LocalClockStepped?
    ensures RateInv(Apply(w, s))
  {
    ApplyIsQuiet(w, s);
    QuietRates(w, Apply(w, s));
  }

  lemma CommitStepRates(w: World)
    requires LiveRate(w) && RateInv(w)
    ensures RateInv(Apply(w, MeasurementCommitted))
  {
    if w.inFlight.Some? {
      CommitRates(w);
      assert Apply(w, MeasurementCommitted) == CommittedBy(w);
    } else {
      assert Apply(w, MeasurementCommitted) == w;
    }
  }

  lemma HoldsLiveRate(w: World)
    requires Inv(w)
    ensures LiveRate(w)
  {
  }

  lemma ApplyRates(w: World, s: Step)
    requires Inv(w) && RateInv(w)
    ensures RateInv(Apply(w, s))
  {
    match s {
      case LocalClockStepped => StepRates(w);
      case MeasurementCommitted =>
        HoldsLiveRate(w);
        CommitStepRates(w);
      case _ => QuietStepRates(w, s);
    }
  }

  /** In every run the port's estimate is that of the samples it committed, in order, with
      the clock steps between them. */
  lemma {:induction false} RunRates(w: World, steps: seq<Step>)
    requires Inv(w) && Room(w, |steps|) && RateInv(w)
    ensures Inv(Run(w, steps)) && RateInv(Run(w, steps))
    decreases |steps|
  {
    if steps == [] {
    } else {
      ApplyKeeps(w, steps[0]);
      ApplyLeavesRoom(w, steps[0], |steps|);
      ApplyRates(w, steps[0]);
      RunRates(Apply(w, steps[0]), steps[1..]);
    }
  }

  /** The rate a commit used: in range, measured between two consecutive commits with the
      same responder in the same lifecycle, with nobody else since and at most three failed
      intervals in between. */
  ghost predicate MeasuredRate(log: seq<Mark>, c: nat)
    requires c < |log| && log[c].Committed?
  {
    var s := SampleOf(log[c].measurement, log[c].followUp);
    var all := EventsOf(log[..c]) + [PeerRate.Completed(s)];
    var rate := PeerRate.Update(PeerRate.Run(EventsOf(log[..c])), s).0;
    && PeerRate.InRange(rate.ratio)
    && exists k :: PeerRate.MeasuredAt(all, k, rate.ratio) && PeerRate.OneNeighbor(all, k, s) &&
                   PeerRate.IntervalsSince(all, k) <= PeerRate.OUTLIERS_MAX
  }

  lemma ReachableRates(w: World)
    requires Reachable(w)
    ensures RateInv(w)
  {
    var config, steps :| |steps| <= UINT32_MAX && w == Run(Start(config), steps);
    StartHolds(config);
    RunRates(Start(config), steps);
  }

  /** The full provenance of asCapable: the commit that earned it, and the rate behind the
      delay that qualified it. */
  lemma AsCapableIsMeasured(w: World, intervalUs: int, enabled: bool, linkUp: bool, gptp: bool, domain: nat,
                            neighborCapable: bool)
    requires Reachable(w)
    requires AsCapable(w.port.capability, w.port.exchange.lifecycle, w.now, intervalUs, enabled, linkUp, gptp, domain,
                       neighborCapable)
    ensures exists c :: Earned(w.config.own, w.port, w.log, w.now, c, intervalUs) && MeasuredRate(w.log, c)
  {
    AsCapableIsEarned(w, intervalUs, enabled, linkUp, gptp, domain, neighborCapable);
    ReachableRates(w);
    var c :| Earned(w.config.own, w.port, w.log, w.now, c, intervalUs);
    RatedAt(w.log, c, PeerRate.Run, DelayValid);
    UsableIsMeasured(w.log, c);
  }

  lemma UsableIsMeasured(log: seq<Mark>, c: nat)
    requires c < |log| && log[c].Committed? && log[c].qualified
    requires DelayValid(PeerRate.Run(EventsOf(log[..c])), log[c].measurement, log[c].followUp)
    ensures MeasuredRate(log, c)
  {
    PeerRate.UsableRateWasMeasured(EventsOf(log[..c]), SampleOf(log[c].measurement, log[c].followUp));
  }
}
