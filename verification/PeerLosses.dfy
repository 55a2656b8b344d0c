/** No published request goes missing: it is completed, counted as lost once its deadline
    has passed, dropped by a clock step or a link change, or replaced before its deadline. */
module PeerLosses {
  import opened Arith
  import opened Bytes
  import opened CapableReceive
  import opened PeerExchange
  import opened PeerPort
  import opened PeerRuns

  ghost predicate Dropped(log: seq<Mark>, g: uint32) {
    exists m :: m in log && (m.Jumped? || m.Relinked?) && m.generation == g + 1
  }

  ghost predicate ReplacedInTime(log: seq<Mark>, g: uint32) {
    exists b, n :: b in log && n in log && b.Began? && n.Began? && b.generation == g && n.generation == g + 1 &&
      n.at < b.deadline
  }

  ghost predicate Fate(log: seq<Mark>, g: uint32) {
    CompletedIn(log, g) || LostIn(log, g) || Dropped(log, g) || ReplacedInTime(log, g)
  }

  /** Every request sent is the current one, still published, or has met its fate. */
  ghost predicate Accounted(e: Exchange, log: seq<Mark>) {
    forall m {:trigger m.Sent?} :: m in log && m.Sent? ==>
      if m.generation == e.generation then e.published else Fate(log, m.generation)
  }

  lemma FateGrows(log: seq<Mark>, m: Mark, g: uint32)
    requires Fate(log, g)
    ensures Fate(log + [m], g)
  {
    Grows(log, m);
    if Dropped(log, g) {
      var x :| x in log && (x.Jumped? || x.Relinked?) && x.generation == g + 1;
      assert x in log + [m];
    }
    if ReplacedInTime(log, g) {
      var b, n :| b in log && n in log && b.Began? && n.Began? && b.generation == g && n.generation == g + 1 &&
        n.at < b.deadline;
      assert b in log + [m] && n in log + [m];
    }
  }

  /** Within a generation, a mark that sends nothing. */
  lemma AccountsGrow(e: Exchange, after: Exchange, log: seq<Mark>, m: Mark)
    requires Accounted(e, log) && after.generation == e.generation && (e.published ==> after.published)
    requires m.Sent? ==> m.generation == after.generation && after.published
    ensures Accounted(after, log + [m])
  {
    forall x | x in log + [m] && x.Sent?
      ensures if x.generation == after.generation then after.published else Fate(log + [m], x.generation)
    {
      if x in log && x.generation != e.generation { FateGrows(log, m, x.generation); }
    }
  }

  /** A new generation, once the last one has met its fate. */
  lemma AccountsTurn(e: Exchange, after: Exchange, log: seq<Mark>, m: Mark)
    requires Accounted(e, log) && after.generation == e.generation + 1 && !m.Sent?
    requires forall x {:trigger x.generation} :: x in log ==> x.generation <= e.generation
    requires e.published ==> Fate(log + [m], e.generation)
    ensures Accounted(after, log + [m])
  {
    forall x | x in log + [m] && x.Sent?
      ensures x.generation != after.generation && Fate(log + [m], x.generation)
    {
      assert x in log;
      if x.generation != e.generation { FateGrows(log, m, x.generation); }
    }
  }

  lemma ExpireAccounts(w: World)
    requires Accounted(w.port.exchange, w.log)
    ensures Accounted(Expired(w).port.exchange, Expired(w).log)
  {
    if Expires(w.port.exchange, w.now) {
      AccountsGrow(w.port.exchange, Expired(w).port.exchange, w.log, Lost(w.port.exchange.generation, w.now));
    } else {
      assert w.log + [] == w.log;
    }
  }

  /** A request is replaced only once it is answered, counted, or before its deadline. */
  lemma RequestAccounts(w: World, sequence: uint16, requester: PortId, deadline: int)
    requires Inv(w) && w.port.exchange.generation < UINT32_MAX && Accounted(w.port.exchange, w.log)
    requires !Expires(w.port.exchange, w.now)
    ensures var v := Requested(w, sequence, requester, deadline); Accounted(v.port.exchange, v.log)
  {
    var e, v := w.port.exchange, Requested(w, sequence, requester, deadline);
    var m := Began(v.port.exchange.generation, sequence, requester, deadline, w.now);
    Grows(w.log, m);
    if e.published && !e.consumed && !e.lossCounted {
      var b :| b in w.log && IsRequest(b, e.generation, e.sequence, e.requester, e.deadlineUs);
      assert b in v.log && m in v.log && m.at < b.deadline;
      assert ReplacedInTime(v.log, e.generation);
    }
    AccountsTurn(e, v.port.exchange, w.log, m);
  }

  lemma DropAccounts(e: Exchange, after: Exchange, log: seq<Mark>, m: Mark)
    requires LogInv(log, e.generation) && Accounted(e, log) && after.generation == e.generation + 1 == m.generation
    requires m.Jumped? || m.Relinked?
    ensures Accounted(after, log + [m])
  {
    assert m in log + [m];
    assert Dropped(log + [m], e.generation);
    AccountsTurn(e, after, log, m);
  }

  lemma TransmitAccounts(w: World, sent: bool, transmit: Timespec)
    requires Inv(w) && w.timer.Some? && Accounted(w.port.exchange, w.log)
    ensures var v := Transmitted(w, sent, transmit); Accounted(v.port.exchange, v.log)
  {
    var e, token := w.port.exchange, w.timer.value;
    if sent && Publishes(e, token, transmit, w.now) {
      AccountsGrow(e, Publish(e, token, transmit, w.now), w.log, Sent(token, transmit, w.now));
    }
  }

  lemma RespondAccounts(w: World, r: Response, rx: Timespec)
    requires Accounted(w.port.exchange, w.log)
    ensures var v := Responded(w, r, rx); Accounted(v.port.exchange, v.log)
  {
    var e := w.port.exchange;
    var kind := Admit(e, r, rx, w.now);
    if kind != Ignored {
      AccountsGrow(e, Respond(e, r, rx, w.now), w.log, Admitted(e.generation, kind, r, rx, w.now));
    }
  }

  lemma FinishAccounts(w: World, f: FollowUp, replayed: bool)
    requires Accounted(w.port.exchange, w.log)
    ensures var v := Finishing(w, f, replayed); Accounted(v.port.exchange, v.log)
  {
    var e := w.port.exchange;
    var marks := OutcomeMarks(e, f, replayed, w.now);
    if marks == [] {
      assert w.log + [] == w.log;
    } else {
      assert marks == [marks[0]];
      AccountsGrow(e, Finish(e, f, w.now), w.log, marks[0]);
    }
  }

  lemma CommitAccounts(w: World)
    requires Accounted(w.port.exchange, w.log) && w.inFlight.Some?
    ensures Accounted(CommittedBy(w).port.exchange, CommittedBy(w).log)
  {
    var e, x := w.port.exchange, w.inFlight.value;
    if Commits(w.port, x.measurement, x.followUp) {
      var port := Commit(w.port, w.config, x.rate, x.measurement, x.followUp, w.now);
      AccountsGrow(e, port.exchange, w.log, CommitMark(e, port, x, w.now));
    }
  }

  lemma DaemonAccounts(w: World, s: Step)
    requires Accounted(w.port.exchange, w.log)
    requires s.ResponseArrived? || s.FollowUpArrived? || s.FollowUpTaken? || s.FollowUpReplayed? ||
      s.MeasurementCommitted?
    ensures Accounted(Apply(w, s).port.exchange, Apply(w, s).log)
  {
    match s {
      case ResponseArrived(r, rx) => RespondAccounts(w, r, rx);
      case FollowUpArrived(f) => if DaemonIdle(w) { FinishAccounts(w, f, false); }
      case FollowUpTaken =>
      case FollowUpReplayed => if w.deferred.Some? { FinishAccounts(w, w.deferred.value.followUp, true); }
      case MeasurementCommitted => if w.inFlight.Some? { CommitAccounts(w); }
    }
  }

  lemma TimerAccounts(w: World, s: Step)
    requires Inv(w) && Room(w, 1) && Accounted(w.port.exchange, w.log) && (s.RequestBegun? || s.RequestSent?)
    ensures Accounted(Apply(w, s).port.exchange, Apply(w, s).log)
  {
    if s.RequestBegun? && w.timer.None? {
      ExpireKeeps(w);
      ExpireAccounts(w);
      RequestAccounts(Expired(w), s.sequence, s.requester, s.deadline);
    } else if s.RequestSent? && w.timer.Some? {
      TransmitAccounts(w, s.sent, s.transmit);
    }
  }

  lemma ArmAccounts(w: World)
    requires Accounted(w.port.exchange, w.log)
    ensures Accounted(Armed(w).port.exchange, Armed(w).log)
  {
    AccountsGrow(w.port.exchange, Armed(w).port.exchange, w.log, Rearmed(w.port.exchange.generation));
  }

  lemma ApplyAccounts(w: World, s: Step)
    requires Inv(w) && Room(w, 1) && Accounted(w.port.exchange, w.log)
    ensures Accounted(Apply(w, s).port.exchange, Apply(w, s).log)
  {
    var e := w.port.exchange;
    match s {
      case Waited(_) =>
      case RequestBegun(_, _, _) => TimerAccounts(w, s);
      case RequestSent(_, _) => TimerAccounts(w, s);
      case LocalClockStepped =>
        DropAccounts(e, Abandon(e), w.log, Jumped(Abandon(e).generation));
      case LinkChanged =>
        DropAccounts(e, Invalidate(e), w.log, Relinked(Invalidate(e).generation));
      case FallbackChecked => ExpireAccounts(w);
      case FallbackArmed => ArmAccounts(w);
      case DelayForgotten =>
      case _ => DaemonAccounts(w, s);
    }
  }

  lemma {:induction false} RunAccounts(w: World, steps: seq<Step>)
    requires Inv(w) && Room(w, |steps|) && Accounted(w.port.exchange, w.log)
    ensures Accounted(Run(w, steps).port.exchange, Run(w, steps).log)
    decreases |steps|
  {
    if steps == [] {
    } else {
      ApplyKeeps(w, steps[0]);
      ApplyLeavesRoom(w, steps[0], |steps|);
      ApplyAccounts(w, steps[0]);
      RunAccounts(Apply(w, steps[0]), steps[1..]);
    }
  }

  // ---- Main results -------------------------------------------------------------------------

  /** Over every interleaving each request sent is the current one or has met its fate. */
  lemma EveryRequestIsAccounted(w: World)
    requires Reachable(w)
    ensures Accounted(w.port.exchange, w.log)
  {
    var config, steps :| |steps| <= UINT32_MAX && w == Run(Start(config), steps);
    StartHolds(config);
    RunAccounts(Start(config), steps);
  }

  /** A request sent and past its own deadline, with no measurement. */
  ghost predicate Overdue(w: World, b: Mark, s: Mark) {
    && b in w.log && s in w.log && b.Began? && s.Sent? && b.deadline <= w.now
    && b.generation == s.generation == w.port.exchange.generation && !CompletedIn(w.log, b.generation)
  }

  /** An overdue request is counted whenever the daemon looks, response or no response,
      and before a new request takes its place. */
  lemma OverdueIsLost(w: World, b: Mark, s: Mark, sequence: uint16, requester: PortId, deadline: int)
    requires Reachable(w) && Overdue(w, b, s)
    ensures LostIn(Apply(w, FallbackChecked).log, b.generation)
    ensures w.timer.None? ==> LostIn(Apply(w, RequestBegun(sequence, requester, deadline)).log, b.generation)
  {
    OverdueExchange(w, b, s);
    LosesOverdue(w);
    if w.timer.None? {
      StaysLost(Expired(w), b.generation, sequence, requester, deadline);
    }
  }

  lemma OverdueExchange(w: World, b: Mark, s: Mark)
    requires Reachable(w) && Overdue(w, b, s)
    ensures ExchangeInv(w.port.exchange, w.log, w.now)
    ensures w.port.exchange.published && w.port.exchange.deadlineUs <= w.now
  {
    ReachableHolds(w);
    EveryRequestIsAccounted(w);
    SameRequest(w, b);
  }

  lemma LosesOverdue(w: World)
    requires ExchangeInv(w.port.exchange, w.log, w.now) && w.port.exchange.published
    requires w.port.exchange.deadlineUs <= w.now && !CompletedIn(w.log, w.port.exchange.generation)
    ensures LostIn(Expired(w).log, w.port.exchange.generation)
  {
    var e, v := w.port.exchange, Expired(w);
    if Expires(e, w.now) {
      assert Lost(e.generation, w.now) in v.log;
    } else {
      assert v.log == w.log;
    }
  }

  lemma StaysLost(w: World, g: uint32, sequence: uint16, requester: PortId, deadline: int)
    requires LostIn(w.log, g)
    ensures LostIn(Requested(w, sequence, requester, deadline).log, g)
  {
    var begun := Begin(w.port.exchange, sequence, requester, deadline);
    Grows(w.log, Began(begun.generation, sequence, requester, deadline, w.now));
  }

  lemma SameRequest(w: World, b: Mark)
    requires Inv(w) && b in w.log && b.Began? && b.generation == w.port.exchange.generation && w.port.exchange.published
    ensures b.deadline == w.port.exchange.deadlineUs
  {
    var e := w.port.exchange;
    var m :| m in w.log && IsRequest(m, e.generation, e.sequence, e.requester, e.deadlineUs);
    OneRequest(w.log, b, m);
  }

  lemma OneRequest(log: seq<Mark>, a: Mark, b: Mark)
    requires NoRivals(log) && a in log && b in log && a.Began? && b.Began? && a.generation == b.generation
    ensures a == b
  {
    var i :| 0 <= i < |log| && log[i] == a;
    var j :| 0 <= j < |log| && log[j] == b;
    if i < j {
      assert Rival(log[i], log[j]);
    } else if j < i {
      assert Rival(log[j], log[i]);
    }
  }
}
