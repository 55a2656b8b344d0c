/** Exactly when the wired port is asCapable: the capability is what the last commit made of
    it, less any conflict since, and the lifecycle counts the link changes. */
module PeerCapable {
  import opened Arith
  import opened Bytes
  import opened CapableReceive
  import opened PeerExchange
  import opened PeerPort
  import opened PeerRuns

  function CapabilityOf(log: seq<Mark>): Capability
    decreases |log|
  {
    if log == [] then Capability(0, 0, false)
    else
      var before, m := CapabilityOf(log[..|log| - 1]), log[|log| - 1];
      if m.Committed? then Capability(m.lifecycle, m.at, m.qualified)
      else if Fault(m) then before.(qualified := false)
      else before
  }

  function Relinks(log: seq<Mark>): (n: nat)
    ensures n <= |log|
    decreases |log|
  {
    if log == [] then 0 else Relinks(log[..|log| - 1]) + if log[|log| - 1].Relinked? then 1 else 0
  }

  /** The port's capability, lifecycle and conflict as the log tells them. */
  ghost predicate Tells(log: seq<Mark>, p: Port) {
    && p.capability == CapabilityOf(log)
    && p.exchange.lifecycle == Relinks(log)
    && (p.exchange.multiple ==> !p.capability.qualified)
    && forall c {:trigger log[c]} :: 0 <= c < |log| && log[c].Committed? ==> log[c].lifecycle == Relinks(log[..c])
  }

  lemma FoldsGrow(log: seq<Mark>, m: Mark)
    ensures CapabilityOf(log + [m]) ==
      if m.Committed? then Capability(m.lifecycle, m.at, m.qualified)
      else if Fault(m) then CapabilityOf(log).(qualified := false)
      else CapabilityOf(log)
    ensures Relinks(log + [m]) == Relinks(log) + if m.Relinked? then 1 else 0
  {
    assert (log + [m])[..|log|] == log;
  }

  lemma TellsGrow(log: seq<Mark>, p: Port, m: Mark, q: Port)
    requires Tells(log, p) && q.exchange.lifecycle == p.exchange.lifecycle + (if m.Relinked? then 1 else 0)
    requires q.capability ==
      if m.Committed? then Capability(m.lifecycle, m.at, m.qualified)
      else if Fault(m) then p.capability.(qualified := false)
      else p.capability
    requires q.exchange.multiple ==> !q.capability.qualified
    requires m.Committed? ==> m.lifecycle == p.exchange.lifecycle
    ensures Tells(log + [m], q)
  {
    FoldsGrow(log, m);
    var more := log + [m];
    forall c | 0 <= c < |more| && more[c].Committed?
      ensures more[c].lifecycle == Relinks(more[..c])
    {
      assert more[..c] == log[..c] && log[..|log|] == log;
      if c < |log| { assert more[c] == log[c]; }
    }
  }

  lemma TellsSame(log: seq<Mark>, p: Port, q: Port)
    requires Tells(log, p) && q.exchange.lifecycle == p.exchange.lifecycle && q.capability == p.capability
    requires q.exchange.multiple ==> !q.capability.qualified
    ensures Tells(log, q)
  {
  }

  lemma ExpireTells(w: World)
    requires Tells(w.log, w.port)
    ensures Tells(Expired(w).log, Expired(w).port)
  {
    if Expires(w.port.exchange, w.now) {
      TellsGrow(w.log, w.port, Lost(w.port.exchange.generation, w.now), Expired(w).port);
    } else {
      assert w.log + [] == w.log;
    }
  }

  lemma RequestTells(w: World, sequence: uint16, requester: PortId, deadline: int)
    requires Tells(w.log, w.port)
    ensures var v := Requested(w, sequence, requester, deadline); Tells(v.log, v.port)
  {
    var v := Requested(w, sequence, requester, deadline);
    TellsGrow(w.log, w.port, Began(v.port.exchange.generation, sequence, requester, deadline, w.now), v.port);
  }

  lemma TransmitTells(w: World, sent: bool, transmit: Timespec)
    requires Tells(w.log, w.port) && w.timer.Some?
    ensures var v := Transmitted(w, sent, transmit); Tells(v.log, v.port)
  {
    var v := Transmitted(w, sent, transmit);
    if sent && Publishes(w.port.exchange, w.timer.value, transmit, w.now) {
      TellsGrow(w.log, w.port, Sent(w.timer.value, transmit, w.now), v.port);
    } else {
      TellsSame(w.log, w.port, v.port);
    }
  }

  lemma RespondTells(w: World, r: Response, rx: Timespec)
    requires Tells(w.log, w.port)
    ensures var v := Responded(w, r, rx); Tells(v.log, v.port)
  {
    var e, v := w.port.exchange, Responded(w, r, rx);
    var kind := Admit(e, r, rx, w.now);
    if kind != Ignored {
      TellsGrow(w.log, w.port, Admitted(e.generation, kind, r, rx, w.now), v.port);
    } else {
      TellsSame(w.log, w.port, v.port);
    }
  }

  lemma FinishTells(w: World, f: FollowUp, replayed: bool)
    requires Tells(w.log, w.port)
    ensures var v := Finishing(w, f, replayed); Tells(v.log, v.port)
  {
    var e, v := w.port.exchange, Finishing(w, f, replayed);
    match Classify(e, f, w.now) {
      case Rejected =>
        assert w.log + [] == w.log;
        TellsSame(w.log, w.port, v.port);
      case Clash => TellsGrow(w.log, w.port, Clashed(e.generation, w.now), v.port);
      case Retained => TellsGrow(w.log, w.port, Kept(e.generation, f, w.now), v.port);
      case Measured(x) => TellsGrow(w.log, w.port, Completed(e.generation, x, f, replayed, w.now), v.port);
    }
  }

  lemma CommitTells(w: World)
    requires Tells(w.log, w.port) && w.inFlight.Some?
    ensures Tells(CommittedBy(w).log, CommittedBy(w).port)
  {
    var x := w.inFlight.value;
    if Commits(w.port, x.measurement, x.followUp) {
      var port := Commit(w.port, w.config, x.rate, x.measurement, x.followUp, w.now);
      TellsGrow(w.log, w.port, CommitMark(w.port.exchange, port, x, w.now), port);
    }
  }

  lemma DaemonTells(w: World, s: Step)
    requires Tells(w.log, w.port)
    requires s.ResponseArrived? || s.FollowUpArrived? || s.FollowUpTaken? || s.FollowUpReplayed? ||
      s.MeasurementCommitted?
    ensures Tells(Apply(w, s).log, Apply(w, s).port)
  {
    match s {
      case ResponseArrived(r, rx) => RespondTells(w, r, rx);
      case FollowUpArrived(f) => if DaemonIdle(w) { FinishTells(w, f, false); }
      case FollowUpTaken => TellsSame(w.log, w.port, Apply(w, s).port);
      case FollowUpReplayed => if w.deferred.Some? { FinishTells(w, w.deferred.value.followUp, true); }
      case MeasurementCommitted => if w.inFlight.Some? { CommitTells(w); }
    }
  }

  lemma TimerTells(w: World, s: Step)
    requires Tells(w.log, w.port) && (s.RequestBegun? || s.RequestSent?)
    ensures Tells(Apply(w, s).log, Apply(w, s).port)
  {
    if s.RequestBegun? && w.timer.None? {
      ExpireTells(w);
      RequestTells(Expired(w), s.sequence, s.requester, s.deadline);
    } else if s.RequestSent? && w.timer.Some? {
      TransmitTells(w, s.sent, s.transmit);
    }
  }

  lemma ApplyTells(w: World, s: Step)
    requires Tells(w.log, w.port) && Room(w, 1)
    ensures Tells(Apply(w, s).log, Apply(w, s).port)
  {
    match s {
      case Waited(_) =>
      case RequestBegun(_, _, _) => TimerTells(w, s);
      case RequestSent(_, _) => TimerTells(w, s);
      case LocalClockStepped => TellsGrow(w.log, w.port, Jumped(Stepped(w).port.exchange.generation), Stepped(w).port);
      case LinkChanged => TellsGrow(w.log, w.port, Relinked(Linked(w).port.exchange.generation), Linked(w).port);
      case FallbackChecked => ExpireTells(w);
      case FallbackArmed => TellsGrow(w.log, w.port, Rearmed(w.port.exchange.generation), Armed(w).port);
      case DelayForgotten => TellsSame(w.log, w.port, Forgotten(w).port);
      case _ => DaemonTells(w, s);
    }
  }

  lemma {:induction false} RunTells(w: World, steps: seq<Step>)
    requires Tells(w.log, w.port) && Room(w, |steps|)
    ensures Tells(Run(w, steps).log, Run(w, steps).port)
    decreases |steps|
  {
    if steps == [] {
    } else {
      ApplyTells(w, steps[0]);
      ApplyLeavesRoom(w, steps[0], |steps|);
      RunTells(Apply(w, steps[0]), steps[1..]);
    }
  }

  // ---- Main result -----------------------------------------------------------------------------

  /** The last commit, at c, qualified the port, and neither a conflict nor a link change has
      come since. */
  ghost predicate Stands(log: seq<Mark>, c: int) {
    && 0 <= c < |log| && log[c].Committed? && log[c].qualified
    && forall i :: c < i < |log| ==> !log[i].Committed? && !Fault(log[i]) && !log[i].Relinked?
  }

  lemma {:induction false} RelinksAreLater(log: seq<Mark>, c: nat)
    requires c <= |log|
    ensures Relinks(log[..c]) <= Relinks(log)
    ensures Relinks(log[..c]) == Relinks(log) <==> forall i :: c <= i < |log| ==> !log[i].Relinked?
    decreases |log|
  {
    if c == |log| {
      assert log[..c] == log;
    } else {
      var front := log[..|log| - 1];
      RelinksAreLater(front, c);
      assert front[..c] == log[..c];
      assert forall i :: 0 <= i < |front| ==> front[i] == log[i];
    }
  }

  /** What the fold says, in terms of one commit. */
  lemma {:induction false} CapabilityIsLastCommit(log: seq<Mark>)
    ensures CapabilityOf(log).qualified <==> exists c :: QualifiedLast(log, c)
    ensures forall c :: QualifiedLast(log, c) ==> CapabilityOf(log) == Capability(log[c].lifecycle, log[c].at, true)
    decreases |log|
  {
    if log == [] {
    } else {
      var last := |log| - 1;
      var front, m := log[..last], log[last];
      CapabilityIsLastCommit(front);
      forall c | QualifiedLast(log, c)
        ensures CapabilityOf(log) == Capability(log[c].lifecycle, log[c].at, true)
      {
        if c < last { QualifiedFront(log, c); }
      }
      if CapabilityOf(log).qualified {
        if m.Committed? {
          assert QualifiedLast(log, last);
        } else {
          var c :| QualifiedLast(front, c);
          QualifiedLonger(log, c);
        }
      }
    }
  }

  ghost predicate QualifiedLast(log: seq<Mark>, c: int) {
    && 0 <= c < |log| && log[c].Committed? && log[c].qualified
    && forall i :: c < i < |log| ==> !log[i].Committed? && !Fault(log[i])
  }

  lemma QualifiedFront(log: seq<Mark>, c: int)
    requires QualifiedLast(log, c) && c < |log| - 1
    ensures QualifiedLast(log[..|log| - 1], c)
  {
  }

  lemma QualifiedLonger(log: seq<Mark>, c: int)
    requires log != [] && QualifiedLast(log[..|log| - 1], c)
    requires !log[|log| - 1].Committed? && !Fault(log[|log| - 1])
    ensures QualifiedLast(log, c)
  {
    var front := log[..|log| - 1];
    forall i | c < i < |log|
      ensures !log[i].Committed? && !Fault(log[i])
    {
      assert i < |front| ==> log[i] == front[i];
    }
  }

  lemma ReachableTells(w: World)
    requires Reachable(w)
    ensures Tells(w.log, w.port)
  {
    var config, steps :| |steps| <= UINT32_MAX && w == Run(Start(config), steps);
    StartHolds(config);
    RunTells(Start(config), steps);
  }

  /** On an enabled gPTP port with its link up, in domain 0 or with a capable neighbor,
      asCapable holds if and only if the last commit qualified the port less than three
      request intervals ago, with neither a conflict nor a link change since. */
  lemma AsCapableExactly(w: World, intervalUs: int, domain: nat, neighborCapable: bool)
    requires Reachable(w) && 0 < intervalUs <= INT64_MAX / 3 && (domain == 0 || neighborCapable)
    ensures AsCapable(w.port.capability, w.port.exchange.lifecycle, w.now, intervalUs, true, true, true, domain,
                      neighborCapable)
       <==> exists c :: Stands(w.log, c) && w.log[c].at <= w.now < w.log[c].at + 3 * intervalUs
  {
    ReachableTells(w);
    CapableByLog(w.port, w.log, w.now, intervalUs);
  }

  lemma CapableByLog(p: Port, log: seq<Mark>, now: int, intervalUs: int)
    requires Tells(log, p)
    ensures (p.capability.qualified && p.capability.lifecycle == p.exchange.lifecycle &&
             p.capability.receivedUs <= now < p.capability.receivedUs + 3 * intervalUs)
       <==> exists c :: Stands(log, c) && log[c].at <= now < log[c].at + 3 * intervalUs
  {
    CapabilityIsLastCommit(log);
    forall c | QualifiedLast(log, c)
      ensures Stands(log, c) <==> log[c].lifecycle == p.exchange.lifecycle
    {
      RelinksAreLater(log, c);
      assert log[c].lifecycle == Relinks(log[..c]) && !log[c].Relinked?;
    }
    if p.capability.qualified && p.capability.lifecycle == p.exchange.lifecycle {
      var c :| QualifiedLast(log, c);
      assert Stands(log, c);
    }
    forall c | Stands(log, c)
      ensures QualifiedLast(log, c)
    {
    }
  }

  /** Each of the other conditions is needed. */
  lemma OtherwiseNotCapable(w: World, intervalUs: int, enabled: bool, linkUp: bool, gptp: bool, domain: nat,
                            neighborCapable: bool)
    requires !enabled || !linkUp || !gptp || (domain != 0 && !neighborCapable)
    ensures !AsCapable(w.port.capability, w.port.exchange.lifecycle, w.now, intervalUs, enabled, linkUp, gptp, domain,
                       neighborCapable)
  {
  }
}
