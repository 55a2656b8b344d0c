/** The wired port's peer-delay state as the daemon, the request timer and the link
    events change it, one critical section at a time. */
module PeerPort {
  import opened Arith
  import opened CapableReceive
  import opened PeerExchange
  import PeerRate

  const MAX_PEER_DELAY: real := 100_000.0
  const QUALIFYING_DELAY: int := 800
  const FALLBACK_LOSSES: nat := 9
  const DROP_WINDOW_US: int := 10_000_000

  datatype Capability = Capability(lifecycle: uint32, receivedUs: int, qualified: bool)

  datatype Port = Port(exchange: Exchange, rate: PeerRate.Rate, capability: Capability, averaged: nat, delayNs: int)

  const ZERO_PORT_STATE := Port(ZERO, PeerRate.ZERO_RATE, Capability(0, 0, false), 0, 0)

  /** This clock's identity, and the length of the delay average (a build option). */
  datatype Config = Config(own: PortId, averageMax: nat)

  predicate AsCapable(c: Capability, lifecycle: uint32, now: int, intervalUs: int, enabled: bool, linkUp: bool,
                      gptp: bool, domain: nat, neighborCapable: bool) {
    && enabled && linkUp && gptp && (domain == 0 || neighborCapable) && c.qualified && c.lifecycle == lifecycle
    && 0 < intervalUs <= INT64_MAX / 3 && now >= c.receivedUs && now - c.receivedUs < intervalUs * 3
  }

  /** A latched conflict disqualifies the port in the same critical section. */
  function Judged(p: Port, e: Exchange): Port {
    p.(exchange := e, capability := if e.multiple then p.capability.(qualified := false) else p.capability)
  }

  function ClockStepped(p: Port): Port {
    p.(exchange := Abandon(p.exchange), rate := p.rate.(reanchor := true))
  }

  // ---- From measurement to commit ---------------------------------------------------

  function ToTime(s: Stamp): Timespec { Timespec(s.sec, s.nsec) }

  function Roundtrip(m: Measurement): int { PeerRate.Nanoseconds(m.receive) - PeerRate.Nanoseconds(m.transmit) }

  function Reflection(m: Measurement, f: FollowUp): int {
    PeerRate.Nanoseconds(ToTime(f.origin)) - PeerRate.Nanoseconds(ToTime(m.response.received))
  }

  predicate Plausible(m: Measurement, f: FollowUp) {
    && m.response.received.sec <= f.origin.sec <= m.response.received.sec + 1
    && 0 <= Roundtrip(m) <= BILLION && 0 <= Reflection(m, f) <= BILLION
  }

  function Correction(h: Header): real { h.correction as real / 65536.0 }

  function SampleOf(m: Measurement, f: FollowUp): PeerRate.Sample {
    PeerRate.Sample(m.lifecycle, f.header.source, ToTime(f.origin), Correction(f.header), m.receive)
  }

  function DelayOf(rate: PeerRate.Rate, m: Measurement, f: FollowUp): real
    requires rate.ratio != 0.0
  {
    PeerRate.Delay(rate.ratio, Roundtrip(m), Reflection(m, f), Correction(m.response.header), Correction(f.header))
  }

  predicate DelayValid(rate: PeerRate.Rate, m: Measurement, f: FollowUp) {
    var updated := PeerRate.Update(rate, SampleOf(m, f));
    && updated.1 && PeerRate.DelayInputs(updated.0.ratio, Roundtrip(m), Reflection(m, f))
    && 0.0 <= DelayOf(updated.0, m, f) < MAX_PEER_DELAY
  }

  /** The averaged delay after a valid one, rounded to nanoseconds. */
  function Averaged(count: nat, delayNs: int, rounded: int, averageMax: nat): (nat, int) {
    var n := if count < averageMax then count + 1 else count;
    (n, if n == 0 then delayNs else delayNs + TruncDiv(rounded - delayNs, n))
  }

  predicate Conforming(m: Measurement, f: FollowUp, own: PortId) {
    && m.response.header.messageType == 0x13 && m.response.header.reserved == 0
    && f.header.messageType == 0x1a && f.header.reserved == 0 && f.header.source[..8] != own[..8]
  }

  /** The measurement is still the exchange's, and nothing has conflicted with it. */
  predicate StillCurrent(e: Exchange, m: Measurement) {
    e.generation == m.generation && e.lifecycle == m.lifecycle && !e.multiple
  }

  predicate Commits(p: Port, m: Measurement, f: FollowUp) { Plausible(m, f) && StillCurrent(p.exchange, m) }

  /** The delay average after the commit. */
  function CommitDelay(p: Port, config: Config, rate: PeerRate.Rate, m: Measurement, f: FollowUp): (nat, int) {
    var updated := PeerRate.Update(rate, SampleOf(m, f)).0;
    var start :=
      if p.rate.lifecycle != updated.lifecycle || p.rate.responder != updated.responder then (0, 0)
      else (p.averaged, p.delayNs);
    if DelayValid(rate, m, f)
    then Averaged(start.0, start.1, (DelayOf(updated, m, f) + 0.5).Floor, config.averageMax)
    else start
  }

  predicate Qualifies(p: Port, config: Config, rate: PeerRate.Rate, m: Measurement, f: FollowUp) {
    DelayValid(rate, m, f) && CommitDelay(p, config, rate, m, f).1 <= QUALIFYING_DELAY && Conforming(m, f, config.own)
  }

  /** `rate` is the copy the daemon took with the measurement. */
  function Commit(p: Port, config: Config, rate: PeerRate.Rate, m: Measurement, f: FollowUp, now: int): Port {
    if !Commits(p, m, f) then p
    else
      var delay := CommitDelay(p, config, rate, m, f);
      p.(rate := PeerRate.Update(rate, SampleOf(m, f)).0, averaged := delay.0, delayNs := delay.1,
         capability := Capability(m.lifecycle, now, Qualifies(p, config, rate, m, f)))
  }

  // ---- Fallback ---------------------------------------------------------------------

  /** Inputs of the AVB Lite fallback other than the losses. */
  datatype Setting = Setting(gptp: bool, done: bool, bridged: bool, peerIsEndpoint: bool, multiResponder: bool,
                             lastDropUs: int)

  /** The condition that makes the daemon leave gPTP, 0 for none. */
  function FallbackReason(e: Exchange, s: Setting, now: int): nat {
    var losses := Expire(e, now).lost;
    if !s.gptp || s.done || s.bridged then 0
    else if s.peerIsEndpoint then 1
    else if losses >= FALLBACK_LOSSES then (if s.lastDropUs != 0 && now - s.lastDropUs < DROP_WINDOW_US then 0 else 2)
    else if s.multiResponder then 3
    else 0
  }

  class WiredPort {
    const exchanger: PeerExchanger
    var rate: PeerRate.Rate
    var capability: Capability
    var averaged: nat
    var delayNs: int

    function Value(): Port
      reads this, exchanger
    {
      Port(exchanger.Value(), rate, capability, averaged, delayNs)
    }

    constructor ()
      ensures Value() == ZERO_PORT_STATE && fresh(exchanger)
    {
      exchanger := new PeerExchanger();
      rate, capability, averaged, delayNs := PeerRate.ZERO_RATE, Capability(0, 0, false), 0, 0;
    }

    method ProcessResponse(r: Response, receive: Timespec, now: int) returns (admission: Admission)
      modifies this`capability, exchanger
      ensures Value() == Judged(old(Value()), Respond(old(exchanger.Value()), r, receive, now))
      ensures admission == Admit(old(exchanger.Value()), r, receive, now)
    {
      admission := exchanger.AdmitResponse(r, receive, now);
      if exchanger.multiple { capability := capability.(qualified := false); }
    }

    /** First critical section of a Follow_Up: 0 expects no particular generation. */
    method FinishFollowUp(f: FollowUp, expected: uint32, now: int) returns (outcome: Outcome, copy: PeerRate.Rate)
      modifies this`capability, exchanger
      ensures var skipped := expected != 0 && old(exchanger.generation) != expected;
        && Value() == (if skipped then old(Value()) else Judged(old(Value()), Finish(old(exchanger.Value()), f, now)))
        && outcome == (if skipped then Rejected else Classify(old(exchanger.Value()), f, now))
      ensures copy == rate
    {
      copy := rate;
      if expected != 0 && exchanger.generation != expected { return Rejected, copy; }
      outcome := exchanger.FinishExchange(f, now);
      if exchanger.multiple { capability := capability.(qualified := false); }
    }

    /** Between the critical sections: the rate copy takes the sample, and the delay is
        computed with it. */
    static method Evaluate(copy: PeerRate.Rate, m: Measurement, f: FollowUp)
      returns (updated: PeerRate.Rate, valid: bool, rounded: int)
      ensures updated == PeerRate.Update(copy, SampleOf(m, f)).0
      ensures valid <==> DelayValid(copy, m, f)
      ensures valid ==> rounded == (DelayOf(updated, m, f) + 0.5).Floor
    {
      var estimator := new PeerRate.RateEstimator.Copied(copy);
      var usable := estimator.AddSample(SampleOf(m, f));
      updated, valid, rounded := estimator.Value(), false, 0;
      if usable && PeerRate.DelayInputs(updated.ratio, Roundtrip(m), Reflection(m, f)) {
        var delay := DelayOf(updated, m, f);
        valid := 0.0 <= delay < MAX_PEER_DELAY;
        rounded := (delay + 0.5).Floor;
      }
    }

    /** The running average: each value weighs one part in as many as have been taken. */
    method TakeDelay(rounded: int, averageMax: nat)
      modifies this`averaged, this`delayNs
      ensures (averaged, delayNs) == Averaged(old(averaged), old(delayNs), rounded, averageMax)
    {
      if averaged < averageMax { averaged := averaged + 1; }
      if averaged != 0 { delayNs := delayNs + TruncDiv(rounded - delayNs, averaged); }
    }

    /** The computation between the critical sections, and the second one. */
    method CommitMeasurement(config: Config, copy: PeerRate.Rate, m: Measurement, f: FollowUp, now: int)
      modifies this
      ensures Value() == Commit(old(Value()), config, copy, m, f, now)
    {
      var roundtrip, reflection := Roundtrip(m), Reflection(m, f);
      if f.origin.sec < m.response.received.sec || f.origin.sec - m.response.received.sec > 1 ||
         roundtrip < 0 || roundtrip > BILLION || reflection < 0 || reflection > BILLION { return; }
      var updated, delayValid, rounded := Evaluate(copy, m, f);
      if exchanger.generation != m.generation || exchanger.lifecycle != m.lifecycle || exchanger.multiple { return; }
      if rate.lifecycle != updated.lifecycle || rate.responder != updated.responder {
        averaged := 0;
        delayNs := 0;
      }
      rate := updated;
      if delayValid { TakeDelay(rounded, config.averageMax); }
      capability := Capability(m.lifecycle, now,
                               delayValid && delayNs <= QUALIFYING_DELAY && Conforming(m, f, config.own));
    }

    method CleanAfterStep()
      modifies this`rate, exchanger
      ensures Value() == ClockStepped(old(Value()))
    {
      exchanger.AbandonRequest();
      rate := rate.(reanchor := true);
    }
  }

  /** A measurement is plausible exactly when both its round trip and the responder's
      turnaround take between nothing and a second. */
  lemma PlausibleExactly(m: Measurement, f: FollowUp)
    requires ValidStamp(m.response.received) && ValidStamp(f.origin)
    ensures Plausible(m, f) <==> 0 <= Roundtrip(m) <= 1_000_000_000 && 0 <= Reflection(m, f) <= 1_000_000_000
  {
  }

  /** Conforming messages: a gPTP Pdelay_Resp and its Follow_Up, nothing in the reserved
      field, from another clock. */
  lemma ConformingExactly(m: Measurement, f: FollowUp, own: PortId)
    ensures Conforming(m, f, own) <==>
      && m.response.header.messageType / 16 == 1 && m.response.header.messageType % 16 == 3
      && f.header.messageType / 16 == 1 && f.header.messageType % 16 == 10
      && m.response.header.reserved == f.header.reserved == 0 && f.header.source[..8] != own[..8]
  {
  }

  /** Why the daemon leaves gPTP: never outside it, twice on one link or as a bridge; for an
      endpoint as a peer; for nine losses, unless frames were dropped within ten seconds; or
      for more than one responder while there are fewer losses. */
  lemma FallbackExactly(e: Exchange, s: Setting, now: int)
    ensures var reason, losses := FallbackReason(e, s, now), Expire(e, now).lost;
      var may := s.gptp && !s.done && !s.bridged;
      && (reason == 1 <==> may && s.peerIsEndpoint)
      && (reason == 2 <==>
          may && !s.peerIsEndpoint && losses >= 9 && (s.lastDropUs == 0 || now >= s.lastDropUs + 10_000_000))
      && (reason == 3 <==> may && !s.peerIsEndpoint && losses < 9 && s.multiResponder)
      && reason <= 3
  {
  }
}
