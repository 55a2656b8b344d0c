/** What the wired port measures of a real link: over a link of constant symmetric delay to a
    neighbor whose clock runs at a constant rate, the commits leave the port with the true
    rate and the true delay, rounded to nanoseconds, and qualify it exactly as that delay
    deserves. */
module PeerLink {
  import opened Arith
  import opened CapableReceive
  import opened PeerExchange
  import opened PeerPort
  import PeerRuns
  import PeerRate

  /** A measured exchange, and the moment the daemon commits it. */
  datatype Pass = Pass(exchange: Exchange, m: Measurement, f: FollowUp, now: int)

  /** The link and the neighbor at its other end. */
  datatype Link = Link(clock: PeerRate.RemoteClock, delay: real, lifecycle: uint32, responder: PortId)

  function TimesOf(x: Pass): PeerRate.Exchanged {
    PeerRate.Exchanged(x.m.transmit, ToTime(x.m.response.received), ToTime(x.f.origin), x.m.receive,
                       Correction(x.m.response.header), Correction(x.f.header))
  }

  /** The exchange really took place over the link, its measurement is plausible, and
      nothing has superseded it when it is committed. */
  predicate Over(x: Pass, link: Link) {
    && PeerRate.Physical(TimesOf(x), link.clock, link.delay)
    && x.m.lifecycle == link.lifecycle && x.f.header.source == link.responder
    && Plausible(x.m, x.f) && StillCurrent(x.exchange, x.m)
  }

  /** A link within what the port accepts. */
  predicate Usual(link: Link) { PeerRate.InRange(link.clock.rho) && 0.0 <= link.delay < MAX_PEER_DELAY }

  /** Between 10 ms and 10 s apart on both clocks. */
  predicate Spaced(x: Pass, y: Pass) {
    PeerRate.SoundSpan(y.m.receive, x.m.receive) && PeerRate.SoundSpan(ToTime(y.f.origin), ToTime(x.f.origin))
  }

  function After(p: Port, config: Config, x: Pass): Port {
    Commit(p.(exchange := x.exchange), config, p.rate, x.m, x.f, x.now)
  }

  /** The estimate has been anchored at this exchange. */
  predicate AnchoredAt(p: Port, link: Link, x: Pass) {
    && p.rate.lifecycle == link.lifecycle && p.rate.responder == link.responder
    && p.rate.anchored && !p.rate.reanchor
    && p.rate.remotePrevious == ToTime(x.f.origin) && p.rate.localPrevious == x.m.receive
    && p.rate.correctionPrevious == Correction(x.f.header)
  }

  predicate NewTo(p: Port, link: Link) { p.rate.lifecycle != link.lifecycle || p.rate.responder != link.responder }

  function Rounded(delay: real): int { (delay + 0.5).Floor }

  /** The first exchange with a new neighbor only anchors the estimate. */
  lemma FirstAnchors(p: Port, config: Config, link: Link, x: Pass)
    requires NewTo(p, link) && Over(x, link)
    ensures var q := After(p, config, x);
      AnchoredAt(q, link, x) && q.averaged == 0 && q.delayNs == 0 && !q.capability.qualified
  {
  }

  /** A further one measures rate and delay. */
  lemma NextMeasures(p: Port, config: Config, link: Link, x: Pass, y: Pass)
    requires AnchoredAt(p, link, x) && Over(x, link) && Over(y, link) && Usual(link) && Spaced(x, y)
    ensures var q := After(p, config, y);
      && AnchoredAt(q, link, y) && q.rate.valid && q.rate.ratio == link.clock.rho
      && (q.averaged, q.delayNs) == Averaged(p.averaged, p.delayNs, Rounded(link.delay), config.averageMax)
      && q.capability == Capability(link.lifecycle, y.now, q.delayNs <= 800 && Conforming(y.m, y.f, config.own))
  {
    PeerRate.RatioIsRho(link.clock, link.delay, TimesOf(x), TimesOf(y));
    PeerRate.DelayIsExact(link.clock, link.delay, TimesOf(y));
    var updated := PeerRate.Update(p.rate, SampleOf(y.m, y.f));
    assert updated.0.ratio == link.clock.rho && updated.1;
    assert DelayOf(updated.0, y.m, y.f) == link.delay;
  }

  /** Averaging a value with itself. */
  lemma AverageOfSame(count: nat, value: int, most: nat)
    requires most > 0
    ensures Averaged(0, 0, value, most) == (1, value)
    ensures count > 0 ==> Averaged(count, value, value, most).1 == value && Averaged(count, value, value, most).0 > 0
  {
  }

  predicate AllOver(passes: seq<Pass>, link: Link) {
    && (forall i :: 0 <= i < |passes| ==> Over(passes[i], link))
    && (forall i :: 0 < i < |passes| ==> Spaced(passes[i - 1], passes[i]))
  }

  function AfterAll(p: Port, config: Config, passes: seq<Pass>): Port
    decreases |passes|
  {
    if passes == [] then p else After(AfterAll(p, config, passes[..|passes| - 1]), config, passes[|passes| - 1])
  }

  /** The port knows the link: the true rate ratio, the true delay, and it is qualified
      exactly when that delay is at most 800 ns and the messages conform. */
  predicate Knows(q: Port, config: Config, link: Link, y: Pass) {
    && AnchoredAt(q, link, y) && q.rate.valid && q.rate.ratio == link.clock.rho
    && q.averaged > 0 && q.delayNs == Rounded(link.delay)
    && q.capability == Capability(link.lifecycle, y.now,
                                  Rounded(link.delay) <= 800 && Conforming(y.m, y.f, config.own))
  }

  lemma KnowsNext(p: Port, config: Config, link: Link, x: Pass, y: Pass)
    requires AnchoredAt(p, link, x) && Over(x, link) && Over(y, link) && Usual(link) && Spaced(x, y)
    requires config.averageMax > 0
    requires if p.averaged == 0 then p.delayNs == 0 else p.delayNs == Rounded(link.delay)
    ensures Knows(After(p, config, y), config, link, y)
  {
    NextMeasures(p, config, link, x, y);
    AverageOfSame(p.averaged, Rounded(link.delay), config.averageMax);
  }

  lemma FrontOver(passes: seq<Pass>, link: Link)
    requires passes != [] && AllOver(passes, link)
    ensures AllOver(passes[..|passes| - 1], link)
  {
    var front := passes[..|passes| - 1];
    forall i | 0 < i < |front|
      ensures Spaced(front[i - 1], front[i])
    {
      assert Spaced(passes[i - 1], passes[i]);
    }
  }

  /** From the second exchange with a new neighbor on, and for every further one, the port
      knows the link. */
  lemma {:induction false} LinkIsMeasured(p: Port, config: Config, link: Link, passes: seq<Pass>)
    requires NewTo(p, link) && Usual(link) && config.averageMax > 0 && |passes| >= 2 && AllOver(passes, link)
    ensures Knows(AfterAll(p, config, passes), config, link, passes[|passes| - 1])
    decreases |passes|
  {
    var last := |passes| - 1;
    var front, x, y := passes[..last], passes[last - 1], passes[last];
    assert Spaced(x, y) && front[last - 1] == x;
    FrontOver(passes, link);
    if |passes| == 2 {
      FirstAnchors(p, config, link, x);
      assert front[..0] == [] && AfterAll(p, config, front) == After(AfterAll(p, config, []), config, x);
    } else {
      LinkIsMeasured(p, config, link, front);
    }
    KnowsNext(AfterAll(p, config, front), config, link, x, y);
  }

  /** In every run, committing what the daemon holds is such a pass. */
  lemma RunCommitsPasses(w: PeerRuns.World)
    requires PeerRuns.Reachable(w) && w.inFlight.Some?
    ensures PeerRuns.Apply(w, PeerRuns.MeasurementCommitted).port ==
      After(w.port, w.config, Pass(w.port.exchange, w.inFlight.value.measurement, w.inFlight.value.followUp, w.now))
  {
    if Commits(w.port, w.inFlight.value.measurement, w.inFlight.value.followUp) {
      PeerRuns.CommitExtendsLiveRate(w);
    }
  }

  /** Each commit moves the average toward the delay measured, by one part in as many as
      have been averaged, up to the configured length. */
  lemma AverageMoves(count: nat, before: int, value: int, most: nat)
    requires most > 0 && count <= most
    ensures var (n, after) := Averaged(count, before, value, most);
      && n == (if count + 1 <= most then count + 1 else most)
      && (value >= before ==> before <= after <= value && value - before - n < n * (after - before) <= value - before)
      && (value <= before ==> value <= after <= before && value - before <= n * (after - before) < value - before + n)
  {
    var n := if count < most then count + 1 else count;
    TruncBounds(value - before, n);
    var q := TruncDiv(value - before, n);
    SignOfProduct(n, q);
    if q > 0 { AtLeastOnce(q, n); } else if q < 0 { AtLeastOnce(-q, n); NegateProduct(n, -q); }
  }
}
