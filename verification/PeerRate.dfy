/** The neighbor's rate ratio and the peer delay computed with it, over real numbers.
    Failed intervals of a neighbor that is otherwise sound are kept over, at most three
    in a row; a step of the local clock restarts elapsed times only. */
module PeerRate {
  import opened Arith
  import opened CapableReceive
  import opened PeerExchange

  const OUTLIERS_MAX: nat := 3
  const RATIO_MIN: real := 0.999
  const RATIO_MAX: real := 1.001

  datatype Rate = Rate(lifecycle: uint32, responder: PortId, anchored: bool, valid: bool, reanchor: bool,
                       remotePrevious: Timespec, localPrevious: Timespec, correctionPrevious: real,
                       ratio: real, updates: nat, outliers: nat)

  const ZERO_RATE := Rate(0, ZERO_PORT, false, false, false, Timespec(0, 0), Timespec(0, 0), 0.0, 0.0, 0, 0)

  /** One completed exchange: the responder's transmit time and its correction, and the
      local receive time. */
  datatype Sample = Sample(lifecycle: uint32, responder: PortId, remote: Timespec, correction: real, local: Timespec)

  function Nanoseconds(t: Timespec): int { t.sec * BILLION + t.nsec }

  function Elapsed(current: Timespec, previous: Timespec): real {
    (Nanoseconds(current) - Nanoseconds(previous)) as real
  }

  /** Between 10 ms and 10 s, and no step back of the seconds. */
  predicate SoundSpan(current: Timespec, previous: Timespec) {
    && previous.sec <= current.sec <= previous.sec + 10
    && 10_000_000 <= Nanoseconds(current) - Nanoseconds(previous) <= 10 * BILLION
  }

  function RatioOf(remote: real, correction: real, correctionPrevious: real, local: real): real
    requires local != 0.0
  {
    (remote + correction - correctionPrevious) / local
  }

  predicate InRange(ratio: real) { RATIO_MIN <= ratio <= RATIO_MAX }

  /** The ratio of the interval between two samples, when both spans are sound. */
  predicate Spans(s: Sample, remotePrevious: Timespec, localPrevious: Timespec) {
    SoundSpan(s.local, localPrevious) && SoundSpan(s.remote, remotePrevious)
  }

  function Restarted(r: Rate, s: Sample): Rate {
    if r.lifecycle != s.lifecycle || r.responder != s.responder
    then ZERO_RATE.(lifecycle := s.lifecycle, responder := s.responder) else r
  }

  function Anchored(r: Rate, s: Sample): Rate {
    r.(remotePrevious := s.remote, localPrevious := s.local, correctionPrevious := s.correction, anchored := true)
  }

  predicate Measures(r: Rate, s: Sample) {
    && r.anchored && Spans(s, r.remotePrevious, r.localPrevious)
    && InRange(RatioOf(Elapsed(s.remote, r.remotePrevious), s.correction, r.correctionPrevious,
                       Elapsed(s.local, r.localPrevious)))
  }

  /** The rate after a sample, and whether it may be used. */
  function Update(rate: Rate, s: Sample): (result: (Rate, bool))
    ensures result.1 ==> result.0.valid && result.0.lifecycle == s.lifecycle && result.0.responder == s.responder
  {
    var r := Restarted(rate, s);
    if r.reanchor then (Anchored(r, s).(reanchor := false), r.valid)
    else if Measures(r, s) then
      var ratio := RatioOf(Elapsed(s.remote, r.remotePrevious), s.correction, r.correctionPrevious,
                           Elapsed(s.local, r.localPrevious));
      (Anchored(r, s).(outliers := 0, valid := true, ratio := ratio, updates := r.updates + 1), true)
    else if r.anchored && SoundSpan(s.local, r.localPrevious) && r.valid && r.outliers < OUTLIERS_MAX then
      (Anchored(r, s).(outliers := r.outliers + 1), true)
    else (Anchored(r, s).(outliers := 0, valid := false, ratio := 0.0), false)
  }

  predicate DelayInputs(ratio: real, roundtrip: int, reflection: int) {
    InRange(ratio) && 0 <= roundtrip <= BILLION && 0 <= reflection <= BILLION
  }

  /** The one-way delay in local units: the remote turnaround is converted first. */
  function Delay(ratio: real, roundtrip: int, reflection: int, responseCorrection: real, followCorrection: real): real
    requires ratio != 0.0
  {
    (roundtrip as real - (reflection as real + followCorrection - responseCorrection) / ratio) / 2.0
  }

  class RateEstimator {
    var lifecycle: uint32
    var responder: PortId
    var anchored: bool
    var valid: bool
    var reanchor: bool
    var remotePrevious: Timespec
    var localPrevious: Timespec
    var correctionPrevious: real
    var ratio: real
    var updates: nat
    var outliers: nat

    function Value(): Rate
      reads this
    {
      Rate(lifecycle, responder, anchored, valid, reanchor, remotePrevious, localPrevious, correctionPrevious, ratio,
           updates, outliers)
    }

    constructor ()
      ensures Value() == ZERO_RATE
    {
      lifecycle, responder, anchored, valid, reanchor := 0, ZERO_PORT, false, false, false;
      remotePrevious, localPrevious := Timespec(0, 0), Timespec(0, 0);
      correctionPrevious, ratio, updates, outliers := 0.0, 0.0, 0, 0;
    }

    constructor Copied(r: Rate)
      ensures Value() == r
    {
      lifecycle, responder, anchored, valid, reanchor := r.lifecycle, r.responder, r.anchored, r.valid, r.reanchor;
      remotePrevious, localPrevious := r.remotePrevious, r.localPrevious;
      correctionPrevious, ratio, updates, outliers := r.correctionPrevious, r.ratio, r.updates, r.outliers;
    }

    method Restart(s: Sample)
      modifies this
      ensures Value() == Restarted(old(Value()), s)
    {
      if lifecycle == s.lifecycle && responder == s.responder { return; }
      lifecycle := s.lifecycle;
      responder := s.responder;
      anchored := false;
      valid := false;
      reanchor := false;
      remotePrevious := Timespec(0, 0);
      localPrevious := Timespec(0, 0);
      correctionPrevious := 0.0;
      ratio := 0.0;
      updates := 0;
      outliers := 0;
    }

    method Anchor(s: Sample)
      modifies this`remotePrevious, this`localPrevious, this`correctionPrevious, this`anchored
      ensures Value() == Anchored(old(Value()), s)
    {
      remotePrevious := s.remote;
      localPrevious := s.local;
      correctionPrevious := s.correction;
      anchored := true;
    }

    method AddSample(s: Sample) returns (usable: bool)
      modifies this
      ensures Value() == Update(old(Value()), s).0 && usable == Update(old(Value()), s).1
    {
      Restart(s);
      if reanchor {
        reanchor := false;
        Anchor(s);
        return valid;
      }
      var localSound := anchored && SoundSpan(s.local, localPrevious);
      var measured := localSound && SoundSpan(s.remote, remotePrevious);
      var value :=
        if measured
        then RatioOf(Elapsed(s.remote, remotePrevious), s.correction, correctionPrevious,
                     Elapsed(s.local, localPrevious))
        else 0.0;
      measured := measured && InRange(value);
      Anchor(s);
      if !measured && localSound && valid && outliers < OUTLIERS_MAX {
        outliers := outliers + 1;
        return true;
      }
      outliers := 0;
      valid := measured;
      ratio := if measured then value else 0.0;
      if measured { updates := updates + 1; }
      return measured;
    }
  }

  // ---- Exactness -----------------------------------------------------------------------

  /** The remote clock in terms of the local one: `rho` remote units per local unit. */
  datatype RemoteClock = RemoteClock(rho: real, offset: real)

  function At(c: RemoteClock, local: real): real { c.rho * local + c.offset }

  /** An exchange over a link of constant symmetric delay: the request sent at t1 reaches
      the responder `delay` later, the response leaves it `delay` before t4. Corrected
      remote times are on the remote clock's line. */
  datatype Exchanged = Exchanged(t1: Timespec, t2: Timespec, t3: Timespec, t4: Timespec, responseCorrection: real,
                                 followCorrection: real)

  predicate Physical(x: Exchanged, c: RemoteClock, delay: real) {
    && Nanoseconds(x.t2) as real + x.responseCorrection == At(c, Nanoseconds(x.t1) as real + delay)
    && Nanoseconds(x.t3) as real + x.followCorrection == At(c, Nanoseconds(x.t4) as real - delay)
  }

  function SampleOf(x: Exchanged, lifecycle: uint32, responder: PortId): Sample {
    Sample(lifecycle, responder, x.t3, x.followCorrection, x.t4)
  }

  /** Two sound exchanges with a clock of any rate in range give the true rate ratio and
      the true delay, exactly. */
  lemma TwoExchangesAreExact(rate: Rate, c: RemoteClock, delay: real, x: Exchanged, y: Exchanged, lifecycle: uint32,
                             responder: PortId)
    requires InRange(c.rho) && Physical(x, c, delay) && Physical(y, c, delay)
    requires SoundSpan(y.t4, x.t4) && SoundSpan(y.t3, x.t3)
    ensures var first := Update(rate, SampleOf(x, lifecycle, responder)).0;
      var second := Update(first, SampleOf(y, lifecycle, responder));
      && second.1 && second.0.ratio == c.rho
      && Delay(second.0.ratio, Nanoseconds(y.t4) - Nanoseconds(y.t1), Nanoseconds(y.t3) - Nanoseconds(y.t2),
               y.responseCorrection, y.followCorrection) == delay
  {
    var s, t := SampleOf(x, lifecycle, responder), SampleOf(y, lifecycle, responder);
    var first := Update(rate, s).0;
    assert Restarted(first, t) == first && !first.reanchor;
    RatioIsRho(c, delay, x, y);
    DelayIsExact(c, delay, y);
  }

  lemma RatioIsRho(c: RemoteClock, delay: real, x: Exchanged, y: Exchanged)
    requires InRange(c.rho) && Physical(x, c, delay) && Physical(y, c, delay) && SoundSpan(y.t4, x.t4)
    ensures RatioOf(Elapsed(y.t3, x.t3), y.followCorrection, x.followCorrection, Elapsed(y.t4, x.t4)) == c.rho
  {
    var span := Elapsed(y.t4, x.t4);
    var a, b := Nanoseconds(x.t4) as real, Nanoseconds(y.t4) as real;
    assert span == b - a;
    LineDifference(c, b - delay, a - delay);
    assert Elapsed(y.t3, x.t3) + y.followCorrection - x.followCorrection == c.rho * span;
    Cancelled(c.rho, span);
  }

  lemma LineDifference(c: RemoteClock, b: real, a: real)
    ensures At(c, b) - At(c, a) == c.rho * (b - a)
  {
    assert c.rho * (b - a) == c.rho * b - c.rho * a;
  }

  lemma Cancelled(x: real, d: real)
    requires d != 0.0
    ensures (x * d) / d == x
  {
  }

  lemma DelayIsExact(c: RemoteClock, delay: real, y: Exchanged)
    requires InRange(c.rho) && Physical(y, c, delay)
    ensures Delay(c.rho, Nanoseconds(y.t4) - Nanoseconds(y.t1), Nanoseconds(y.t3) - Nanoseconds(y.t2),
                  y.responseCorrection, y.followCorrection) == delay
  {
    var a, b := Nanoseconds(y.t1) as real, Nanoseconds(y.t4) as real;
    var turnaround := (Nanoseconds(y.t3) - Nanoseconds(y.t2)) as real + y.followCorrection - y.responseCorrection;
    LineDifference(c, b - delay, a + delay);
    var inside := b - a - 2.0 * delay;
    assert turnaround == c.rho * inside;
    assert c.rho * inside == inside * c.rho;
    Cancelled(inside, c.rho);
  }

  // ---- Runs ------------------------------------------------------------------------------

  datatype Event = Completed(sample: Sample) | ClockStep

  function Next(r: Rate, e: Event): Rate {
    match e
    case Completed(s) => Update(r, s).0
    case ClockStep => r.(reanchor := true)
  }

  function Run(events: seq<Event>): Rate
    decreases |events|
  {
    if events == [] then ZERO_RATE else Next(Run(events[..|events| - 1]), events[|events| - 1])
  }

  predicate SameNeighbor(s: Sample, t: Sample) { s.lifecycle == t.lifecycle && s.responder == t.responder }

  /** Events k-1 and k are exchanges with one neighbor whose sound interval has this
      ratio, in range. */
  predicate MeasuredAt(events: seq<Event>, k: int, ratio: real) {
    && 0 < k < |events| && events[k - 1].Completed? && events[k].Completed?
    && var s, t := events[k - 1].sample, events[k].sample;
       && SameNeighbor(s, t) && Spans(t, s.remote, s.local) && InRange(ratio)
       && ratio == RatioOf(Elapsed(t.remote, s.remote), t.correction, s.correction, Elapsed(t.local, s.local))
  }

  /** Every exchange from k on is with the neighbor of the last one. */
  predicate OneNeighbor(events: seq<Event>, k: int, last: Sample) {
    forall i :: k <= i < |events| && 0 <= i && events[i].Completed? ==> SameNeighbor(events[i].sample, last)
  }

  /** Intervals after k: exchanges that follow directly on an exchange. */
  function IntervalsSince(events: seq<Event>, k: int): nat
    requires 0 <= k
    decreases |events|
  {
    if |events| <= k + 1 then 0
    else
      var last := |events| - 1;
      IntervalsSince(events[..last], k) + (if events[last].Completed? && events[last - 1].Completed? then 1 else 0)
  }

  ghost predicate Justified(events: seq<Event>, rate: Rate) {
    exists k :: MeasuredAt(events, k, rate.ratio) && IntervalsSince(events, k) == rate.outliers &&
      OneNeighbor(events, k, Sample(rate.lifecycle, rate.responder, rate.remotePrevious, 0.0, rate.localPrevious))
  }

  /** What the state remembers of the run. */
  ghost predicate Remembers(events: seq<Event>, rate: Rate) {
    && rate.outliers <= OUTLIERS_MAX
    && (rate.reanchor <==> events != [] && events[|events| - 1].ClockStep?)
    && (events != [] && events[|events| - 1].Completed? ==>
          var s := events[|events| - 1].sample;
          rate.anchored && rate.lifecycle == s.lifecycle && rate.responder == s.responder &&
          rate.remotePrevious == s.remote && rate.localPrevious == s.local && rate.correctionPrevious == s.correction)
    && (rate.valid ==> rate.anchored && Justified(events, rate))
    && (events == [] ==> rate == ZERO_RATE)
  }

  lemma Extends(events: seq<Event>, e: Event, k: int, ratio: real)
    requires MeasuredAt(events, k, ratio)
    ensures MeasuredAt(events + [e], k, ratio)
    ensures IntervalsSince(events + [e], k) ==
            IntervalsSince(events, k) + (if e.Completed? && events[|events| - 1].Completed? then 1 else 0)
  {
    assert (events + [e])[..|events|] == events;
  }

  lemma NextRemembers(events: seq<Event>, e: Event, rate: Rate)
    requires Remembers(events, rate)
    ensures Remembers(events + [e], Next(rate, e))
  {
    var after, more := Next(rate, e), events + [e];
    assert more[..|events|] == events;
    if e.Completed? && events != [] && events[|events| - 1].Completed? &&
       SameNeighbor(events[|events| - 1].sample, e.sample) && Measures(rate, e.sample) {
      assert MeasuredAt(more, |events|, after.ratio) && IntervalsSince(more, |events|) == 0;
    } else if after.valid {
      var k :| MeasuredAt(events, k, rate.ratio) && IntervalsSince(events, k) == rate.outliers &&
        OneNeighbor(events, k, Sample(rate.lifecycle, rate.responder, rate.remotePrevious, 0.0, rate.localPrevious));
      Extends(events, e, k, rate.ratio);
      assert OneNeighbor(more, k,
                         Sample(after.lifecycle, after.responder, after.remotePrevious, 0.0, after.localPrevious));
    }
  }

  lemma {:induction false} RunRemembers(events: seq<Event>)
    ensures Remembers(events, Run(events))
    decreases |events|
  {
    if events == [] {
    } else {
      var last := |events| - 1;
      RunRemembers(events[..last]);
      NextRemembers(events[..last], events[last], Run(events[..last]));
      assert events[..last] + [events[last]] == events;
    }
  }

  /** Whenever a run ends with an exchange whose rate may be used, that rate was measured
      between two consecutive exchanges with the same neighbor in the same lifecycle, is
      in range, every exchange since was with that neighbor, and at most three intervals
      since have failed, re-anchors included. */
  lemma UsableRateWasMeasured(events: seq<Event>, s: Sample)
    requires Update(Run(events), s).1
    ensures var rate := Update(Run(events), s).0;
      var all := events + [Completed(s)];
      exists k :: MeasuredAt(all, k, rate.ratio) && InRange(rate.ratio) && OneNeighbor(all, k, s) &&
        IntervalsSince(all, k) <= OUTLIERS_MAX
  {
    RunRemembers(events);
    NextRemembers(events, Completed(s), Run(events));
    var rate, all := Update(Run(events), s).0, events + [Completed(s)];
    var k :| MeasuredAt(all, k, rate.ratio) && IntervalsSince(all, k) == rate.outliers &&
      OneNeighbor(all, k, Sample(rate.lifecycle, rate.responder, rate.remotePrevious, 0.0, rate.localPrevious));
    assert OneNeighbor(all, k, s);
  }

  // ---- By the arithmetic -----------------------------------------------------------------------

  /** Time in nanoseconds: in the order of seconds, then nanoseconds, and additive. */
  lemma NanosecondsOrder(a: Timespec, b: Timespec)
    requires ValidTime(a) && ValidTime(b)
    ensures Nanoseconds(a) < Nanoseconds(b) <==> a.sec < b.sec || (a.sec == b.sec && a.nsec < b.nsec)
    ensures Nanoseconds(a.(nsec := a.nsec + 1)) == Nanoseconds(a) + 1
    ensures Nanoseconds(a.(sec := a.sec + 1)) == Nanoseconds(a) + 1_000_000_000
    ensures Nanoseconds(Timespec(0, 0)) == 0
  {
  }

  /** An interval is sound from 10 ms to 10 s. */
  lemma SoundExactly(current: Timespec, previous: Timespec)
    requires ValidTime(current) && ValidTime(previous)
    ensures SoundSpan(current, previous) <==>
      10_000_000 <= Nanoseconds(current) - Nanoseconds(previous) <= 10_000_000_000
  {
  }

  /** The remote and local time an interval took, and the ratio between them. */
  predicate Measured(r: Rate, s: Sample, ratio: real) {
    var local := Nanoseconds(s.local) - Nanoseconds(r.localPrevious);
    var remote := Nanoseconds(s.remote) - Nanoseconds(r.remotePrevious);
    && 10_000_000 <= local <= 10_000_000_000 && 10_000_000 <= remote <= 10_000_000_000
    && IsRatio(ratio, remote as real + s.correction - r.correctionPrevious, local as real)
  }

  predicate IsRatio(ratio: real, rest: real, local: real) { ratio * local == rest && 0.999 <= ratio <= 1.001 }

  lemma RatioExactly(ratio: real, rest: real, local: real)
    requires local != 0.0
    ensures InRange(rest / local) ==> IsRatio(rest / local, rest, local)
    ensures IsRatio(ratio, rest, local) ==> ratio == rest / local && InRange(ratio)
  {
    Ratio(rest, local);
    if IsRatio(ratio, rest, local) { OneRatio(ratio, rest / local, local); }
  }

  predicate AnchoredOn(r: Rate, s: Sample) {
    && r.anchored && !r.reanchor && r.lifecycle == s.lifecycle && r.responder == s.responder
    && r.remotePrevious == s.remote && r.localPrevious == s.local && r.correctionPrevious == s.correction
  }

  /** What a sample does to an estimate, whatever it is. It always becomes the anchor. With a
      new neighbor, or nothing to measure from, the estimate is not usable. After a clock
      step it keeps what it had. Otherwise a sound interval gives its ratio; an unsound one
      is passed over while the local time is sound, the ratio was valid and fewer than three
      in a row were; else the ratio is given up. */
  lemma UpdatedExactly(r: Rate, s: Sample)
    requires ValidTime(r.localPrevious) && ValidTime(r.remotePrevious) && ValidTime(s.local) && ValidTime(s.remote)
    ensures var (t, usable) := Update(r, s);
      && AnchoredOn(t, s)
      && (if r.lifecycle != s.lifecycle || r.responder != s.responder then !usable && !t.valid && t.outliers == 0
          else if r.reanchor then usable == t.valid == r.valid && t.ratio == r.ratio && t.outliers == r.outliers
          else if !r.anchored then !usable && !t.valid && t.outliers == 0
          else if exists ratio :: Measured(r, s, ratio) then
            usable && t.valid && Measured(r, s, t.ratio) && t.outliers == 0 && t.updates == r.updates + 1
          else if r.valid && r.outliers < 3 &&
                  10_000_000 <= Nanoseconds(s.local) - Nanoseconds(r.localPrevious) <= 10_000_000_000
          then usable && t.valid && t.ratio == r.ratio && t.outliers == r.outliers + 1
          else !usable && !t.valid && t.outliers == 0 && t.ratio == 0.0 && t.updates == r.updates)
  {
    if r.lifecycle == s.lifecycle && r.responder == s.responder && !r.reanchor && r.anchored {
      SoundExactly(s.local, r.localPrevious);
      IntervalExactly(r, s);
    }
  }

  /** An interval is measured exactly when there is a ratio for it, and then by that one. */
  lemma IntervalExactly(r: Rate, s: Sample)
    requires ValidTime(r.localPrevious) && ValidTime(r.remotePrevious) && ValidTime(s.local) && ValidTime(s.remote)
    requires r.anchored
    ensures Measures(r, s) <==> exists ratio :: Measured(r, s, ratio)
    ensures Measures(r, s) ==>
      Measured(r, s, RatioOf(Elapsed(s.remote, r.remotePrevious), s.correction, r.correctionPrevious,
                             Elapsed(s.local, r.localPrevious)))
  {
    SoundExactly(s.local, r.localPrevious);
    SoundExactly(s.remote, r.remotePrevious);
    if SoundSpan(s.local, r.localPrevious) && SoundSpan(s.remote, r.remotePrevious) {
      var local, rest := Elapsed(s.local, r.localPrevious),
                         Elapsed(s.remote, r.remotePrevious) + s.correction - r.correctionPrevious;
      forall ratio
        ensures IsRatio(ratio, rest, local) ==> ratio == rest / local && InRange(ratio)
      {
        RatioExactly(ratio, rest, local);
      }
      RatioExactly(0.0, rest, local);
      assert InRange(rest / local) ==> Measured(r, s, rest / local);
    }
  }

  lemma Ratio(rest: real, local: real)
    requires local != 0.0
    ensures rest / local * local == rest
  {
  }

  lemma OneRatio(a: real, b: real, local: real)
    requires local != 0.0 && a * local == b * local
    ensures a == b
  {
    Cancelled(a, local);
    Cancelled(b, local);
  }
}
