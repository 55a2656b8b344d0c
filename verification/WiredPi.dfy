/** The wired servo: a Q16 proportional-integral controller with conditional
    integration, the roll-back of a refused adjustment and the restart after a step. */
module WiredPi {
  import opened Arith

  const LIMIT: int := 512_000
  const LIMIT_Q16: int := LIMIT * 65536

  function ClampInterval(ns: int): int {
    if ns < 1_000_000 then 1_000_000 else if ns > 4_000_000_000 then 4_000_000_000 else ns
  }

  function Proportional(offset: int, interval: int): int
    requires interval > 0
  {
    if interval <= 250_000_000 then offset * 4 else TruncDiv(offset * BILLION, interval)
  }

  function Numerator(offset: int, interval: int): int {
    if interval <= 250_000_000 then offset * interval else offset * 250_000_000
  }

  function Denominator(interval: int): (d: int)
    ensures interval > 0 ==> d >= 250_000_000
  {
    if interval <= 250_000_000 then 250_000_000 else interval
  }

  function Increment(offset: int, interval: int): int
    requires interval > 0
  {
    TruncDiv(Numerator(offset, interval) * 65536, Denominator(interval))
  }

  /** The integral a step proposes before the saturation test. */
  function Candidate(integralQ16: int, offsetNs: int, intervalNs: int): int {
    Clamp(integralQ16 + Increment(Clamp(offsetNs, BILLION), ClampInterval(intervalNs)), LIMIT_Q16)
  }

  function Unclamped(integralQ16: int, offsetNs: int, intervalNs: int): int {
    Proportional(Clamp(offsetNs, BILLION), ClampInterval(intervalNs)) + TruncDiv(integralQ16, 65536)
  }

  /** The candidate target is saturated on the side the offset pushes to. */
  predicate WindsUp(integralQ16: int, offsetNs: int, intervalNs: int) {
    var target := Unclamped(Candidate(integralQ16, offsetNs, intervalNs), offsetNs, intervalNs);
    (target > LIMIT && offsetNs > 0) || (target < -LIMIT && offsetNs < 0)
  }

  function IntegralAfter(integralQ16: int, offsetNs: int, intervalNs: int): int {
    if WindsUp(integralQ16, offsetNs, intervalNs) then integralQ16
    else Candidate(integralQ16, offsetNs, intervalNs)
  }

  function Output(integralQ16: int, offsetNs: int, intervalNs: int): int {
    Clamp(Unclamped(IntegralAfter(integralQ16, offsetNs, intervalNs), offsetNs, intervalNs), LIMIT)
  }

  /** The change handed to the hardware clock, whose rate is adjusted relatively. */
  function RelativeDelta(previous: int, target: int): int
    requires -BILLION < previous
  {
    TruncDiv((target - previous) * BILLION, BILLION + previous)
  }

  datatype Servo = Servo(integralQ16: int, trimPpb: int)

  predicate Bounded(s: Servo) { Abs(s.integralQ16) <= LIMIT_Q16 && Abs(s.trimPpb) <= LIMIT }

  datatype Event =
    | Observe(offsetNs: int, intervalNs: int, adjusted: bool)
    | Step

  function Next(s: Servo, e: Event): Servo {
    match e
    case Observe(offset, interval, adjusted) =>
      if adjusted then Servo(IntegralAfter(s.integralQ16, offset, interval), Output(s.integralQ16, offset, interval))
      else s
    case Step => Servo(s.trimPpb * 65536, s.trimPpb)
  }

  function Run(s: Servo, events: seq<Event>): Servo
    decreases |events|
  {
    if events == [] then s else Run(Next(s, events[0]), events[1..])
  }

  class WiredServo {
    var integralQ16: int
    var freqTrimPpb: int

    function Value(): Servo
      reads this
    {
      Servo(integralQ16, freqTrimPpb)
    }

    static method Limited(value: int, limit: int) returns (limited: int)
      requires limit >= 0
      ensures limited == Clamp(value, limit)
    {
      limited := value;
      if limited > limit { limited := limit; }
      if limited < -limit { limited := -limit; }
    }

    /** Both gains of one step. The scaled quotient is split as in the controller. */
    static method Gains(offset: int, interval: int) returns (proportional: int, increment: int)
      requires interval > 0
      ensures proportional == Proportional(offset, interval)
      ensures increment == Increment(offset, interval)
    {
      var numerator, denominator;
      if interval <= 250_000_000 {
        proportional := offset * 4;
        numerator := offset * interval;
        denominator := 250_000_000;
      } else {
        proportional := TruncDiv(offset * BILLION, interval);
        numerator := offset * 250_000_000;
        denominator := interval;
      }
      increment := TruncDiv(numerator, denominator) * 65536 +
                       TruncDiv(TruncRem(numerator, denominator) * 65536, denominator);
      SplitQuotient(numerator, 65536, denominator);
    }

    /** One controller step: clamps, conditional integration, output clamp. */
    method PiStep(offsetNs: int, intervalNs: int) returns (target: int)
      modifies this`integralQ16
      ensures integralQ16 == IntegralAfter(old(integralQ16), offsetNs, intervalNs)
      ensures target == Output(old(integralQ16), offsetNs, intervalNs)
    {
      var interval := intervalNs;
      if interval < 1_000_000 { interval := 1_000_000; }
      if interval > 4_000_000_000 { interval := 4_000_000_000; }
      var offset := Limited(offsetNs, BILLION);
      var proportional, increment := Gains(offset, interval);
      var candidate := Limited(integralQ16 + increment, LIMIT_Q16);
      target := proportional + TruncDiv(candidate, 65536);
      if !((target > LIMIT && offset > 0) || (target < -LIMIT && offset < 0)) {
        integralQ16 := candidate;
      }
      target := Limited(proportional + TruncDiv(integralQ16, 65536), LIMIT);
    }

    /** One observation: a refused adjustment restores the integral. */
    method LockFrequency(offsetNs: int, intervalNs: int, adjusted: bool)
      modifies this
      ensures Value() == Next(old(Value()), Observe(offsetNs, intervalNs, adjusted))
    {
      var saved := integralQ16;
      var target := PiStep(offsetNs, intervalNs);
      if adjusted {
        freqTrimPpb := target;
      } else {
        integralQ16 := saved;
      }
    }

    method CleanAfterStep()
      modifies this`integralQ16
      ensures Value() == Next(old(Value()), Event.Step)
    {
      integralQ16 := freqTrimPpb * 65536;
    }
  }

  /** Over every run the integral and the trim stay within their limits. */
  lemma {:induction false} StaysBounded(s: Servo, events: seq<Event>)
    requires Bounded(s)
    ensures Bounded(Run(s, events))
    decreases |events|
  {
    if events == [] {
    } else {
      StaysBounded(Next(s, events[0]), events[1..]);
    }
  }

  /** The integral is frozen exactly when the step would wind up further, or would
      not move; otherwise it moves by the exact truncated quotient, up to its limit. */
  lemma FrozenOrExact(integralQ16: int, offsetNs: int, intervalNs: int)
    requires Abs(integralQ16) <= LIMIT_Q16
    ensures var after := IntegralAfter(integralQ16, offsetNs, intervalNs);
      var increment := Increment(Clamp(offsetNs, BILLION), ClampInterval(intervalNs));
      && (after == integralQ16 <==>
          WindsUp(integralQ16, offsetNs, intervalNs) || Candidate(integralQ16, offsetNs, intervalNs) == integralQ16)
      && (after != integralQ16 && Abs(integralQ16 + increment) <= LIMIT_Q16 ==> after == integralQ16 + increment)
      && (offsetNs >= 0 ==> after >= integralQ16) && (offsetNs <= 0 ==> after <= integralQ16)
  {
    var offset, interval := Clamp(offsetNs, BILLION), ClampInterval(intervalNs);
    SignOfProduct(offset, interval);
    TruncBounds(Numerator(offset, interval) * 65536, Denominator(interval));
    var q := Increment(offset, interval);
    SignOfProduct(Denominator(interval), q);
  }

  // ---- The controller by its arithmetic --------------------------------------------------

  /** 4 per second up to a quarter of a second, then the offset over the interval. */
  function Gain(offset: int, interval: int): int
    requires interval > 0
  {
    if 4 * interval <= BILLION then 4 * offset else TruncDiv(offset * BILLION, interval)
  }

  /** A quarter of the gain, weighted by the interval up to the same bound, in 2^-16 ppb. */
  ghost predicate IsIncrement(increment: int, offset: int, interval: int)
    requires interval > 0
  {
    if 4 * interval <= BILLION then increment == TruncDiv(offset * interval * 65536, 250_000_000)
    else increment == TruncDiv(offset * 250_000_000 * 65536, interval)
  }

  /** What one step does, for offsets within a second and intervals from 1 ms to 4 s: the
      integral stays where it is when the target it would make lies beyond the limit on the
      side of the offset, and otherwise takes the increment up to its own limit; the output
      is the gain plus the whole part of the integral, up to the limit. */
  lemma StepExactly(integralQ16: int, offset: int, interval: int) returns (increment: int)
    requires Abs(offset) <= BILLION && 1_000_000 <= interval <= 4_000_000_000
    ensures IsIncrement(increment, offset, interval)
    ensures var moved := Clamp(integralQ16 + increment, LIMIT_Q16);
      var target := Gain(offset, interval) + TruncDiv(moved, 65536);
      var after := IntegralAfter(integralQ16, offset, interval);
      && after == (if (target > LIMIT && offset > 0) || (target < -LIMIT && offset < 0) then integralQ16 else moved)
      && Output(integralQ16, offset, interval) == Clamp(Gain(offset, interval) + TruncDiv(after, 65536), LIMIT)
  {
    increment := Increment(offset, interval);
  }

  /** Beyond those ranges a step does what it does at their ends. */
  lemma OutOfRange(integralQ16: int, offset: int, interval: int)
    ensures var o := if offset > BILLION then BILLION else if offset < -BILLION then -BILLION else offset;
      var t := if interval < 1_000_000 then 1_000_000 else if interval > 4_000_000_000 then 4_000_000_000 else interval;
      && IntegralAfter(integralQ16, offset, interval) == IntegralAfter(integralQ16, o, t)
      && Output(integralQ16, offset, interval) == Output(integralQ16, o, t)
  {
  }

  /** The output pushes the clock to the side of the offset: it is never against an integral
      and an offset of one sign, and a positive offset gives no less than the integral alone. */
  lemma OutputFollowsOffset(integralQ16: int, offsetNs: int, intervalNs: int)
    requires Abs(integralQ16) <= LIMIT_Q16
    ensures offsetNs >= 0 ==> Output(integralQ16, offsetNs, intervalNs) >= TruncDiv(integralQ16, 65536)
    ensures offsetNs <= 0 ==> Output(integralQ16, offsetNs, intervalNs) <= TruncDiv(integralQ16, 65536)
    ensures offsetNs >= 0 && integralQ16 >= 0 ==> Output(integralQ16, offsetNs, intervalNs) >= 0
    ensures offsetNs <= 0 && integralQ16 <= 0 ==> Output(integralQ16, offsetNs, intervalNs) <= 0
    ensures offsetNs > 0 && integralQ16 >= 0 && intervalNs <= BILLION ==> Output(integralQ16, offsetNs, intervalNs) > 0
    ensures offsetNs < 0 && integralQ16 <= 0 && intervalNs <= BILLION ==> Output(integralQ16, offsetNs, intervalNs) < 0
  {
    FrozenOrExact(integralQ16, offsetNs, intervalNs);
    var after := IntegralAfter(integralQ16, offsetNs, intervalNs);
    QuotientGrows(integralQ16, after, 65536);
    QuotientGrows(after, integralQ16, 65536);
    QuotientGrows(0, integralQ16, 65536);
    QuotientGrows(integralQ16, 0, 65536);
    LimitInWhole(integralQ16);
    var offset, interval := Clamp(offsetNs, BILLION), ClampInterval(intervalNs);
    GainSign(offset, interval);
    Pushes(Proportional(offset, interval), TruncDiv(integralQ16, 65536), TruncDiv(after, 65536));
  }

  /** Adding a gain of one sign, under the limit, never crosses where one started. */
  lemma Pushes(gain: int, before: int, after: int)
    requires Abs(before) <= LIMIT
    ensures gain >= 0 && after >= before ==> Clamp(gain + after, LIMIT) >= before
    ensures gain <= 0 && after <= before ==> Clamp(gain + after, LIMIT) <= before
    ensures gain >= 1 && after >= before >= 0 ==> Clamp(gain + after, LIMIT) >= 1
    ensures gain <= -1 && after <= before <= 0 ==> Clamp(gain + after, LIMIT) <= -1
  {
  }

  lemma GainSign(offset: int, interval: int)
    requires 0 < interval <= 4_000_000_000
    ensures offset >= 0 ==> Proportional(offset, interval) >= 0
    ensures offset <= 0 ==> Proportional(offset, interval) <= 0
    ensures offset >= 1 && interval <= BILLION ==> Proportional(offset, interval) >= 1
    ensures offset <= -1 && interval <= BILLION ==> Proportional(offset, interval) <= -1
  {
    var q := TruncDiv(offset * BILLION, interval);
    TruncBounds(offset * BILLION, interval);
    SignOfProduct(interval, q);
  }

  lemma QuotientGrows(a: int, b: int, d: int)
    requires d > 0
    ensures a <= b ==> TruncDiv(a, d) <= TruncDiv(b, d)
  {
    TruncBounds(a, d);
    TruncBounds(b, d);
    StrictlyBelow(d, TruncDiv(b, d), TruncDiv(a, d));
  }

  lemma LimitInWhole(integralQ16: int)
    requires Abs(integralQ16) <= LIMIT_Q16
    ensures Abs(TruncDiv(integralQ16, 65536)) <= LIMIT
  {
    TruncBounds(integralQ16, 65536);
  }

  /** Every intermediate of a step fits 64 bits, whatever 64-bit offset and interval
      it is given. */
  lemma NoOverflow(integralQ16: int, offsetNs: int, intervalNs: int)
    requires Abs(integralQ16) <= LIMIT_Q16 && FitsInt64(offsetNs) && FitsInt64(intervalNs)
    ensures var offset, interval := Clamp(offsetNs, BILLION), ClampInterval(intervalNs);
      var n, d := Numerator(offset, interval), Denominator(interval);
      && FitsInt64(offset * BILLION) && FitsInt64(Proportional(offset, interval)) && FitsInt64(n)
      && FitsInt64(TruncDiv(n, d) * 65536) && FitsInt64(TruncRem(n, d) * 65536)
      && FitsInt64(TruncDiv(n, d) * 65536 + TruncDiv(TruncRem(n, d) * 65536, d))
      && FitsInt64(integralQ16 + Increment(offset, interval))
      && FitsInt64(Unclamped(Candidate(integralQ16, offsetNs, intervalNs), offsetNs, intervalNs))
  {
    var offset, interval := Clamp(offsetNs, BILLION), ClampInterval(intervalNs);
    var n, d := Numerator(offset, interval), Denominator(interval);
    QuotientWithin(offset * BILLION, interval, BILLION * BILLION);
    NumeratorWithin(offset, interval);
    TruncBounds(n, d);
    SplitQuotient(n, 65536, d);
    var q, r := TruncDiv(n, d), TruncRem(n, d);
    assert Abs(q) <= BILLION by { QuotientBound(n, d, q); }
    assert Abs(r) < d <= 4_000_000_000;
    QuotientWithin(r * 65536, d, 4_000_000_000 * 65536);
    var candidate := Candidate(integralQ16, offsetNs, intervalNs);
    QuotientWithin(candidate, 65536, LIMIT_Q16);
  }

  lemma NumeratorWithin(offset: int, interval: int)
    requires Abs(offset) <= BILLION && 1_000_000 <= interval <= 4_000_000_000
    ensures Abs(Numerator(offset, interval)) <= BILLION * 250_000_000
  {
    if interval <= 250_000_000 {
      var m: nat := Abs(offset);
      SignOfProduct(BILLION - m, interval);
      Difference(interval, BILLION, m);
      assert m * interval <= BILLION * interval <= BILLION * 250_000_000;
      assert Abs(offset * interval) == m * interval;
    }
  }

  lemma QuotientBound(n: int, d: int, q: int)
    requires d >= 250_000_000 && Abs(n) <= BILLION * 250_000_000
    requires n >= 0 ==> 0 <= d * q <= n
    requires n <= 0 ==> n <= d * q <= 0
    ensures Abs(q) <= BILLION
  {
    if q > BILLION {
      StrictlyBelow(d, BILLION, q);
    } else if q < -BILLION {
      StrictlyBelow(d, q, -BILLION);
    }
  }

  lemma QuotientWithin(a: int, d: int, bound: nat)
    requires d > 0 && Abs(a) <= bound
    ensures Abs(TruncDiv(a, d)) <= bound
  {
    TruncBounds(a, d);
    var q := TruncDiv(a, d);
    if q > 0 { AtLeastOnce(q, d); } else if q < 0 { AtLeastOnce(-q, d); NegateProduct(d, -q); }
  }

  /** A relative adjustment carries the clock's absolute rate to the target with an
      error under 1.001 ppb, so trims do not accumulate. */
  lemma RelativeDeltaReaches(previous: int, target: int)
    requires Abs(previous) <= LIMIT && Abs(target) <= LIMIT
    ensures var delta := RelativeDelta(previous, target);
      && -1_001_000_000 < BILLION * target - (BILLION * previous + (BILLION + previous) * delta) < 1_001_000_000
      && (target >= previous ==> delta >= 0) && (target <= previous ==> delta <= 0)
      && -0x8000_0000 <= delta < 0x8000_0000
  {
    TruncBounds((target - previous) * BILLION, BILLION + previous);
    var delta := RelativeDelta(previous, target);
    SignOfProduct(BILLION + previous, delta);
    QuotientSmall((target - previous) * BILLION, BILLION + previous, delta);
  }

  lemma QuotientSmall(n: int, d: int, q: int)
    requires d >= BILLION - LIMIT && Abs(n) <= 2 * LIMIT * BILLION
    requires n >= 0 ==> 0 <= d * q <= n
    requires n <= 0 ==> n <= d * q <= 0
    ensures Abs(q) <= 2_000_000
  {
    if q > 2_000_000 {
      StrictlyBelow(d, 2_000_000, q);
    } else if q < -2_000_000 {
      StrictlyBelow(d, q, -2_000_000);
    }
  }

  /** After a clock step the servo resumes where it was: without an offset its next output is
      the trim in force. */
  lemma StepResumesTrim(s: Servo, intervalNs: int)
    requires Bounded(s)
    ensures Output(Next(s, Step).integralQ16, 0, intervalNs) == s.trimPpb && Next(s, Step).trimPpb == s.trimPpb
  {
    TruncUnique(s.trimPpb * 65536, 65536, s.trimPpb);
  }

  /** A refused adjustment leaves the servo as it was; an accepted one puts the output in force. */
  lemma ObservationsCount(s: Servo, offsetNs: int, intervalNs: int)
    ensures Next(s, Observe(offsetNs, intervalNs, false)) == s
    ensures Next(s, Observe(offsetNs, intervalNs, true)).trimPpb == Output(s.integralQ16, offsetNs, intervalNs)
  {
  }
}
