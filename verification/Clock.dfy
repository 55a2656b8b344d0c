/** The affine software clock and its disciplining step. A reading is
    `ptp + d + trunc(d * rate / 10^9)`, where d is the local time since the anchor. */
module Clock {
  import opened Arith

  const RATE_LIMIT: int := 100_000_000
  const TRIM_LIMIT: int := 200_000
  const APPLIED_LIMIT: int := 512_000

  datatype Affine = Affine(localNs: int, ptpNs: int, ratePpb: int)

  /** Whole seconds and the rest are scaled apart; CorrectionIsExact says that loses nothing. */
  function RateCorrection(deltaNs: int, ratePpb: int): int {
    TruncDiv(deltaNs, BILLION) * ratePpb + TruncDiv(TruncRem(deltaNs, BILLION) * ratePpb, BILLION)
  }

  function Now(c: Affine, localNs: int): int {
    var delta := localNs - c.localNs;
    c.ptpNs + delta + RateCorrection(delta, c.ratePpb)
  }

  function Reanchored(c: Affine, localNs: int, offsetNs: int): Affine {
    c.(localNs := localNs, ptpNs := Now(c, localNs) + offsetNs)
  }

  function AdjustedRate(ratePpb: int, adjustment: int): int {
    Clamp(ratePpb + TruncDiv(ratePpb * adjustment, BILLION) + adjustment, RATE_LIMIT)
  }

  function Target(nowNs: int, localAnchor: int, referenceAnchor: int, ratePpb: int): int {
    var elapsed := nowNs - localAnchor;
    referenceAnchor + elapsed + RateCorrection(elapsed, ratePpb)
  }

  function AppliedRate(ratePpb: int, phaseError: int, step: bool): int {
    Clamp(if step then ratePpb else ratePpb + Clamp(phaseError, TRIM_LIMIT), APPLIED_LIMIT)
  }

  /** The clock object. Every method is specified on its whole value. */
  class SoftClock {
    var localNs: int
    var ptpNs: int
    var ratePpb: int

    function Value(): Affine
      reads this
    {
      Affine(localNs, ptpNs, ratePpb)
    }

    constructor (localNs: int, initialNs: int)
      ensures Value() == Affine(localNs, initialNs, 0)
    {
      this.localNs, ptpNs, ratePpb := localNs, initialNs, 0;
    }

    method Read(at: int) returns (ns: int)
      ensures ns == Now(Value(), at)
    {
      var delta := at - localNs;
      ns := ptpNs + delta + RateCorrection(delta, ratePpb);
    }

    method Reanchor(at: int, offsetNs: int)
      modifies this
      ensures Value() == Reanchored(old(Value()), at, offsetNs)
    {
      var ns := Read(at);
      ptpNs := ns + offsetNs;
      localNs := at;
    }

    method AdjustRate(at: int, adjustment: int32)
      modifies this
      ensures Value() == Apply(old(Value()), Adjust(at, adjustment))
    {
      Reanchor(at, 0);
      var rate := ratePpb;
      rate := rate + TruncDiv(rate * adjustment, BILLION) + adjustment;
      if rate > RATE_LIMIT { rate := RATE_LIMIT; }
      if rate < -RATE_LIMIT { rate := -RATE_LIMIT; }
      ratePpb := rate;
    }

    method Discipline(at: int, localAnchor: int, referenceAnchor: int, rate: int32, step: bool)
      returns (phaseError: int)
      modifies this
      ensures phaseError == PhaseError(old(Value()), Slew(at, localAnchor, referenceAnchor, rate))
      ensures !step ==> Value() == Apply(old(Value()), Slew(at, localAnchor, referenceAnchor, rate))
      ensures step ==>
        Value() == Affine(at, Target(at, localAnchor, referenceAnchor, rate), AppliedRate(rate, phaseError, true))
    {
      var elapsed := at - localAnchor;
      var target := referenceAnchor + elapsed + RateCorrection(elapsed, rate);
      var actual := Read(at);
      phaseError := target - actual;
      var phaseTrim := phaseError;
      if phaseTrim > TRIM_LIMIT { phaseTrim := TRIM_LIMIT; }
      if phaseTrim < -TRIM_LIMIT { phaseTrim := -TRIM_LIMIT; }
      var applied := if step then rate else rate + phaseTrim;
      if applied > APPLIED_LIMIT { applied := APPLIED_LIMIT; }
      if applied < -APPLIED_LIMIT { applied := -APPLIED_LIMIT; }
      localNs := at;
      ptpNs := if step then target else actual;
      ratePpb := applied;
    }
  }

  /** One operation on the running clock, at a local instant. */
  datatype Op =
    | Adjust(at: int, adjustment: int32)
    | Slew(at: int, localAnchor: int, referenceAnchor: int, ratePpb: int32)

  function PhaseError(c: Affine, op: Op): int
    requires op.Slew?
  {
    Target(op.at, op.localAnchor, op.referenceAnchor, op.ratePpb) - Now(c, op.at)
  }

  function Apply(c: Affine, op: Op): Affine {
    match op
    case Adjust(at, adjustment) => Affine(at, Now(c, at), AdjustedRate(c.ratePpb, adjustment))
    case Slew(at, _, _, rate) => Affine(at, Now(c, at), AppliedRate(rate, PhaseError(c, op), false))
  }

  function After(c: Affine, ops: seq<Op>): Affine
    decreases |ops|
  {
    if ops == [] then c else After(Apply(c, ops[0]), ops[1..])
  }

  predicate Sane(c: Affine) { -RATE_LIMIT <= c.ratePpb <= RATE_LIMIT }

  /** The operations happen at nondecreasing instants within [from, to]. */
  predicate Ordered(from: int, ops: seq<Op>, to: int)
    decreases |ops|
  {
    if ops == [] then from <= to else from <= ops[0].at && Ordered(ops[0].at, ops[1..], to)
  }

  /** The split product is the exact truncated product for every span and rate. */
  lemma CorrectionIsExact(deltaNs: int, ratePpb: int)
    ensures RateCorrection(deltaNs, ratePpb) == TruncDiv(deltaNs * ratePpb, BILLION)
  {
    SplitQuotient(deltaNs, ratePpb, BILLION);
  }

  /** At every rate the clock can hold, no 64-bit span overflows a partial product,
      although the unsplit product would. */
  lemma CorrectionFits(deltaNs: int, ratePpb: int)
    requires FitsInt64(deltaNs) && -RATE_LIMIT <= ratePpb <= RATE_LIMIT
    ensures FitsInt64(TruncDiv(deltaNs, BILLION) * ratePpb)
    ensures FitsInt64(TruncRem(deltaNs, BILLION) * ratePpb)
    ensures FitsInt64(RateCorrection(deltaNs, ratePpb))
    ensures !FitsInt64(INT64_MAX * RATE_LIMIT)
  {
    TruncBounds(deltaNs, BILLION);
    var q, r := TruncDiv(deltaNs, BILLION), TruncRem(deltaNs, BILLION);
    assert Abs(q) <= 9_223_372_037 && Abs(r) < BILLION;
    ProductWithin(q, ratePpb, 9_223_372_037, RATE_LIMIT);
    ProductWithin(r, ratePpb, BILLION, RATE_LIMIT);
    TruncBounds(r * ratePpb, BILLION);
  }

  lemma ProductWithin(x: int, y: int, m: nat, n: nat)
    requires Abs(x) <= m && Abs(y) <= n
    ensures -(m * n) <= x * y <= m * n
  {
    Monotone(Abs(x), m, Abs(y));
    Monotone(Abs(y), n, m);
    assert x * y == Abs(x) * Abs(y) || x * y == -(Abs(x) * Abs(y));
  }

  lemma Monotone(a: nat, b: nat, k: nat)
    requires a <= b
    ensures a * k <= b * k
  {
    SignOfProduct(k, b - a);
    Difference(k, b, a);
  }

  lemma SaneAfter(c: Affine, ops: seq<Op>)
    requires Sane(c)
    ensures Sane(After(c, ops))
    decreases |ops|
  {
    if ops != [] { SaneAfter(Apply(c, ops[0]), ops[1..]); }
  }

  /** Within one affine segment. */
  lemma Segment(c: Affine, a: int, b: int)
    requires Sane(c) && c.localNs <= a <= b
    ensures var gained := Now(c, b) - Now(c, a);
      gained >= 0 && 9 * (b - a) - 10 < 10 * gained < 11 * (b - a) + 10
    ensures a == c.localNs ==> 9 * (b - a) <= 10 * (Now(c, b) - Now(c, a)) <= 11 * (b - a)
  {
    var x, y := a - c.localNs, b - c.localNs;
    CorrectionIsExact(x, c.ratePpb);
    CorrectionIsExact(y, c.ratePpb);
    Gain(x, y, c.ratePpb);
    GainFromAnchor(y, c.ratePpb);
  }

  lemma Gain(x: int, y: int, r: int)
    requires 0 <= x <= y && -RATE_LIMIT <= r <= RATE_LIMIT
    ensures var gained := y - x + (TruncDiv(y * r, BILLION) - TruncDiv(x * r, BILLION));
      gained >= 0 && 9 * (y - x) - 10 < 10 * gained < 11 * (y - x) + 10
  {
    var p, q, span := x * r, y * r, y - x;
    SignOfProduct(x, r);
    SignOfProduct(y, r);
    RoundedDifference(p, q);
    assert q - p == span * r by { Difference(r, y, x); }
    ProductWithin(span, r, span, RATE_LIMIT);
    SpanFromRounding(span, q - p, TruncDiv(q, BILLION) - TruncDiv(p, BILLION));
  }

  lemma GainFromAnchor(y: int, r: int)
    requires 0 <= y && -RATE_LIMIT <= r <= RATE_LIMIT
    ensures 9 * y <= 10 * (y + TruncDiv(y * r, BILLION)) <= 11 * y
  {
    var q := y * r;
    ProductWithin(y, r, y, RATE_LIMIT);
    TruncBounds(q, BILLION);
    SpanFromAnchor(y, q, TruncDiv(q, BILLION));
  }

  lemma RoundedDifference(p: int, q: int)
    requires (p >= 0 && q >= 0) || (p <= 0 && q <= 0)
    ensures -BILLION < BILLION * (TruncDiv(q, BILLION) - TruncDiv(p, BILLION)) - (q - p) < BILLION
  {
    TruncBounds(p, BILLION);
    TruncBounds(q, BILLION);
  }

  lemma SpanFromRounding(span: int, scaled: int, rounded: int)
    requires 0 <= span && -(span * RATE_LIMIT) <= scaled <= span * RATE_LIMIT
    requires -BILLION < BILLION * rounded - scaled < BILLION
    ensures span + rounded >= 0 && 9 * span - 10 < 10 * (span + rounded) < 11 * span + 10
  {
  }

  lemma SpanFromAnchor(span: int, scaled: int, rounded: int)
    requires 0 <= span && -(span * RATE_LIMIT) <= scaled <= span * RATE_LIMIT
    requires scaled >= 0 ==> 0 <= BILLION * rounded <= scaled
    requires scaled <= 0 ==> scaled <= BILLION * rounded <= 0
    ensures 9 * span <= 10 * (span + rounded) <= 11 * span
  {
  }

  /** Monotonicity and bounded speed over every run of rate adjustments and slewing
      disciplines: software time never goes backward, and over any span it advances
      between 9/10 and 11/10 of the local time, up to the one nanosecond a reading in
      the middle of a segment is rounded by. (ClockPace says exactly when it is not needed.) */
  lemma {:induction false} SpeedIsBounded(c: Affine, ops: seq<Op>, a: int, b: int)
    requires Sane(c) && c.localNs <= a && Ordered(a, ops, b)
    ensures var gained := Now(After(c, ops), b) - Now(c, a);
      && a <= b && gained >= 0
      && 9 * (b - a) - 10 < 10 * gained < 11 * (b - a) + 10
      && (a == c.localNs ==> 9 * (b - a) <= 10 * gained <= 11 * (b - a))
    decreases |ops|
  {
    if ops == [] {
      Segment(c, a, b);
    } else {
      var next := Apply(c, ops[0]);
      Segment(c, a, ops[0].at);
      CorrectionIsExact(0, next.ratePpb);
      assert Now(next, ops[0].at) == Now(c, ops[0].at);
      SpeedIsBounded(next, ops[1..], ops[0].at, b);
    }
  }

  /** Re-anchoring with an offset shifts the clock by it: exactly at the instant, and ever
      after within the nanosecond by which readings of one line may round apart. */
  lemma ReanchorShifts(c: Affine, at: int, offset: int, later: int)
    requires c.localNs <= at <= later
    ensures var next := Reanchored(c, at, offset);
      && next.ratePpb == c.ratePpb && next.localNs == at && Now(next, at) == Now(c, at) + offset
      && -1 <= Now(next, later) - (Now(c, later) + offset) <= 1
  {
    var next, x, y := Reanchored(c, at, offset), at - c.localNs, later - c.localNs;
    CorrectionIsExact(0, c.ratePpb);
    CorrectionIsExact(x, c.ratePpb);
    CorrectionIsExact(y, c.ratePpb);
    CorrectionIsExact(y - x, c.ratePpb);
    assert later - at == y - x;
    Apart(x, y, c.ratePpb);
  }

  lemma Apart(x: int, y: int, r: int)
    requires 0 <= x <= y
    ensures -1 <= TruncDiv((y - x) * r, BILLION) - (TruncDiv(y * r, BILLION) - TruncDiv(x * r, BILLION)) <= 1
  {
    RoundedLine(x, y, r);
    TruncBounds((y - x) * r, BILLION);
  }

  // ---- Rate adjustments -----------------------------------------------------------------

  /** An adjustment speeds the clock up by its own ratio: up to less than a part per billion,
      the new speed is the old one times one plus the adjustment, unless the limit stops it;
      and never slows it for a positive adjustment or speeds it up for a negative one. */
  lemma AdjustmentCompounds(c: Affine, at: int, adjustment: int32)
    requires Sane(c) && Abs(adjustment) <= BILLION
    ensures var next := Apply(c, Adjust(at, adjustment));
      var exact := (BILLION + c.ratePpb) * (BILLION + adjustment) - BILLION * BILLION;
      && Sane(next) && next.localNs == at && next.ptpNs == Now(c, at)
      && (Abs(next.ratePpb) < RATE_LIMIT ==> -BILLION < BILLION * next.ratePpb - exact < BILLION)
      && (next.ratePpb == RATE_LIMIT ==> exact > BILLION * (RATE_LIMIT - 1))
      && (next.ratePpb == -RATE_LIMIT ==> exact < -BILLION * (RATE_LIMIT - 1))
      && (adjustment >= 0 ==> next.ratePpb >= c.ratePpb) && (adjustment <= 0 ==> next.ratePpb <= c.ratePpb)
  {
    var r, a := c.ratePpb, adjustment;
    var q := TruncDiv(r * a, BILLION);
    TruncBounds(r * a, BILLION);
    Compound(r, a);
    ProductWithin(r, a, RATE_LIMIT, Abs(a));
    SmallCross(r * a, q, Abs(a));
  }

  lemma Compound(r: int, a: int)
    ensures (BILLION + r) * (BILLION + a) - BILLION * BILLION == BILLION * (r + a) + r * a
  {
  }

  /** The cross term is less than the adjustment itself. */
  lemma SmallCross(product: int, q: int, a: int)
    requires a >= 0 && -(RATE_LIMIT * a) <= product <= RATE_LIMIT * a
    requires product >= 0 ==> 0 <= BILLION * q <= product
    requires product <= 0 ==> product <= BILLION * q <= 0
    ensures -a <= q <= a
  {
  }

  // ---- Phase error of the disciplining step -------------------------------------

  /** Two targets lie on one line of the given rate, up to less than a nanosecond. */
  predicate OnLine(elapsed: int, gained: int, ratePpb: int) {
    -BILLION < BILLION * (gained - elapsed) - elapsed * ratePpb < BILLION
  }

  /** Targets computed from one reference anchor are on its line. */
  lemma SameAnchorIsOnLine(a: int, b: int, localAnchor: int, referenceAnchor: int, ratePpb: int)
    requires localAnchor <= a <= b
    ensures var first, second := Target(a, localAnchor, referenceAnchor, ratePpb),
                                 Target(b, localAnchor, referenceAnchor, ratePpb);
      OnLine(b - a, second - first, ratePpb)
  {
    var x, y := a - localAnchor, b - localAnchor;
    CorrectionIsExact(x, ratePpb);
    CorrectionIsExact(y, ratePpb);
    RoundedLine(x, y, ratePpb);
  }

  lemma RoundedLine(x: int, y: int, r: int)
    requires 0 <= x <= y
    ensures OnLine(y - x, y - x + TruncDiv(y * r, BILLION) - TruncDiv(x * r, BILLION), r)
  {
    SignOfProduct(x, r);
    SignOfProduct(y, r);
    RoundedDifference(x * r, y * r);
    assert (y - x) * r == y * r - x * r by { Difference(r, y, x); }
  }

  /** What the slew applied at one step leaves of the phase error at the next one: the
      clamped error times the elapsed fraction of a second is gone, within 2 ns. */
  lemma OneStep(c: Affine, first: Op, second: Op)
    requires first.Slew? && second.Slew? && first.ratePpb == second.ratePpb
    requires -TRIM_LIMIT <= first.ratePpb <= TRIM_LIMIT
    requires first.at <= second.at <= first.at + BILLION
    requires OnLine(second.at - first.at,
      Target(second.at, second.localAnchor, second.referenceAnchor, second.ratePpb) -
      Target(first.at, first.localAnchor, first.referenceAnchor, first.ratePpb), first.ratePpb)
    ensures var before, after := PhaseError(c, first), PhaseError(Apply(c, first), second);
      -2 * BILLION < BILLION * (after - before) + (second.at - first.at) * Clamp(before, TRIM_LIMIT) < 2 * BILLION
  {
    var next := Apply(c, first);
    var d, rate := second.at - first.at, first.ratePpb;
    var trim := Clamp(PhaseError(c, first), TRIM_LIMIT);
    assert next.ratePpb == rate + trim;
    CorrectionIsExact(d, next.ratePpb);
    var gained := TruncDiv(d * next.ratePpb, BILLION);
    assert Now(next, second.at) == Now(c, first.at) + d + gained;
    var line := Target(second.at, second.localAnchor, second.referenceAnchor, second.ratePpb) -
                Target(first.at, first.localAnchor, first.referenceAnchor, first.ratePpb);
    Remainder(d, rate, trim, line, gained);
    assert PhaseError(next, second) - PhaseError(c, first) == line - d - gained;
  }

  lemma Remainder(d: int, rate: int, trim: int, line: int, gained: int)
    requires d >= 0 && OnLine(d, line, rate) && gained == TruncDiv(d * (rate + trim), BILLION)
    ensures -2 * BILLION < BILLION * (line - d - gained) + d * trim < 2 * BILLION
  {
    var whole := d * (rate + trim);
    assert whole == d * rate + d * trim by { Difference(d, rate, -trim); NegateProduct(d, trim); }
    TruncBounds(whole, BILLION);
  }

  /** No overshoot and no growth beyond rounding: a step taken at most a second later
      finds the error between zero and its earlier value, less than 2 ns outside. */
  lemma NoOvershoot(c: Affine, first: Op, second: Op)
    requires first.Slew? && second.Slew? && first.ratePpb == second.ratePpb
    requires -TRIM_LIMIT <= first.ratePpb <= TRIM_LIMIT
    requires first.at <= second.at <= first.at + BILLION
    requires OnLine(second.at - first.at,
      Target(second.at, second.localAnchor, second.referenceAnchor, second.ratePpb) -
      Target(first.at, first.localAnchor, first.referenceAnchor, first.ratePpb), first.ratePpb)
    ensures var before, after := PhaseError(c, first), PhaseError(Apply(c, first), second);
      (before >= 0 ==> -2 < after < before + 2) && (before <= 0 ==> before - 2 < after < 2)
  {
    OneStep(c, first, second);
    var before := PhaseError(c, first);
    var d, trim := second.at - first.at, Clamp(before, TRIM_LIMIT);
    SignOfProduct(d, trim);
    FractionOf(d, trim);
  }

  lemma FractionOf(d: int, x: int)
    requires 0 <= d <= BILLION
    ensures x >= 0 ==> 0 <= d * x <= BILLION * x
    ensures x <= 0 ==> BILLION * x <= d * x <= 0
  {
    if x >= 0 {
      Monotone(d, BILLION, x);
    } else {
      Monotone(d, BILLION, -x);
    }
    SignOfProduct(d, x);
  }

  // A discipline run: slewing steps of one rate, consecutive targets on its line,
  // spaced between `spacing` and one second.
  predicate DisciplineRun(ops: seq<Op>, ratePpb: int32, spacing: int) {
    && (forall i :: 0 <= i < |ops| ==> ops[i].Slew? && ops[i].ratePpb == ratePpb)
    && (forall i :: 0 <= i < |ops| - 1 ==> Consecutive(ops[i], ops[i + 1], spacing))
  }

  predicate Consecutive(first: Op, second: Op, spacing: int)
    requires first.Slew? && second.Slew?
  {
    && first.at + spacing <= second.at <= first.at + BILLION
    && OnLine(second.at - first.at,
              Target(second.at, second.localAnchor, second.referenceAnchor, second.ratePpb) -
              Target(first.at, first.localAnchor, first.referenceAnchor, first.ratePpb), first.ratePpb)
  }

  /** The magnitude of the error shrinks by the clamped slew of the elapsed time. */
  lemma Shrinks(c: Affine, first: Op, second: Op, spacing: int)
    requires first.Slew? && second.Slew? && first.ratePpb == second.ratePpb
    requires -TRIM_LIMIT <= first.ratePpb <= TRIM_LIMIT
    requires 0 <= spacing && Consecutive(first, second, spacing)
    ensures var before, after := PhaseError(c, first), PhaseError(Apply(c, first), second);
      BILLION * Abs(after) <= BILLION * Abs(before) - spacing * Abs(Clamp(before, TRIM_LIMIT)) + 2 * BILLION
  {
    OneStep(c, first, second);
    ShrunkMagnitude(PhaseError(c, first), PhaseError(Apply(c, first), second), second.at - first.at, spacing);
  }

  lemma ShrunkMagnitude(before: int, after: int, d: int, spacing: int)
    requires 0 <= spacing <= d <= BILLION
    requires -2 * BILLION < BILLION * (after - before) + d * Clamp(before, TRIM_LIMIT) < 2 * BILLION
    ensures BILLION * Abs(after) <= BILLION * Abs(before) - spacing * Abs(Clamp(before, TRIM_LIMIT)) + 2 * BILLION
  {
    var trim := Clamp(before, TRIM_LIMIT);
    FractionOf(d, trim);
    Monotone(spacing, d, Abs(trim));
    if before < 0 {
      NegateProduct(d, trim);
    }
  }

  // ---- The envelope of repeated steps ----------------------------------------------------

  /** The fraction of a second that steps `spacing` apart leave for the slew. */
  function Fraction(spacing: int): real { spacing as real / 1_000_000_000.0 }

  function Least(x: real, y: real): real { if x < y then x else y }

  /** The most one step can leave of an error of magnitude e. */
  function Left(e: real, spacing: int): real { e - Fraction(spacing) * Least(e, TRIM_LIMIT as real) + 2.0 }

  function Envelope(e: real, spacing: int, n: nat): real
    decreases n
  {
    if n == 0 then e else Envelope(Left(e, spacing), spacing, n - 1)
  }

  lemma LeftIsMonotone(d: real, e: real, spacing: int)
    requires 0 <= spacing <= BILLION && d <= e
    ensures Left(d, spacing) <= Left(e, spacing)
  {
    var p, x, y := Fraction(spacing), Least(d, TRIM_LIMIT as real), Least(e, TRIM_LIMIT as real);
    assert 0.0 <= y - x <= e - d && 0.0 <= p <= 1.0;
    assert p * (y - x) <= y - x;
    assert p * (y - x) == p * y - p * x;
  }

  lemma {:induction false} EnvelopeIsMonotone(d: real, e: real, spacing: int, n: nat)
    requires 0 <= spacing <= BILLION && d <= e
    ensures Envelope(d, spacing, n) <= Envelope(e, spacing, n)
    decreases n
  {
    if n == 0 {
    } else {
      LeftIsMonotone(d, e, spacing);
      EnvelopeIsMonotone(Left(d, spacing), Left(e, spacing), spacing, n - 1);
    }
  }

  /** What steps `spacing` apart take off an error beyond the clamp. */
  function Slewed(spacing: int): real { Fraction(spacing) * TRIM_LIMIT as real - 2.0 }

  /** Beyond the clamp the envelope falls linearly, and it never returns there. */
  lemma {:induction false} EnvelopeIsLinear(e: real, spacing: int, n: nat)
    requires 0 <= spacing <= BILLION && Slewed(spacing) >= 0.0
    ensures Envelope(e, spacing, n) <= TRIM_LIMIT as real || Envelope(e, spacing, n) <= e - n as real * Slewed(spacing)
    decreases n
  {
    if n == 0 {
    } else {
      var limit, slewed := TRIM_LIMIT as real, Slewed(spacing);
      EnvelopeIsLinear(Left(e, spacing), spacing, n - 1);
      if e < limit {
        LeftIsMonotone(e, limit, spacing);
        assert (n - 1) as real * slewed >= 0.0;
      } else {
        assert n as real * slewed == (n - 1) as real * slewed + slewed;
      }
    }
  }

  function Power(q: real, n: nat): real { if n == 0 then 1.0 else q * Power(q, n - 1) }

  /** A geometric decay toward the resting error. */
  function Decayed(e: real, resting: real, q: real, n: nat): real { resting + Power(q, n) * (e - resting) }

  /** Where the slew of one step only makes up for its rounding. */
  function Resting(spacing: int): real
    requires spacing > 0
  {
    2.0 / Fraction(spacing)
  }

  /** Inside the clamp the envelope is a geometric decay. */
  lemma {:induction false} EnvelopeIsGeometric(e: real, spacing: int, n: nat)
    requires 0 < spacing <= BILLION && Slewed(spacing) >= 0.0 && e <= TRIM_LIMIT as real
    ensures Envelope(e, spacing, n) == Decayed(e, Resting(spacing), 1.0 - Fraction(spacing), n)
    decreases n
  {
    if n == 0 {
    } else {
      LeftIsMonotone(e, TRIM_LIMIT as real, spacing);
      EnvelopeIsGeometric(Left(e, spacing), spacing, n - 1);
      LeftDecays(e, spacing);
      DecaysOnce(e, Left(e, spacing), Resting(spacing), 1.0 - Fraction(spacing), n);
    }
  }

  lemma LeftDecays(e: real, spacing: int)
    requires 0 < spacing && e <= TRIM_LIMIT as real
    ensures Left(e, spacing) - Resting(spacing) == (1.0 - Fraction(spacing)) * (e - Resting(spacing))
  {
    TowardFloor(e, Fraction(spacing));
  }

  lemma DecaysOnce(e: real, next: real, resting: real, q: real, n: nat)
    requires n > 0 && next - resting == q * (e - resting)
    ensures Decayed(next, resting, q, n - 1) == Decayed(e, resting, q, n)
  {
    Reassociate(Power(q, n - 1), q, e - resting);
  }

  lemma TowardFloor(e: real, p: real)
    requires p > 0.0
    ensures e - p * e + 2.0 - 2.0 / p == (1.0 - p) * (e - 2.0 / p)
  {
    var floor := 2.0 / p;
    assert p * floor == 2.0;
    assert (1.0 - p) * (e - floor) == e - floor - p * e + p * floor;
  }

  lemma Reassociate(x: real, y: real, z: real)
    ensures x * (y * z) == (y * x) * z
  {
  }

  /** Repeated steps settle along the envelope: each takes the clamped slew off the error,
      so it falls linearly beyond the clamp and geometrically inside it. */
  lemma {:induction false} Settles(c: Affine, ops: seq<Op>, ratePpb: int32, spacing: int)
    requires |ops| > 0 && DisciplineRun(ops, ratePpb, spacing)
    requires -TRIM_LIMIT <= ratePpb <= TRIM_LIMIT && 0 <= spacing <= BILLION
    ensures Abs(PhaseError(After(c, ops[..|ops| - 1]), ops[|ops| - 1])) as real <=
            Envelope(Abs(PhaseError(c, ops[0])) as real, spacing, |ops| - 1)
    decreases |ops|
  {
    if |ops| == 1 {
      assert ops[..0] == [];
    } else {
      var next, rest, last := Apply(c, ops[0]), ops[1..], |ops| - 1;
      RestOfRun(ops, ratePpb, spacing);
      Settles(next, rest, ratePpb, spacing);
      assert ops[..last][0] == ops[0] && ops[..last][1..] == rest[..|rest| - 1];
      assert After(c, ops[..last]) == After(next, rest[..|rest| - 1]);
      OneLeft(c, ops[0], ops[1], spacing);
      EnvelopeIsMonotone(Abs(PhaseError(next, ops[1])) as real, Left(Abs(PhaseError(c, ops[0])) as real, spacing),
                         spacing, last - 1);
    }
  }

  /** Linear beyond the clamp until it is reached, geometric inside. */
  predicate InTwoPhases(first: real, last: real, spacing: int, n: nat)
    requires spacing > 0
  {
    && (last <= TRIM_LIMIT as real || last <= first - n as real * Slewed(spacing))
    && (first <= TRIM_LIMIT as real ==> last <= Decayed(first, Resting(spacing), 1.0 - Fraction(spacing), n))
  }

  /** In closed form, for the n-th step after the first. */
  lemma SettlesInTwoPhases(c: Affine, ops: seq<Op>, ratePpb: int32, spacing: int)
    requires |ops| > 0 && DisciplineRun(ops, ratePpb, spacing)
    requires -TRIM_LIMIT <= ratePpb <= TRIM_LIMIT && 0 < spacing <= BILLION && Slewed(spacing) >= 0.0
    ensures var n := |ops| - 1;
      InTwoPhases(Abs(PhaseError(c, ops[0])) as real, Abs(PhaseError(After(c, ops[..n]), ops[n])) as real, spacing, n)
  {
    Settles(c, ops, ratePpb, spacing);
    var n := |ops| - 1;
    BelowEnvelope(Abs(PhaseError(c, ops[0])) as real, Abs(PhaseError(After(c, ops[..n]), ops[n])) as real, spacing, n);
  }

  lemma BelowEnvelope(first: real, last: real, spacing: int, n: nat)
    requires 0 < spacing <= BILLION && Slewed(spacing) >= 0.0 && last <= Envelope(first, spacing, n)
    ensures InTwoPhases(first, last, spacing, n)
  {
    EnvelopeIsLinear(first, spacing, n);
    if first <= TRIM_LIMIT as real {
      EnvelopeIsGeometric(first, spacing, n);
    }
  }

  lemma RestOfRun(ops: seq<Op>, ratePpb: int32, spacing: int)
    requires |ops| > 1 && DisciplineRun(ops, ratePpb, spacing)
    ensures DisciplineRun(ops[1..], ratePpb, spacing) && Consecutive(ops[0], ops[1], spacing)
  {
    var rest := ops[1..];
    forall i | 0 <= i < |rest| - 1
      ensures Consecutive(rest[i], rest[i + 1], spacing)
    {
      assert Consecutive(ops[i + 1], ops[i + 2], spacing);
    }
    assert Consecutive(ops[0], ops[0 + 1], spacing);
  }

  lemma OneLeft(c: Affine, first: Op, second: Op, spacing: int)
    requires first.Slew? && second.Slew? && first.ratePpb == second.ratePpb
    requires -TRIM_LIMIT <= first.ratePpb <= TRIM_LIMIT
    requires 0 <= spacing && Consecutive(first, second, spacing)
    ensures Abs(PhaseError(Apply(c, first), second)) as real <= Left(Abs(PhaseError(c, first)) as real, spacing)
  {
    Shrinks(c, first, second, spacing);
    InSeconds(Abs(PhaseError(c, first)), Abs(PhaseError(Apply(c, first), second)), spacing);
  }

  lemma InSeconds(before: nat, after: nat, spacing: int)
    requires var trim := if before < TRIM_LIMIT then before else TRIM_LIMIT;
      BILLION * after <= BILLION * before - spacing * trim + 2 * BILLION
    ensures after as real <= Left(before as real, spacing)
  {
    var trim := if before < TRIM_LIMIT then before else TRIM_LIMIT;
    assert Least(before as real, TRIM_LIMIT as real) == trim as real;
    assert (spacing * trim) as real == spacing as real * trim as real;
    assert Fraction(spacing) * trim as real == (spacing * trim) as real / 1_000_000_000.0;
  }
}
