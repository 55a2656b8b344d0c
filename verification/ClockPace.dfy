/** Exactly when the software clock keeps within a tenth of local time: a span that starts
    anywhere inside an affine segment does so for every start if and only if the rounded-up
    correction of the span is no more than a tenth of it. */
module ClockPace {
  import opened Arith
  import opened Clock

  /** Over [a, b] the clock advances between 9/10 and 11/10 of local time. */
  predicate KeepsPace(c: Affine, a: int, ops: seq<Op>, b: int) {
    var gained := Now(After(c, ops), b) - Now(c, a);
    9 * (b - a) <= 10 * gained <= 11 * (b - a)
  }

  function CeilDiv(n: nat, d: int): nat
    requires d > 0
  {
    (n + d - 1) / d
  }

  /** The condition, on the span and the rate alone. */
  predicate Paced(span: nat, ratePpb: int) { 10 * CeilDiv(span * Abs(ratePpb), BILLION) <= span }

  // ---- Whole nanoseconds carried over a span -----------------------------------------

  /** What `span` adds to the truncated correction when it starts `x` after the anchor. */
  function Carried(x: nat, span: nat, rate: nat): int { (x + span) * rate / BILLION - x * rate / BILLION }

  lemma FloorOfSum(p: nat, q: nat, d: int)
    requires d > 0
    ensures (p + q) / d <= p / d + CeilDiv(q, d)
  {
    Quotient(p, d);
    Quotient(q + d - 1, d);
    Quotient(p + q, d);
    Distribute2(d, 1, p / d, CeilDiv(q, d));
    StrictlyBelow(d, p / d + CeilDiv(q, d), (p + q) / d);
  }

  lemma CarriedAtMost(x: nat, span: nat, rate: nat)
    ensures 0 <= Carried(x, span, rate) <= CeilDiv(span * rate, BILLION)
  {
    Difference(rate, x + span, x);
    FloorOfSum(x * rate, span * rate, BILLION);
  }

  predicate Exceeds(i: nat, span: nat, rate: nat, k: int) { Carried(i * span, span, rate) > k }

  /** If no span out of n laid end to end carries more than k, all of them carry at most
      n * k. */
  lemma {:induction false} Telescope(span: nat, rate: nat, k: int, n: nat)
    ensures (exists i: nat :: i < n && Exceeds(i, span, rate, k)) || n * span * rate / BILLION <= n * k
  {
    if n == 0 {
    } else {
      Telescope(span, rate, k, n - 1);
      Difference(span, n, n - 1);
      assert (n - 1) * span + span == n * span;
      Difference(k, n, n - 1);
      if !Exceeds(n - 1, span, rate, k) {
        assert n * span * rate / BILLION == (n - 1) * span * rate / BILLION + Carried((n - 1) * span, span, rate);
      }
    }
  }

  /** Some start carries the rounded-up correction. */
  lemma WorstStart(span: nat, rate: nat) returns (x: nat)
    ensures Carried(x, span, rate) == CeilDiv(span * rate, BILLION)
  {
    var whole := span * rate;
    var most := CeilDiv(whole, BILLION);
    if whole == 0 {
      x := 0;
      CarriedAtMost(x, span, rate);
    } else {
      Telescope(span, rate, most - 1, BILLION);
      assert BILLION * span * rate == BILLION * whole;
      assert BILLION * (most - 1) < whole;
      var i: nat :| i < BILLION && Exceeds(i, span, rate, most - 1);
      x := i * span;
      CarriedAtMost(x, span, rate);
    }
  }

  /** The reading gains the span and what it carries, with the sign of the rate. */
  lemma GainIsCarried(c: Affine, a: int, span: nat)
    requires c.localNs <= a
    ensures var carried := Carried(a - c.localNs, span, Abs(c.ratePpb));
      Now(c, a + span) - Now(c, a) == span + if c.ratePpb >= 0 then carried else -carried
  {
    var x, r := a - c.localNs, c.ratePpb;
    CorrectionIsExact(x, r);
    CorrectionIsExact(x + span, r);
    SignedQuotient(x, r);
    SignedQuotient(x + span, r);
  }

  lemma SignedQuotient(x: nat, r: int)
    ensures TruncDiv(x * r, BILLION) == if r >= 0 then x * Abs(r) / BILLION else -(x * Abs(r) / BILLION)
  {
    SignOfProduct(x, r);
    NegateProduct(x, r);
  }

  // ---- Exactly when -----------------------------------------------------------------------

  lemma PaceOfStart(c: Affine, a: int, span: nat)
    requires c.localNs <= a
    ensures KeepsPace(c, a, [], a + span) <==> 10 * Carried(a - c.localNs, span, Abs(c.ratePpb)) <= span
  {
    GainIsCarried(c, a, span);
    CarriedAtMost(a - c.localNs, span, Abs(c.ratePpb));
  }

  /** A run that sets out at `a`, whose first reading or operation comes `span` later. */
  predicate SetsOut(c: Affine, a: int, span: nat, ops: seq<Op>, b: int) {
    && c.localNs <= a && Ordered(a, ops, b)
    && a + span == if ops == [] then b else ops[0].at
  }

  lemma PacedStart(c: Affine, a: int, span: nat)
    requires c.localNs <= a && Paced(span, c.ratePpb)
    ensures KeepsPace(c, a, [], a + span)
  {
    CarriedAtMost(a - c.localNs, span, Abs(c.ratePpb));
    PaceOfStart(c, a, span);
  }

  /** An operation does not move the reading. */
  lemma Continuous(c: Affine, op: Op)
    ensures Apply(c, op).localNs == op.at && Now(Apply(c, op), op.at) == Now(c, op.at)
  {
    CorrectionIsExact(0, Apply(c, op).ratePpb);
  }

  lemma PaceFromAnchor(c: Affine, ops: seq<Op>, b: int)
    requires Sane(c) && Ordered(c.localNs, ops, b)
    ensures KeepsPace(c, c.localNs, ops, b)
  {
    SpeedIsBounded(c, ops, c.localNs, b);
  }

  lemma JoinPaces(c: Affine, a: int, ops: seq<Op>, b: int)
    requires ops != [] && KeepsPace(c, a, [], ops[0].at)
    requires KeepsPace(Apply(c, ops[0]), ops[0].at, ops[1..], b)
    ensures KeepsPace(c, a, ops, b)
  {
    Continuous(c, ops[0]);
  }

  /** Only the span up to the first operation can lose or gain more than a tenth: from
      then on every segment is entered at its anchor. */
  lemma PacedRun(c: Affine, a: int, span: nat, ops: seq<Op>, b: int)
    requires Sane(c) && SetsOut(c, a, span, ops, b) && Paced(span, c.ratePpb)
    ensures KeepsPace(c, a, ops, b)
  {
    PacedStart(c, a, span);
    if ops != [] {
      PaceFromAnchor(Apply(c, ops[0]), ops[1..], b);
      JoinPaces(c, a, ops, b);
    }
  }

  /** Every run that sets out anywhere in the segment keeps its pace, whatever adjustments
      and disciplines follow the first span, if and only if the span and the rate are
      paced; so does every pair of readings inside the segment. */
  lemma PaceIsExact(c: Affine, span: nat)
    requires Sane(c)
    ensures (forall a, ops, b :: SetsOut(c, a, span, ops, b) ==> KeepsPace(c, a, ops, b)) <==> Paced(span, c.ratePpb)
    ensures (forall a, b :: c.localNs <= a && b == a + span ==> KeepsPace(c, a, [], b)) <==> Paced(span, c.ratePpb)
  {
    if Paced(span, c.ratePpb) {
      forall a, ops, b | SetsOut(c, a, span, ops, b)
        ensures KeepsPace(c, a, ops, b)
      {
        PacedRun(c, a, span, ops, b);
      }
      forall a, b | c.localNs <= a && b == a + span
        ensures KeepsPace(c, a, [], b)
      {
        PacedRun(c, a, span, [], b);
      }
    } else {
      var x := WorstStart(span, Abs(c.ratePpb));
      var a := c.localNs + x;
      PaceOfStart(c, a, span);
      assert SetsOut(c, a, span, [], a + span) && !KeepsPace(c, a, [], a + span);
    }
  }

  // ---- The rates a discipline leaves ----------------------------------------------------------

  /** At every rate but zero that a discipline can leave, exactly the spans of 10 ns or
      more are paced, and the empty one. */
  lemma PacedWhenDisciplined(span: nat, ratePpb: int)
    requires 0 < Abs(ratePpb) <= APPLIED_LIMIT
    ensures Paced(span, ratePpb) <==> span == 0 || span >= 10
  {
    var rate, scaled := Abs(ratePpb), span * Abs(ratePpb);
    var most := CeilDiv(scaled, BILLION);
    Monotone(rate, APPLIED_LIMIT, span);
    Quotient(scaled + BILLION - 1, BILLION);
    SignOfProduct(span, rate);
  }

  /** After any slew the clock keeps its pace over every run that begins with 10 ns or
      more undisturbed, from wherever it sets out. */
  lemma DisciplinedKeepsPace(c: Affine, slew: Op, a: int, span: nat, ops: seq<Op>, b: int)
    requires slew.Slew? && span >= 10 && SetsOut(Apply(c, slew), a, span, ops, b)
    ensures KeepsPace(Apply(c, slew), a, ops, b)
  {
    var next := Apply(c, slew);
    if next.ratePpb == 0 {
      assert span * Abs(next.ratePpb) == 0;
    } else {
      PacedWhenDisciplined(span, next.ratePpb);
    }
    PacedRun(next, a, span, ops, b);
  }

  /** Below that both bounds fail: a slow clock can stand still over a nanosecond, and a
      fast one can leap two. */
  lemma SingleNanosecond()
    ensures var slow := Affine(0, 0, -RATE_LIMIT); Now(slow, 10) == Now(slow, 9) && !KeepsPace(slow, 9, [], 10)
    ensures var fast := Affine(0, 0, RATE_LIMIT); Now(fast, 10) == Now(fast, 9) + 2 && !KeepsPace(fast, 9, [], 10)
  {
    CarriesOne();
    var slow, fast := Affine(0, 0, -RATE_LIMIT), Affine(0, 0, RATE_LIMIT);
    GainIsCarried(slow, 9, 1);
    PaceOfStart(slow, 9, 1);
    GainIsCarried(fast, 9, 1);
    PaceOfStart(fast, 9, 1);
  }

  lemma CarriesOne()
    ensures Carried(9, 1, RATE_LIMIT) == 1
  {
    assert (9 + 1) * RATE_LIMIT == BILLION && 9 * RATE_LIMIT < BILLION;
  }
}
