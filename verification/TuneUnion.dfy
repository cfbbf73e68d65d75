/** TuneUnion (pkg/ares/crypto/cgo/bridge.go) and what its scales guarantee: every gap seen in
    the sample cohorts stays where its comparator is valid. */
module TuneUnion {
  import opened RealFacts
  import opened Tuning

  datatype Comparator = Comparator(id: string, kind: string, schedule: string, gain: real, bound: real,
                                   inputScale: real, rangeMargin: real, degree: int)

  /** How far a scaled gap may reach on a selector comparator. */
  const SELECTOR_REACH: real := 6.7 / 1.05

  /** The selector cubic, with no bound of its own. */
  function Selector(x: real): real {
    0.5 + 0.1125 * x - 0.00084375 * x * x * x
  }

  function AmplifiedTarget(target: real): real {
    if target <= 0.0 then 4.0 else target
  }

  /** The widest raw score gap the comparator is tuned for. */
  function RangeOf(meta: Metadata, c: Comparator): real {
    if c.rangeMargin > 0.0 then c.rangeMargin
    else if meta.maxPairwiseDiff > meta.maxMargin then meta.maxPairwiseDiff
    else meta.maxMargin
  }

  /** A raw gap as the comparator receives it. */
  function Received(c: Comparator, scoreScale: real, gap: real): real {
    gap * (scoreScale / 2.0) * c.inputScale
  }

  /** The raw gap, amplified and scaled, lies strictly inside the comparator's bound, or
      within a selector's reach. */
  predicate Fits(c: Comparator, scoreScale: real, gap: real) {
    var x := Received(c, scoreScale, gap);
    if c.bound > 0.0 then -c.bound < x < c.bound else -SELECTOR_REACH <= x <= SELECTOR_REACH
  }

  ghost predicate Covers(c: Comparator, scoreScale: real, range: real) {
    forall gap :: -range <= gap <= range ==> Fits(c, scoreScale, gap)
  }

  /** The scale is no smaller than it has to be: unless gaps arrive unscaled, the widest one lands
      on the edge of the headroom, 15% inside a bound or 5% inside the selector's peak. */
  predicate Fills(c: Comparator, scoreScale: real, range: real) {
    c.inputScale == 1.0 || range <= 0.0 ||
    Received(c, scoreScale, range) * (if c.bound > 0.0 then 1.15 else 1.05) == if c.bound > 0.0 then c.bound else 6.7
  }

  method Tune(meta: Metadata, base: seq<Comparator>, target: real) returns (scoreScale: real, tuned: seq<Comparator>)
    ensures scoreScale > 0.0
    ensures meta.medianMargin > 0.0 ==> scoreScale / 2.0 * meta.medianMargin == AmplifiedTarget(target)
    ensures meta.medianMargin <= 0.0 ==> scoreScale / 2.0 * 0.0126 == AmplifiedTarget(target)
    ensures |tuned| == |base|
    ensures forall i :: 0 <= i < |base| ==> tuned[i] == base[i].(inputScale := tuned[i].inputScale)
    ensures forall i :: 0 <= i < |base| ==> 0.0 < tuned[i].inputScale <= 1.0
    ensures forall i :: 0 <= i < |base| ==> Covers(tuned[i], scoreScale, RangeOf(meta, base[i]))
    ensures forall i :: 0 <= i < |base| ==> Fills(tuned[i], scoreScale, RangeOf(meta, base[i]))
  {
    var goal := if target <= 0.0 then 4.0 else target;
    var med := meta.medianMargin;
    if med <= 0.0 {
      med := 0.0126;
    }
    scoreScale := 2.0 * goal / med;
    AmplifiesMedian(goal, med);
    var rangeMargin := meta.maxMargin;
    if meta.maxPairwiseDiff > rangeMargin {
      rangeMargin := meta.maxPairwiseDiff;
    }
    tuned := [];
    for i := 0 to |base|
      invariant |tuned| == i
      invariant forall j :: 0 <= j < i ==> tuned[j] == base[j].(inputScale := tuned[j].inputScale)
      invariant forall j :: 0 <= j < i ==> 0.0 < tuned[j].inputScale <= 1.0
      invariant forall j :: 0 <= j < i ==> Covers(tuned[j], scoreScale, RangeOf(meta, base[j]))
      invariant forall j :: 0 <= j < i ==> Fills(tuned[j], scoreScale, RangeOf(meta, base[j]))
    {
      var c := base[i];
      var compRange := rangeMargin;
      if c.rangeMargin > 0.0 {
        compRange := c.rangeMargin;
      }
      var c2 := TuneOne(c, scoreScale, compRange, goal);
      tuned := tuned + [c2];
    }
  }

  method TuneOne(c: Comparator, scoreScale: real, range: real, goal: real) returns (c2: Comparator)
    requires scoreScale > 0.0 && goal > 0.0
    ensures c2 == c.(inputScale := c2.inputScale) && 0.0 < c2.inputScale <= 1.0
    ensures Covers(c2, scoreScale, range) && Fills(c2, scoreScale, range)
  {
    var maxDiff := (scoreScale / 2.0) * range;
    if maxDiff <= 0.0 {
      maxDiff := goal;
    }
    var scale;
    if c.bound > 0.0 {
      scale := Capped(c.bound, maxDiff * 1.15);
    } else {
      scale := Capped(6.7, maxDiff * 1.05);
    }
    c2 := c.(inputScale := scale);
    if scale < 1.0 && range > 0.0 {
      WidestLands(c2, scoreScale, range, maxDiff);
    }
    forall gap | -range <= gap <= range ensures Fits(c2, scoreScale, gap) {
      AmplifiedWithin(gap, scoreScale / 2.0, range, maxDiff);
      ReceivedFits(c2, scoreScale, gap, gap * (scoreScale / 2.0), maxDiff);
    }
  }

  lemma WidestLands(c: Comparator, scoreScale: real, range: real, maxDiff: real)
    requires scoreScale > 0.0 && range > 0.0 && (scoreScale / 2.0 * range > 0.0 ==> maxDiff == scoreScale / 2.0 * range)
    requires c.bound > 0.0 ==> c.inputScale * (maxDiff * 1.15) == c.bound
    requires c.bound <= 0.0 ==> c.inputScale * (maxDiff * 1.05) == 6.7
    ensures Fills(c, scoreScale, range)
  {
    HalfPositive(scoreScale, range);
    var x := range * (scoreScale / 2.0);
    assert x == maxDiff;
    Reordered(x, c.inputScale, 1.15);
    Reordered(x, c.inputScale, 1.05);
  }

  lemma HalfPositive(a: real, b: real)
    requires a > 0.0 && b > 0.0
    ensures a / 2.0 * b > 0.0
  {
  }

  lemma Reordered(x: real, s: real, h: real)
    ensures s * (x * h) == x * s * h
  {
  }

  lemma ReceivedFits(c: Comparator, scoreScale: real, gap: real, y: real, maxDiff: real)
    requires y == gap * (scoreScale / 2.0) && -maxDiff <= y <= maxDiff && maxDiff > 0.0 && c.inputScale > 0.0
    requires c.bound > 0.0 ==> c.inputScale * (maxDiff * 1.15) <= c.bound
    requires c.bound <= 0.0 ==> c.inputScale * (maxDiff * 1.05) <= 6.7
    ensures Fits(c, scoreScale, gap)
  {
    var x := y * c.inputScale;
    assert x == Received(c, scoreScale, gap);
    if c.bound > 0.0 {
      ScaledWithin(y, maxDiff, c.inputScale, c.bound, 1.15, x, c.bound / 1.15);
    } else {
      ScaledWithin(y, maxDiff, c.inputScale, 6.7, 1.05, x, SELECTOR_REACH);
    }
  }

  method Capped(peak: real, wide: real) returns (scale: real)
    requires peak > 0.0 && wide > 0.0
    ensures 0.0 < scale <= 1.0 && scale * wide <= peak && (scale < 1.0 ==> scale * wide == peak)
  {
    scale := peak / wide;
    Quotient(peak, wide);
    if scale > 1.0 {
      scale := 1.0;
    }
  }

  lemma AmplifiesMedian(goal: real, med: real)
    requires goal > 0.0 && med > 0.0
    ensures 2.0 * goal / med > 0.0 && (2.0 * goal / med) / 2.0 * med == goal
  {
    Quotient(2.0 * goal, med);
  }

  lemma AmplifiedWithin(gap: real, beta: real, range: real, maxDiff: real)
    requires beta > 0.0 && -range <= gap <= range && maxDiff > 0.0
    requires beta * range > 0.0 ==> maxDiff == beta * range
    ensures -maxDiff <= gap * beta <= maxDiff
  {
    Monotone(gap, range, beta);
    Monotone(-range, gap, beta);
  }

  /** Within peak / headroom, hence strictly within peak. */
  lemma ScaledWithin(y: real, maxDiff: real, scale: real, peak: real, headroom: real, x: real, reach: real)
    requires -maxDiff <= y <= maxDiff && maxDiff > 0.0 && 0.0 < scale && peak > 0.0 && headroom > 1.0
    requires scale * (maxDiff * headroom) <= peak && x == y * scale && reach == peak / headroom
    ensures -reach <= x <= reach < peak
  {
    Monotone(y, maxDiff, scale);
    Monotone(-maxDiff, y, scale);
    var top := maxDiff * scale;
    var scaled := top * headroom;
    assert scaled == scale * (maxDiff * headroom);
    DivideBound(top, headroom, peak, scaled, reach);
  }

  lemma DivideBound(x: real, h: real, peak: real, xh: real, q: real)
    requires h > 1.0 && xh == x * h && xh <= peak && peak > 0.0 && q == peak / h
    ensures x <= q < peak
  {
    var qh := q * h;
    assert qh == peak;
    Cancel(x, q, h);
    Quotient(peak, h);
    ProductPositive(q, h - 1.0);
    QuotientLess(q, h, peak);
  }

  lemma QuotientLess(q: real, h: real, peak: real)
    requires q * h == peak && Product(q, h - 1.0) > 0.0
    ensures q < peak
  {
    assert Product(q, h - 1.0) == peak - q;
  }

  // ---------------------------------------------------------------- end to end

  /** Every cohort with at least two candidates is sampled. */
  lemma {:induction false} CohortIsSampled(cohorts: seq<Cohort>, k: nat)
    requires k < |cohorts| && |cohorts[k]| >= 3
    ensures Scores(cohorts[k]) in Sampled(cohorts)
  {
    if k == |cohorts| - 1 {
      assert Sampled(cohorts)[|Sampled(cohorts)| - 1] == Scores(cohorts[k]);
    } else {
      var front := cohorts[..|cohorts| - 1];
      CohortIsSampled(front, k);
      assert front[k] == cohorts[k];
    }
  }

  /** A gap seen in the samples is in the range of a comparator without one of its own. */
  lemma SampledGapsFit(rows: seq<seq<real>>, margins: seq<real>, meta: Metadata, base: Comparator, tuned: Comparator,
                       scoreScale: real, row: seq<real>, c: nat, d: nat)
    requires Measured(rows, margins, meta.maxPairwiseDiff) && base.rangeMargin <= 0.0
    requires Covers(tuned, scoreScale, RangeOf(meta, base))
    requires row in rows && c < |row| && d < |row|
    ensures Fits(tuned, scoreScale, row[c] - row[d])
  {
    assert GapsWithin(row, meta.maxPairwiseDiff);
    var gap := row[c] - row[d];
    assert row[d] - row[c] <= meta.maxPairwiseDiff;
    var range := RangeOf(meta, base);
    assert -range <= gap <= range;
  }

  /** g is the gap between two candidates of a cohort that has at least two. */
  ghost predicate GapSeen(cohorts: seq<Cohort>, g: real) {
    exists k, a, b :: 0 <= k < |cohorts| && |cohorts[k]| >= 3 && 0 <= a < |cohorts[k]| - 1 && 0 <= b < |cohorts[k]| - 1
                      && g == Score(cohorts[k], a) - Score(cohorts[k], b)
  }

  /** From sample cohorts to tuned comparators. Every gap seen in the cohorts reaches every
      comparator without a range of its own strictly inside its bound, or within the selector's
      reach; and there a larger gap gives a larger selector output. */
  method TuneFromCohorts(cohorts: seq<Cohort>, base: seq<Comparator>, target: real)
    returns (scoreScale: real, tuned: seq<Comparator>)
    ensures |tuned| == |base| && scoreScale > 0.0
    ensures forall i :: 0 <= i < |base| ==> tuned[i] == base[i].(inputScale := tuned[i].inputScale)
    ensures forall i :: 0 <= i < |base| ==> 0.0 < tuned[i].inputScale <= 1.0
    ensures forall i, g :: 0 <= i < |base| && base[i].rangeMargin <= 0.0 && GapSeen(cohorts, g) ==>
              Fits(tuned[i], scoreScale, g)
    ensures forall i, g, h :: 0 <= i < |base| && base[i].rangeMargin <= 0.0 && base[i].bound <= 0.0
                              && GapSeen(cohorts, g) && GapSeen(cohorts, h) && g < h ==>
              Selector(Received(tuned[i], scoreScale, g)) < Selector(Received(tuned[i], scoreScale, h))
  {
    ghost var margins;
    var meta;
    meta, margins := MarginStatsFromCohorts(cohorts);
    scoreScale, tuned := Tune(meta, base, target);
    forall i, g | 0 <= i < |base| && base[i].rangeMargin <= 0.0 && GapSeen(cohorts, g)
      ensures Fits(tuned[i], scoreScale, g)
    {
      SeenGapFits(cohorts, margins, meta, base[i], tuned[i], scoreScale, g);
    }
    forall i, g, h | 0 <= i < |base| && base[i].rangeMargin <= 0.0 && base[i].bound <= 0.0
                     && GapSeen(cohorts, g) && GapSeen(cohorts, h) && g < h
      ensures Selector(Received(tuned[i], scoreScale, g)) < Selector(Received(tuned[i], scoreScale, h))
    {
      assert Fits(tuned[i], scoreScale, g) && Fits(tuned[i], scoreScale, h);
      SelectorRanks(tuned[i], scoreScale, g, h);
    }
  }

  lemma SeenGapFits(cohorts: seq<Cohort>, margins: seq<real>, meta: Metadata, base: Comparator, tuned: Comparator,
                    scoreScale: real, g: real)
    requires Sampled(cohorts) != [] ==> Measured(Sampled(cohorts), margins, meta.maxPairwiseDiff)
    requires base.rangeMargin <= 0.0 && Covers(tuned, scoreScale, RangeOf(meta, base)) && GapSeen(cohorts, g)
    ensures Fits(tuned, scoreScale, g)
  {
    var k, a, b :| 0 <= k < |cohorts| && |cohorts[k]| >= 3 && 0 <= a < |cohorts[k]| - 1 && 0 <= b < |cohorts[k]| - 1
                   && g == Score(cohorts[k], a) - Score(cohorts[k], b);
    CohortIsSampled(cohorts, k);
    SampledGapsFit(Sampled(cohorts), margins, meta, base, tuned, scoreScale, Scores(cohorts[k]), a, b);
  }

  /** Two gaps a selector covers come out in their own order. */
  lemma SelectorRanks(c: Comparator, scoreScale: real, g: real, h: real)
    requires c.bound <= 0.0 && c.inputScale > 0.0 && scoreScale > 0.0 && g < h
    requires Fits(c, scoreScale, g) && Fits(c, scoreScale, h)
    ensures Selector(Received(c, scoreScale, g)) < Selector(Received(c, scoreScale, h))
  {
    StrictScale(g, h, scoreScale / 2.0);
    StrictScale(g * (scoreScale / 2.0), h * (scoreScale / 2.0), c.inputScale);
    SelectorRises(Received(c, scoreScale, g), Received(c, scoreScale, h));
  }

  lemma StrictScale(a: real, b: real, k: real)
    requires a < b && k > 0.0
    ensures a * k < b * k
  {
  }

  lemma SelectorRises(x: real, y: real)
    requires -SELECTOR_REACH <= x < y <= SELECTOR_REACH
    ensures Selector(x) < Selector(y)
  {
    SelectorKeepsOrder();
  }

  ghost predicate IncreasingWithin(reach: real) {
    forall x, y :: -reach <= x < y <= reach ==> Selector(x) < Selector(y)
  }

  /** Within a selector's reach a larger gap always gives a larger output. */
  /** Even odds for no gap, and opposite gaps get opposite odds. */
  lemma SelectorIsFair(x: real)
    ensures Selector(0.0) == 0.5 && Selector(x) + Selector(-x) == 1.0
  {
    var cube := 0.00084375 * x * x * x;
    assert 0.00084375 * (-x) * (-x) * (-x) == -cube;
  }

  /** What a caller's zero or negative settings stand for: a target of 4, and the widest gap in the
      sample as a comparator's range. */
  lemma DefaultsExactly(meta: Metadata, c: Comparator, target: real)
    ensures AmplifiedTarget(target) == 4.0 <==> target <= 0.0 || target == 4.0
    ensures target > 0.0 ==> AmplifiedTarget(target) == target
    ensures c.rangeMargin > 0.0 ==> RangeOf(meta, c) == c.rangeMargin
    ensures c.rangeMargin <= 0.0 ==> RangeOf(meta, c) in [meta.maxMargin, meta.maxPairwiseDiff]
                                     && RangeOf(meta, c) >= meta.maxMargin && RangeOf(meta, c) >= meta.maxPairwiseDiff
  {
  }

  lemma SelectorKeepsOrder()
    ensures IncreasingWithin(SELECTOR_REACH)
  {
    SelectorPeak(SELECTOR_REACH);
  }

  /** The cubic turns over at exactly 20/3, a little before the 6.7 the scale aims at: it is
      the headroom that keeps the gaps on the rising part. */
  lemma SelectorPeak(reach: real)
    requires reach > 0.0
    ensures IncreasingWithin(reach) <==> reach <= PEAK
  {
    if reach <= PEAK {
      forall x, y | -reach <= x < y <= reach ensures Selector(x) < Selector(y) {
        Rising(x, y);
      }
    } else {
      Falling(reach);
      assert Selector(PEAK) >= Selector(reach);
    }
  }

  /** The slope of the chord from x to y. */
  function Slope(x: real, y: real): real {
    0.1125 - 0.00084375 * (x * x + x * y + y * y)
  }

  lemma Factored(x: real, y: real)
    ensures Selector(y) - Selector(x) == Product(y - x, Slope(x, y))
  {
    assert y * y * y - x * x * x == (y - x) * (x * x + x * y + y * y);
  }

  const PEAK: real := 20.0 / 3.0

  lemma PeakSquared()
    ensures PEAK * PEAK * 9.0 == 400.0
  {
    assert (3.0 * PEAK) * (3.0 * PEAK) == 400.0;
  }

  lemma Rising(x: real, y: real)
    requires -PEAK <= x < y <= PEAK
    ensures Selector(x) < Selector(y)
  {
    Factored(x, y);
    var xx, xy, yy := x * x, x * y, y * y;
    SquareBound(x, PEAK);
    SquareBound(y, PEAK);
    PeakSquared();
    TwiceProduct(x, y);
    var pp := PEAK * PEAK;
    assert xx <= pp && yy <= pp && 2.0 * xy < xx + yy;
    SlopePositive(xx, xy, yy, pp);
    ProductPositive(y - x, Slope(x, y));
  }

  lemma SlopePositive(xx: real, xy: real, yy: real, pp: real)
    requires xx <= pp && yy <= pp && 2.0 * xy < xx + yy && pp * 9.0 == 400.0
    ensures 0.1125 - 0.00084375 * (xx + xy + yy) > 0.0
  {
  }

  lemma Falling(q: real)
    requires PEAK < q
    ensures Selector(PEAK) > Selector(q)
  {
    Factored(PEAK, q);
    var pp, pq, qq := PEAK * PEAK, PEAK * q, q * q;
    PeakSquared();
    StrictScale(PEAK, q, PEAK);
    StrictScale(PEAK, q, q);
    SlopeNegative(pp, pq, qq);
    ProductPositive(q - PEAK, -Slope(PEAK, q));
    ProductOfNegated(q - PEAK, Slope(PEAK, q));
  }

  lemma SlopeNegative(pp: real, pq: real, qq: real)
    requires pp < pq < qq && pp * 9.0 == 400.0
    ensures 0.1125 - 0.00084375 * (pp + pq + qq) < 0.0
  {
  }

  lemma ProductOfNegated(a: real, b: real)
    ensures Product(a, -b) == -Product(a, b)
  {
  }
}
