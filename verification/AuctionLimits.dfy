/** How far the cubic can be trusted: two bids can be ranked the wrong way round, and a gap of
    1 is the most that is safe for every number of bids. */
module AuctionLimits {
  import opened RealFacts
  import opened Auction
  import opened AuctionMasks

  // ---------------------------------------------------------------- two bids

  /** For two bids the cubic ranks them right exactly while their gap squared is below 3. */
  lemma TwoBids(s: seq<real>)
    requires |s| == 2 && s[0] > s[1]
    ensures Mask(false, s, 0) > Mask(false, s, 1) <==> (s[0] - s[1]) * (s[0] - s[1]) < 3.0
  {
    var g := s[0] - s[1];
    MasksOfTwo(s);
    CubicOdd(g);
    var h := 3.0 - g * g;
    if h > 0.0 {
      Positive(g, h);
    } else {
      Monotone(0.0, g, -h);
      assert g * -h == -(g * h);
    }
  }

  lemma MasksOfTwo(s: seq<real>)
    requires |s| == 2
    ensures Mask(false, s, 0) == Sharpen(false, s[0] - s[1])
    ensures Mask(false, s, 1) == Sharpen(false, -(s[0] - s[1]))
  {
    assert MaskTo(false, s, 0, 1) == 1.0 && MaskTo(false, s, 0, 0) == 1.0;
    assert MaskTo(false, s, 1, 1) == Sharpen(false, s[1] - s[0]);
    assert s[1] - s[0] == -(s[0] - s[1]);
  }

  lemma CubicOdd(g: real)
    ensures Sharpen(false, g) - Sharpen(false, -g) == 0.5 * (g * (3.0 - g * g))
  {
    assert (-g) * (-g) * (-g) == -(g * g * g);
  }

  /** One bid at the floor price next door, one at the cap price d away, both with all stars. */
  function NearAndFar(t: Terms, d: real): seq<Bid> {
    [Bid(t.floor, 5.0, 0.0), Bid(t.cap, 5.0, d)]
  }

  /** Terms under which the distance d weighs as much as the whole price range. */
  ghost predicate EvenlyWeighted(t: Terms, d: real) {
    t.cap > t.floor && t.w.k > 0.0 && t.w.wStar == 0.0 && t.w.wDist > 0.0 && d >= 0.0 && t.w.wDist * d == t.w.k
  }

  lemma NearKey(t: Terms, d: real)
    requires EvenlyWeighted(t, d)
    ensures Key(t, Bid(t.floor, 5.0, 0.0)) == 0.0
  {
    Over(0.0, Span(t));
  }

  lemma FarKey(t: Terms, d: real)
    requires EvenlyWeighted(t, d)
    ensures Key(t, Bid(t.cap, 5.0, d)) == 2.0 * t.w.k
  {
    Quotient(Span(t), Span(t));
    assert (t.cap - t.floor) / Span(t) == 1.0;
  }

  lemma NearAndFarSpan(t: Terms, d: real)
    requires EvenlyWeighted(t, d)
    ensures KeySpan(t, NearAndFar(t, d)) == t.w.k
  {
    var terms := DistTerms(t, NearAndFar(t, d));
    assert terms[0] == 0.0 && terms[1] == t.w.k && Base(t) == t.w.k;
    assert RunningMax(t.w.k, terms, 0) == t.w.k;
    assert RunningMax(t.w.k, terms, 1) == t.w.k;
  }

  /** Then the far bid has the larger key and still the larger mask: the cubic picks it. */
  lemma CubicPicksTheWorseBid(t: Terms, d: real, scores: seq<real>, scale: real)
    requires EvenlyWeighted(t, d)
    requires ScaleFor(t, NearAndFar(t, d), scale) && ScoresOf(Keys(t, NearAndFar(t, d)), scale, scores)
    ensures Proper(t, NearAndFar(t, d))
    ensures Key(t, NearAndFar(t, d)[0]) < Key(t, NearAndFar(t, d)[1])
    ensures Mask(false, scores, 0) < Mask(false, scores, 1)
  {
    NearKey(t, d);
    FarKey(t, d);
    NearAndFarSpan(t, d);
    ScaledPair(Keys(t, NearAndFar(t, d)), scale, t.w.k, scores);
    WideGap(scores);
  }

  lemma ScaledPair(keys: seq<real>, scale: real, k: real, scores: seq<real>)
    requires |keys| == 2 && keys[0] == 0.0 && keys[1] == 2.0 * k && scale * k == 0.9 && ScoresOf(keys, scale, scores)
    ensures |scores| == 2 && scores[0] == 0.0 && scores[1] == -1.8
  {
    assert -scale * (2.0 * k) == -2.0 * (scale * k);
  }

  lemma WideGap(s: seq<real>)
    requires |s| == 2 && s[0] == 0.0 && s[1] == -1.8
    ensures Mask(false, s, 0) < Mask(false, s, 1)
  {
    MasksOfTwo(s);
    assert Sharpen(false, 1.8) == 0.392 && Sharpen(false, -1.8) == 0.608;
  }

  // ---------------------------------------------------------------- many bids

  /** A leader at x, a second at 1, and m bids at 0. */
  function Crowd(x: real, m: nat): seq<real> {
    [x, 1.0] + seq(m, _ => 0.0)
  }

  function Power(r: real, m: nat): real {
    if m == 0 then 1.0 else Power(r, m - 1) * r
  }

  /** The factors of a mask, with 1 in the skipped place. */
  function MaskFactors(s: seq<real>, i: nat): (fs: seq<real>)
    requires i < |s|
    ensures |fs| == |s| && fs[i] == 1.0 && forall j :: 0 <= j < |s| && j != i ==> fs[j] == Sharpen(false, s[i] - s[j])
  {
    seq(|s|, j requires 0 <= j < |s| => if j == i then 1.0 else Sharpen(false, s[i] - s[j]))
  }

  lemma {:induction false} MaskIsChain(s: seq<real>, i: nat, n: nat)
    requires i < |s| && n <= |s|
    ensures MaskTo(false, s, i, n) == Chain(MaskFactors(s, i), n)
  {
    if n == 0 {
    } else {
      MaskIsChain(s, i, n - 1);
    }
  }

  lemma {:induction false} ChainPower(fs: seq<real>, a: real, b: real, r: real, n: nat)
    requires 2 <= n <= |fs| && fs[0] == a && fs[1] == b && forall j :: 2 <= j < n ==> fs[j] == r
    ensures Chain(fs, n) == (a * b) * Power(r, n - 2)
  {
    if n == 2 {
      assert Chain(fs, 1) == a;
    } else {
      ChainPower(fs, a, b, r, n - 1);
      Regroup(a * b, Power(r, n - 3), r);
    }
  }

  lemma Regroup(a: real, b: real, c: real)
    ensures a * b * c == a * (b * c)
  {
  }

  lemma {:induction false} PowerOfOne(m: nat)
    ensures Power(1.0, m) == 1.0
  {
    if m == 0 {
    } else {
      PowerOfOne(m - 1);
    }
  }

  lemma LeaderMask(x: real, m: nat, a: real, r: real)
    requires a == Sharpen(false, x - 1.0) && r == Sharpen(false, x)
    ensures Mask(false, Crowd(x, m), 0) == (1.0 * a) * Power(r, m)
  {
    var s := Crowd(x, m);
    MaskIsChain(s, 0, |s|);
    LeaderFactors(x, m);
    ChainPower(MaskFactors(s, 0), 1.0, a, r, |s|);
  }

  lemma LeaderFactors(x: real, m: nat)
    ensures var fs := MaskFactors(Crowd(x, m), 0);
            fs[1] == Sharpen(false, x - 1.0) && forall j :: 2 <= j < |fs| ==> fs[j] == Sharpen(false, x)
  {
    var s := Crowd(x, m);
    forall j | 2 <= j < |s| ensures s[0] - s[j] == x {
    }
  }

  lemma SecondMask(x: real, m: nat, q: real)
    requires q == Sharpen(false, 1.0 - x)
    ensures Mask(false, Crowd(x, m), 1) == (q * 1.0) * Power(1.0, m)
  {
    var s := Crowd(x, m);
    MaskIsChain(s, 1, |s|);
    var fs := MaskFactors(s, 1);
    SharpenOne();
    forall j | 2 <= j < |fs| ensures fs[j] == 1.0 {
      assert s[1] - s[j] == 1.0;
    }
    ChainPower(fs, q, 1.0, 1.0, |s|);
  }

  lemma SharpenOne()
    ensures Sharpen(false, 1.0) == 1.0
  {
  }

  /** Bernoulli's inequality, turned over: powers of r < 1 get as small as one likes. */
  lemma {:induction false} PowerShrinks(r: real, m: nat)
    requires 0.0 < r < 1.0
    ensures 0.0 < Power(r, m) && Power(r, m) * (1.0 + m as real * (1.0 - r)) <= 1.0
  {
    if m == 0 {
    } else {
      PowerShrinks(r, m - 1);
      var q, e, k := Power(r, m - 1), 1.0 - r, m as real;
      Positive(q, r);
      var before := 1.0 + (k - 1.0) * e;
      assert (m - 1) as real == k - 1.0;
      assert r * (1.0 + k * e) == before - k * e * e;
      Monotone(0.0, k * e, e);
      Monotone(r * (1.0 + k * e), before, q);
      assert Power(r, m) * (1.0 + k * e) == (r * (1.0 + k * e)) * q;
      assert before * q == q * before;
    }
  }

  /** The values of the cubic that matter for 1 < x <= 3/2. */
  lemma CubicPastOne(x: real)
    requires 1.0 < x <= 1.5
    ensures 0.0 < Sharpen(false, x) < 1.0
    ensures 0.0 < Sharpen(false, 1.0 - x) && Sharpen(false, x - 1.0) <= 1.0
  {
    CubicAbove(x);
    CubicBelow(x);
    CubicAbove(1.0 - x);
    CubicRises(1.0, x - 1.0);
    assert Sharpen(false, 1.0) == 1.0;
  }

  lemma CubicAbove(e: real)
    requires -1.0 < e < 2.0
    ensures Sharpen(false, e) > 0.0
  {
    var a := (2.0 - e) * (1.0 + e);
    Positive(2.0 - e, 1.0 + e);
    Positive(a, 1.0 + e);
    assert Sharpen(false, e) == 0.25 * (a * (1.0 + e));
  }

  lemma CubicBelow(x: real)
    requires 1.0 < x
    ensures Sharpen(false, x) < 1.0
  {
    var a := (x + 2.0) * (x - 1.0);
    Positive(x + 2.0, x - 1.0);
    Positive(a, x - 1.0);
    assert 1.0 - Sharpen(false, x) == 0.25 * (a * (x - 1.0));
  }

  /** With bids enough the leader's mask falls below the second's. */
  lemma CrowdMisleads(x: real) returns (m: nat)
    requires 1.0 < x <= 1.5
    ensures Mask(false, Crowd(x, m), 0) < Mask(false, Crowd(x, m), 1)
  {
    CubicPastOne(x);
    var r, q, a := Sharpen(false, x), Sharpen(false, 1.0 - x), Sharpen(false, x - 1.0);
    m := Enough(r, q);
    LeaderMask(x, m, a, r);
    SecondMask(x, m, q);
    PowerOfOne(m);
    Smaller(a, Power(r, m), q, Mask(false, Crowd(x, m), 0), Mask(false, Crowd(x, m), 1));
  }

  lemma Smaller(a: real, p: real, q: real, u: real, v: real)
    requires a <= 1.0 && 0.0 < p < q && u == (1.0 * a) * p && v == (q * 1.0) * 1.0
    ensures u < v
  {
    Monotone(a, 1.0, p);
  }

  lemma Enough(r: real, q: real) returns (m: nat)
    requires 0.0 < r < 1.0 && 0.0 < q
    ensures 0.0 < Power(r, m) < q
  {
    var e := 1.0 - r;
    var d := e * q;
    Positive(e, q);
    Quotient(1.0, d);
    m := Above(1.0 / d);
    var k := m as real;
    PastInverse(k, 1.0 / d, d, (1.0 / d) * d, k * d);
    PowerShrinks(r, m);
    Positive(k, e);
    var v := q * (1.0 + k * e);
    Expand(q, k, e);
    AddedUp(q, k * d, v);
    BigEnough(Power(r, m), q, 1.0 + k * e, Power(r, m) * (1.0 + k * e), v);
  }

  lemma Above(x: real) returns (m: nat)
    requires x > 0.0
    ensures m as real > x
  {
    m := x.Floor + 1;
  }

  lemma AddedUp(q: real, w: real, v: real)
    requires q > 0.0 && w > 1.0 && v == q + w
    ensures v > 1.0
  {
  }

  lemma PastInverse(k: real, x: real, d: real, one: real, kd: real)
    requires k > x && d > 0.0 && one == x * d && one == 1.0 && kd == k * d
    ensures kd > 1.0
  {
    Positive(k - x, d);
    var v := (k - x) * d;
    assert v > 0.0;
    assert v == kd - one;
  }

  lemma Expand(q: real, k: real, e: real)
    ensures q * (1.0 + k * e) == q + k * (e * q)
  {
  }

  lemma BigEnough(p: real, q: real, big: real, u: real, v: real)
    requires big > 0.0 && u == p * big && v == q * big && u <= 1.0 < v
    ensures p < q
  {
    assert u < v;
    if p >= q {
      Monotone(q, p, big);
    }
  }

  /** A gap bound is safe when, for any number of bids whose scores keep within it, whoever
      has the largest cubic mask has the largest score. */
  ghost predicate Safe(bound: real) {
    forall s: seq<real>, w: nat :: w < |s| && GapsWithin(s, bound) && LargestMask(s, w) ==> Leads(s, w)
  }

  ghost predicate LargestMask(s: seq<real>, w: nat)
    requires w < |s|
  {
    forall i :: 0 <= i < |s| ==> Mask(false, s, i) <= Mask(false, s, w)
  }

  ghost predicate Leads(s: seq<real>, w: nat)
    requires w < |s|
  {
    forall i :: 0 <= i < |s| ==> s[i] <= s[w]
  }

  lemma CrowdGaps(x: real, m: nat, bound: real)
    requires 1.0 < x <= bound
    ensures GapsWithin(Crowd(x, m), bound)
  {
  }

  /** One is the largest safe bound. */
  lemma OneIsTheLimit(bound: real)
    requires bound > 0.0
    ensures Safe(bound) <==> bound <= 1.0
  {
    if bound <= 1.0 {
      forall s: seq<real>, w: nat | w < |s| && GapsWithin(s, bound) && LargestMask(s, w) ensures Leads(s, w) {
        assert GapsWithin(s, SafeGap(false));
        LargestMaskLeads(false, s, w);
      }
    } else {
      var x := if bound < 1.5 then bound else 1.5;
      var m := CrowdMisleads(x);
      var s := Crowd(x, m);
      CrowdGaps(x, m, bound);
      var w := SomeLargestMask(s);
      assert s[0] == x && forall j :: 0 < j < |s| ==> s[j] < x;
      assert !Leads(s, w);
    }
  }

  lemma SomeLargestMask(s: seq<real>) returns (w: nat)
    requires s != []
    ensures w < |s| && LargestMask(s, w)
  {
    w := SomeLeader(Masks(false, s));
    assert forall i :: 0 <= i < |s| ==> Masks(false, s)[i] == Mask(false, s, i);
  }
}
