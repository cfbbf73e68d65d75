/** Who wins: the masks an auction's scores give (pkg/ares/crypto/cgo/bridge.go) and the loop
    that picks the largest, against the bid with the smallest key. */
module AuctionMasks {
  import opened RealFacts
  import opened Auction

  /** The sharpening polynomial: degree 1, or the cubic. */
  function Sharpen(linear: bool, x: real): real {
    if linear then 0.5 + 0.5 * x else 0.5 + 0.75 * x - 0.25 * x * x * x
  }

  /** The product of Sharpen(s[i] - s[j]) over j < n other than i. */
  function MaskTo(linear: bool, s: seq<real>, i: nat, n: nat): real
    requires i < |s| && n <= |s|
  {
    if n == 0 then 1.0
    else MaskTo(linear, s, i, n - 1) * (if n - 1 == i then 1.0 else Sharpen(linear, s[i] - s[n - 1]))
  }

  function Mask(linear: bool, s: seq<real>, i: nat): real
    requires i < |s|
  {
    MaskTo(linear, s, i, |s|)
  }

  /** The decrypt loop: the first of the largest masks. */
  method Winner(masks: seq<real>) returns (best: int)
    ensures |masks| < 2 ==> best == -1
    ensures |masks| >= 2 ==> 0 <= best < |masks|
                             && (forall i :: 0 <= i < |masks| ==> masks[i] <= masks[best])
                             && (forall i :: 0 <= i < best ==> masks[i] < masks[best])
  {
    if |masks| < 2 {
      return -1;
    }
    best := -1;
    var bestVal := 0.0;
    for i := 0 to |masks|
      invariant -1 <= best < i && (best == -1 <==> i == 0)
      invariant best >= 0 ==> bestVal == masks[best] && (forall j :: 0 <= j < i ==> masks[j] <= masks[best])
                              && (forall j :: 0 <= j < best ==> masks[j] < masks[best])
    {
      if best < 0 || masks[i] > bestVal {
        best, bestVal := i, masks[i];
      }
    }
  }

  // ---------------------------------------------------------------- comparing masks

  function Abs(x: real): real {
    if x < 0.0 then -x else x
  }

  function Chain(fs: seq<real>, n: nat): real
    requires n <= |fs|
  {
    if n == 0 then 1.0 else Chain(fs, n - 1) * fs[n - 1]
  }

  /** A score's factors against every score, its own included. */
  function Factors(linear: bool, s: seq<real>, x: real): (fs: seq<real>)
    ensures |fs| == |s| && forall j :: 0 <= j < |s| ==> fs[j] == Sharpen(linear, x - s[j])
  {
    seq(|s|, j requires 0 <= j < |s| => Sharpen(linear, x - s[j]))
  }

  lemma Swap(a: real, b: real)
    ensures 0.5 * a * b == 0.5 * (a * b)
  {
  }

  /** Bringing in the skipped factor Sharpen(0) = 1/2. */
  lemma {:induction false} FullIsHalfMask(linear: bool, s: seq<real>, i: nat, n: nat)
    requires i < |s| && n <= |s|
    ensures Chain(Factors(linear, s, s[i]), n) == (if i < n then 0.5 else 1.0) * MaskTo(linear, s, i, n)
  {
    if n == 0 {
    } else {
      FullIsHalfMask(linear, s, i, n - 1);
      if n - 1 == i {
        assert Sharpen(linear, s[i] - s[n - 1]) == 0.5;
      } else {
        Swap(MaskTo(linear, s, i, n - 1), Sharpen(linear, s[i] - s[n - 1]));
      }
    }
  }

  lemma AbsProduct(a: real, b: real)
    ensures Abs(a * b) == Abs(a) * Abs(b)
  {
    if a < 0.0 {
      assert a * b == -((-a) * b);
      if b < 0.0 {
        Positive(-a, -b);
        assert a * b == (-a) * (-b);
      } else if b > 0.0 {
        Positive(-a, b);
      }
    } else if a > 0.0 {
      if b < 0.0 {
        Positive(a, -b);
        assert a * b == -(a * -b);
      } else if b > 0.0 {
        Positive(a, b);
      }
    }
  }

  lemma ProductLess(a: real, b: real, c: real, d: real)
    requires 0.0 <= a <= b && 0.0 < b && 0.0 <= c < d
    ensures a * c < b * d && 0.0 < b * d
  {
    Monotone(a, b, c);
    Positive(b, d - c);
    assert b * (d - c) == b * d - b * c;
    Positive(b, d);
  }

  /** Smaller factors throughout give a smaller product. */
  lemma {:induction false} Dominated(a: seq<real>, b: seq<real>, n: nat)
    requires 0 < n <= |a| == |b|
    requires forall j :: 0 <= j < n ==> Abs(a[j]) < b[j]
    ensures Abs(Chain(a, n)) < Chain(b, n)
  {
    if n > 1 {
      Dominated(a, b, n - 1);
    }
    AbsProduct(Chain(a, n - 1), a[n - 1]);
    ProductLess(Abs(Chain(a, n - 1)), Chain(b, n - 1), Abs(a[n - 1]), b[n - 1]);
  }

  /** The largest gap for which the sharpening is sound. */
  function SafeGap(linear: bool): real {
    if linear then 1.8 else 1.0
  }

  lemma CubicFactors(e: real)
    ensures Sharpen(false, e) == 0.25 * ((2.0 - e) * ((1.0 + e) * (1.0 + e)))
  {
  }

  lemma CubicDifference(d: real, e: real)
    ensures Sharpen(false, d) - Sharpen(false, e) == (d - e) * (0.75 - 0.25 * (d * d + e * d + e * e))
  {
    assert d * d * d - e * e * e == (d - e) * (d * d + e * d + e * e);
  }

  lemma CubicRises(d: real, e: real)
    requires -1.0 <= e < d <= 1.0
    ensures Sharpen(false, e) < Sharpen(false, d)
  {
    CubicDifference(d, e);
    TwiceProduct(e, d);
    SquareBound(d, 1.0);
    SquareBound(e, 1.0);
    Positive(d - e, 0.75 - 0.25 * (d * d + e * d + e * e));
  }

  /** A leader's factor beats a trailing score's, against every other score. */
  lemma FactorsDominated(linear: bool, d: real, e: real)
    requires 0.0 <= d <= SafeGap(linear) && -SafeGap(linear) <= e < d
    ensures Abs(Sharpen(linear, e)) < Sharpen(linear, d)
  {
    if !linear {
      CubicRises(d, e);
      CubicFactors(e);
      SquareNonnegative(1.0 + e);
      Monotone(0.0, (1.0 + e) * (1.0 + e), 2.0 - e);
    }
  }

  lemma SquareNonnegative(x: real)
    ensures x * x >= 0.0
  {
    if x > 0.0 {
      Positive(x, x);
    } else if x < 0.0 {
      Positive(-x, -x);
      assert x * x == (-x) * (-x);
    }
  }

  /** With gaps in the safe range, every bid that does not lead has a smaller mask than every
      bid that does. */
  lemma LeadersMaskLarger(linear: bool, s: seq<real>, i: nat, k: nat)
    requires i < |s| && k < |s| && GapsWithin(s, SafeGap(linear))
    requires (forall j :: 0 <= j < |s| ==> s[j] <= s[i]) && s[k] < s[i]
    ensures Mask(linear, s, k) < Mask(linear, s, i)
  {
    var n := |s|;
    forall j | 0 <= j < n ensures Abs(Sharpen(linear, s[k] - s[j])) < Sharpen(linear, s[i] - s[j]) {
      assert s[j] - s[k] <= SafeGap(linear);
      FactorsDominated(linear, s[i] - s[j], s[k] - s[j]);
    }
    Dominated(Factors(linear, s, s[k]), Factors(linear, s, s[i]), n);
    FullIsHalfMask(linear, s, i, n);
    FullIsHalfMask(linear, s, k, n);
  }

  function Masks(linear: bool, s: seq<real>): (m: seq<real>)
    ensures |m| == |s| && forall i :: 0 <= i < |s| ==> m[i] == Mask(linear, s, i)
  {
    seq(|s|, i requires 0 <= i < |s| => Mask(linear, s, i))
  }

  lemma {:induction false} SomeLeader(s: seq<real>) returns (i: nat)
    requires s != []
    ensures i < |s| && forall j :: 0 <= j < |s| ==> s[j] <= s[i]
  {
    if |s| == 1 {
      i := 0;
    } else {
      var k := SomeLeader(s[..|s| - 1]);
      i := if s[|s| - 1] > s[k] then |s| - 1 else k;
    }
  }

  /** Whoever holds the largest mask leads. */
  lemma LargestMaskLeads(linear: bool, s: seq<real>, w: nat)
    requires w < |s| && GapsWithin(s, SafeGap(linear))
    requires forall i :: 0 <= i < |s| ==> Mask(linear, s, i) <= Mask(linear, s, w)
    ensures forall i :: 0 <= i < |s| ==> s[i] <= s[w]
  {
    var i := SomeLeader(s);
    if s[w] < s[i] {
      LeadersMaskLarger(linear, s, i, w);
    }
  }

  /** A whole auction. The winner has the smallest key whenever the linear polynomial is
      used, or the cubic and no distance term is more than a ninth of the rest. */
  method RunAuction(t: Terms, bids: seq<Bid>, linear: bool) returns (winner: int)
    requires Proper(t, bids)
    ensures |bids| < 2 ==> winner == -1
    ensures |bids| >= 2 ==> 0 <= winner < |bids|
    ensures |bids| >= 2 && (linear || DistancesMinor(t, bids)) ==>
              forall i :: 0 <= i < |bids| ==> Key(t, bids[winner]) <= Key(t, bids[i])
  {
    ProperSpan(t, bids);
    var scores, scale := AuctionScores(t, bids);
    winner := Winner(Masks(linear, scores));
    if |bids| >= 2 && (linear || DistancesMinor(t, bids)) {
      if linear {
        GapsAtMost(t, bids, scores, scale);
      } else {
        GapsAtMostOne(t, bids, scores, scale);
      }
      LargestMaskLeads(linear, scores, winner);
      ScoresRankKeys(t, bids, scale, scores, winner);
    }
  }

  lemma ScoresRankKeys(t: Terms, bids: seq<Bid>, scale: real, scores: seq<real>, w: nat)
    requires scale > 0.0 && ScoresOf(Keys(t, bids), scale, scores) && w < |bids|
    requires forall i :: 0 <= i < |scores| ==> scores[i] <= scores[w]
    ensures forall i :: 0 <= i < |bids| ==> Key(t, bids[w]) <= Key(t, bids[i])
  {
    var keys := Keys(t, bids);
    forall i | 0 <= i < |bids| ensures Key(t, bids[w]) <= Key(t, bids[i]) {
      assert scores[i] == -scale * keys[i] && scores[w] == -scale * keys[w];
      assert keys[w] * scale <= keys[i] * scale;
      Cancel(keys[w], keys[i], scale);
    }
  }
}
