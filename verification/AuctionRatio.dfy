/** The exact share distances may have in a bid's key: up to a ninth of the other terms the
    cubic always picks a smallest key, and beyond that some auction fools it
    (pkg/ares/crypto/cgo/bridge.go). */
module AuctionRatio {
  import opened RealFacts
  import opened Auction
  import opened AuctionMasks
  import opened AuctionLimits

  ghost predicate DistancesWithin(t: Terms, bids: seq<Bid>, r: real) {
    forall i :: 0 <= i < |bids| ==> DistTerms(t, bids)[i] <= r * Base(t)
  }

  /** w has the largest cubic mask among the scores the server makes of the bids. */
  ghost predicate CubicWinner(t: Terms, bids: seq<Bid>, scale: real, scores: seq<real>, w: nat) {
    && |bids| >= 2 && ScaleFor(t, bids, scale) && ScoresOf(Keys(t, bids), scale, scores)
    && w < |scores| && LargestMask(scores, w)
  }

  ghost predicate SmallestKey(keys: seq<real>, w: nat) {
    w < |keys| && forall i :: 0 <= i < |keys| ==> keys[w] <= keys[i]
  }

  /** In every proper auction whose distance terms are at most r times the rest, the cubic
      picks a smallest key. */
  ghost predicate SafeRatio(r: real) {
    forall t, bids, scale, scores, w {:trigger CubicWinner(t, bids, scale, scores, w)} ::
      Proper(t, bids) && DistancesWithin(t, bids, r) && CubicWinner(t, bids, scale, scores, w) ==> SmallestKey(Keys(t, bids), w)
  }

  /** A ninth is the exact limit. */
  lemma NinthIsTheLimit(r: real)
    ensures SafeRatio(r) <==> r <= 1.0 / 9.0
  {
    if r <= 1.0 / 9.0 {
      forall t, bids, scale, scores, w: nat
        | Proper(t, bids) && DistancesWithin(t, bids, r) && CubicWinner(t, bids, scale, scores, w)
        ensures SmallestKey(Keys(t, bids), w)
      {
        MinorWins(t, bids, r, scale, scores, w);
      }
    } else {
      var q := if r < 2.0 / 3.0 then r else 2.0 / 3.0;
      var m := CrowdMisleads(0.9 + 0.9 * q);
      var scores, w := CrowdedAuction(q, m);
      Wider(q, r, m);
      assert CubicWinner(FLAT, Crowded(q, m), 0.9, scores, w) && !SmallestKey(Keys(FLAT, Crowded(q, m)), w);
    }
  }

  lemma MinorWins(t: Terms, bids: seq<Bid>, r: real, scale: real, scores: seq<real>, w: nat)
    requires r <= 1.0 / 9.0 && Proper(t, bids) && DistancesWithin(t, bids, r) && CubicWinner(t, bids, scale, scores, w)
    ensures SmallestKey(Keys(t, bids), w)
  {
    NinthOfBase(t, bids, r);
    GapsAtMostOne(t, bids, scores, scale);
    LargestMaskLeads(false, scores, w);
    ScoresRankKeys(t, bids, scale, scores, w);
    KeysRanked(t, bids, w);
  }

  lemma KeysRanked(t: Terms, bids: seq<Bid>, w: nat)
    requires w < |bids| && forall i :: 0 <= i < |bids| ==> Key(t, bids[w]) <= Key(t, bids[i])
    ensures SmallestKey(Keys(t, bids), w)
  {
  }

  lemma NinthOfBase(t: Terms, bids: seq<Bid>, r: real)
    requires r <= 1.0 / 9.0 && Proper(t, bids) && DistancesWithin(t, bids, r)
    ensures DistancesMinor(t, bids)
  {
    Nonnegative(t.w.wStar, 5.0);
    Monotone(r, 1.0 / 9.0, Base(t));
    var bound := r * Base(t);
    assert bound <= Base(t) / 9.0;
  }

  // ---------------------------------------------------------------- an auction for every larger share

  /** Price and distance count alike, stars not at all. */
  const FLAT := Terms(0.0, 1.0, Weights(1.0, 0.0, 1.0))

  /** A free bid next door, one a little dearer, and m at the cap price and distance q. */
  function Crowded(q: real, m: nat): seq<Bid> {
    [Bid(0.0, 5.0, 0.0), Bid(q - 1.0 / 9.0, 5.0, 0.0)] + seq(m, _ => Bid(1.0, 5.0, q))
  }

  lemma FlatKey(price: real, d: real)
    ensures Key(FLAT, Bid(price, 5.0, d)) == price + d
  {
    assert (price - 0.0) / 1.0 == price;
  }

  /** The keys of that auction, by position. */
  function CrowdKey(q: real, i: nat): real {
    if i == 0 then 0.0 else if i == 1 then q - 1.0 / 9.0 else 1.0 + q
  }

  lemma CrowdedKeyAt(q: real, m: nat, i: nat)
    requires i < m + 2
    ensures Key(FLAT, Crowded(q, m)[i]) == CrowdKey(q, i)
  {
    var b := Crowded(q, m)[i];
    assert b == if i == 0 then Bid(0.0, 5.0, 0.0) else if i == 1 then Bid(q - 1.0 / 9.0, 5.0, 0.0) else Bid(1.0, 5.0, q);
    FlatKey(b.price, b.dist);
  }

  function CrowdScores(q: real, m: nat): (s: seq<real>)
    ensures |s| == m + 2 && forall i :: 0 <= i < m + 2 ==> s[i] == -0.9 * CrowdKey(q, i)
  {
    seq(m + 2, i requires 0 <= i < m + 2 => -0.9 * CrowdKey(q, i))
  }

  function CrowdKeys(q: real, m: nat): (k: seq<real>)
    ensures |k| == m + 2 && forall i :: 0 <= i < m + 2 ==> k[i] == CrowdKey(q, i)
  {
    seq(m + 2, i requires 0 <= i < m + 2 => CrowdKey(q, i))
  }

  lemma CrowdedKeys(q: real, m: nat)
    ensures Keys(FLAT, Crowded(q, m)) == CrowdKeys(q, m)
  {
    var keys := Keys(FLAT, Crowded(q, m));
    forall i | 0 <= i < m + 2 ensures keys[i] == CrowdKey(q, i) {
      CrowdedKeyAt(q, m, i);
    }
  }

  lemma CrowdedScores(q: real, m: nat)
    ensures ScoresOf(Keys(FLAT, Crowded(q, m)), 0.9, CrowdScores(q, m))
  {
    CrowdedKeys(q, m);
  }

  lemma CrowdScoresShift(q: real, m: nat, x: real)
    requires x == 0.9 + 0.9 * q
    ensures forall i :: 0 <= i < m + 2 ==> CrowdScores(q, m)[i] == Crowd(x, m)[i] + (-x)
  {
  }

  lemma CrowdedDistances(q: real, m: nat)
    requires 1.0 / 9.0 < q <= 2.0 / 3.0
    ensures var d := DistTerms(FLAT, Crowded(q, m)); |d| == m + 2 && forall i :: 0 <= i < m + 2 ==> d[i] <= q
    ensures Proper(FLAT, Crowded(q, m)) && KeySpan(FLAT, Crowded(q, m)) == 1.0
  {
    var d := DistTerms(FLAT, Crowded(q, m));
    assert forall i :: 0 <= i < m + 2 ==> d[i] == Crowded(q, m)[i].dist;
    assert Base(FLAT) == 1.0;
  }

  lemma Wider(q: real, r: real, m: nat)
    requires 1.0 / 9.0 < q <= 2.0 / 3.0 && q <= r
    ensures Proper(FLAT, Crowded(q, m)) && DistancesWithin(FLAT, Crowded(q, m), r)
  {
    CrowdedDistances(q, m);
    assert Base(FLAT) == 1.0;
  }

  lemma {:induction false} MaskShift(s: seq<real>, t: seq<real>, a: real, i: nat, n: nat)
    requires |s| == |t| && (forall j :: 0 <= j < |s| ==> t[j] == s[j] + a) && i < |s| && n <= |s|
    ensures MaskTo(false, t, i, n) == MaskTo(false, s, i, n)
  {
    if n == 0 {
    } else {
      MaskShift(s, t, a, i, n - 1);
      assert t[i] - t[n - 1] == s[i] - s[n - 1];
    }
  }

  /** Its scores are those of a crowd, shifted, so the free bid does not win. */
  lemma CrowdedAuction(q: real, m: nat) returns (scores: seq<real>, w: nat)
    requires 1.0 / 9.0 < q <= 2.0 / 3.0
    requires Mask(false, Crowd(0.9 + 0.9 * q, m), 0) < Mask(false, Crowd(0.9 + 0.9 * q, m), 1)
    ensures CubicWinner(FLAT, Crowded(q, m), 0.9, scores, w) && !SmallestKey(Keys(FLAT, Crowded(q, m)), w)
  {
    scores := CrowdScores(q, m);
    ShiftedMasks(q, m, 0.9 + 0.9 * q);
    w := SomeLargestMask(scores);
    CrowdedWinner(q, m, w);
    DearerKey(q, m, w);
  }

  lemma CrowdedWinner(q: real, m: nat, w: nat)
    requires 1.0 / 9.0 < q <= 2.0 / 3.0 && w < m + 2 && LargestMask(CrowdScores(q, m), w)
    ensures CubicWinner(FLAT, Crowded(q, m), 0.9, CrowdScores(q, m), w)
  {
    CrowdedScores(q, m);
    CrowdedDistances(q, m);
  }

  lemma DearerKey(q: real, m: nat, w: nat)
    requires 1.0 / 9.0 < q && 0 < w < m + 2
    ensures !SmallestKey(Keys(FLAT, Crowded(q, m)), w)
  {
    CrowdedKeys(q, m);
    DearerThanFirst(Keys(FLAT, Crowded(q, m)), q, m, w);
  }

  lemma DearerThanFirst(keys: seq<real>, q: real, m: nat, w: nat)
    requires 1.0 / 9.0 < q && 0 < w < m + 2 && keys == CrowdKeys(q, m)
    ensures !SmallestKey(keys, w)
  {
    assert keys[0] < keys[w];
  }

  lemma ShiftedMasks(q: real, m: nat, x: real)
    requires x == 0.9 + 0.9 * q
    ensures Mask(false, CrowdScores(q, m), 0) == Mask(false, Crowd(x, m), 0)
    ensures Mask(false, CrowdScores(q, m), 1) == Mask(false, Crowd(x, m), 1)
  {
    CrowdScoresShift(q, m, x);
    MaskShift(Crowd(x, m), CrowdScores(q, m), -x, 0, m + 2);
    MaskShift(Crowd(x, m), CrowdScores(q, m), -x, 1, m + 2);
  }
}
