/** The single-key auction's scores (pkg/ares/crypto/cgo/bridge.go): how the server assembles
    them from the bids, and how far apart they can be. Ciphertexts are the values they hold,
    over the reals. */
module Auction {
  import opened RealFacts

  datatype Bid = Bid(price: real, stars: real, dist: real)

  datatype Weights = Weights(k: real, wStar: real, wDist: real)

  datatype Terms = Terms(floor: real, cap: real, w: Weights)

  function Span(t: Terms): real {
    if t.cap - t.floor <= 0.0 then 1.0 else t.cap - t.floor
  }

  /** What an auction minimises: normalised price, missing stars and distance, weighted. */
  function Key(t: Terms, b: Bid): real {
    t.w.k * ((b.price - t.floor) / Span(t)) + t.w.wStar * (5.0 - b.stars) + t.w.wDist * b.dist
  }

  // ---------------------------------------------------------------- scores

  function DistTerms(t: Terms, bids: seq<Bid>): (d: seq<real>)
    ensures |d| == |bids|
  {
    seq(|bids|, i requires 0 <= i < |bids| => t.w.wDist * bids[i].dist)
  }

  function Base(t: Terms): real {
    t.w.k + t.w.wStar * 5.0
  }

  /** The largest of base and the first n terms. */
  function RunningMax(base: real, terms: seq<real>, n: nat): (m: real)
    requires n <= |terms|
    ensures m >= base && forall i :: 0 <= i < n ==> terms[i] <= m
    ensures m == base || exists i :: 0 <= i < n && m == terms[i]
  {
    if n == 0 then base
    else
      var m := RunningMax(base, terms, n - 1);
      if terms[n - 1] > m then terms[n - 1] else m
  }

  function KeySpan(t: Terms, bids: seq<Bid>): real {
    RunningMax(Base(t), DistTerms(t, bids), |bids|)
  }

  predicate WellPriced(t: Terms, b: Bid) {
    t.floor <= b.price <= t.cap && 0.0 <= b.stars <= 5.0 && b.dist >= 0.0
  }

  ghost predicate Proper(t: Terms, bids: seq<Bid>) {
    && t.cap > t.floor && t.w.k > 0.0 && t.w.wStar >= 0.0 && t.w.wDist >= 0.0
    && forall i :: 0 <= i < |bids| ==> WellPriced(t, bids[i])
  }

  function Keys(t: Terms, bids: seq<Bid>): (k: seq<real>)
    ensures |k| == |bids|
  {
    seq(|bids|, i requires 0 <= i < |bids| => Key(t, bids[i]))
  }

  /** A bid's score is its key times minus the scale. */
  ghost predicate ScoresOf(keys: seq<real>, scale: real, scores: seq<real>) {
    |scores| == |keys| && forall i :: 0 <= i < |keys| ==> scores[i] == -scale * keys[i]
  }

  /** The scale brings the key span to 0.9. */
  ghost predicate ScaleFor(t: Terms, bids: seq<Bid>, scale: real) {
    scale > 0.0 && scale * KeySpan(t, bids) == 0.9
  }

  /** The source divides by the key span. */
  method AuctionScores(t: Terms, bids: seq<Bid>) returns (scores: seq<real>, scale: real)
    requires KeySpan(t, bids) > 0.0
    ensures ScaleFor(t, bids, scale) && ScoresOf(Keys(t, bids), scale, scores)
  {
    scale := ScaleOf(Base(t), DistTerms(t, bids));
    scores := ScoreAll(t, bids, scale);
  }

  method ScoreAll(t: Terms, bids: seq<Bid>, scale: real) returns (scores: seq<real>)
    ensures ScoresOf(Keys(t, bids), scale, scores)
  {
    ghost var keys := Keys(t, bids);
    scores := [];
    for i := 0 to |bids|
      invariant |scores| == i && forall j :: 0 <= j < i ==> scores[j] == -scale * keys[j]
    {
      var score := AssembleScore(t, bids[i], scale);
      scores := scores + [score];
    }
  }

  method ScaleOf(base: real, terms: seq<real>) returns (scale: real)
    requires RunningMax(base, terms, |terms|) > 0.0
    ensures scale > 0.0 && scale * RunningMax(base, terms, |terms|) == 0.9
  {
    var maxKeySpan := MaxKeySpan(base, terms);
    Quotient(0.9, maxKeySpan);
    scale := 0.9 / maxKeySpan;
  }

  method MaxKeySpan(base: real, terms: seq<real>) returns (maxKeySpan: real)
    ensures maxKeySpan == RunningMax(base, terms, |terms|)
  {
    maxKeySpan := base;
    for i := 0 to |terms|
      invariant maxKeySpan == RunningMax(base, terms, i)
    {
      if terms[i] > maxKeySpan {
        maxKeySpan := terms[i];
      }
    }
  }

  /** The scaled price plus one offset. */
  method AssembleScore(t: Terms, b: Bid, scale: real) returns (score: real)
    ensures score == -scale * Key(t, b)
  {
    var span := t.cap - t.floor;
    if span <= 0.0 {
      span := 1.0;
    }
    var fullOffset := -scale * (t.w.wStar * (5.0 - b.stars) + t.w.wDist * b.dist - t.w.k * t.floor / span);
    score := b.price * (-scale * t.w.k / span) + fullOffset;
    Assembled(scale, t.w.k, span, b.price, t.floor, t.w.wStar * (5.0 - b.stars) + t.w.wDist * b.dist);
  }

  /** What the key weighs: the span that scales prices, or 1 when there is none; a perfect bid at
      the floor has key 0, and the worst bid at no distance reaches exactly the base. */
  lemma KeyExactly(t: Terms, b: Bid)
    ensures t.cap <= t.floor ==> Key(t, b) == t.w.k * (b.price - t.floor) + t.w.wStar * (5.0 - b.stars) + t.w.wDist * b.dist
    ensures t.cap > t.floor ==> Key(t, Bid(t.floor, 5.0, 0.0)) == 0.0 && Key(t, Bid(t.cap, 0.0, 0.0)) == Base(t)
    ensures Key(t, b) - Key(t, b.(stars := b.stars + 1.0)) == t.w.wStar
    ensures Key(t, b.(dist := b.dist + 1.0)) - Key(t, b) == t.w.wDist
  {
    if t.cap > t.floor {
      assert (t.cap - t.floor) / Span(t) == 1.0;
      assert (t.floor - t.floor) / Span(t) == 0.0;
    }
  }

  lemma Nonnegative(a: real, b: real)
    requires a >= 0.0 && b >= 0.0
    ensures a * b >= 0.0
  {
  }

  /** The two halves of a score add up to minus the scaled key. */
  lemma Assembled(scale: real, k: real, span: real, price: real, floor: real, rest: real)
    requires span > 0.0
    ensures price * (-scale * k / span) + -scale * (rest - k * floor / span) == -scale * (k * ((price - floor) / span) + rest)
  {
    var q := 1.0 / span;
    Over(-scale * k, span);
    Over(k * floor, span);
    Over(price - floor, span);
    calc {
      price * ((-scale * k) * q) + -scale * (rest - (k * floor) * q);
      -scale * (k * ((price - floor) * q) + rest);
    }
  }

  lemma Over(a: real, c: real)
    requires c > 0.0
    ensures a / c == a * (1.0 / c)
  {
    assert (a * (1.0 / c)) * c == a;
  }

  lemma ProperSpan(t: Terms, bids: seq<Bid>)
    requires Proper(t, bids)
    ensures KeySpan(t, bids) > 0.0
  {
    Nonnegative(t.w.wStar, 5.0);
  }

  // ---------------------------------------------------------------- gaps between scores

  ghost predicate GapsWithin(s: seq<real>, g: real) {
    forall i, j :: 0 <= i < |s| && 0 <= j < |s| ==> s[i] - s[j] <= g
  }

  /** A bid's key lies between 0 and the key span plus its distance term. */
  lemma KeyRange(t: Terms, bids: seq<Bid>, i: nat, far: real)
    requires Proper(t, bids) && i < |bids| && t.w.wDist * bids[i].dist <= far
    ensures 0.0 <= Key(t, bids[i]) <= t.w.k + t.w.wStar * 5.0 + far
  {
    var b := bids[i];
    assert WellPriced(t, b);
    UnitFraction(b.price - t.floor, Span(t));
    var x := (b.price - t.floor) / Span(t);
    Nonnegative(t.w.k, x);
    Nonnegative(t.w.k, 1.0 - x);
    Nonnegative(t.w.wStar, 5.0 - b.stars);
    Nonnegative(t.w.wStar, b.stars);
    Nonnegative(t.w.wDist, b.dist);
    assert t.w.k * (1.0 - x) == t.w.k - t.w.k * x;
    assert t.w.wStar * (5.0 - b.stars) == t.w.wStar * 5.0 - t.w.wStar * b.stars;
  }

  lemma UnitFraction(a: real, c: real)
    requires 0.0 <= a <= c && c > 0.0
    ensures 0.0 <= a / c <= 1.0
  {
    var q := a / c;
    assert q * c == a;
    if q > 1.0 {
      Quotient(c, c);
      Scale(1.0, q, c);
    }
    if q < 0.0 {
      Scale(q, 0.0, c);
    }
  }

  lemma Scale(a: real, b: real, c: real)
    requires a < b && c > 0.0
    ensures a * c < b * c
  {
  }

  lemma KeysRange(t: Terms, bids: seq<Bid>, far: real)
    requires Proper(t, bids) && forall i :: 0 <= i < |bids| ==> DistTerms(t, bids)[i] <= far
    ensures forall i :: 0 <= i < |bids| ==> 0.0 <= Keys(t, bids)[i] <= Base(t) + far
  {
    forall i | 0 <= i < |bids| ensures 0.0 <= Keys(t, bids)[i] <= Base(t) + far {
      assert DistTerms(t, bids)[i] <= far;
      KeyRange(t, bids, i, far);
    }
  }

  lemma ScaledGaps(keys: seq<real>, scale: real, scores: seq<real>, top: real, g: real)
    requires ScoresOf(keys, scale, scores) && scale > 0.0 && scale * top <= g
    requires forall i :: 0 <= i < |keys| ==> 0.0 <= keys[i] <= top
    ensures GapsWithin(scores, g)
  {
    forall i, j | 0 <= i < |scores| && 0 <= j < |scores| ensures scores[i] - scores[j] <= g {
      Monotone(keys[j] - keys[i], top, scale);
      assert scores[i] - scores[j] == (keys[j] - keys[i]) * scale;
    }
  }

  lemma TwiceSpan(scale: real, base: real, m: real)
    requires scale > 0.0 && base <= m && scale * m == 0.9
    ensures scale * (base + m) <= 1.8
  {
    Monotone(base, m, scale);
  }

  lemma NinthMore(scale: real, base: real)
    requires scale * base == 0.9
    ensures scale * (base + base / 9.0) <= 1.0
  {
    assert scale * (base + base / 9.0) == (scale * base) + (scale * base) / 9.0;
  }

  /** Any two scores are at most 1.8 apart. */
  lemma GapsAtMost(t: Terms, bids: seq<Bid>, scores: seq<real>, scale: real)
    requires Proper(t, bids) && ScaleFor(t, bids, scale) && ScoresOf(Keys(t, bids), scale, scores)
    ensures GapsWithin(scores, 1.8)
  {
    var m := KeySpan(t, bids);
    TwiceSpan(scale, Base(t), m);
    KeysRange(t, bids, m);
    ScaledGaps(Keys(t, bids), scale, scores, Base(t) + m, 1.8);
  }

  /** No distance term exceeds a ninth of what the other terms can come to: something a
      caller can check before running the auction. */
  predicate DistancesMinor(t: Terms, bids: seq<Bid>) {
    forall i :: 0 <= i < |bids| ==> DistTerms(t, bids)[i] <= Base(t) / 9.0
  }

  lemma GapsAtMostOne(t: Terms, bids: seq<Bid>, scores: seq<real>, scale: real)
    requires Proper(t, bids) && ScaleFor(t, bids, scale) && ScoresOf(Keys(t, bids), scale, scores) && DistancesMinor(t, bids)
    ensures GapsWithin(scores, 1.0)
  {
    Nonnegative(t.w.wStar, 5.0);
    NinthMore(scale, Base(t));
    KeysRange(t, bids, Base(t) / 9.0);
    ScaledGaps(Keys(t, bids), scale, scores, Base(t) + Base(t) / 9.0, 1.0);
  }
}
