/** What the sampled statistics mean (pkg/ares/crypto/cgo/bridge.go, DotProduct and
    MarginStatsFromCohorts): scores are linear in the profiles, exactly the cohorts with two
    candidates are sampled, and the median splits the margins. */
module TuningFacts {
  import opened Tuning

  // ---------------------------------------------------------------- the dot product

  lemma {:induction false} DotOfZeros(x: Profile, y: Profile, n: nat)
    requires n <= |x| && n <= |y| && forall j :: 0 <= j < n ==> x[j] == 0.0
    ensures DotTo(x, y, n) == 0.0
  {
    if n == 0 {
    } else {
      DotOfZeros(x, y, n - 1);
    }
  }

  /** A profile that is 1 at position i and 0 elsewhere picks out the other's entry. */
  lemma {:induction false} DotPicks(x: Profile, y: Profile, n: nat, i: nat)
    requires i < n <= |x| && n <= |y| && x[i] == 1.0 && forall j :: 0 <= j < n && j != i ==> x[j] == 0.0
    ensures DotTo(x, y, n) == y[i]
    decreases n
  {
    if i == n - 1 {
      DotOfZeros(x, y, n - 1);
    } else {
      DotPicks(x, y, n - 1, i);
    }
  }

  lemma Distributes(a: real, b: real, u: real, v: real, y: real)
    ensures (a * u + b * v) * y == a * (u * y) + b * (v * y)
  {
  }

  lemma Collects(a: real, b: real, p: real, q: real, u: real, v: real)
    ensures a * p + b * q + (a * u + b * v) == a * (p + u) + b * (q + v)
  {
  }

  /** And it is linear, so these values determine it. */
  lemma {:induction false} DotLinear(x: Profile, z: Profile, w: Profile, a: real, b: real, y: Profile, n: nat)
    requires n <= |x| && n <= |z| && n <= |w| && n <= |y|
    requires forall j :: 0 <= j < n ==> w[j] == a * x[j] + b * z[j]
    ensures DotTo(w, y, n) == a * DotTo(x, y, n) + b * DotTo(z, y, n)
  {
    if n == 0 {
    } else {
      DotLinear(x, z, w, a, b, y, n - 1);
      var u, v, c := x[n - 1] * y[n - 1], z[n - 1] * y[n - 1], y[n - 1];
      Distributes(a, b, x[n - 1], z[n - 1], c);
      Collects(a, b, DotTo(x, y, n - 1), DotTo(z, y, n - 1), u, v);
    }
  }

  // ---------------------------------------------------------------- which cohorts count

  /** One row for each cohort with two candidates, in order, and no other row. */
  lemma {:induction false} SampledExactly(cohorts: seq<Cohort>)
    ensures Sampled(cohorts) == [] <==> forall k :: 0 <= k < |cohorts| ==> |cohorts[k]| < 3
    ensures forall row <- Sampled(cohorts) :: exists k :: 0 <= k < |cohorts| && |cohorts[k]| >= 3 && row == Scores(cohorts[k])
    ensures forall k :: 0 <= k < |cohorts| && |cohorts[k]| >= 3 ==> Scores(cohorts[k]) in Sampled(cohorts)
    decreases |cohorts|
  {
    if cohorts == [] {
    } else {
      var front, last := cohorts[..|cohorts| - 1], cohorts[|cohorts| - 1];
      SampledExactly(front);
      forall row <- Sampled(cohorts)
        ensures exists k :: 0 <= k < |cohorts| && |cohorts[k]| >= 3 && row == Scores(cohorts[k])
      {
        if row in Sampled(front) {
          var k :| 0 <= k < |front| && |front[k]| >= 3 && row == Scores(front[k]);
          assert cohorts[k] == front[k];
        } else {
          assert row == Scores(cohorts[|cohorts| - 1]);
        }
      }
      forall k | 0 <= k < |cohorts| && |cohorts[k]| >= 3 ensures Scores(cohorts[k]) in Sampled(cohorts) {
        if k < |front| {
          assert front[k] == cohorts[k];
        } else {
          assert Scores(last) in [Scores(last)];
        }
      }
    }
  }

  // ---------------------------------------------------------------- the margins

  /** The margins in some order, half of them up to the median and half from it on, the lowest
      first and the highest last. */
  ghost predicate Split(order: seq<real>, low: real, middle: real, high: real) {
    var n := |order|;
    && n > 0 && order[0] == low && order[n - 1] == high
    && (forall i :: 0 <= i < n ==> low <= order[i] <= high)
    && (forall i :: 0 <= i < n && 2 * i <= n ==> order[i] <= middle)
    && (forall i :: 0 <= i < n && 2 * i + 1 >= n ==> middle <= order[i])
  }

  lemma MedianSplits(margins: seq<real>, meta: Metadata) returns (order: seq<real>)
    requires RankedIn(margins, meta)
    ensures multiset(order) == multiset(margins) && Split(order, meta.minMargin, meta.medianMargin, meta.maxMargin)
  {
    order := Sort(margins);
    SortAscending(margins);
  }
}
