/** Comparator tuning (pkg/ares/crypto/cgo/bridge.go, MarginStatsFromCohorts and TuneUnion):
    the score amplification and input scales derived from sample cohorts, over the reals. */
module Tuning {
  import opened Wrappers

  type Profile = seq<real>

  /** An initiator's profile followed by the candidates'. */
  type Cohort = seq<Profile>

  function Min(a: nat, b: nat): nat {
    if a < b then a else b
  }

  /** The dot product over the shorter length, up to n entries. */
  function DotTo(x: Profile, y: Profile, n: nat): real
    requires n <= |x| && n <= |y|
  {
    if n == 0 then 0.0 else DotTo(x, y, n - 1) + x[n - 1] * y[n - 1]
  }

  function Score(ch: Cohort, c: nat): real
    requires c + 1 < |ch|
  {
    DotTo(ch[0], ch[c + 1], Min(|ch[0]|, |ch[c + 1]|))
  }

  function Scores(ch: Cohort): (s: seq<real>)
    ensures |s| == if |ch| == 0 then 0 else |ch| - 1
    ensures forall c :: 0 <= c < |s| ==> s[c] == Score(ch, c)
  {
    if |ch| == 0 then [] else seq(|ch| - 1, c requires 0 <= c < |ch| - 1 => Score(ch, c))
  }

  method DotProduct(x: Profile, y: Profile) returns (d: real)
    ensures d == DotTo(x, y, Min(|x|, |y|))
  {
    d := 0.0;
    var i := 0;
    while i < |x| && i < |y|
      invariant 0 <= i <= |x| && i <= |y| && d == DotTo(x, y, i)
    {
      d := d + x[i] * y[i];
      i := i + 1;
    }
  }

  // ---------------------------------------------------------------- one cohort

  /** best is a largest score, at position k, and second the largest of the others. */
  predicate TopTwoAt(s: seq<real>, best: real, second: real, k: nat) {
    && k < |s| && s[k] == best
    && (forall c :: 0 <= c < |s| ==> s[c] <= best)
    && (forall c :: 0 <= c < |s| && c != k ==> s[c] <= second)
    && (exists c :: 0 <= c < |s| && c != k && s[c] == second)
  }

  predicate TopTwo(s: seq<real>, best: real, second: real) {
    exists k :: 0 <= k < |s| && TopTwoAt(s, best, second, k)
  }

  predicate Lowest(s: seq<real>, worst: real) {
    worst in s && forall c :: 0 <= c < |s| ==> worst <= s[c]
  }

  /** best, second and worst start out infinite in the source, which None stands for. */
  ghost predicate Scanned(s: seq<real>, best: Option<real>, second: Option<real>, worst: Option<real>, k: nat) {
    && (best.None? <==> |s| == 0) && (second.None? <==> |s| <= 1) && (worst.None? <==> |s| == 0)
    && (worst.Some? ==> Lowest(s, worst.value))
    && (|s| == 1 ==> k == 0 && best == Some(s[0]))
    && (second.Some? ==> best.Some? && TopTwoAt(s, best.value, second.value, k))
  }

  method ScanCohort(ch: Cohort) returns (best: real, second: real, worst: real)
    requires |ch| >= 3
    ensures TopTwo(Scores(ch), best, second) && Lowest(Scores(ch), worst)
  {
    var b: Option<real>, s: Option<real>, w: Option<real> := None, None, None;
    ghost var all, k := Scores(ch), 0;
    var c := 1;
    while c < |ch|
      invariant 1 <= c <= |ch| && Scanned(all[..c - 1], b, s, w, k)
    {
      var d := DotProduct(ch[0], ch[c]);
      k := ScanStep(all[..c - 1], d, b, s, w, k);
      assert all[..c] == all[..c - 1] + [d];
      if b.None? || d > b.value {
        s, b := b, Some(d);
      } else if s.None? || d > s.value {
        s := Some(d);
      }
      if w.None? || d < w.value {
        w := Some(d);
      }
      c := c + 1;
    }
    assert all[..c - 1] == all;
    best, second, worst := b.value, s.value, w.value;
  }

  lemma ScanStep(s: seq<real>, d: real, best: Option<real>, second: Option<real>, worst: Option<real>, k: nat) returns (k': nat)
    requires Scanned(s, best, second, worst, k)
    ensures var up := best.None? || d > best.value;
            Scanned(s + [d],
                    if up then Some(d) else best,
                    if up then best else if second.None? || d > second.value then Some(d) else second,
                    if worst.None? || d < worst.value then Some(d) else worst, k')
  {
    var up := best.None? || d > best.value;
    var t := s + [d];
    k' := if up then |s| else k;
    assert t[|s|] == d && forall c :: 0 <= c < |s| ==> t[c] == s[c];
    if |s| >= 2 {
      if up {
        assert t[k] == best.value;
      } else {
        var c :| 0 <= c < |s| && c != k && s[c] == second.value;
        assert t[c] == second.value;
      }
    }
  }

  // ---------------------------------------------------------------- all cohorts

  datatype Metadata = Metadata(minMargin: real, medianMargin: real, maxMargin: real, maxPairwiseDiff: real)

  const DEFAULTS := Metadata(0.005, 0.0126, 0.05, 0.05)

  /** The top-2 margin of a list of scores. */
  ghost predicate IsMargin(s: seq<real>, m: real) {
    exists best, second {:trigger TopTwo(s, best, second)} :: TopTwo(s, best, second) && m == best - second
  }

  /** Every gap between two scores is at most g. */
  predicate GapsWithin(s: seq<real>, g: real) {
    forall c, d :: 0 <= c < |s| && 0 <= d < |s| ==> s[c] - s[d] <= g
  }

  predicate Attains(s: seq<real>, g: real) {
    exists c, d :: 0 <= c < |s| && 0 <= d < |s| && s[c] - s[d] == g
  }

  predicate Ascending(s: seq<real>) {
    forall i, j :: 0 <= i < j < |s| ==> s[i] <= s[j]
  }

  function Insert(x: real, s: seq<real>): seq<real> {
    if s == [] || x <= s[0] then [x] + s else [s[0]] + Insert(x, s[1..])
  }

  /** sort.Float64s */
  function Sort(s: seq<real>): seq<real> {
    if s == [] then [] else Insert(s[0], Sort(s[1..]))
  }

  lemma {:induction false} InsertContents(x: real, s: seq<real>)
    ensures multiset(Insert(x, s)) == multiset(s) + multiset{x} && |Insert(x, s)| == |s| + 1
  {
    if s != [] && x > s[0] {
      InsertContents(x, s[1..]);
      assert s == [s[0]] + s[1..];
    }
  }

  predicate Below(b: real, s: seq<real>) {
    forall i :: 0 <= i < |s| ==> b <= s[i]
  }

  lemma {:induction false} InsertBelow(b: real, x: real, s: seq<real>)
    requires Below(b, s) && b <= x
    ensures Below(b, Insert(x, s))
  {
    if s != [] && x > s[0] {
      InsertBelow(b, x, s[1..]);
    }
  }

  lemma {:induction false} InsertAscending(x: real, s: seq<real>)
    requires Ascending(s)
    ensures Ascending(Insert(x, s))
  {
    if s != [] && x > s[0] {
      InsertAscending(x, s[1..]);
      InsertBelow(s[0], x, s[1..]);
    }
  }

  lemma {:induction false} SortContents(s: seq<real>)
    ensures multiset(Sort(s)) == multiset(s) && |Sort(s)| == |s|
    decreases |s|
  {
    if s == [] {
    } else {
      SortContents(s[1..]);
      InsertContents(s[0], Sort(s[1..]));
      assert s == [s[0]] + s[1..];
    }
  }

  lemma {:induction false} SortOrders(s: seq<real>)
    ensures Ascending(Sort(s))
    decreases |s|
  {
    if s == [] {
    } else {
      SortOrders(s[1..]);
      InsertAscending(s[0], Sort(s[1..]));
    }
  }

  lemma SortAscending(s: seq<real>)
    ensures Ascending(Sort(s)) && multiset(Sort(s)) == multiset(s) && |Sort(s)| == |s|
  {
    SortContents(s);
    SortOrders(s);
  }

  /** The candidates' scores in each cohort with at least two candidates. */
  function Sampled(cohorts: seq<Cohort>): seq<seq<real>> {
    if cohorts == [] then []
    else
      var last := cohorts[|cohorts| - 1];
      Sampled(cohorts[..|cohorts| - 1]) + (if |last| < 3 then [] else [Scores(last)])
  }

  /** margins are the rows' top-2 margins in order, and maxPairwise the largest gap between
      two scores of one row. */
  ghost predicate Measured(rows: seq<seq<real>>, margins: seq<real>, maxPairwise: real) {
    && |margins| == |rows| && maxPairwise >= 0.0
    && (forall i :: 0 <= i < |rows| ==> IsMargin(rows[i], margins[i]))
    && (forall i :: 0 <= i < |rows| ==> GapsWithin(rows[i], maxPairwise))
    && (if rows == [] then maxPairwise == 0.0 else exists i :: 0 <= i < |rows| && Attains(rows[i], maxPairwise))
  }

  ghost predicate RankedIn(margins: seq<real>, meta: Metadata) {
    var sorted := Sort(margins);
    var n := |sorted|;
    n > 0 && meta.minMargin == sorted[0] && meta.medianMargin == sorted[n / 2] && meta.maxMargin == sorted[n - 1]
  }

  /** Defaults without a sampled cohort; otherwise the lowest, median and highest top-2
      margins and the largest gap between two candidates. */
  method MarginStatsFromCohorts(cohorts: seq<Cohort>) returns (meta: Metadata, ghost margins: seq<real>)
    ensures Sampled(cohorts) == [] ==> meta == DEFAULTS
    ensures Sampled(cohorts) != [] ==> Measured(Sampled(cohorts), margins, meta.maxPairwiseDiff) && RankedIn(margins, meta)
  {
    var found, maxPairwise := ScanAll(cohorts);
    margins := found;
    if |found| == 0 {
      return DEFAULTS, margins;
    }
    SortAscending(found);
    var sorted := Sort(found);
    if maxPairwise <= 0.0 {
      LastMargin(Sampled(cohorts), found);
      maxPairwise := sorted[|sorted| - 1];
    }
    meta := Metadata(sorted[0], sorted[|sorted| / 2], sorted[|sorted| - 1], maxPairwise);
  }

  /** The loop over the cohorts. */
  method ScanAll(cohorts: seq<Cohort>) returns (found: seq<real>, maxPairwise: real)
    ensures Measured(Sampled(cohorts), found, maxPairwise)
  {
    found, maxPairwise := [], 0.0;
    for i := 0 to |cohorts|
      invariant Measured(Sampled(cohorts[..i]), found, maxPairwise)
    {
      var ch := cohorts[i];
      assert cohorts[..i + 1][..i] == cohorts[..i];
      if |ch| < 3 {
        continue;
      }
      var best, second, worst := ScanCohort(ch);
      MeasureStep(Sampled(cohorts[..i]), found, maxPairwise, Scores(ch), best, second, worst);
      found := found + [best - second];
      if best - worst > maxPairwise {
        maxPairwise := best - worst;
      }
    }
    assert cohorts[..|cohorts|] == cohorts;
  }

  lemma MeasureStep(rows: seq<seq<real>>, margins: seq<real>, maxPairwise: real, s: seq<real>, best: real, second: real, worst: real)
    requires Measured(rows, margins, maxPairwise) && TopTwo(s, best, second) && Lowest(s, worst)
    ensures Measured(rows + [s], margins + [best - second], if best - worst > maxPairwise then best - worst else maxPairwise)
  {
    var wide := if best - worst > maxPairwise then best - worst else maxPairwise;
    GapsFromScan(s, best, second, worst);
    assert IsMargin(s, best - second);
    WideGaps(rows + [s], rows, s, maxPairwise, best - worst, wide);
  }

  lemma WideGaps(all: seq<seq<real>>, rows: seq<seq<real>>, s: seq<real>, before: real, gap: real, wide: real)
    requires all == rows + [s] && wide == if gap > before then gap else before
    requires forall i :: 0 <= i < |rows| ==> GapsWithin(rows[i], before)
    requires if rows == [] then before == 0.0 <= gap else exists i :: 0 <= i < |rows| && Attains(rows[i], before)
    requires GapsWithin(s, gap) && Attains(s, gap)
    ensures forall i :: 0 <= i < |all| ==> GapsWithin(all[i], wide)
    ensures exists i :: 0 <= i < |all| && Attains(all[i], wide)
  {
    forall i | 0 <= i < |all| ensures GapsWithin(all[i], wide) {
      GapsRelax(all[i], if i < |rows| then before else gap, wide);
    }
    if wide == gap {
      assert Attains(all[|rows|], wide);
    } else {
      var i :| 0 <= i < |rows| && Attains(rows[i], before);
      assert Attains(all[i], wide);
    }
  }

  lemma GapsRelax(s: seq<real>, g: real, wide: real)
    requires GapsWithin(s, g) && g <= wide
    ensures GapsWithin(s, wide)
  {
  }

  lemma GapsFromScan(s: seq<real>, best: real, second: real, worst: real)
    requires TopTwo(s, best, second) && Lowest(s, worst)
    ensures best >= worst && GapsWithin(s, best - worst) && Attains(s, best - worst)
  {
    var k :| 0 <= k < |s| && TopTwoAt(s, best, second, k);
    var l :| 0 <= l < |s| && s[l] == worst;
    assert s[k] - s[l] == best - worst;
  }

  lemma MarginIsGap(s: seq<real>, m: real, g: real)
    requires IsMargin(s, m) && GapsWithin(s, g)
    ensures 0.0 <= m <= g
  {
    var best, second :| TopTwo(s, best, second) && m == best - second;
    var k :| 0 <= k < |s| && TopTwoAt(s, best, second, k);
    var l :| 0 <= l < |s| && l != k && s[l] == second;
    assert s[k] - s[l] <= g;
  }

  /** When no two candidates differ the margins are zero too. */
  lemma LastMargin(rows: seq<seq<real>>, margins: seq<real>)
    requires rows != [] && Measured(rows, margins, 0.0)
    ensures |Sort(margins)| == |margins| && Sort(margins)[|margins| - 1] == 0.0
  {
    SortAscending(margins);
    var m := Sort(margins)[|margins| - 1];
    assert m in multiset(Sort(margins));
    var i :| 0 <= i < |margins| && margins[i] == m;
    MarginIsGap(rows[i], m, 0.0);
  }
}
