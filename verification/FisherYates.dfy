/** The shuffle behind the slot permutation (pkg/ares/onion/permutation.go): choice vectors
    correspond one to one with permutations. */
module FisherYates {

  function Swap(a: seq<int>, i: nat, j: nat): (r: seq<int>)
    requires i < |a| && j < |a|
    ensures |r| == |a|
  {
    a[i := a[j]][j := a[i]]
  }

  /** One choice per position, each at or below it. */
  predicate Choices(c: seq<nat>, n: nat) {
    |c| == n && forall i :: 0 <= i < n ==> c[i] <= i
  }

  /** Fisher-Yates from position i down, with the given choices. */
  function Shuffle(a: seq<int>, i: nat, c: seq<nat>): (r: seq<int>)
    requires i < |a| && Choices(c, |a|)
    ensures |r| == |a|
    decreases i
  {
    if i == 0 then a else Shuffle(Swap(a, i, c[i]), i - 1, c)
  }

  function Identity(n: nat): (r: seq<int>)
    ensures |r| == n && forall i :: 0 <= i < n ==> r[i] == i
  {
    seq(n, i => i)
  }

  predicate Distinct(a: seq<int>) {
    forall i, j :: 0 <= i < j < |a| ==> a[i] != a[j]
  }

  /** Positions above i are left alone, and position i gets the chosen element. */
  lemma {:induction false} ShuffleSettles(a: seq<int>, i: nat, c: seq<nat>)
    requires i < |a| && Choices(c, |a|)
    ensures forall k :: i < k < |a| ==> Shuffle(a, i, c)[k] == a[k]
    ensures i > 0 ==> Shuffle(a, i, c)[i] == a[c[i]]
    decreases i
  {
    if i == 0 {
    } else {
      ShuffleSettles(Swap(a, i, c[i]), i - 1, c);
    }
  }

  lemma SwapKeepsAll(a: seq<int>, i: nat, j: nat)
    requires j <= i < |a|
    ensures multiset(Swap(a, i, j)) == multiset(a)
    ensures Distinct(a) ==> Distinct(Swap(a, i, j))
  {
  }

  /** Different choices give different orders. */
  lemma {:induction false} ShuffleInjective(a: seq<int>, i: nat, c: seq<nat>, d: seq<nat>)
    requires i < |a| && Choices(c, |a|) && Choices(d, |a|) && Distinct(a)
    requires Shuffle(a, i, c) == Shuffle(a, i, d)
    ensures c[..i + 1] == d[..i + 1]
    decreases i
  {
    if i == 0 {
    } else {
      ShuffleSettles(a, i, c);
      ShuffleSettles(a, i, d);
      assert a[c[i]] == a[d[i]];
      SwapKeepsAll(a, i, c[i]);
      ShuffleInjective(Swap(a, i, c[i]), i - 1, c, d);
    }
  }

  lemma PrefixAfterSwap(a: seq<int>, p: seq<int>, i: nat, j: nat)
    requires 0 < i < |a| == |p| && j <= i && a[j] == p[i]
    requires multiset(a[..i + 1]) == multiset(p[..i + 1])
    ensures multiset(Swap(a, i, j)[..i]) == multiset(p[..i])
  {
    var b := Swap(a, i, j);
    SwapKeepsAll(a[..i + 1], i, j);
    assert b[..i + 1] == Swap(a[..i + 1], i, j);
    LastDropped(b, i);
    LastDropped(p, i);
  }

  lemma LastDropped(a: seq<int>, i: nat)
    requires i < |a|
    ensures multiset(a[..i]) == multiset(a[..i + 1]) - multiset{a[i]}
  {
    assert a[..i + 1] == a[..i] + [a[i]];
  }

  /** Every order is reached. */
  lemma {:induction false} ShuffleSurjective(a: seq<int>, p: seq<int>, i: nat) returns (c: seq<nat>)
    requires i < |a| == |p|
    requires multiset(a[..i + 1]) == multiset(p[..i + 1])
    requires forall k :: i < k < |a| ==> a[k] == p[k]
    ensures Choices(c, |a|) && Shuffle(a, i, c) == p
    decreases i
  {
    if i == 0 {
      c := seq(|a|, _ => 0);
      assert a[..1] == [a[0]] && p[..1] == [p[0]];
      assert a[0] in multiset(p[..1]);
      assert a == p;
    } else {
      assert p[i] in multiset(p[..i + 1]) by {
        assert p[..i + 1][i] == p[i];
      }
      assert p[i] in a[..i + 1];
      var j: nat :| j <= i && a[j] == p[i];
      PrefixAfterSwap(a, p, i, j);
      var rest := ShuffleSurjective(Swap(a, i, j), p, i - 1);
      c := rest[i := j];
      ShuffleIgnores(Swap(a, i, j), i - 1, rest, c);
    }
  }

  /** Choices above the start position do not matter. */
  lemma {:induction false} ShuffleIgnores(a: seq<int>, i: nat, c: seq<nat>, d: seq<nat>)
    requires i < |a| && Choices(c, |a|) && Choices(d, |a|)
    requires forall k :: 0 <= k <= i ==> c[k] == d[k]
    ensures Shuffle(a, i, c) == Shuffle(a, i, d)
    decreases i
  {
    if i == 0 {
    } else {
      ShuffleIgnores(Swap(a, i, c[i]), i - 1, c, d);
    }
  }

  /** For every n, choice vectors correspond one to one with the permutations of [0, n). */
  lemma FisherYatesIsBijective(n: nat, p: seq<int>)
    requires n > 0 && multiset(p) == multiset(Identity(n))
    ensures exists c :: Choices(c, n) && Shuffle(Identity(n), n - 1, c) == p
    ensures forall c, d | Choices(c, n) && Choices(d, n) ::
              Shuffle(Identity(n), n - 1, c) == p == Shuffle(Identity(n), n - 1, d) ==> c == d
  {
    var a := Identity(n);
    assert |p| == n by {
      assert |multiset(p)| == |p|;
    }
    assert a[..n] == a && p[..n] == p;
    var c := ShuffleSurjective(a, p, n - 1);
    forall c, d | Choices(c, n) && Choices(d, n) && Shuffle(a, n - 1, c) == p == Shuffle(a, n - 1, d)
      ensures c == d
    {
      ShuffleInjective(a, n - 1, c, d);
      assert c[..n] == c && d[..n] == d;
    }
  }

  lemma {:induction false} ShuffleKeepsAll(a: seq<int>, i: nat, c: seq<nat>)
    requires i < |a| && Choices(c, |a|)
    ensures multiset(Shuffle(a, i, c)) == multiset(a)
    decreases i
  {
    if i == 0 {
    } else {
      SwapKeepsAll(a, i, c[i]);
      ShuffleKeepsAll(Swap(a, i, c[i]), i - 1, c);
    }
  }
}
