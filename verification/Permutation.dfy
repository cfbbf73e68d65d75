/** The slot permutation (pkg/ares/onion/permutation.go): an in-place Fisher-Yates shuffle whose
    choices are drawn from a seed's keystream. */
module Permutation {
  import opened Wrappers
  import opened Keystream
  import opened FisherYates

  lemma SampledOnce(s: Words, p: nat, m: nat, r: nat, next: nat, r': nat, next': nat)
    requires 1 <= m < U32 && Sampled(s, p, m, r, next) && Sampled(s, p, m, r', next')
    ensures r == r' && next == next'
  {
    var k: nat :| FirstAccepted(s, p, Limit(m), k) && r == Nth(s, p, k) % m && next == p + 4 * k + 4;
    var k': nat :| FirstAccepted(s, p, Limit(m), k') && r' == Nth(s, p, k') % m && next' == p + 4 * k' + 4;
    assert k == k';
  }

  /** The outcome of rejection sampling, and the position after it. */
  ghost function Sample(s: Words, p: nat, m: nat): (x: (nat, nat))
    requires Fair(s) && 1 <= m < U32
    ensures x.0 < m && Sampled(s, p, m, x.0, x.1)
  {
    assert AcceptsLater(s, p, Limit(m));
    var k: nat :| FirstAccepted(s, p, Limit(m), k);
    (Nth(s, p, k) % m, p + 4 * k + 4)
  }

  /** A seed's draws: at a keystream position and below a bound, the value and where the
      stream is then. */
  type Draws = (nat, nat) -> (nat, nat)

  ghost predicate InRange(draws: Draws) {
    forall p, m {:trigger draws(p, m)} :: 1 <= m < U32 ==> draws(p, m).0 < m
  }

  /** The draws of a keystream that always yields an accepted word in the end. */
  ghost predicate DrawsOf(s: Words, draws: Draws) {
    && Fair(s) && InRange(draws)
    && forall p, m {:trigger Sample(s, p, m)} :: 1 <= m < U32 ==> draws(p, m) == Sample(s, p, m)
  }

  lemma TheDraws(s: Words) returns (draws: Draws)
    requires Fair(s)
    ensures DrawsOf(s, draws)
  {
    draws := (p, m) => if Fair(s) && 1 <= m < U32 then Sample(s, p, m) else (0, 0);
  }

  /** The choices made from position i down, drawing from position p. */
  ghost function SeedChoices(draws: Draws, p: nat, i: nat): (c: seq<nat>)
    requires InRange(draws) && i + 1 < U32
    ensures Choices(c, i + 1)
    decreases i
  {
    if i == 0 then [0] else SeedChoices(draws, draws(p, i + 1).1, i - 1) + [draws(p, i + 1).0]
  }

  /** The order every holder of the seed computes. */
  ghost function SeedOrder(draws: Draws, n: nat): seq<int>
    requires InRange(draws) && n < U32
  {
    if n == 0 then [] else Shuffle(Identity(n), n - 1, SeedChoices(draws, 0, n - 1))
  }

  lemma DropLast(x: seq<nat>, j: nat, c: seq<nat>, i: nat)
    requires i < |c| && x + [j] == c[..i + 1]
    ensures x == c[..i] && j == c[i]
  {
    assert c[..i + 1] == c[..i] + [c[i]];
    assert |x| == i;
    assert x == (x + [j])[..i];
  }

  /** The loop from position i down, drawing from keystream position p: None where the modulus
      of a draw wraps to 0, on which the source panics. */
  ghost function ShuffleFrom(draws: Draws, p: nat, a: seq<int>, i: nat): Option<seq<int>>
    requires InRange(draws) && i < |a|
    decreases i
  {
    if i == 0 then Some(a)
    else if Wrapped(i + 1) == 0 then None
    else
      var x := draws(p, Wrapped(i + 1));
      ShuffleFrom(draws, x.1, Swap(a, i, x.0), i - 1)
  }

  /** The draw for position i, as the stream makes it. */
  method DrawFor(h: Blocks, ghost ks: Keys, ghost draws: Draws, s: SeedStream, i: nat) returns (j: Option<nat>)
    requires s.Valid(h) && KeysOf(h, ks) && DrawsOf(ks.words, draws) && 0 < i
    modifies s
    ensures s.Valid(h)
    ensures j.None? <==> Wrapped(i + 1) == 0
    ensures j.Some? ==> draws(old(s.pos), Wrapped(i + 1)) == (j.value, s.pos) && j.value <= i
  {
    var m := Wrapped(i + 1);
    FairBelow(ks.words, s.pos, m);
    j := s.Intn(h, ks, i + 1);
    if j.Some? {
      ghost var x := Sample(ks.words, old(s.pos), m);
      SampledOnce(ks.words, old(s.pos), m, j.value, s.pos, x.0, x.1);
    }
  }

  /** One iteration: draw and swap; false on a panic. */
  method ShuffleOnce(h: Blocks, ghost ks: Keys, ghost draws: Draws, s: SeedStream, perm: array<int>, i: nat) returns (ok: bool)
    requires s.Valid(h) && KeysOf(h, ks) && DrawsOf(ks.words, draws) && 0 < i < perm.Length
    modifies s, perm
    ensures s.Valid(h)
    ensures ShuffleFrom(draws, old(s.pos), old(perm[..]), i)
         == if ok then ShuffleFrom(draws, s.pos, perm[..], i - 1) else None
  {
    var j := DrawFor(h, ks, draws, s, i);
    ok := j.Some?;
    if ok {
      SwapAt(perm, i, j.value);
    }
  }

  lemma FairBelow(s: Words, p: nat, m: nat)
    requires Fair(s) && m < U32
    ensures m != 0 ==> AcceptsLater(s, p, Limit(m))
  {
  }

  method SwapAt(perm: array<int>, i: nat, j: nat)
    requires j <= i < perm.Length
    modifies perm
    ensures perm[..] == Swap(old(perm[..]), i, j)
  {
    perm[i], perm[j] := perm[j], perm[i];
  }

  /** The shuffle loop: swaps in place, each choice drawn when it is needed. */
  method ShuffleInPlace(h: Blocks, ghost ks: Keys, ghost draws: Draws, s: SeedStream, perm: array<int>) returns (ok: bool)
    requires s.Valid(h) && KeysOf(h, ks) && DrawsOf(ks.words, draws) && 0 < perm.Length
    modifies s, perm
    ensures ShuffleFrom(draws, old(s.pos), old(perm[..]), perm.Length - 1) == if ok then Some(perm[..]) else None
  {
    var i := perm.Length - 1;
    ghost var rest := TheRest(draws);
    ghost var goal := ShuffleFrom(draws, s.pos, perm[..], i);
    ok := true;
    while i > 0 && ok
      invariant 0 <= i < perm.Length && s.Valid(h)
      invariant if ok then rest(s.pos, perm[..], i) == goal else goal == None
    {
      ok := ShuffleNext(h, ks, draws, rest, s, perm, i);
      i := i - 1;
    }
    RestAtZero(draws, rest, s.pos, perm[..]);
  }

  /** What is left of a shuffle, as a function of the position, the order so far and the index. */
  type Rest = (nat, seq<int>, nat) -> Option<seq<int>>

  ghost predicate RestOf(draws: Draws, rest: Rest) {
    InRange(draws) && forall p: nat, a, i: nat {:trigger ShuffleFrom(draws, p, a, i)} ::
      i < |a| ==> rest(p, a, i) == ShuffleFrom(draws, p, a, i)
  }

  lemma TheRest(draws: Draws) returns (rest: Rest)
    requires InRange(draws)
    ensures RestOf(draws, rest)
  {
    rest := (p: nat, a: seq<int>, i: nat) => if InRange(draws) && i < |a| then ShuffleFrom(draws, p, a, i) else None;
  }

  lemma RestAtZero(draws: Draws, rest: Rest, p: nat, a: seq<int>)
    requires RestOf(draws, rest) && 0 < |a|
    ensures rest(p, a, 0) == Some(a)
  {
    assert ShuffleFrom(draws, p, a, 0) == Some(a);
  }

  method ShuffleNext(h: Blocks, ghost ks: Keys, ghost draws: Draws, ghost rest: Rest, s: SeedStream, perm: array<int>, i: nat)
    returns (ok: bool)
    requires s.Valid(h) && KeysOf(h, ks) && DrawsOf(ks.words, draws) && RestOf(draws, rest) && 0 < i < perm.Length
    modifies s, perm
    ensures s.Valid(h)
    ensures rest(old(s.pos), old(perm[..]), i) == if ok then rest(s.pos, perm[..], i - 1) else None
  {
    ok := ShuffleOnce(h, ks, draws, s, perm, i);
  }

  /** Below 2^32 no draw panics, and the loop computes the shuffle by the seed's choices. */
  lemma {:induction false} SmallShuffles(draws: Draws, p: nat, a: seq<int>, i: nat, c: seq<nat>)
    requires InRange(draws) && i < |a| && i + 1 < U32 && Choices(c, |a|) && SeedChoices(draws, p, i) == c[..i + 1]
    ensures ShuffleFrom(draws, p, a, i) == Some(Shuffle(a, i, c))
    decreases i
  {
    if i == 0 {
    } else {
      var x := draws(p, i + 1);
      DropLast(SeedChoices(draws, x.1, i - 1), x.0, c, i);
      SmallShuffles(draws, x.1, Swap(a, i, c[i]), i - 1, c);
    }
  }

  /** From 2^32 items on the loop always comes to the draw that panics. */
  lemma {:induction false} LargePanics(draws: Draws, p: nat, a: seq<int>, i: nat)
    requires InRange(draws) && U32 - 1 <= i < |a|
    ensures ShuffleFrom(draws, p, a, i) == None
    decreases i
  {
    if i == U32 - 1 {
      assert Wrapped(i + 1) == 0;
    } else if Wrapped(i + 1) != 0 {
      var x := draws(p, Wrapped(i + 1));
      LargePanics(draws, x.1, Swap(a, i, x.0), i - 1);
    }
  }

  method InOrder(n: nat) returns (perm: array<int>)
    ensures fresh(perm) && perm.Length == n && perm[..] == Identity(n)
  {
    perm := new int[n](i => i);
  }

  /** None when the source panics: on a negative size, and on every size from 2^32 on. */
  method SlotPermutation(h: Blocks, ghost ks: Keys, ghost draws: Draws, n: int) returns (r: Option<array<int>>)
    requires KeysOf(h, ks) && DrawsOf(ks.words, draws)
    ensures r.Some? <==> 0 <= n < U32
    ensures r.Some? ==> r.value.Length == n && r.value[..] == SeedOrder(draws, n)
    ensures r.Some? ==> multiset(r.value[..]) == multiset(Identity(n))
  {
    if n < 0 {
      return None;
    }
    var perm := InOrder(n);
    var ok := true;
    if n > 0 {
      var s := new SeedStream(h);
      SeedShuffles(draws, n);
      ok := ShuffleInPlace(h, ks, draws, s, perm);
    }
    r := if ok then Some(perm) else None;
  }

  /** What the loop makes of the identity. */
  lemma SeedShuffles(draws: Draws, n: nat)
    requires InRange(draws) && n > 0
    ensures ShuffleFrom(draws, 0, Identity(n), n - 1) == if n < U32 then Some(SeedOrder(draws, n)) else None
    ensures n < U32 ==> multiset(SeedOrder(draws, n)) == multiset(Identity(n))
  {
    if n < U32 {
      var c := SeedChoices(draws, 0, n - 1);
      assert c[..n] == c;
      SmallShuffles(draws, 0, Identity(n), n - 1, c);
      ShuffleKeepsAll(Identity(n), n - 1, c);
    } else {
      LargePanics(draws, 0, Identity(n), n - 1);
    }
  }
}
