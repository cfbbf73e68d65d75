/** The combine functions themselves (pkg/ares/crypto/cgo/incremental_combine.go): loops over
    native handles that have to be freed by hand. A handle is never given out twice and may
    only be freed while live, so a call that leaves the same handles live as it found has
    freed each handle it allocated exactly once. */
module KeyCombine {
  import opened Wrappers
  import opened KeyFold

  /** The native heap. `faults` scripts the allocation failures still to come: each native
      call consumes one entry and fails if it is true. */
  class Native {
    var rots: map<nat, RotKey>
    var pks: map<nat, Tag>
    var avecs: map<nat, AVectors>
    var next: nat
    var faults: seq<bool>

    constructor (faults: seq<bool>)
      ensures Valid() && rots == map[] && pks == map[] && avecs == map[] && this.faults == faults
    {
      rots, pks, avecs, next := map[], map[], map[], 0;
      this.faults := faults;
    }

    ghost predicate Valid()
      reads this
    {
      && (forall h <- rots :: h < next)
      && (forall h <- pks :: h < next)
      && (forall h <- avecs :: h < next)
    }

    method Faulty() returns (b: bool)
      modifies this`faults
      ensures old(faults) == [] ==> !b && faults == []
    {
      if faults == [] {
        return false;
      }
      b := faults[0];
      faults := faults[1..];
    }

    /** Make a rotation-key handle for k, unless the native side already failed or fails now. */
    method NewRot(k: Option<RotKey>) returns (h: Option<nat>)
      requires Valid()
      modifies this`rots, this`next, this`faults
      ensures Valid()
      ensures h.None? ==> rots == old(rots)
      ensures h.Some? ==> k.Some? && h.value !in old(rots) && rots == old(rots)[h.value := k.value]
      ensures old(faults) == [] ==> faults == [] && (h.Some? <==> k.Some?)
    {
      var fault := Faulty();
      if fault || k.None? {
        return None;
      }
      h := Some(next);
      rots, next := rots[next := k.value], next + 1;
    }

    method NewPk(t: Option<Tag>) returns (h: Option<nat>)
      requires Valid()
      modifies this`pks, this`next, this`faults
      ensures Valid()
      ensures h.None? ==> pks == old(pks)
      ensures h.Some? ==> t.Some? && h.value !in old(pks) && pks == old(pks)[h.value := t.value]
      ensures old(faults) == [] ==> faults == [] && (h.Some? <==> t.Some?)
    {
      var fault := Faulty();
      if fault || t.None? {
        return None;
      }
      h := Some(next);
      pks, next := pks[next := t.value], next + 1;
    }

    method NewA(a: Option<AVectors>) returns (h: Option<nat>)
      requires Valid()
      modifies this`avecs, this`next, this`faults
      ensures Valid()
      ensures h.None? ==> avecs == old(avecs)
      ensures h.Some? ==> a.Some? && h.value !in old(avecs) && avecs == old(avecs)[h.value := a.value]
      ensures old(faults) == [] ==> faults == [] && (h.Some? <==> a.Some?)
    {
      var fault := Faulty();
      if fault || a.None? {
        return None;
      }
      h := Some(next);
      avecs, next := avecs[next := a.value], next + 1;
    }

    method FreeRot(h: nat)
      requires Valid() && h in rots
      modifies this`rots
      ensures Valid() && rots == old(rots) - {h}
    {
      rots := rots - {h};
    }

    method FreePk(h: nat)
      requires Valid() && h in pks
      modifies this`pks
      ensures Valid() && pks == old(pks) - {h}
    {
      pks := pks - {h};
    }

    method FreeA(h: nat)
      requires Valid() && h in avecs
      modifies this`avecs
      ensures Valid() && avecs == old(avecs) - {h}
    {
      avecs := avecs - {h};
    }

    /** Fold, merge and insert write into an existing handle; false is a non-zero rc. */
    method Assign(h: nat, k: Option<RotKey>) returns (ok: bool)
      requires Valid() && h in rots
      modifies this`rots, this`faults
      ensures Valid()
      ensures !ok ==> rots == old(rots)
      ensures ok ==> k.Some? && rots == old(rots)[h := k.value]
      ensures old(faults) == [] ==> faults == [] && (ok <==> k.Some?)
    {
      var fault := Faulty();
      if fault || k.None? {
        return false;
      }
      rots := rots[h := k.value];
      ok := true;
    }
  }

  // ---------------------------------------------------------------- the a-vector cache

  /** The cache's handles are exactly the live ones besides `base`, each for one ref, and
      hold what that ref resolves to. */
  ghost predicate CacheOk(lib: Lib, resolve: Resolver, base: map<nat, AVectors>, avecs: map<nat, AVectors>, cache: map<string, nat>) {
    && (forall r <- cache :: cache[r] !in base && cache[r] in avecs)
    && (forall r, q :: r in cache && q in cache && cache[r] == cache[q] ==> r == q)
    && avecs.Keys == base.Keys + cache.Values
    && (forall h <- base :: avecs[h] == base[h])
    && (forall r <- cache :: resolve(r).Some? && ReadA(lib, resolve(r).value) == Some(avecs[cache[r]]))
  }

  /** The deferred loop that frees the cache. */
  method FreeCache(lib: Lib, resolve: Resolver, n: Native, start: map<string, nat>, ghost base: map<nat, AVectors>)
    requires n.Valid() && CacheOk(lib, resolve, base, n.avecs, start)
    modifies n`avecs
    ensures n.Valid() && n.avecs == base
  {
    var cache := start;
    while cache.Keys != {}
      invariant n.Valid() && CacheOk(lib, resolve, base, n.avecs, cache)
      decreases cache.Keys
    {
      var r :| r in cache.Keys;
      DropEntry(lib, resolve, base, n.avecs, cache, r);
      n.FreeA(cache[r]);
      cache := cache - {r};
    }
    NoEntries(lib, resolve, base, n.avecs, cache);
  }

  lemma DropEntry(lib: Lib, resolve: Resolver, base: map<nat, AVectors>, avecs: map<nat, AVectors>, cache: map<string, nat>, r: string)
    requires CacheOk(lib, resolve, base, avecs, cache) && r in cache
    ensures CacheOk(lib, resolve, base, avecs - {cache[r]}, cache - {r})
  {
    var rest := cache - {r};
    forall h ensures h in rest.Values <==> h in cache.Values && h != cache[r] {
      if h in cache.Values && h != cache[r] {
        var q :| q in cache && cache[q] == h;
        assert q in rest && rest[q] == h;
      }
    }
  }

  lemma NoEntries(lib: Lib, resolve: Resolver, base: map<nat, AVectors>, avecs: map<nat, AVectors>, cache: map<string, nat>)
    requires CacheOk(lib, resolve, base, avecs, cache) && cache.Keys == {}
    ensures avecs == base
  {
    assert forall h :: h in avecs <==> h in base;
  }

  /** A fresh handle for a ref that was not cached. */
  lemma AddEntry(lib: Lib, resolve: Resolver, base: map<nat, AVectors>, avecs: map<nat, AVectors>, cache: map<string, nat>,
                 r: string, h: nat, a: AVectors)
    requires CacheOk(lib, resolve, base, avecs, cache) && r !in cache && h !in avecs
    requires resolve(r).Some? && ReadA(lib, resolve(r).value) == Some(a)
    ensures CacheOk(lib, resolve, base, avecs[h := a], cache[r := h])
  {
    var more := cache[r := h];
    forall g ensures g in more.Values <==> g in cache.Values || g == h {
      if g in cache.Values {
        var q :| q in cache && cache[q] == g;
        assert q in more && more[q] == g;
      }
      assert r in more && more[r] == h;
    }
  }

  /** resolveKeyRefCached: as ResolveRef, but a-vectors are read once per reference. */
  method ResolveKeyRefCached(lib: Lib, resolve: Resolver, n: Native, ref: KeyRef, start: map<string, nat>, ghost base: map<nat, AVectors>)
    returns (h: Option<nat>, cache: map<string, nat>)
    requires n.Valid() && CacheOk(lib, resolve, base, n.avecs, start)
    modifies n`rots, n`avecs, n`next, n`faults
    ensures n.Valid() && CacheOk(lib, resolve, base, n.avecs, cache)
    ensures h.None? ==> n.rots == old(n.rots)
    ensures h.Some? ==> ResolveRef(lib, resolve, ref).Some? && h.value !in old(n.rots)
                        && n.rots == old(n.rots)[h.value := ResolveRef(lib, resolve, ref).value]
    ensures old(n.faults) == [] ==> n.faults == [] && (h.Some? <==> ResolveRef(lib, resolve, ref).Some?)
  {
    cache := start;
    if IsFull(ref) {
      var raw := resolve(ref.full);
      if raw.None? {
        return None, cache;
      }
      h := n.NewRot(ReadRot(lib, raw.value));
    } else if IsSplit(ref) {
      if ref.aRef !in cache {
        var a := resolve(ref.aRef);
        if a.None? {
          return None, cache;
        }
        ghost var avecs := n.avecs;
        var av := n.NewA(ReadA(lib, a.value));
        if av.None? {
          return None, cache;
        }
        AddEntry(lib, resolve, base, avecs, cache, ref.aRef, av.value, n.avecs[av.value]);
        cache := cache[ref.aRef := av.value];
      }
      var b := resolve(ref.bRef);
      if b.None? {
        return None, cache;
      }
      h := n.NewRot(if b.value == [] then None else lib.rebuild(n.avecs[cache[ref.aRef]], b.value));
    } else {
      h := None;
    }
  }

  method LoadShare(lib: Lib, resolve: Resolver, n: Native, s: Source, start: map<string, nat>, ghost base: map<nat, AVectors>)
    returns (h: Option<nat>, cache: map<string, nat>)
    requires n.Valid() && CacheOk(lib, resolve, base, n.avecs, start)
    modifies n`rots, n`avecs, n`next, n`faults
    ensures n.Valid() && CacheOk(lib, resolve, base, n.avecs, cache)
    ensures h.None? ==> n.rots == old(n.rots)
    ensures h.Some? ==> Load(lib, resolve, s).Some? && h.value !in old(n.rots)
                        && n.rots == old(n.rots)[h.value := Load(lib, resolve, s).value]
    ensures old(n.faults) == [] ==> n.faults == [] && (h.Some? <==> Load(lib, resolve, s).Some?)
  {
    cache := start;
    match s {
      case Raw(blob) => h := n.NewRot(ReadRot(lib, blob));
      case Named(name) =>
        var raw := resolve(name);
        h := None;
        if raw.Some? {
          h := n.NewRot(ReadRot(lib, raw.value));
        }
      case Lazy(ref) => h, cache := ResolveKeyRefCached(lib, resolve, n, ref, cache, base);
    }
  }

  // ---------------------------------------------------------------- folding

  /** Fold one party's share into the accumulator; both of its handles are gone after. */
  method FoldParty(lib: Lib, resolve: Resolver, n: Native, accum: nat, pkBytes: Blob, s: Source,
                   start: map<string, nat>, ghost base: map<nat, AVectors>)
    returns (ok: bool, cache: map<string, nat>)
    requires n.Valid() && CacheOk(lib, resolve, base, n.avecs, start) && accum in n.rots
    modifies n
    ensures n.Valid() && CacheOk(lib, resolve, base, n.avecs, cache) && n.pks == old(n.pks)
    ensures !ok ==> n.rots == old(n.rots)
    ensures var sum := FoldedIn(lib, old(n.rots)[accum], ReadPk(lib, pkBytes), Load(lib, resolve, s));
            && (ok ==> sum.Some? && n.rots == old(n.rots)[accum := sum.value])
            && (old(n.faults) == [] ==> n.faults == [] && (ok <==> sum.Some?))
  {
    ok, cache := false, start;
    var pk := n.NewPk(ReadPk(lib, pkBytes));
    if pk.Some? {
      ok, cache := FoldUnder(lib, resolve, n, accum, n.pks[pk.value], s, cache, base);
      n.FreePk(pk.value);
      assert n.pks == old(n.pks);
    }
  }

  /** The part of FoldParty between making and freeing the public-key handle. */
  method FoldUnder(lib: Lib, resolve: Resolver, n: Native, accum: nat, tag: Tag, s: Source,
                   start: map<string, nat>, ghost base: map<nat, AVectors>)
    returns (ok: bool, cache: map<string, nat>)
    requires n.Valid() && CacheOk(lib, resolve, base, n.avecs, start) && accum in n.rots
    modifies n`rots, n`avecs, n`next, n`faults
    ensures n.Valid() && CacheOk(lib, resolve, base, n.avecs, cache)
    ensures !ok ==> n.rots == old(n.rots)
    ensures var sum := FoldedIn(lib, old(n.rots)[accum], Some(tag), Load(lib, resolve, s));
            && (ok ==> sum.Some? && n.rots == old(n.rots)[accum := sum.value])
            && (old(n.faults) == [] ==> n.faults == [] && (ok <==> sum.Some?))
  {
    var share;
    share, cache := LoadShare(lib, resolve, n, s, start, base);
    ok := false;
    if share.Some? {
      ok := FoldAndFree(n, accum, share.value, FoldKeys(lib, n.rots[accum], n.rots[share.value], tag), old(n.rots));
    }
  }

  /** Store the sum in the accumulator and free the share just loaded. */
  method FoldAndFree(n: Native, accum: nat, share: nat, sum: Option<RotKey>, ghost before: map<nat, RotKey>) returns (ok: bool)
    requires n.Valid() && accum in before && share !in before && share in n.rots && n.rots == before[share := n.rots[share]]
    modifies n`rots, n`faults
    ensures n.Valid()
    ensures !ok ==> n.rots == before
    ensures ok ==> sum.Some? && n.rots == before[accum := sum.value]
    ensures old(n.faults) == [] ==> n.faults == [] && (ok <==> sum.Some?)
  {
    ok := n.Assign(accum, sum);
    n.FreeRot(share);
  }

  function FoldedIn(lib: Lib, acc: RotKey, tag: Option<Tag>, share: Option<RotKey>): Option<RotKey> {
    if tag.None? || share.None? then None else FoldKeys(lib, acc, share.value, tag.value)
  }

  /** Copy the seed into an accumulator and free the seed. */
  method StartCombine(n: Native, seed: nat) returns (accum: Option<nat>)
    requires n.Valid() && seed in n.rots
    modifies n`rots, n`next, n`faults
    ensures n.Valid()
    ensures accum.None? ==> n.rots == old(n.rots) - {seed}
    ensures accum.Some? ==> accum.value !in old(n.rots) && n.rots == old(n.rots)[accum.value := old(n.rots)[seed]] - {seed}
    ensures old(n.faults) == [] ==> n.faults == [] && accum.Some?
  {
    accum := n.NewRot(Some(n.rots[seed]));
    n.FreeRot(seed);
  }

  /** Load the first share and copy it into an accumulator, which is all that stays live. */
  method SeedShares(lib: Lib, resolve: Resolver, n: Native, s: Source, start: map<string, nat>, ghost base: map<nat, AVectors>)
    returns (accum: Option<nat>, cache: map<string, nat>)
    requires n.Valid() && CacheOk(lib, resolve, base, n.avecs, start)
    modifies n`rots, n`avecs, n`next, n`faults
    ensures n.Valid() && CacheOk(lib, resolve, base, n.avecs, cache)
    ensures accum.None? ==> n.rots == old(n.rots)
    ensures accum.Some? ==> Load(lib, resolve, s).Some? && accum.value !in old(n.rots)
                            && n.rots == old(n.rots)[accum.value := Load(lib, resolve, s).value]
    ensures old(n.faults) == [] ==> n.faults == [] && (accum.Some? <==> Load(lib, resolve, s).Some?)
  {
    var seed;
    seed, cache := LoadShare(lib, resolve, n, s, start, base);
    accum := None;
    if seed.Some? {
      accum := StartCombine(n, seed.value);
      assert n.rots == if accum.Some? then old(n.rots)[accum.value := Load(lib, resolve, s).value] else old(n.rots);
    }
  }

  lemma AddedThenRemoved(m: map<nat, RotKey>, h: nat, k: RotKey)
    requires h !in m
    ensures m[h := k] - {h} == m
  {
  }

  /** Seed, start and fold: the loop every combine function runs. On success one new handle
      is live, holding the combined key; on failure none is. */
  method FoldShares(lib: Lib, resolve: Resolver, n: Native, pks: seq<Blob>, sources: seq<Source>,
                    start: map<string, nat>, ghost base: map<nat, AVectors>)
    returns (accum: Option<nat>, cache: map<string, nat>)
    requires n.Valid() && CacheOk(lib, resolve, base, n.avecs, start) && 0 < |sources| <= |pks|
    modifies n
    ensures n.Valid() && CacheOk(lib, resolve, base, n.avecs, cache) && n.pks == old(n.pks)
    ensures accum.None? ==> n.rots == old(n.rots)
    ensures var sum := Combined(lib, pks, LoadAll(lib, resolve, sources));
            && (accum.Some? ==> sum.Some? && accum.value !in old(n.rots) && n.rots == old(n.rots)[accum.value := sum.value])
            && (old(n.faults) == [] ==> n.faults == [] && (accum.Some? <==> sum.Some?))
  {
    accum, cache := SeedShares(lib, resolve, n, sources[0], start, base);
    FailureSticks(lib, pks, LoadAll(lib, resolve, sources), 1, |sources|);
    if accum.Some? {
      var ok;
      ok, cache := FoldRest(lib, resolve, n, accum.value, pks, sources, cache, base);
      if !ok {
        AddedThenRemoved(old(n.rots), accum.value, n.rots[accum.value]);
        n.FreeRot(accum.value);
        accum := None;
      }
    }
  }

  /** The loop over parties 1, 2, ...; the accumulator stays live either way. */
  method FoldRest(lib: Lib, resolve: Resolver, n: Native, accum: nat, pks: seq<Blob>, sources: seq<Source>,
                  start: map<string, nat>, ghost base: map<nat, AVectors>)
    returns (ok: bool, cache: map<string, nat>)
    requires n.Valid() && CacheOk(lib, resolve, base, n.avecs, start) && 0 < |sources| <= |pks|
    requires accum in n.rots && Load(lib, resolve, sources[0]) == Some(n.rots[accum])
    modifies n
    ensures n.Valid() && CacheOk(lib, resolve, base, n.avecs, cache) && n.pks == old(n.pks)
    ensures accum in n.rots && n.rots == old(n.rots)[accum := n.rots[accum]]
    ensures var sum := Combined(lib, pks, LoadAll(lib, resolve, sources));
            && (ok ==> sum == Some(n.rots[accum]))
            && (old(n.faults) == [] ==> n.faults == [] && (ok <==> sum.Some?))
  {
    ghost var shares := LoadAll(lib, resolve, sources);
    ok, cache := true, start;
    var i := 1;
    while i < |sources| && ok
      invariant 1 <= i <= |sources|
      invariant n.Valid() && CacheOk(lib, resolve, base, n.avecs, cache) && n.pks == old(n.pks)
      invariant accum in n.rots && n.rots == old(n.rots)[accum := n.rots[accum]]
      invariant ok ==> FoldParties(lib, pks, shares, i) == Some(n.rots[accum])
      invariant old(n.faults) == [] ==> n.faults == [] && (ok <==> FoldParties(lib, pks, shares, i).Some?)
    {
      ok, cache := FoldNext(lib, resolve, n, accum, pks, sources, i, cache, base);
      i := i + 1;
    }
    FailureSticks(lib, pks, shares, i, |shares|);
  }

  /** One iteration: FoldParty in terms of the fold so far. */
  method FoldNext(lib: Lib, resolve: Resolver, n: Native, accum: nat, pks: seq<Blob>, sources: seq<Source>, i: nat,
                  start: map<string, nat>, ghost base: map<nat, AVectors>)
    returns (ok: bool, cache: map<string, nat>)
    requires n.Valid() && CacheOk(lib, resolve, base, n.avecs, start) && 0 < i < |sources| <= |pks|
    requires accum in n.rots && FoldParties(lib, pks, LoadAll(lib, resolve, sources), i) == Some(n.rots[accum])
    modifies n
    ensures n.Valid() && CacheOk(lib, resolve, base, n.avecs, cache) && n.pks == old(n.pks)
    ensures accum in n.rots && n.rots == old(n.rots)[accum := n.rots[accum]]
    ensures var sum := FoldParties(lib, pks, LoadAll(lib, resolve, sources), i + 1);
            && (ok ==> sum == Some(n.rots[accum]))
            && (old(n.faults) == [] ==> n.faults == [] && (ok <==> sum.Some?))
  {
    ok, cache := FoldParty(lib, resolve, n, accum, pks[i], sources[i], start, base);
  }

  lemma {:induction false} FailureSticks(lib: Lib, pks: seq<Blob>, shares: seq<Option<RotKey>>, i: nat, n: nat)
    requires 0 < i <= n <= |shares| <= |pks|
    ensures FoldParties(lib, pks, shares, i).None? ==> FoldParties(lib, pks, shares, n).None?
  {
    if i >= n {
    } else {
      FailureSticks(lib, pks, shares, i, n - 1);
    }
  }

  // ---------------------------------------------------------------- whole shares

  method SerializeAndFree(lib: Lib, n: Native, h: nat) returns (r: Option<Blob>)
    requires n.Valid() && h in n.rots
    modifies n`rots, n`faults
    ensures n.Valid() && n.rots == old(n.rots) - {h}
    ensures r.Some? ==> r.value == lib.write(old(n.rots)[h])
    ensures old(n.faults) == [] ==> n.faults == [] && r.Some?
  {
    var fault := n.Faulty();
    r := if fault then None else Some(lib.write(n.rots[h]));
    n.FreeRot(h);
  }

  /** The blob of a key, when there is one. */
  function Written(lib: Lib, key: Option<RotKey>): Option<Blob> {
    if key.None? then None else Some(lib.write(key.value))
  }

  /** combineEvalSumIncremental, or its lazy form when the sources are names. Every handle
      allocated on the way is freed again whatever happens, and a returned blob is the
      combined key. */
  method CombineIncremental(lib: Lib, resolve: Resolver, n: Native, pks: seq<Blob>, sources: seq<Source>) returns (r: Option<Blob>)
    requires n.Valid()
    modifies n
    ensures n.Valid() && n.rots == old(n.rots) && n.pks == old(n.pks) && n.avecs == old(n.avecs)
    ensures |pks| != |sources| || |sources| == 0 ==> r.None?
    ensures |pks| == |sources| > 0 ==>
              var key := Written(lib, Combined(lib, pks, LoadAll(lib, resolve, sources)));
              (r.Some? ==> r == key) && (old(n.faults) == [] ==> r == key)
  {
    if |pks| != |sources| || |sources| == 0 {
      return None;
    }
    ghost var base := n.avecs;
    var accum, cache := FoldShares(lib, resolve, n, pks, sources, map[], base);
    FreeCache(lib, resolve, n, cache, base);
    if accum.None? {
      return None;
    }
    r := SerializeAndFree(lib, n, accum.value);
    assert n.rots == old(n.rots);
  }
}
