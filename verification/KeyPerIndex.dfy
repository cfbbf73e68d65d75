/** The per-index combine functions (pkg/ares/crypto/cgo/incremental_combine.go): validation of
    the parties' indexed shares, then one fold per rotation index, merged or inserted. */
module KeyPerIndex {
  import opened Wrappers
  import opened KeyFold
  import opened KeyCombine

  type Shares = seq<(int, Source)>

  // ---------------------------------------------------------------- validation

  predicate ValidSource(s: Source) {
    match s
    case Raw(b) => b != []
    case Named(_) => true
    case Lazy(ref) => IsFull(ref) || IsSplit(ref)
  }

  /** Validation refuses exactly the sources that no library and no resolver could load. */
  lemma ValidExactly(s: Source)
    ensures ValidSource(s) <==> exists lib: Lib, resolve: Resolver :: Load(lib, resolve, s).Some?
  {
    if ValidSource(s) {
      var lib := Lib(b => Some(map[]), b => Some(0), b => Some(0), (a, b) => Some(map[]), k => [], (x, y, t) => Some(0));
      var resolve: Resolver := name => Some([0]);
      assert Load(lib, resolve, s).Some?;
    }
  }

  function IndicesOf(shares: Shares): (r: seq<int>)
    ensures |r| == |shares| && forall k :: 0 <= k < |r| ==> r[k] == shares[k].0
  {
    seq(|shares|, k requires 0 <= k < |shares| => shares[k].0)
  }

  function IndexSet(shares: Shares): set<int> {
    set k | 0 <= k < |shares| :: shares[k].0
  }

  /** One party's list: non-empty, every share usable, no index twice. */
  predicate ProperShares(shares: Shares) {
    && shares != []
    && (forall k :: 0 <= k < |shares| ==> ValidSource(shares[k].1))
    && (forall k, l :: 0 <= k < l < |shares| ==> shares[k].0 != shares[l].0)
  }

  /** All parties have proper lists over the lead's indices. */
  predicate Uniform(byParty: seq<Shares>) {
    && byParty != []
    && (forall p :: 0 <= p < |byParty| ==> ProperShares(byParty[p]))
    && (forall p :: 0 <= p < |byParty| ==> IndexSet(byParty[p]) == IndexSet(byParty[0]))
  }

  /** Exactly one share has the index. */
  ghost predicate HasOnce(shares: Shares, i: int) {
    exists k :: 0 <= k < |shares| && shares[k].0 == i && forall l :: 0 <= l < |shares| && shares[l].0 == i ==> l == k
  }

  /** Every party has, for every index any party has, exactly one share, and all can be loaded. */
  ghost predicate EachHasAll(byParty: seq<Shares>) {
    forall p, k, q :: 0 <= p < |byParty| && 0 <= k < |byParty[p]| && 0 <= q < |byParty| ==>
      ValidSource(byParty[p][k].1) && HasOnce(byParty[q], byParty[p][k].0)
  }

  lemma UniformExactly(byParty: seq<Shares>)
    ensures Uniform(byParty) <==> byParty != [] && (forall p :: 0 <= p < |byParty| ==> byParty[p] != []) && EachHasAll(byParty)
  {
    if Uniform(byParty) {
      forall p, k, q | 0 <= p < |byParty| && 0 <= k < |byParty[p]| && 0 <= q < |byParty|
        ensures ValidSource(byParty[p][k].1) && HasOnce(byParty[q], byParty[p][k].0)
      {
        assert ProperShares(byParty[p]) && ProperShares(byParty[q]);
        assert byParty[p][k].0 in IndexSet(byParty[p]);
        assert byParty[p][k].0 in IndexSet(byParty[q]);
      }
    }
    if byParty != [] && (forall p :: 0 <= p < |byParty| ==> byParty[p] != []) && EachHasAll(byParty) {
      forall p | 0 <= p < |byParty| ensures ProperShares(byParty[p]) && IndexSet(byParty[p]) == IndexSet(byParty[0]) {
        OnceMeansProper(byParty, p);
        OnceMeansSame(byParty, p);
      }
    }
  }

  lemma OnceMeansProper(byParty: seq<Shares>, p: nat)
    requires p < |byParty| && byParty[p] != [] && EachHasAll(byParty)
    ensures ProperShares(byParty[p])
  {
    forall k, l | 0 <= k < l < |byParty[p]| ensures byParty[p][k].0 != byParty[p][l].0 {
      assert HasOnce(byParty[p], byParty[p][k].0);
    }
  }

  lemma OnceMeansSame(byParty: seq<Shares>, p: nat)
    requires p < |byParty| && EachHasAll(byParty)
    ensures IndexSet(byParty[p]) == IndexSet(byParty[0])
  {
    forall i ensures i in IndexSet(byParty[p]) <==> i in IndexSet(byParty[0]) {
      if i in IndexSet(byParty[p]) {
        var k :| 0 <= k < |byParty[p]| && byParty[p][k].0 == i;
        assert HasOnce(byParty[0], byParty[p][k].0);
      }
      if i in IndexSet(byParty[0]) {
        var k :| 0 <= k < |byParty[0]| && byParty[0][k].0 == i;
        assert HasOnce(byParty[p], byParty[0][k].0);
      }
    }
  }

  predicate KeyedFrom(shares: Shares, keyed: map<int, Source>) {
    && keyed.Keys == IndexSet(shares)
    && (forall k :: 0 <= k < |shares| ==> keyed[shares[k].0] == shares[k].1)
  }

  method KeyShares(shares: Shares) returns (keyed: Option<map<int, Source>>)
    ensures keyed.Some? <==> ProperShares(shares)
    ensures keyed.Some? ==> KeyedFrom(shares, keyed.value)
  {
    if |shares| == 0 {
      return None;
    }
    var m: map<int, Source> := map[];
    for k := 0 to |shares|
      invariant forall l :: 0 <= l < k ==> ValidSource(shares[l].1)
      invariant forall l, j :: 0 <= l < j < k ==> shares[l].0 != shares[j].0
      invariant m.Keys == set l | 0 <= l < k :: shares[l].0
      invariant forall l :: 0 <= l < k ==> shares[l].0 in m && m[shares[l].0] == shares[l].1
    {
      if !ValidSource(shares[k].1) || shares[k].0 in m {
        assert shares[k].0 in m ==> exists l :: 0 <= l < k && shares[l].0 == shares[k].0;
        return None;
      }
      m := m[shares[k].0 := shares[k].1];
    }
    return Some(m);
  }

  /** validateIndexedEvalSumShares and validateIndexedEvalSumShareRefs. */
  /** The party has the lead's indices: as many, each of them, and no other. */
  method SameIndices(keyed: map<int, Source>, required: set<int>) returns (same: bool)
    ensures same <==> keyed.Keys == required
  {
    if |keyed| != |required| || exists i <- required :: i !in keyed {
      return false;
    }
    if exists i <- keyed :: i !in required {
      return false;
    }
    same := true;
  }

  method ValidateIndexed(byParty: seq<Shares>) returns (r: Option<(seq<int>, seq<map<int, Source>>)>)
    ensures r.Some? <==> Uniform(byParty)
    ensures r.Some? ==> r.value.0 == IndicesOf(byParty[0]) && |r.value.1| == |byParty|
                        && forall p :: 0 <= p < |byParty| ==> KeyedFrom(byParty[p], r.value.1[p])
  {
    if |byParty| == 0 {
      return None;
    }
    var keyedByParty: seq<map<int, Source>> := [];
    for p := 0 to |byParty|
      invariant |keyedByParty| == p
      invariant forall q :: 0 <= q < p ==> ProperShares(byParty[q]) && KeyedFrom(byParty[q], keyedByParty[q])
      invariant forall q :: 0 <= q < p ==> IndexSet(byParty[q]) == IndexSet(byParty[0])
    {
      var keyed := KeyShares(byParty[p]);
      if keyed.None? {
        return None;
      }
      if p > 0 {
        var same := SameIndices(keyed.value, keyedByParty[0].Keys);
        if !same {
          return None;
        }
      }
      keyedByParty := keyedByParty + [keyed.value];
    }
    return Some((IndicesOf(byParty[0]), keyedByParty));
  }

  // ---------------------------------------------------------------- specification

  function SourceAt(shares: Shares, i: int): Option<Source> {
    if shares == [] then None
    else if shares[0].0 == i then Some(shares[0].1)
    else SourceAt(shares[1..], i)
  }

  /** The parties' sources for one index. */
  function Row(byParty: seq<Shares>, i: int): (r: seq<Source>)
    ensures |r| == |byParty|
  {
    seq(|byParty|, p requires 0 <= p < |byParty| =>
      match SourceAt(byParty[p], i) case Some(s) => s case None => Raw([]))
  }

  /** What each index's shares load to. */
  function Columns(lib: Lib, resolve: Resolver, byParty: seq<Shares>): (int -> seq<Option<RotKey>>) {
    i => LoadAll(lib, resolve, Row(byParty, i))
  }

  lemma {:induction false} SourceAtIs(shares: Shares, k: nat)
    requires k < |shares| && forall l, j :: 0 <= l < j < |shares| ==> shares[l].0 != shares[j].0
    ensures SourceAt(shares, shares[k].0) == Some(shares[k].1)
  {
    if k == 0 {
    } else {
      SourceAtIs(shares[1..], k - 1);
    }
  }

  /** Picking index i out of the keyed maps gives that row. */
  lemma RowIs(byParty: seq<Shares>, keyed: seq<map<int, Source>>, i: int, row: seq<Source>)
    requires Uniform(byParty) && |keyed| == |byParty| == |row| && i in IndexSet(byParty[0])
    requires forall p :: 0 <= p < |byParty| ==> KeyedFrom(byParty[p], keyed[p])
    requires forall p :: 0 <= p < |byParty| ==> i in keyed[p] && row[p] == keyed[p][i]
    ensures row == Row(byParty, i)
  {
    forall p | 0 <= p < |byParty| ensures row[p] == Row(byParty, i)[p] {
      assert i in IndexSet(byParty[p]);
      var k :| 0 <= k < |byParty[p]| && byParty[p][k].0 == i;
      assert ProperShares(byParty[p]);
      SourceAtIs(byParty[p], k);
    }
  }

  /** The key the per-index combine should give. */
  function PerIndexKey(lib: Lib, resolve: Resolver, pks: seq<Blob>, byParty: seq<Shares>): Option<RotKey>
    requires |byParty| <= |pks|
  {
    if Uniform(byParty) then MergedColumns(lib, pks, Columns(lib, resolve, byParty), IndicesOf(byParty[0])) else None
  }

  // ---------------------------------------------------------------- combining

  /** One index: collect its row and fold it. */
  method CombineIndex(lib: Lib, resolve: Resolver, n: Native, pks: seq<Blob>, keyed: seq<map<int, Source>>, i: int,
                      start: map<string, nat>, ghost base: map<nat, AVectors>, ghost byParty: seq<Shares>)
    returns (accum: Option<nat>, cache: map<string, nat>)
    requires n.Valid() && CacheOk(lib, resolve, base, n.avecs, start)
    requires Uniform(byParty) && |keyed| == |byParty| <= |pks| && i in IndexSet(byParty[0])
    requires forall p :: 0 <= p < |byParty| ==> KeyedFrom(byParty[p], keyed[p])
    modifies n
    ensures n.Valid() && CacheOk(lib, resolve, base, n.avecs, cache) && n.pks == old(n.pks)
    ensures accum.None? ==> n.rots == old(n.rots)
    ensures var sum := Combined(lib, pks, Columns(lib, resolve, byParty)(i));
            && (accum.Some? ==> sum.Some? && accum.value !in old(n.rots) && n.rots == old(n.rots)[accum.value := sum.value])
            && (old(n.faults) == [] ==> n.faults == [] && (accum.Some? <==> sum.Some?))
  {
    var row := seq(|keyed|, p requires 0 <= p < |keyed| && i in keyed[p] => keyed[p][i]);
    RowIs(byParty, keyed, i, row);
    accum, cache := FoldShares(lib, resolve, n, pks, row, start, base);
  }

  /** MergeEvalSumKeyMaps into `final` (or take accum as `final` when there is none yet). */
  method MergeInto(n: Native, final: Option<nat>, accum: nat, ghost before: map<nat, RotKey>, ghost sofar: RotKey)
    returns (ok: bool, final': Option<nat>)
    requires n.Valid() && accum !in before && accum in n.rots
    requires final.None? ==> sofar == map[] && n.rots == before[accum := n.rots[accum]]
    requires final.Some? ==> final.value !in before && final.value != accum
                             && n.rots == before[final.value := sofar][accum := n.rots[accum]]
    modifies n`rots, n`faults
    ensures n.Valid() && (final.Some? ==> final' == final) && (final'.Some? ==> final'.value !in before)
    ensures !ok ==> n.rots == (if final'.Some? then before[final'.value := sofar] else before)
    ensures ok ==> final'.Some? && n.rots == before[final'.value := sofar + old(n.rots)[accum]]
    ensures old(n.faults) == [] ==> n.faults == [] && ok
  {
    if final.None? {
      assert map[] + n.rots[accum] == n.rots[accum];
      return true, Some(accum);
    }
    ok := n.Assign(final.value, Some(n.rots[final.value] + n.rots[accum]));
    n.FreeRot(accum);
    final' := final;
  }

  lemma {:induction false} MergeFailureSticks(lib: Lib, pks: seq<Blob>, column: int -> seq<Option<RotKey>>, indices: seq<int>, k: nat)
    requires k <= |indices| && forall i <- indices :: 0 < |column(i)| <= |pks|
    ensures MergedColumns(lib, pks, column, indices[..k]).None? ==> MergedColumns(lib, pks, column, indices).None?
    decreases |indices|
  {
    if k == |indices| {
      assert indices[..k] == indices;
    } else {
      var front := indices[..|indices| - 1];
      assert front[..k] == indices[..k];
      MergeFailureSticks(lib, pks, column, front, k);
    }
  }

  /** What one more index adds. */
  lemma MergeStep(lib: Lib, pks: seq<Blob>, column: int -> seq<Option<RotKey>>, indices: seq<int>, k: nat)
    requires k < |indices| && 0 < |column(indices[k])| <= |pks| && forall i <- indices :: 0 < |column(i)| <= |pks|
    ensures var acc := MergedColumns(lib, pks, column, indices[..k]);
            var next := Combined(lib, pks, column(indices[k]));
            var r := MergedColumns(lib, pks, column, indices[..k + 1]);
            r == if acc.None? || next.None? then None else Some(acc.value + next.value)
  {
    assert indices[..k + 1][..k] == indices[..k];
  }

  /** `final` holds the key merged so far and is the only handle added to `before`. */
  ghost predicate Holds(rots: map<nat, RotKey>, before: map<nat, RotKey>, final: Option<nat>, key: RotKey) {
    if final.None? then key == map[] && rots == before
    else final.value !in before && rots == before[final.value := key]
  }

  method MergeIndices(lib: Lib, resolve: Resolver, n: Native, pks: seq<Blob>, keyed: seq<map<int, Source>>,
                      ghost base: map<nat, AVectors>, ghost byParty: seq<Shares>, indices: seq<int>)
    returns (ok: bool, final: Option<nat>, cache: map<string, nat>, ghost key: RotKey)
    requires n.Valid() && n.avecs == base
    requires Uniform(byParty) && |keyed| == |byParty| <= |pks| && indices == IndicesOf(byParty[0])
    requires forall p :: 0 <= p < |byParty| ==> KeyedFrom(byParty[p], keyed[p])
    modifies n
    ensures n.Valid() && CacheOk(lib, resolve, base, n.avecs, cache) && n.pks == old(n.pks)
    ensures Holds(n.rots, old(n.rots), final, key)
    ensures var whole := MergedColumns(lib, pks, Columns(lib, resolve, byParty), indices);
            && (ok ==> final.Some? && whole == Some(key))
            && (old(n.faults) == [] ==> n.faults == [] && (ok <==> whole.Some?))
  {
    ghost var before := n.rots;
    ghost var column := Columns(lib, resolve, byParty);
    ok, final, cache, key := true, None, map[], map[];
    var k := 0;
    while k < |indices| && ok
      invariant 0 <= k <= |indices| && (k > 0 && ok ==> final.Some?)
      invariant n.Valid() && CacheOk(lib, resolve, base, n.avecs, cache) && n.pks == old(n.pks)
      invariant Holds(n.rots, before, final, key)
      invariant ok ==> MergedColumns(lib, pks, column, indices[..k]) == Some(key)
      invariant old(n.faults) == [] ==> n.faults == [] && (ok <==> MergedColumns(lib, pks, column, indices[..k]).Some?)
    {
      ok, final, cache, key := MergeNext(lib, resolve, n, pks, keyed, final, key, indices, k, cache, base, byParty, before);
      k := k + 1;
    }
    MergeFailureSticks(lib, pks, column, indices, k);
    assert indices[..|indices|] == indices;
  }

  /** One iteration: MergeOne in terms of the merge so far. */
  method MergeNext(lib: Lib, resolve: Resolver, n: Native, pks: seq<Blob>, keyed: seq<map<int, Source>>,
                   final: Option<nat>, ghost key: RotKey, indices: seq<int>, k: nat, start: map<string, nat>,
                   ghost base: map<nat, AVectors>, ghost byParty: seq<Shares>, ghost before: map<nat, RotKey>)
    returns (ok: bool, final': Option<nat>, cache: map<string, nat>, ghost key': RotKey)
    requires n.Valid() && CacheOk(lib, resolve, base, n.avecs, start) && Holds(n.rots, before, final, key)
    requires Uniform(byParty) && |keyed| == |byParty| <= |pks| && indices == IndicesOf(byParty[0]) && k < |indices|
    requires forall p :: 0 <= p < |byParty| ==> KeyedFrom(byParty[p], keyed[p])
    requires MergedColumns(lib, pks, Columns(lib, resolve, byParty), indices[..k]) == Some(key)
    modifies n
    ensures n.Valid() && CacheOk(lib, resolve, base, n.avecs, cache) && n.pks == old(n.pks)
    ensures Holds(n.rots, before, final', key')
    ensures var sum := MergedColumns(lib, pks, Columns(lib, resolve, byParty), indices[..k + 1]);
            && (ok ==> final'.Some? && sum == Some(key'))
            && (old(n.faults) == [] ==> n.faults == [] && (ok <==> sum.Some?))
  {
    MergeStep(lib, pks, Columns(lib, resolve, byParty), indices, k);
    ok, final', cache, key' := MergeOne(lib, resolve, n, pks, keyed, final, key, indices[k], start, base, byParty, before);
  }

  method MergeOne(lib: Lib, resolve: Resolver, n: Native, pks: seq<Blob>, keyed: seq<map<int, Source>>,
                  final: Option<nat>, ghost key: RotKey, i: int, start: map<string, nat>,
                  ghost base: map<nat, AVectors>, ghost byParty: seq<Shares>, ghost before: map<nat, RotKey>)
    returns (ok: bool, final': Option<nat>, cache: map<string, nat>, ghost key': RotKey)
    requires n.Valid() && CacheOk(lib, resolve, base, n.avecs, start) && Holds(n.rots, before, final, key)
    requires Uniform(byParty) && |keyed| == |byParty| <= |pks| && i in IndexSet(byParty[0])
    requires forall p :: 0 <= p < |byParty| ==> KeyedFrom(byParty[p], keyed[p])
    modifies n
    ensures n.Valid() && CacheOk(lib, resolve, base, n.avecs, cache) && n.pks == old(n.pks)
    ensures Holds(n.rots, before, final', key')
    ensures var sum := Combined(lib, pks, Columns(lib, resolve, byParty)(i));
            && (ok ==> final'.Some? && sum.Some? && key' == key + sum.value)
            && (old(n.faults) == [] ==> n.faults == [] && (ok <==> sum.Some?))
  {
    var accum;
    accum, cache := CombineIndex(lib, resolve, n, pks, keyed, i, start, base, byParty);
    ok, final', key' := false, final, key;
    if accum.Some? {
      key' := key + n.rots[accum.value];
      ok, final' := MergeInto(n, final, accum.value, before, key);
      if !ok {
        key' := key;
      }
    }
  }

  /** combineEvalSumPerIndex, and combineEvalSumPerIndexLazy when the sources are references. */
  method CombinePerIndex(lib: Lib, resolve: Resolver, n: Native, pks: seq<Blob>, byParty: seq<Shares>) returns (r: Option<Blob>)
    requires n.Valid() && |byParty| <= |pks|
    modifies n
    ensures n.Valid() && n.rots == old(n.rots) && n.pks == old(n.pks) && n.avecs == old(n.avecs)
    ensures var key := Written(lib, PerIndexKey(lib, resolve, pks, byParty));
            (r.Some? ==> r == key) && (old(n.faults) == [] ==> r == key)
  {
    var checked := ValidateIndexed(byParty);
    if checked.None? {
      return None;
    }
    ghost var base := n.avecs;
    ghost var key;
    var ok, final, cache;
    ok, final, cache, key := MergeIndices(lib, resolve, n, pks, checked.value.1, base, byParty, checked.value.0);
    FreeCache(lib, resolve, n, cache, base);
    r := None;
    if ok {
      r := SerializeAndFree(lib, n, final.value);
    } else if final.Some? {
      n.FreeRot(final.value);
    }
    assert n.rots == old(n.rots);
  }

  // ---------------------------------------------------------------- inserting

  /** A crypto context's store of eval-sum keys. */
  class EvalSumKeys {
    var keys: RotKey

    constructor ()
      ensures keys == map[]
    {
      keys := map[];
    }
  }

  /** insertEvalSumPerIndexLazy: on success the context holds the per-index key and nothing
      else; on failure past the checks, some part of it. */
  method InsertPerIndex(lib: Lib, resolve: Resolver, n: Native, store: EvalSumKeys, pks: seq<Blob>, byParty: seq<Shares>)
    returns (ok: bool)
    requires n.Valid()
    modifies n, store
    ensures n.Valid() && n.rots == old(n.rots) && n.pks == old(n.pks) && n.avecs == old(n.avecs)
    ensures !Uniform(byParty) || |pks| != |byParty| ==> !ok && store.keys == old(store.keys)
    ensures Uniform(byParty) && |pks| == |byParty| ==>
              var key := PerIndexKey(lib, resolve, pks, byParty);
              (ok ==> key == Some(store.keys)) && (old(n.faults) == [] ==> ok == key.Some?)
  {
    var checked := ValidateIndexed(byParty);
    if checked.None? || |pks| != |byParty| {
      return false;
    }
    var fault := n.Faulty();
    if fault {
      return false;
    }
    store.keys := map[];
    ghost var base := n.avecs;
    var cache;
    ok, cache := InsertIndices(lib, resolve, n, store, pks, checked.value.1, base, byParty, checked.value.0);
    FreeCache(lib, resolve, n, cache, base);
  }

  method InsertIndices(lib: Lib, resolve: Resolver, n: Native, store: EvalSumKeys, pks: seq<Blob>, keyed: seq<map<int, Source>>,
                       ghost base: map<nat, AVectors>, ghost byParty: seq<Shares>, indices: seq<int>)
    returns (ok: bool, cache: map<string, nat>)
    requires n.Valid() && n.avecs == base && store.keys == map[]
    requires Uniform(byParty) && |keyed| == |byParty| <= |pks| && indices == IndicesOf(byParty[0])
    requires forall p :: 0 <= p < |byParty| ==> KeyedFrom(byParty[p], keyed[p])
    modifies n, store
    ensures n.Valid() && CacheOk(lib, resolve, base, n.avecs, cache) && n.pks == old(n.pks) && n.rots == old(n.rots)
    ensures ok ==> PerIndexKey(lib, resolve, pks, byParty) == Some(store.keys)
    ensures old(n.faults) == [] ==> (ok <==> PerIndexKey(lib, resolve, pks, byParty).Some?)
  {
    ghost var column := Columns(lib, resolve, byParty);
    ok, cache := true, map[];
    var k := 0;
    while k < |indices| && ok
      invariant 0 <= k <= |indices|
      invariant n.Valid() && CacheOk(lib, resolve, base, n.avecs, cache) && n.pks == old(n.pks) && n.rots == old(n.rots)
      invariant ok ==> MergedColumns(lib, pks, column, indices[..k]) == Some(store.keys)
      invariant old(n.faults) == [] ==> n.faults == [] && (ok <==> MergedColumns(lib, pks, column, indices[..k]).Some?)
    {
      ok, cache := InsertOne(lib, resolve, n, store, pks, keyed, indices[k], cache, base, byParty);
      MergeStep(lib, pks, column, indices, k);
      k := k + 1;
    }
    MergeFailureSticks(lib, pks, column, indices, k);
    assert indices[..|indices|] == indices;
  }

  method InsertOne(lib: Lib, resolve: Resolver, n: Native, store: EvalSumKeys, pks: seq<Blob>, keyed: seq<map<int, Source>>,
                   i: int, start: map<string, nat>, ghost base: map<nat, AVectors>, ghost byParty: seq<Shares>)
    returns (ok: bool, cache: map<string, nat>)
    requires n.Valid() && CacheOk(lib, resolve, base, n.avecs, start)
    requires Uniform(byParty) && |keyed| == |byParty| <= |pks| && i in IndexSet(byParty[0])
    requires forall p :: 0 <= p < |byParty| ==> KeyedFrom(byParty[p], keyed[p])
    modifies n, store
    ensures n.Valid() && CacheOk(lib, resolve, base, n.avecs, cache) && n.pks == old(n.pks) && n.rots == old(n.rots)
    ensures var sum := Combined(lib, pks, Columns(lib, resolve, byParty)(i));
            && (ok ==> sum.Some? && store.keys == old(store.keys) + sum.value)
            && (!ok ==> store.keys == old(store.keys))
            && (old(n.faults) == [] ==> n.faults == [] && (ok <==> sum.Some?))
  {
    var accum;
    accum, cache := CombineIndex(lib, resolve, n, pks, keyed, i, start, base, byParty);
    ok := false;
    if accum.Some? {
      AddedThenRemoved(old(n.rots), accum.value, n.rots[accum.value]);
      ok := InsertAndFree(n, store, accum.value);
    }
  }

  /** Insert the index's key into the context and free its handle. */
  method InsertAndFree(n: Native, store: EvalSumKeys, h: nat) returns (ok: bool)
    requires n.Valid() && h in n.rots
    modifies n`rots, n`faults, store
    ensures n.Valid() && n.rots == old(n.rots) - {h}
    ensures store.keys == if ok then old(store.keys) + old(n.rots)[h] else old(store.keys)
    ensures old(n.faults) == [] ==> n.faults == [] && ok
  {
    var fault := n.Faulty();
    ok := !fault;
    if ok {
      store.keys := store.keys + n.rots[h];
    }
    n.FreeRot(h);
  }

  // ---------------------------------------------------------------- agreement

  /** Each share loads to a key for its own index alone, and party p's whole source to all
      of that party's elements. */
  ghost predicate SplitOf(lib: Lib, resolve: Resolver, byParty: seq<Shares>, whole: seq<Source>, table: map<int, seq<Elem>>) {
    && Uniform(byParty) && |whole| == |byParty|
    && Rectangular(table, |byParty|)
    && table.Keys == IndexSet(byParty[0])
    && (forall i <- table, p :: 0 <= p < |byParty| ==>
          Load(lib, resolve, Row(byParty, i)[p]) == Some(map[i := table[i][p]]))
    && (forall p :: 0 <= p < |whole| ==> Load(lib, resolve, whole[p]) == Some(PartyKey(table, p)))
  }

  /** Per-index shares, however they are fetched, combine to what the same parties' whole
      shares combine to by the plain incremental fold, including whether it fails. */
  lemma PerIndexAgrees(lib: Lib, resolve: Resolver, pks: seq<Blob>, byParty: seq<Shares>, whole: seq<Source>, table: map<int, seq<Elem>>)
    requires SplitOf(lib, resolve, byParty, whole, table) && |pks| == |byParty|
    ensures PerIndexKey(lib, resolve, pks, byParty) == Combined(lib, pks, LoadAll(lib, resolve, whole))
  {
    var indices := IndicesOf(byParty[0]);
    var column := Columns(lib, resolve, byParty);
    forall i <- indices ensures SingleIndex(table, column(i), i, |whole|) {
      assert i in table;
    }
    forall i <- table ensures i in indices {
      assert i in IndexSet(byParty[0]);
    }
    assert ProperShares(byParty[0]);
    PerIndexIsWhole(lib, pks, table, column, indices, LoadAll(lib, resolve, whole));
  }
}
