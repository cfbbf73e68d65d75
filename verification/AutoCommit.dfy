/** What the runner commits after a phase's Exit (pkg/ares/phase/runner_lineage.go). Go
    ranges over the Requires and Provides maps in an unspecified order, so the orders are
    arguments here. */
module AutoCommit {
  import opened Wrappers
  import opened Pipeline
  import opened LineageNode
  import opened LineageCommit
  import opened LineageStore

  /** The first node of the walk with that payload hash. */
  function FindPayload(nodes: seq<Node>, hash: Ref): (r: Option<Node>)
    ensures r.Some? ==> r.value in nodes && r.value.payloadHash == hash
    ensures r.None? ==> forall n <- nodes :: n.payloadHash != hash
  {
    if nodes == [] then None
    else if nodes[0].payloadHash == hash then Some(nodes[0])
    else FindPayload(nodes[1..], hash)
  }

  function ByteValue(ctx: Context, key: string): Option<seq<int>> {
    if key in ctx.values && ctx.values[key].Bytes? then Some(ctx.values[key].bytes) else None
  }

  function ParentFor(h: Hash, ctx: Context, d: Dag, key: string): seq<Node> {
    match ByteValue(ctx, key)
    case None => []
    case Some(payload) =>
      match FindPayload(Walked(d, ctx.sessionID), h(payload))
      case None => []
      case Some(node) => [node]
  }

  /** resolveParents over the required keys in the given order. */
  function Resolved(h: Hash, ctx: Context, d: Dag, order: seq<string>): seq<Node> {
    if order == [] then []
    else Resolved(h, ctx, d, order[..|order| - 1]) + ParentFor(h, ctx, d, order[|order| - 1])
  }

  method ResolveParents(h: Hash, ctx: Context, store: InMemoryStore, order: seq<string>) returns (parents: seq<Node>)
    ensures parents == Resolved(h, ctx, store.View(), order)
  {
    parents := [];
    for i := 0 to |order|
      invariant parents == Resolved(h, ctx, store.View(), order[..i])
    {
      assert order[..i + 1][..i] == order[..i];
      var payload := ByteValue(ctx, order[i]);
      if payload.Some? {
        var walk := store.WalkSession(ctx.sessionID);
        var found := FirstWith(walk, h(payload.value));
        if found.Some? {
          parents := parents + [found.value];
        }
      }
    }
    assert order[..|order|] == order;
  }

  /** The inner loop over the session's nodes, up to the first match. */
  method FirstWith(walk: seq<Node>, hash: Ref) returns (found: Option<Node>)
    ensures found == FindPayload(walk, hash)
  {
    for j := 0 to |walk|
      invariant FindPayload(walk[j..], hash) == FindPayload(walk, hash)
    {
      assert walk[j..][1..] == walk[j + 1..];
      if walk[j].payloadHash == hash {
        return Some(walk[j]);
      }
    }
    found := None;
  }

  /** The outputs that get a node: byte values not marked NoLineage. */
  predicate Committable(p: Phase, ctx: Context, key: string) {
    key in p.gives && !p.gives[key].noLineage && ByteValue(ctx, key).Some?
  }

  function OutputNode(h: Hash, signer: Option<Signer>, p: Phase, ctx: Context, parents: seq<Node>, key: string): Option<Node>
    requires Committable(p, ctx, key)
  {
    Committed(h, ctx.sessionID, p.name, key, ByteValue(ctx, key).value, parents, signer)
  }

  /** The loop over the provided keys, in the given order; false when a commit failed. */
  function OutputsCommitted(h: Hash, signer: Option<Signer>, p: Phase, ctx: Context, parents: seq<Node>,
                            d: Dag, order: seq<string>): (Dag, bool)
    decreases |order|
  {
    if order == [] then (d, true)
    else if !Committable(p, ctx, order[0]) then OutputsCommitted(h, signer, p, ctx, parents, d, order[1..])
    else
      var node := OutputNode(h, signer, p, ctx, parents, order[0]);
      if node.None? then (d, false)
      else OutputsCommitted(h, signer, p, ctx, parents, Appended(d, node.value).0, order[1..])
  }

  function PhaseCommitted(h: Hash, signer: Option<Signer>, p: Phase, ctx: Context,
                          d: Dag, needOrder: seq<string>, giveOrder: seq<string>): (Dag, bool)
  {
    OutputsCommitted(h, signer, p, ctx, Resolved(h, ctx, d, needOrder), d, giveOrder)
  }

  ghost predicate OrderOf(order: seq<string>, keys: set<string>) {
    multiset(order) == multiset(keys)
  }

  method CommitPhaseOutputsIfEnabled(h: Hash, signer: Option<Signer>, p: Phase, ctx: Context, store: InMemoryStore,
                                     needOrder: seq<string>, giveOrder: seq<string>) returns (ok: bool)
    requires OrderOf(needOrder, p.needs.Keys) && OrderOf(giveOrder, p.gives.Keys)
    modifies store
    ensures (store.View(), ok) == PhaseCommitted(h, signer, p, ctx, old(store.View()), needOrder, giveOrder)
  {
    var parents := ResolveParents(h, ctx, store, needOrder);
    ghost var goal := OutputsCommitted(h, signer, p, ctx, parents, store.View(), giveOrder);
    var i := 0;
    while i < |giveOrder|
      invariant 0 <= i <= |giveOrder|
      invariant OutputsCommitted(h, signer, p, ctx, parents, store.View(), giveOrder[i..]) == goal
    {
      var key := giveOrder[i];
      GivenKey(giveOrder, p.gives.Keys, i);
      assert giveOrder[i..][1..] == giveOrder[i + 1..];
      i := i + 1;
      if p.gives[key].noLineage {
        continue;
      }
      var payload := ByteValue(ctx, key);
      if payload.None? {
        continue;
      }
      var node := Commit(h, ctx.sessionID, p.name, key, payload.value, parents, signer);
      if node.None? {
        return false;
      }
      var added := store.Append(node.value);
    }
    ok := true;
  }

  lemma GivenKey(order: seq<string>, keys: set<string>, i: nat)
    requires OrderOf(order, keys) && i < |order|
    ensures order[i] in keys
  {
    assert order[i] in multiset(order);
  }

  // ---------------------------------------------------------------- the store stays sound

  lemma {:induction false} ResolvedAreStored(h: Hash, ctx: Context, d: Dag, order: seq<string>)
    requires IndexesAgree(d)
    ensures forall n <- Resolved(h, ctx, d, order) :: n.hash in d.byHash && d.byHash[n.hash] == n && n.sessionID == ctx.sessionID
  {
    if order == [] {
    } else {
      ResolvedAreStored(h, ctx, d, order[..|order| - 1]);
      forall n <- ParentFor(h, ctx, d, order[|order| - 1]) ensures n.hash in d.byHash && d.byHash[n.hash] == n && n.sessionID == ctx.sessionID {
        WalkIsTheSession(d, ctx.sessionID, n);
      }
    }
  }

  lemma OutputParents(h: Hash, signer: Option<Signer>, p: Phase, ctx: Context, parents: seq<Node>, key: string, d: Dag)
    requires Committable(p, ctx, key) && OutputNode(h, signer, p, ctx, parents, key).Some?
    requires forall n <- parents :: n.hash in d.byHash
    ensures forall ref <- OutputNode(h, signer, p, ctx, parents, key).value.parents :: ref in d.byHash
  {
    var s := AsParents(parents);
    SortedRefsOf(s);
    forall ref <- RefsOf(StableSort(s)) ensures ref in d.byHash {
      assert ref in multiset(RefsOf(StableSort(s)));
      assert ref in RefsOf(s);
    }
  }

  lemma {:induction false} OutputsKeepSound(h: Hash, signer: Option<Signer>, p: Phase, ctx: Context, parents: seq<Node>,
                                            d: Dag, order: seq<string>)
    requires Sound(h, d) && forall n <- parents :: n.hash in d.byHash
    ensures var d1 := OutputsCommitted(h, signer, p, ctx, parents, d, order).0; Sound(h, d1) && Grows(d, d1)
    decreases |order|
  {
    if order == [] {
    } else if !Committable(p, ctx, order[0]) {
      OutputsKeepSound(h, signer, p, ctx, parents, d, order[1..]);
    } else {
      var node := OutputNode(h, signer, p, ctx, parents, order[0]);
      if node.Some? {
        OutputParents(h, signer, p, ctx, parents, order[0], d);
        AppendKeepsSound(h, d, node.value);
        var d1 := Appended(d, node.value).0;
        OutputsKeepSound(h, signer, p, ctx, parents, d1, order[1..]);
        GrowsTransitive(d, d1, OutputsCommitted(h, signer, p, ctx, parents, d1, order[1..]).0);
      }
    }
  }

  /** An auto-commit, successful or not, keeps the store sound and only adds to it. */
  lemma AutoCommitKeepsSound(h: Hash, signer: Option<Signer>, p: Phase, ctx: Context, d: Dag,
                             needOrder: seq<string>, giveOrder: seq<string>)
    requires Sound(h, d)
    ensures var d1 := PhaseCommitted(h, signer, p, ctx, d, needOrder, giveOrder).0; Sound(h, d1) && Grows(d, d1)
  {
    ResolvedAreStored(h, ctx, d, needOrder);
    OutputsKeepSound(h, signer, p, ctx, Resolved(h, ctx, d, needOrder), d, giveOrder);
  }

  // ---------------------------------------------------------------- iteration order

  lemma {:induction false} ResolvedAppend(h: Hash, ctx: Context, d: Dag, a: seq<string>, b: seq<string>)
    ensures Resolved(h, ctx, d, a + b) == Resolved(h, ctx, d, a) + Resolved(h, ctx, d, b)
    decreases |b|
  {
    if b == [] {
      assert a + b == a;
    } else {
      assert (a + b)[..|a + b| - 1] == a + b[..|b| - 1];
      ResolvedAppend(h, ctx, d, a, b[..|b| - 1]);
    }
  }

  function ParentHashes(nodes: seq<Node>): multiset<Ref> {
    multiset(RefsOf(AsParents(nodes)))
  }

  lemma HashesAppend(a: seq<Node>, b: seq<Node>)
    ensures ParentHashes(a + b) == ParentHashes(a) + ParentHashes(b)
  {
    assert RefsOf(AsParents(a + b)) == RefsOf(AsParents(a)) + RefsOf(AsParents(b));
  }

  /** The key at position k contributes its own parent wherever it stands. */
  lemma ResolvedTakes(h: Hash, ctx: Context, d: Dag, order: seq<string>, k: nat)
    requires k < |order|
    ensures ParentHashes(Resolved(h, ctx, d, order))
         == ParentHashes(Resolved(h, ctx, d, order[..k] + order[k + 1..])) + ParentHashes(ParentFor(h, ctx, d, order[k]))
  {
    var front, key, rest := order[..k], order[k], order[k + 1..];
    assert order == front + ([key] + rest);
    ResolvedAppend(h, ctx, d, front, [key] + rest);
    ResolvedAppend(h, ctx, d, [key], rest);
    ResolvedAppend(h, ctx, d, front, rest);
    assert Resolved(h, ctx, d, [key]) == ParentFor(h, ctx, d, key);
    HashesAppend(Resolved(h, ctx, d, front), Resolved(h, ctx, d, [key]) + Resolved(h, ctx, d, rest));
    HashesAppend(Resolved(h, ctx, d, [key]), Resolved(h, ctx, d, rest));
    HashesAppend(Resolved(h, ctx, d, front), Resolved(h, ctx, d, rest));
  }

  lemma DropOne(order: seq<string>, k: nat)
    requires k < |order|
    ensures multiset(order[..k] + order[k + 1..]) == multiset(order) - multiset{order[k]}
  {
    assert order == order[..k] + [order[k]] + order[k + 1..];
  }

  lemma {:induction false} ResolvedPermutes(h: Hash, ctx: Context, d: Dag, a: seq<string>, b: seq<string>)
    requires multiset(a) == multiset(b)
    ensures ParentHashes(Resolved(h, ctx, d, a)) == ParentHashes(Resolved(h, ctx, d, b))
    decreases |a|
  {
    if a == [] {
      assert |multiset(b)| == 0;
      assert b == [];
    } else {
      assert a[0] in multiset(b);
      var k :| 0 <= k < |b| && b[k] == a[0];
      ResolvedTakes(h, ctx, d, a, 0);
      ResolvedTakes(h, ctx, d, b, k);
      DropOne(a, 0);
      DropOne(b, k);
      ResolvedPermutes(h, ctx, d, a[..0] + a[1..], b[..k] + b[k + 1..]);
    }
  }

  ghost function NewHashes(h: Hash, signer: Option<Signer>, p: Phase, ctx: Context, parents: seq<Node>, keys: set<string>): set<Ref>
    requires AllSigned(h, signer, p, ctx, parents, keys)
  {
    set key <- keys | Committable(p, ctx, key) :: OutputNode(h, signer, p, ctx, parents, key).value.hash
  }

  ghost predicate AllSigned(h: Hash, signer: Option<Signer>, p: Phase, ctx: Context, parents: seq<Node>, keys: set<string>) {
    forall key <- keys :: Committable(p, ctx, key) ==> OutputNode(h, signer, p, ctx, parents, key).Some?
  }

  function KeySet(order: seq<string>): set<string> {
    set key <- order
  }

  /** The loop succeeds when every output could be signed, and then adds their hashes. */
  lemma {:induction false} OutputsAdd(h: Hash, signer: Option<Signer>, p: Phase, ctx: Context, parents: seq<Node>,
                                      d: Dag, order: seq<string>)
    ensures var (d1, ok) := OutputsCommitted(h, signer, p, ctx, parents, d, order);
            && (ok <==> AllSigned(h, signer, p, ctx, parents, KeySet(order)))
            && (ok ==> d1.byHash.Keys == d.byHash.Keys + NewHashes(h, signer, p, ctx, parents, KeySet(order)))
    decreases |order|
  {
    if order == [] {
    } else {
      var key := order[0];
      assert KeySet(order) == {key} + KeySet(order[1..]);
      if !Committable(p, ctx, key) {
        OutputsAdd(h, signer, p, ctx, parents, d, order[1..]);
        assert AllSigned(h, signer, p, ctx, parents, KeySet(order)) ==>
            NewHashes(h, signer, p, ctx, parents, KeySet(order)) == NewHashes(h, signer, p, ctx, parents, KeySet(order[1..]));
      } else {
        var node := OutputNode(h, signer, p, ctx, parents, key);
        if node.Some? {
          OutputsAdd(h, signer, p, ctx, parents, Appended(d, node.value).0, order[1..]);
          assert AllSigned(h, signer, p, ctx, parents, KeySet(order)) ==>
              NewHashes(h, signer, p, ctx, parents, KeySet(order))
              == NewHashes(h, signer, p, ctx, parents, KeySet(order[1..])) + {node.value.hash};
        }
      }
    }
  }

  lemma KeySetOf(order: seq<string>, keys: set<string>)
    requires OrderOf(order, keys)
    ensures KeySet(order) == keys
  {
    forall key ensures key in order <==> key in keys {
      assert key in order <==> key in multiset(order);
    }
  }

  /** Signing an output, and the hash it gets, do not depend on the order of its parents. */
  lemma OutputsAlike(h: Hash, signer: Option<Signer>, p: Phase, ctx: Context, d: Dag, need1: seq<string>, need2: seq<string>,
                     key: string)
    requires multiset(need1) == multiset(need2) && Committable(p, ctx, key)
    ensures var n1 := OutputNode(h, signer, p, ctx, Resolved(h, ctx, d, need1), key);
            var n2 := OutputNode(h, signer, p, ctx, Resolved(h, ctx, d, need2), key);
            (n1.Some? <==> n2.Some?) && (n1.Some? ==> n1.value.hash == n2.value.hash)
  {
    ResolvedPermutes(h, ctx, d, need1, need2);
    CommitIgnoresParentOrder(h, ctx.sessionID, p.name, key, ByteValue(ctx, key).value,
                             Resolved(h, ctx, d, need1), Resolved(h, ctx, d, need2), signer);
  }

  /** Whatever order the two maps are ranged over, the commit succeeds or fails alike, and
      when it succeeds the same hashes are stored. */
  lemma IterationOrderIrrelevant(h: Hash, signer: Option<Signer>, p: Phase, ctx: Context, d: Dag,
                                 need1: seq<string>, give1: seq<string>, need2: seq<string>, give2: seq<string>)
    requires OrderOf(need1, p.needs.Keys) && OrderOf(need2, p.needs.Keys)
    requires OrderOf(give1, p.gives.Keys) && OrderOf(give2, p.gives.Keys)
    ensures var (d1, ok1) := PhaseCommitted(h, signer, p, ctx, d, need1, give1);
            var (d2, ok2) := PhaseCommitted(h, signer, p, ctx, d, need2, give2);
            ok1 == ok2 && (ok1 ==> d1.byHash.Keys == d2.byHash.Keys)
  {
    var p1, p2 := Resolved(h, ctx, d, need1), Resolved(h, ctx, d, need2);
    KeySetOf(give1, p.gives.Keys);
    KeySetOf(give2, p.gives.Keys);
    OutputsAdd(h, signer, p, ctx, p1, d, give1);
    OutputsAdd(h, signer, p, ctx, p2, d, give2);
    forall key | Committable(p, ctx, key)
      ensures OutputNode(h, signer, p, ctx, p1, key).Some? <==> OutputNode(h, signer, p, ctx, p2, key).Some?
      ensures OutputNode(h, signer, p, ctx, p1, key).Some? ==>
                OutputNode(h, signer, p, ctx, p1, key).value.hash == OutputNode(h, signer, p, ctx, p2, key).value.hash
    {
      OutputsAlike(h, signer, p, ctx, d, need1, need2, key);
    }
  }

  // ---------------------------------------------------------------- what a failing commit stores

  /** Every output that can be signed has its hash in the store already. */
  ghost predicate AllStored(h: Hash, signer: Option<Signer>, p: Phase, ctx: Context, parents: seq<Node>, d: Dag, keys: set<string>) {
    forall key <- keys :: Committable(p, ctx, key) ==>
      var node := OutputNode(h, signer, p, ctx, parents, key); node.Some? ==> node.value.hash in d.byHash
  }

  lemma {:induction false} NothingNewNothingStored(h: Hash, signer: Option<Signer>, p: Phase, ctx: Context, parents: seq<Node>,
                                                   d: Dag, order: seq<string>)
    requires AllStored(h, signer, p, ctx, parents, d, KeySet(order))
    ensures OutputsCommitted(h, signer, p, ctx, parents, d, order).0 == d
    decreases |order|
  {
    if order == [] {
    } else {
      assert order[0] in KeySet(order);
      assert KeySet(order[1..]) <= KeySet(order);
      NothingNewNothingStored(h, signer, p, ctx, parents, d, order[1..]);
    }
  }

  lemma {:induction false} OutputsOnlyAdd(h: Hash, signer: Option<Signer>, p: Phase, ctx: Context, parents: seq<Node>,
                                          d: Dag, order: seq<string>)
    ensures d.byHash.Keys <= OutputsCommitted(h, signer, p, ctx, parents, d, order).0.byHash.Keys
    decreases |order|
  {
    if order == [] {
    } else if !Committable(p, ctx, order[0]) {
      OutputsOnlyAdd(h, signer, p, ctx, parents, d, order[1..]);
    } else {
      var node := OutputNode(h, signer, p, ctx, parents, order[0]);
      if node.Some? {
        OutputsOnlyAdd(h, signer, p, ctx, parents, Appended(d, node.value).0, order[1..]);
      }
    }
  }

  /** Some order of the keys that starts with `first`. */
  lemma OrderFrom(keys: set<string>, first: string) returns (order: seq<string>)
    requires first in keys
    ensures OrderOf(order, keys) && |order| > 0 && order[0] == first
  {
    var rest := AnOrder(keys - {first});
    order := [first] + rest;
    assert keys == {first} + (keys - {first});
  }

  lemma {:induction false} AnOrder(keys: set<string>) returns (order: seq<string>)
    ensures OrderOf(order, keys)
    decreases |keys|
  {
    if keys == {} {
      order := [];
    } else {
      var key :| key in keys;
      var rest := AnOrder(keys - {key});
      order := [key] + rest;
      assert keys == {key} + (keys - {key});
    }
  }

  /** An output with a new hash and one that cannot be signed: ranged over in one order the
      commit fails having stored the first, in another having stored nothing. */
  lemma FailureStoresByOrder(h: Hash, signer: Option<Signer>, p: Phase, ctx: Context, d: Dag, need: seq<string>,
                             good: string, bad: string)
    returns (give1: seq<string>, give2: seq<string>)
    requires OrderOf(need, p.needs.Keys) && Committable(p, ctx, good) && Committable(p, ctx, bad)
    requires OutputNode(h, signer, p, ctx, Resolved(h, ctx, d, need), bad).None?
    requires OutputNode(h, signer, p, ctx, Resolved(h, ctx, d, need), good).Some?
    requires OutputNode(h, signer, p, ctx, Resolved(h, ctx, d, need), good).value.hash !in d.byHash
    ensures OrderOf(give1, p.gives.Keys) && OrderOf(give2, p.gives.Keys)
    ensures var (d1, ok1) := PhaseCommitted(h, signer, p, ctx, d, need, give1);
            var (d2, ok2) := PhaseCommitted(h, signer, p, ctx, d, need, give2);
            !ok1 && !ok2 && d2 == d && OutputNode(h, signer, p, ctx, Resolved(h, ctx, d, need), good).value.hash in d1.byHash
  {
    var parents := Resolved(h, ctx, d, need);
    give1 := OrderFrom(p.gives.Keys, good);
    give2 := OrderFrom(p.gives.Keys, bad);
    OutputsOnlyAdd(h, signer, p, ctx, parents, Appended(d, OutputNode(h, signer, p, ctx, parents, good).value).0, give1[1..]);
    OutputsAdd(h, signer, p, ctx, parents, d, give1);
    KeySetOf(give1, p.gives.Keys);
  }

  /** Whatever orders the two maps are ranged over, the same hashes are stored. */
  ghost predicate StoresAlike(h: Hash, signer: Option<Signer>, p: Phase, ctx: Context, d: Dag) {
    forall need1, give1, need2, give2 ::
      && OrderOf(need1, p.needs.Keys) && OrderOf(need2, p.needs.Keys)
      && OrderOf(give1, p.gives.Keys) && OrderOf(give2, p.gives.Keys) ==>
        PhaseCommitted(h, signer, p, ctx, d, need1, give1).0.byHash.Keys
        == PhaseCommitted(h, signer, p, ctx, d, need2, give2).0.byHash.Keys
  }

  lemma StoredIsKept(h: Hash, signer: Option<Signer>, p: Phase, ctx: Context, d: Dag, need: seq<string>,
                     need1: seq<string>, give1: seq<string>)
    requires OrderOf(need, p.needs.Keys) && OrderOf(need1, p.needs.Keys) && OrderOf(give1, p.gives.Keys)
    requires AllStored(h, signer, p, ctx, Resolved(h, ctx, d, need), d, p.gives.Keys)
    ensures PhaseCommitted(h, signer, p, ctx, d, need1, give1).0 == d
  {
    var parents := Resolved(h, ctx, d, need1);
    KeySetOf(give1, p.gives.Keys);
    forall key <- p.gives.Keys | Committable(p, ctx, key)
      ensures var node := OutputNode(h, signer, p, ctx, parents, key); node.Some? ==> node.value.hash in d.byHash
    {
      OutputsAlike(h, signer, p, ctx, d, need, need1, key);
    }
    NothingNewNothingStored(h, signer, p, ctx, parents, d, give1);
  }

  lemma SignedStoresAlike(h: Hash, signer: Option<Signer>, p: Phase, ctx: Context, d: Dag, need: seq<string>)
    requires OrderOf(need, p.needs.Keys) && AllSigned(h, signer, p, ctx, Resolved(h, ctx, d, need), p.gives.Keys)
    ensures StoresAlike(h, signer, p, ctx, d)
  {
    forall need1, give1, need2, give2 |
      && OrderOf(need1, p.needs.Keys) && OrderOf(need2, p.needs.Keys)
      && OrderOf(give1, p.gives.Keys) && OrderOf(give2, p.gives.Keys)
      ensures PhaseCommitted(h, signer, p, ctx, d, need1, give1).0.byHash.Keys
           == PhaseCommitted(h, signer, p, ctx, d, need2, give2).0.byHash.Keys
    {
      KeySetOf(give1, p.gives.Keys);
      OutputsAdd(h, signer, p, ctx, Resolved(h, ctx, d, need), d, give1);
      IterationOrderIrrelevant(h, signer, p, ctx, d, need, give1, need1, give1);
      IterationOrderIrrelevant(h, signer, p, ctx, d, need1, give1, need2, give2);
    }
  }

  /** The iteration order of the maps never shows in the stored hashes exactly when every
      output can be signed, or every output that can be has its hash stored already. */
  lemma StoresAlikeExactly(h: Hash, signer: Option<Signer>, p: Phase, ctx: Context, d: Dag, need: seq<string>)
    requires OrderOf(need, p.needs.Keys)
    ensures StoresAlike(h, signer, p, ctx, d) <==>
              || AllSigned(h, signer, p, ctx, Resolved(h, ctx, d, need), p.gives.Keys)
              || AllStored(h, signer, p, ctx, Resolved(h, ctx, d, need), d, p.gives.Keys)
  {
    var parents := Resolved(h, ctx, d, need);
    if AllSigned(h, signer, p, ctx, parents, p.gives.Keys) {
      SignedStoresAlike(h, signer, p, ctx, d, need);
    } else if AllStored(h, signer, p, ctx, parents, d, p.gives.Keys) {
      forall need1, give1 | OrderOf(need1, p.needs.Keys) && OrderOf(give1, p.gives.Keys)
        ensures PhaseCommitted(h, signer, p, ctx, d, need1, give1).0 == d
      {
        StoredIsKept(h, signer, p, ctx, d, need, need1, give1);
      }
    } else {
      var bad :| bad in p.gives.Keys && Committable(p, ctx, bad) && OutputNode(h, signer, p, ctx, parents, bad).None?;
      var good :| good in p.gives.Keys && Committable(p, ctx, good) && OutputNode(h, signer, p, ctx, parents, good).Some?
                  && OutputNode(h, signer, p, ctx, parents, good).value.hash !in d.byHash;
      var give1, give2 := FailureStoresByOrder(h, signer, p, ctx, d, need, good, bad);
    }
  }
}
