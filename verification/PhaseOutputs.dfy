/** Which outputs of a phase get a lineage node, and which nodes become its parents, in terms of
    the declarations and the context (pkg/ares/phase/runner_lineage.go). */
module PhaseOutputs {
  import opened Wrappers
  import opened Pipeline
  import opened LineageNode
  import opened LineageCommit
  import opened LineageStore
  import opened AutoCommit

  /** The phase provides the key without opting out, and the context holds bytes under it. */
  predicate Eligible(p: Phase, ctx: Context, key: string, b: seq<int>) {
    key in p.gives && p.gives[key].noLineage == false && key in ctx.values && ctx.values[key] == Bytes(b)
  }

  /** What Commit makes for the output: session, phase name, key as role, payload, parents. */
  function NodeFor(h: Hash, signer: Option<Signer>, p: Phase, ctx: Context, parents: seq<Node>, key: string, b: seq<int>): Option<Node> {
    Committed(h, ctx.sessionID, p.name, key, b, parents, signer)
  }

  // ---------------------------------------------------------------- what is stored

  /** Every eligible output among the keys is signed and stored. */
  ghost predicate AllIn(h: Hash, signer: Option<Signer>, p: Phase, ctx: Context, parents: seq<Node>, d: Dag, keys: set<string>) {
    forall key, b :: key in keys && Eligible(p, ctx, key, b) ==>
      var node := NodeFor(h, signer, p, ctx, parents, key, b); node.Some? && node.value.hash in d.byHash
  }

  lemma {:induction false} SuccessStoresAll(h: Hash, signer: Option<Signer>, p: Phase, ctx: Context, parents: seq<Node>,
                                            d: Dag, order: seq<string>)
    requires OutputsCommitted(h, signer, p, ctx, parents, d, order).1
    ensures AllIn(h, signer, p, ctx, parents, OutputsCommitted(h, signer, p, ctx, parents, d, order).0, KeySet(order))
    decreases |order|
  {
    if order == [] {
    } else {
      var key := order[0];
      assert KeySet(order) == {key} + KeySet(order[1..]);
      if Committable(p, ctx, key) {
        var node := OutputNode(h, signer, p, ctx, parents, key).value;
        var d1 := Appended(d, node).0;
        SuccessStoresAll(h, signer, p, ctx, parents, d1, order[1..]);
        OutputsOnlyAdd(h, signer, p, ctx, parents, d1, order[1..]);
        assert node.hash in d1.byHash;
      } else {
        SuccessStoresAll(h, signer, p, ctx, parents, d, order[1..]);
      }
    }
  }

  /** Whatever is new in the store, the commit failed or not, is the node of an eligible output. */
  lemma {:induction false} NothingElseStored(h: Hash, signer: Option<Signer>, p: Phase, ctx: Context, parents: seq<Node>,
                                             d: Dag, order: seq<string>, r: Ref)
    returns (key: string, b: seq<int>)
    requires r !in d.byHash && r in OutputsCommitted(h, signer, p, ctx, parents, d, order).0.byHash
    ensures key in order && Eligible(p, ctx, key, b)
    ensures NodeFor(h, signer, p, ctx, parents, key, b)
         == Some(OutputsCommitted(h, signer, p, ctx, parents, d, order).0.byHash[r])
    ensures OutputsCommitted(h, signer, p, ctx, parents, d, order).0.byHash[r].hash == r
    decreases |order|
  {
    if !Committable(p, ctx, order[0]) {
      key, b := NothingElseStored(h, signer, p, ctx, parents, d, order[1..], r);
    } else {
      var node := OutputNode(h, signer, p, ctx, parents, order[0]).value;
      var d1 := Appended(d, node).0;
      if r in d1.byHash {
        key, b := order[0], ctx.values[order[0]].bytes;
        StoredStays(h, signer, p, ctx, parents, d1, order[1..], r);
      } else {
        key, b := NothingElseStored(h, signer, p, ctx, parents, d1, order[1..], r);
      }
    }
  }

  lemma {:induction false} StoredStays(h: Hash, signer: Option<Signer>, p: Phase, ctx: Context, parents: seq<Node>,
                                       d: Dag, order: seq<string>, r: Ref)
    requires r in d.byHash
    ensures var d1 := OutputsCommitted(h, signer, p, ctx, parents, d, order).0; r in d1.byHash && d1.byHash[r] == d.byHash[r]
    decreases |order|
  {
    if order == [] {
    } else if !Committable(p, ctx, order[0]) {
      StoredStays(h, signer, p, ctx, parents, d, order[1..], r);
    } else {
      var node := OutputNode(h, signer, p, ctx, parents, order[0]);
      if node.Some? {
        StoredStays(h, signer, p, ctx, parents, Appended(d, node.value).0, order[1..], r);
      }
    }
  }

  /** Every eligible output can be signed. */
  ghost predicate AllSignable(h: Hash, signer: Option<Signer>, p: Phase, ctx: Context, parents: seq<Node>) {
    forall key, b :: Eligible(p, ctx, key, b) ==> NodeFor(h, signer, p, ctx, parents, key, b).Some?
  }

  /** r is stored with the node of some eligible output. */
  ghost predicate IsOutput(h: Hash, signer: Option<Signer>, p: Phase, ctx: Context, parents: seq<Node>, d: Dag, r: Ref) {
    exists key, b :: Eligible(p, ctx, key, b) && r in d.byHash && d.byHash[r].hash == r
                     && NodeFor(h, signer, p, ctx, parents, key, b) == Some(d.byHash[r])
  }

  lemma SignedExactly(h: Hash, signer: Option<Signer>, p: Phase, ctx: Context, parents: seq<Node>)
    ensures AllSigned(h, signer, p, ctx, parents, p.gives.Keys) <==> AllSignable(h, signer, p, ctx, parents)
  {
    if AllSigned(h, signer, p, ctx, parents, p.gives.Keys) {
      forall key, b | Eligible(p, ctx, key, b) ensures NodeFor(h, signer, p, ctx, parents, key, b).Some? {
        assert Committable(p, ctx, key);
      }
    }
    if AllSignable(h, signer, p, ctx, parents) {
      forall key <- p.gives.Keys | Committable(p, ctx, key) ensures OutputNode(h, signer, p, ctx, parents, key).Some? {
        assert Eligible(p, ctx, key, ctx.values[key].bytes);
      }
    }
  }

  /** The auto-commit succeeds exactly when every byte output that is not marked NoLineage can be
      signed; then each of them has its node's hash in the store. What is new in the store is
      always the node of such an output, so a marked key never gets one. */
  lemma CommitsItsOutputs(h: Hash, signer: Option<Signer>, p: Phase, ctx: Context, d: Dag, need: seq<string>, give: seq<string>)
    requires OrderOf(give, p.gives.Keys)
    ensures var (d1, ok) := PhaseCommitted(h, signer, p, ctx, d, need, give);
            var parents := Resolved(h, ctx, d, need);
            && (ok <==> AllSignable(h, signer, p, ctx, parents))
            && (ok ==> AllIn(h, signer, p, ctx, parents, d1, p.gives.Keys))
            && (forall r <- d1.byHash | r !in d.byHash :: IsOutput(h, signer, p, ctx, parents, d1, r))
            && (forall r <- d.byHash :: r in d1.byHash && d1.byHash[r] == d.byHash[r])
  {
    var parents := Resolved(h, ctx, d, need);
    var (d1, ok) := PhaseCommitted(h, signer, p, ctx, d, need, give);
    KeySetOf(give, p.gives.Keys);
    OutputsAdd(h, signer, p, ctx, parents, d, give);
    SignedExactly(h, signer, p, ctx, parents);
    if ok {
      SuccessStoresAll(h, signer, p, ctx, parents, d, give);
    }
    forall r <- d1.byHash | r !in d.byHash ensures IsOutput(h, signer, p, ctx, parents, d1, r) {
      var key, b := NothingElseStored(h, signer, p, ctx, parents, d, give, r);
    }
    forall r <- d.byHash ensures r in d1.byHash && d1.byHash[r] == d.byHash[r] {
      StoredStays(h, signer, p, ctx, parents, d, give, r);
    }
  }

  // ---------------------------------------------------------------- its parents

  /** n is the first of the nodes with that payload hash. */
  ghost predicate FirstOf(nodes: seq<Node>, hash: Ref, n: Node) {
    exists x :: 0 <= x < |nodes| && FirstAt(nodes, hash, n, x)
  }

  predicate FirstAt(nodes: seq<Node>, hash: Ref, n: Node, x: nat)
    requires x < |nodes|
  {
    nodes[x] == n && n.payloadHash == hash && forall y :: 0 <= y < x ==> nodes[y].payloadHash != hash
  }

  lemma {:induction false} FindsTheFirst(nodes: seq<Node>, hash: Ref) returns (x: nat)
    requires FindPayload(nodes, hash).Some?
    ensures x < |nodes| && FirstAt(nodes, hash, FindPayload(nodes, hash).value, x)
    decreases |nodes|
  {
    if nodes[0].payloadHash == hash {
      x := 0;
    } else {
      x := FindsTheFirst(nodes[1..], hash);
      x := x + 1;
    }
  }

  lemma FirstIsOne(nodes: seq<Node>, hash: Ref, m: Node, x: nat, n: Node, y: nat)
    requires x < |nodes| && y < |nodes| && FirstAt(nodes, hash, m, x) && FirstAt(nodes, hash, n, y)
    ensures m == n
  {
  }

  /** A required key gives one parent exactly when its bytes are the payload of a stored node of
      the session, the first such node; otherwise it gives none. */
  lemma ParentExactly(h: Hash, ctx: Context, d: Dag, key: string, n: Node)
    ensures Resolved(h, ctx, d, [key]) == [n] <==>
              key in ctx.values && ctx.values[key].Bytes? && FirstOf(Walked(d, ctx.sessionID), h(ctx.values[key].bytes), n)
    ensures Resolved(h, ctx, d, [key]) == [] <==>
              key in ctx.values && ctx.values[key].Bytes? ==>
                forall m <- Walked(d, ctx.sessionID) :: m.payloadHash != h(ctx.values[key].bytes)
  {
    assert [key][..0] == [];
    assert Resolved(h, ctx, d, [key]) == ParentFor(h, ctx, d, key);
    if key in ctx.values && ctx.values[key].Bytes? {
      var nodes, hash := Walked(d, ctx.sessionID), h(ctx.values[key].bytes);
      if FindPayload(nodes, hash).Some? {
        var x := FindsTheFirst(nodes, hash);
        if FirstOf(nodes, hash, n) {
          var y :| 0 <= y < |nodes| && FirstAt(nodes, hash, n, y);
          FirstIsOne(nodes, hash, FindPayload(nodes, hash).value, x, n, y);
        }
      }
    }
  }

  /** The keys contribute one after the other, in the order they are ranged over. */
  lemma ParentsInOrder(h: Hash, ctx: Context, d: Dag, a: seq<string>, b: seq<string>)
    ensures Resolved(h, ctx, d, a + b) == Resolved(h, ctx, d, a) + Resolved(h, ctx, d, b)
    ensures Resolved(h, ctx, d, []) == []
  {
    ResolvedAppend(h, ctx, d, a, b);
  }
}
