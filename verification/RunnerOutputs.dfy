/** What a lineage-enabled runner adds to its store after an Exit
    (pkg/ares/phase/runner.go and runner_lineage.go). */
module RunnerOutputs {
  import opened Wrappers
  import opened Pipeline
  import opened LineageNode
  import opened LineageCommit
  import opened LineageStore
  import opened AutoCommit
  import opened PhaseOutputs
  import opened RunnerLineage
  import R = Runner
  import RunnerCommits

  /** Ranging over a map yields each of its keys once. */
  ghost predicate Ranges(c: Config) {
    forall n, keys :: OrderOf(c.orders(n, keys), keys)
  }

  /** The parents of whatever is committed now. */
  function ParentsNow(c: Config, p: Phase, ctx: Context, l: Lineage): seq<Node> {
    Resolved(c.hash, ctx, l.dag, c.orders(l.ranges, p.needs.Keys))
  }

  /** d1 is d and the nodes of the phase's eligible outputs, all of them if the commit succeeded. */
  ghost predicate OutputsAdded(c: Config, p: Phase, ctx: Context, parents: seq<Node>, d: Dag, d1: Dag, ok: bool) {
    && (ok <==> AllSignable(c.hash, c.signer, p, ctx, parents))
    && (ok ==> AllIn(c.hash, c.signer, p, ctx, parents, d1, p.gives.Keys))
    && (forall r <- d1.byHash | r !in d.byHash :: IsOutput(c.hash, c.signer, p, ctx, parents, d1, r))
    && (forall r <- d.byHash :: r in d1.byHash && d1.byHash[r] == d.byHash[r])
  }

  /** A runner with a store commits the exited phase's outputs; one without does nothing. */
  lemma RunnerStoresOutputs(c: Config, p: Phase, ctx: Context, s: Store)
    requires Ranges(c)
    ensures var (s1, ok) := CommitWith(c)(p, ctx, s);
            if s.None? then s1.None? && ok
            else s1.Some? && OutputsAdded(c, p, ctx, ParentsNow(c, p, ctx, s.value), s.value.dag, s1.value.dag, ok)
  {
    if s.Some? {
      var l := s.value;
      CommitsItsOutputs(c.hash, c.signer, p, ctx, l.dag, c.orders(l.ranges, p.needs.Keys), c.orders(l.ranges + 1, p.gives.Keys));
    }
  }

  /** A message whose node was let in: the node is stored first, then the outputs of the phases
      exited on the way, in order, each right after its Exit. */
  lemma ReceivedCommits(c: Config, m: Machine, w: R.World<Store>, sid: string, msg: Message, node: Node)
    returns (calls: seq<R.HookCall>)
    requires R.Wired(m) && R.AllPlaced(m, w) && w.lineage.Some?
    requires Objection(c, w.lineage.value.dag, node, msg.payload).None?
    ensures RunnerCommits.InPipeline(m, calls)
    ensures var w1 := Taken(c, m, w, Receive(sid, msg, Some(node)));
            && (sid in w1.sessions ==> RunnerCommits.HistoryIn(w1, sid) == RunnerCommits.HistoryIn(w, sid) + calls)
            && RunnerCommits.CommitsAlong(m, CommitWith(c), calls, WithNode(w, node).lineage).0 == w1.lineage
  {
    calls := RunnerCommits.StepCommits(m, CommitWith(c), WithNode(w, node), R.Handle(sid, msg));
  }
}
