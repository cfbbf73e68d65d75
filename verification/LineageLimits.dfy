/** What the lineage checks do not cover: a node may vouch for another session's message
    (pkg/ares/phase/runner_lineage.go), and a parent in another session goes away when that
    session is cleared (pkg/ares/lineage/inmemory.go). Each by a run from an empty store. */
module LineageLimits {
  import opened Wrappers
  import opened Pipeline
  import opened LineageNode
  import opened LineageCommit
  import opened LineageStore
  import opened RunnerLineage
  import R = Runner

  /** The node a signer commits verifies, if its key is not empty. */
  ghost predicate Trusted(c: Config, signer: Signer) {
    signer.algorithm in c.verifiers && Accepts(c.verifiers[signer.algorithm], signer) && signer.publicKey != []
  }

  // ---------------------------------------------------------------- a cleared parent

  /** r names a parent that the store does not have. */
  ghost predicate Dangles(d: Dag, r: Ref, parent: Ref) {
    r in d.byHash && parent in d.byHash[r].parents && parent !in d.byHash
  }

  lemma OneParent(h: Hash, sid: string, phase: string, role: string, payload: seq<int>, parent: Node, signer: Signer)
    requires Committed(h, sid, phase, role, payload, [parent], Some(signer)).Some?
    ensures Committed(h, sid, phase, role, payload, [parent], Some(signer)).value.parents == [parent.hash]
  {
    var s := AsParents([parent]);
    assert StableSort([]) == [] && s[..0] == [];
    assert StableSort(s) == Insert(s[0], []) == s;
  }

  /** A message for a session that is not tracked still stores its node. */
  lemma ReceivedStores(c: Config, m: Machine, w: R.World<Store>, sid: string, msg: Message, node: Node)
    requires R.Wired(m) && R.AllPlaced(m, w) && w.lineage.Some? && sid !in w.sessions
    requires Objection(c, w.lineage.value.dag, node, msg.payload).None?
    ensures Taken(c, m, w, Receive(sid, msg, Some(node))) == WithNode(w, node)
  {
    assert w.sessions - {sid} == w.sessions;
  }

  /** Two admitted nodes, received for sessions that are not tracked, the second session's node
      naming the first's as its parent: once the first session is cleared the parent is gone.
      So it is for every hash function,
      trusted signer, sessions and payloads, as long as the two hashes differ. */
  lemma ClearingDangles(c: Config, m: Machine, signer: Signer, sa: string, sb: string, phase: string, role: string,
                        ma: Message, mb: Message, a: Node, b: Node)
    requires R.Wired(m) && Trusted(c, signer) && sa != sb
    requires Committed(c.hash, sa, phase, role, ma.payload, [], Some(signer)) == Some(a)
    requires Committed(c.hash, sb, phase, role, mb.payload, [a], Some(signer)) == Some(b)
    requires a.hash != b.hash
    ensures var w := Ran(c, m, FRESH, [Receive(sa, ma, Some(a)), Receive(sb, mb, Some(b))]);
            w.lineage.Some? && Sound(c.hash, w.lineage.value.dag) && Dangles(Cleared(w.lineage.value.dag, sa), b.hash, a.hash)
  {
    VerifyAcceptsCommit(c.hash, sa, phase, role, ma.payload, [], signer, c.verifiers);
    VerifyAcceptsCommit(c.hash, sb, phase, role, mb.payload, [a], signer, c.verifiers);
    OneParent(c.hash, sb, phase, role, mb.payload, a, signer);
    NoParents(c.hash, sa, phase, role, ma.payload, signer);
    TwoReceived(c, m, sa, sb, ma, mb, a, b);
    RunsKeepLineage(c, m, FRESH, [Receive(sa, ma, Some(a)), Receive(sb, mb, Some(b))]);
    TwoStored(a, b);
    ParentCleared(TwoNodes(a, b), sa, a, b);
  }

  /** The store after two nodes. */
  function TwoNodes(a: Node, b: Node): Dag {
    WithNode(WithNode(FRESH, a), b).lineage.value.dag
  }

  lemma TwoStored(a: Node, b: Node)
    requires a.hash != b.hash
    ensures TwoNodes(a, b).byHash == map[a.hash := a, b.hash := b]
  {
  }

  lemma TwoReceived(c: Config, m: Machine, sa: string, sb: string, ma: Message, mb: Message, a: Node, b: Node)
    requires R.Wired(m) && a.parents == [] && b.parents == [a.hash]
    requires Verify(c.hash, a, ma.payload, c.verifiers).None? && Verify(c.hash, b, mb.payload, c.verifiers).None?
    ensures var w := Ran(c, m, FRESH, [Receive(sa, ma, Some(a)), Receive(sb, mb, Some(b))]);
            w.lineage.Some? && w.lineage.value.dag == TwoNodes(a, b)
  {
    ReceivedStores(c, m, FRESH, sa, ma, a);
    ReceivedStores(c, m, WithNode(FRESH, a), sb, mb, b);
    TwoTaken(c, m, FRESH, Receive(sa, ma, Some(a)), Receive(sb, mb, Some(b)));
  }

  lemma ParentCleared(d: Dag, sa: string, a: Node, b: Node)
    requires IndexesAgree(d) && d.byHash == map[a.hash := a, b.hash := b]
    requires a.hash != b.hash && a.sessionID == sa != b.sessionID && b.parents == [a.hash]
    ensures Dangles(Cleared(d, sa), b.hash, a.hash)
  {
    ClearedNodes(d, sa, a.hash);
    ClearedNodes(d, sa, b.hash);
  }

  lemma NoParents(h: Hash, sid: string, phase: string, role: string, payload: seq<int>, signer: Signer)
    requires Committed(h, sid, phase, role, payload, [], Some(signer)).Some?
    ensures Committed(h, sid, phase, role, payload, [], Some(signer)).value.parents == []
  {
  }

  lemma TwoTaken(c: Config, m: Machine, w: R.World<Store>, x: LCall, y: LCall)
    requires R.Wired(m) && R.AllPlaced(m, w)
    ensures Ran(c, m, w, [x, y]) == Taken(c, m, Taken(c, m, w, x), y)
  {
    assert [x, y][1..] == [y] && [y][1..] == [];
    var w1 := Taken(c, m, w, x);
    assert Ran(c, m, w1, [y]) == Ran(c, m, Taken(c, m, w1, y), []);
  }

  // ---------------------------------------------------------------- another session's node

  /** The session is in a phase that consumes the message, and stays there after it. */
  predicate Listening(m: Machine, t: R.Tracker, msg: Message)
    requires R.Placed(m, t)
  {
    && t.current.Some?
    && var p := m.phases[t.current.value];
       var e := p.onMessage(t.ctx, msg);
       msg.msgType in p.consumes && !e.failed && !p.complete(R.CallHook(t, R.OnMessage, t.current.value, msg, e).ctx)
  }

  /** An admitted node's message is delivered whatever session the node names. */
  lemma DeliveredUnderAnyNode(c: Config, m: Machine, w: R.World<Store>, sid: string, msg: Message, node: Node)
    requires R.Wired(m) && R.AllPlaced(m, w) && w.lineage.Some? && sid in w.sessions
    requires Listening(m, w.sessions[sid], msg) && Objection(c, w.lineage.value.dag, node, msg.payload).None?
    ensures var w1 := Taken(c, m, w, Receive(sid, msg, Some(node)));
            && w1.lineage == WithNode(w, node).lineage && sid in w1.sessions
            && var h, h1 := w.sessions[sid].history, w1.sessions[sid].history;
               |h1| == |h| + 1 && h1[|h|].kind == R.OnMessage && h1[|h|].msg == msg
  {
  }

  /** A node of the session that verifies against the payload and whose hash is stored. */
  ghost predicate VouchesIn(c: Config, d: Dag, sid: string, payload: seq<int>, node: Node) {
    && Verify(c.hash, node, payload, c.verifiers).None? && node.hash in d.byHash
    && node.sessionID == sid && Encodable(IdentityOf(node))
  }

  /** An admitted node, delivered with a message for session sid, whatever the store held: a
      node of that session vouches for the message afterwards exactly when the node received
      names that session or one vouched before, unless the hash function collides (on nodes
      short enough to encode). The source lets any session's node through; GuardedCall is the
      check a caller has to make. */
  lemma OwnVouchExactly(c: Config, m: Machine, w: R.World<Store>, sid: string, msg: Message, node: Node)
    requires R.Wired(m) && R.AllPlaced(m, w) && w.lineage.Some? && sid in w.sessions
    requires Listening(m, w.sessions[sid], msg)
    requires Objection(c, w.lineage.value.dag, node, msg.payload).None? && Encodable(IdentityOf(node))
    ensures var w1 := Taken(c, m, w, Receive(sid, msg, Some(node)));
            && sid in w1.sessions && w1.lineage.Some? && w1.lineage == WithNode(w, node).lineage
            && |w1.sessions[sid].history| == |w.sessions[sid].history| + 1
            && w1.sessions[sid].history[|w.sessions[sid].history|].msg == msg
    ensures node.sessionID == sid ==> VouchesIn(c, WithNode(w, node).lineage.value.dag, sid, msg.payload, node)
    ensures forall other :: VouchesIn(c, w.lineage.value.dag, sid, msg.payload, other) ==>
              VouchesIn(c, WithNode(w, node).lineage.value.dag, sid, msg.payload, other)
    ensures forall other :: VouchesIn(c, WithNode(w, node).lineage.value.dag, sid, msg.payload, other) ==>
              || node.sessionID == sid
              || VouchesIn(c, w.lineage.value.dag, sid, msg.payload, other)
              || Collision(c.hash, Preimage(IdentityOf(node)), Preimage(IdentityOf(other)))
  {
    DeliveredUnderAnyNode(c, m, w, sid, msg, node);
    var d1 := WithNode(w, node).lineage.value.dag;
    forall other | VouchesIn(c, d1, sid, msg.payload, other)
      ensures || node.sessionID == sid
              || VouchesIn(c, w.lineage.value.dag, sid, msg.payload, other)
              || Collision(c.hash, Preimage(IdentityOf(node)), Preimage(IdentityOf(other)))
    {
      if other.hash == node.hash {
        VerifiedNodesBind(c.hash, node, msg.payload, other, msg.payload, c.verifiers);
      }
    }
  }
}
