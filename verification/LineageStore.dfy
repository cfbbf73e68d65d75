/** The in-memory lineage store (pkg/ares/lineage/inmemory.go): its two indexes, the parent
    order it keeps, and what clearing a session does to both. */
module LineageStore {
  import opened Wrappers
  import opened Pipeline
  import opened LineageNode
  import opened LineageCommit

  // ---------------------------------------------------------------- the store as a value

  /** The two indexes, and the hashes in the order they were appended (which no code reads). */
  datatype Dag = Dag(byHash: map<Ref, Node>, bySession: map<string, seq<Ref>>, log: seq<Ref>)

  const EMPTY := Dag(map[], map[], [])

  function SessionRefs(d: Dag, sid: string): seq<Ref> {
    if sid in d.bySession then d.bySession[sid] else []
  }

  /** Those of `log` that belong to the session. */
  function OfSession(nodes: map<Ref, Node>, log: seq<Ref>, sid: string): seq<Ref> {
    if log == [] then []
    else
      var last := log[|log| - 1];
      OfSession(nodes, log[..|log| - 1], sid) + (if last in nodes && nodes[last].sessionID == sid then [last] else [])
  }

  ghost predicate Distinct(log: seq<Ref>) {
    forall x, y :: 0 <= x < y < |log| ==> log[x] != log[y]
  }

  /** Both indexes hold the same nodes, each once, in append order. */
  ghost predicate IndexesAgree(d: Dag) {
    LogAgrees(d) && forall sid {:trigger SessionAgrees(d, sid)} {:trigger SessionRefs(d, sid)} :: SessionAgrees(d, sid)
  }

  ghost predicate LogAgrees(d: Dag) {
    && Distinct(d.log)
    && (forall r: Ref :: r in d.byHash <==> r in d.log)
    && (forall r <- d.byHash :: d.byHash[r].hash == r)
  }

  ghost predicate SessionAgrees(d: Dag, sid: string) {
    SessionRefs(d, sid) == OfSession(d.byHash, d.log, sid)
  }

  ghost predicate ParentsAt(d: Dag, i: nat)
    requires i < |d.log|
  {
    d.log[i] in d.byHash && forall p <- d.byHash[d.log[i]].parents :: p in d.log[..i]
  }

  /** Every parent was stored before its child. */
  ghost predicate Topological(d: Dag) {
    forall i {:trigger ParentsAt(d, i)} :: 0 <= i < |d.log| ==> ParentsAt(d, i)
  }

  ghost predicate HashesDerived(h: Hash, d: Dag) {
    forall r <- d.byHash :: r == h(Preimage(IdentityOf(d.byHash[r])))
  }

  ghost predicate Sound(h: Hash, d: Dag) {
    IndexesAgree(d) && Topological(d) && HashesDerived(h, d)
  }

  ghost predicate Grows(d: Dag, d': Dag) {
    |d.log| <= |d'.log| && d'.log[..|d.log|] == d.log && forall r <- d.byHash :: r in d'.byHash && d'.byHash[r] == d.byHash[r]
  }

  /** Append; the flag is false for ErrNodeExists. */
  function Appended(d: Dag, node: Node): (Dag, bool) {
    if node.hash in d.byHash then (d, false)
    else (Dag(d.byHash[node.hash := node],
              d.bySession[node.sessionID := SessionRefs(d, node.sessionID) + [node.hash]],
              d.log + [node.hash]), true)
  }

  /** Appending says whether the hash was new; if so the node is stored, last in its session, and
      otherwise the store is as it was. */
  lemma AppendExactly(d: Dag, node: Node)
    ensures var (d1, added) := Appended(d, node);
            && (added <==> node.hash !in d.byHash)
            && (!added ==> d1 == d)
            && (added ==> d1.byHash == d.byHash[node.hash := node] && SessionRefs(d1, node.sessionID) == SessionRefs(d, node.sessionID) + [node.hash])
            && forall sid :: sid != node.sessionID ==> SessionRefs(d1, sid) == SessionRefs(d, sid)
  {
  }

  lemma {:induction false} OfSessionFrame(nodes: map<Ref, Node>, node: Node, log: seq<Ref>, sid: string)
    requires node.hash !in log
    ensures OfSession(nodes[node.hash := node], log, sid) == OfSession(nodes, log, sid)
  {
    if log == [] {
    } else {
      OfSessionFrame(nodes, node, log[..|log| - 1], sid);
    }
  }

  lemma AppendKeepsLog(d: Dag, node: Node)
    requires LogAgrees(d)
    ensures LogAgrees(Appended(d, node).0) && Grows(d, Appended(d, node).0)
  {
    var d1 := Appended(d, node).0;
    if node.hash !in d.byHash {
      assert d1.log[..|d.log|] == d.log;
    } else {
      assert d.log[..|d.log|] == d.log;
    }
  }

  lemma AppendKeepsSession(d: Dag, node: Node, sid: string)
    requires node.hash !in d.byHash && node.hash !in d.log && SessionAgrees(d, sid)
    ensures SessionAgrees(Appended(d, node).0, sid)
  {
    OfSessionFrame(d.byHash, node, d.log, sid);
    assert (d.log + [node.hash])[..|d.log|] == d.log;
  }

  lemma AppendKeepsIndexes(d: Dag, node: Node)
    requires IndexesAgree(d)
    ensures IndexesAgree(Appended(d, node).0) && Grows(d, Appended(d, node).0)
  {
    AppendKeepsLog(d, node);
    forall sid ensures SessionAgrees(Appended(d, node).0, sid) {
      assert SessionAgrees(d, sid);
      if node.hash !in d.byHash {
        AppendKeepsSession(d, node, sid);
      }
    }
  }

  lemma AppendKeepsTopological(d: Dag, node: Node)
    requires IndexesAgree(d) && Topological(d)
    requires forall p <- node.parents :: p in d.byHash
    ensures Topological(Appended(d, node).0)
  {
    var d1 := Appended(d, node).0;
    if node.hash !in d.byHash {
      forall i | 0 <= i < |d1.log| ensures ParentsAt(d1, i) {
        if i < |d.log| {
          assert ParentsAt(d, i) && d1.log[..i] == d.log[..i];
        } else {
          assert d1.log[..i] == d.log;
        }
      }
    }
  }

  /** Appending a node with a derived hash whose parents are stored keeps everything. */
  lemma AppendKeepsSound(h: Hash, d: Dag, node: Node)
    requires Sound(h, d) && node.hash == h(Preimage(IdentityOf(node)))
    requires forall p <- node.parents :: p in d.byHash
    ensures Sound(h, Appended(d, node).0) && Grows(d, Appended(d, node).0)
    ensures node.hash in Appended(d, node).0.byHash
  {
    AppendKeepsIndexes(d, node);
    AppendKeepsTopological(d, node);
  }

  lemma GrowsTransitive(a: Dag, b: Dag, c: Dag)
    requires Grows(a, b) && Grows(b, c)
    ensures Grows(a, c)
  {
    assert c.log[..|a.log|] == c.log[..|b.log|][..|a.log|];
  }

  // ---------------------------------------------------------------- acyclicity

  /** Each ref on the path names a stored node, and the next is one of its parents. */
  ghost predicate ParentPath(d: Dag, path: seq<Ref>) {
    && (forall i :: 0 <= i < |path| ==> path[i] in d.byHash)
    && (forall i :: 0 < i < |path| ==> path[i] in d.byHash[path[i - 1]].parents)
  }

  lemma {:induction false} PathGoesBack(d: Dag, path: seq<Ref>, x: nat) returns (y: nat)
    requires IndexesAgree(d) && Topological(d) && |path| >= 2 && ParentPath(d, path)
    requires x < |d.log| && d.log[x] == path[0]
    ensures y < x && d.log[y] == path[|path| - 1]
    decreases |path|
  {
    assert ParentsAt(d, x);
    assert path[1] in d.byHash[path[0]].parents;
    var z :| 0 <= z < |d.log[..x]| && d.log[..x][z] == path[1];
    if |path| == 2 {
      y := z;
    } else {
      assert forall i :: 0 < i < |path| - 1 ==> path[1..][i] == path[i + 1] && path[1..][i - 1] == path[i];
      y := PathGoesBack(d, path[1..], z);
    }
  }

  /** No parent path leads from a node back to itself. */
  lemma NoCycles(h: Hash, d: Dag, path: seq<Ref>)
    requires Sound(h, d) && |path| >= 2 && ParentPath(d, path)
    ensures path[0] != path[|path| - 1]
  {
    assert path[0] in d.log;
    var x :| 0 <= x < |d.log| && d.log[x] == path[0];
    var y := PathGoesBack(d, path, x);
  }

  // ---------------------------------------------------------------- the store as an object

  /** WalkSession's snapshot. */
  function NodesAt(nodes: map<Ref, Node>, refs: seq<Ref>): seq<Node> {
    if refs == [] then []
    else
      var last := refs[|refs| - 1];
      NodesAt(nodes, refs[..|refs| - 1]) + (if last in nodes then [nodes[last]] else [])
  }

  function Walked(d: Dag, sid: string): seq<Node> {
    NodesAt(d.byHash, SessionRefs(d, sid))
  }

  /** Clear */
  function Cleared(d: Dag, sid: string): Dag {
    Dag(d.byHash - RefSet(SessionRefs(d, sid)), d.bySession - {sid}, Others(d.byHash, d.log, sid))
  }

  function Others(nodes: map<Ref, Node>, log: seq<Ref>, sid: string): seq<Ref> {
    if log == [] then []
    else
      var last := log[|log| - 1];
      Others(nodes, log[..|log| - 1], sid) + (if last in nodes && nodes[last].sessionID == sid then [] else [last])
  }

  lemma OneMoreRemoved(nodes: map<Ref, Node>, refs: seq<Ref>, i: nat)
    requires i < |refs|
    ensures nodes - RefSet(refs[..i]) - {refs[i]} == nodes - RefSet(refs[..i + 1])
  {
    assert refs[..i + 1] == refs[..i] + [refs[i]];
    assert RefSet(refs[..i + 1]) == RefSet(refs[..i]) + {refs[i]};
  }

  function RefSet(refs: seq<Ref>): set<Ref> {
    set r <- refs
  }

  class InMemoryStore {
    var byHash: map<Ref, Node>
    var bySession: map<string, seq<Ref>>
    ghost var log: seq<Ref>

    ghost function View(): Dag
      reads this
    {
      Dag(byHash, bySession, log)
    }

    constructor ()
      ensures View() == EMPTY
    {
      byHash, bySession, log := map[], map[], [];
    }

    method Append(node: Node) returns (added: bool)
      modifies this
      ensures (View(), added) == Appended(old(View()), node)
    {
      if node.hash in byHash {
        return false;
      }
      byHash := byHash[node.hash := node];
      var refs := if node.sessionID in bySession then bySession[node.sessionID] else [];
      bySession := bySession[node.sessionID := refs + [node.hash]];
      log := log + [node.hash];
      added := true;
    }

    method Get(hash: Ref) returns (r: Option<Node>)
      ensures r == if hash in byHash then Some(byHash[hash]) else None
    {
      if hash !in byHash {
        return None;
      }
      r := Some(byHash[hash]);
    }

    method WalkSession(sid: string) returns (snapshot: seq<Node>)
      ensures snapshot == Walked(View(), sid)
    {
      var refs := if sid in bySession then bySession[sid] else [];
      snapshot := [];
      for i := 0 to |refs|
        invariant snapshot == NodesAt(byHash, refs[..i])
      {
        assert refs[..i + 1][..i] == refs[..i];
        if refs[i] in byHash {
          snapshot := snapshot + [byHash[refs[i]]];
        }
      }
      assert refs[..|refs|] == refs;
    }

    method Clear(sid: string)
      modifies this
      ensures View() == Cleared(old(View()), sid)
    {
      var refs := if sid in bySession then bySession[sid] else [];
      log := Others(byHash, log, sid);
      for i := 0 to |refs|
        invariant byHash == old(byHash) - RefSet(refs[..i])
        invariant bySession == old(bySession) && log == Others(old(byHash), old(log), sid)
      {
        OneMoreRemoved(old(byHash), refs, i);
        byHash := byHash - {refs[i]};
      }
      assert refs[..|refs|] == refs;
      bySession := bySession - {sid};
    }
  }

  // ---------------------------------------------------------------- what walking and clearing give

  lemma {:induction false} OfSessionMembers(nodes: map<Ref, Node>, log: seq<Ref>, sid: string, r: Ref)
    ensures r in OfSession(nodes, log, sid) <==> r in log && r in nodes && nodes[r].sessionID == sid
  {
    if log == [] {
    } else {
      OfSessionMembers(nodes, log[..|log| - 1], sid, r);
      assert log == log[..|log| - 1] + [log[|log| - 1]];
    }
  }

  lemma {:induction false} OthersMembers(nodes: map<Ref, Node>, log: seq<Ref>, sid: string, r: Ref)
    ensures r in Others(nodes, log, sid) <==> r in log && !(r in nodes && nodes[r].sessionID == sid)
  {
    if log == [] {
    } else {
      OthersMembers(nodes, log[..|log| - 1], sid, r);
      assert log == log[..|log| - 1] + [log[|log| - 1]];
    }
  }

  lemma {:induction false} NodesAtMembers(nodes: map<Ref, Node>, refs: seq<Ref>, n: Node)
    ensures n in NodesAt(nodes, refs) <==> exists r <- refs :: r in nodes && nodes[r] == n
  {
    if refs == [] {
    } else {
      NodesAtMembers(nodes, refs[..|refs| - 1], n);
      assert refs == refs[..|refs| - 1] + [refs[|refs| - 1]];
    }
  }

  /** A walk yields exactly the stored nodes of the session. */
  lemma WalkIsTheSession(d: Dag, sid: string, n: Node)
    requires IndexesAgree(d)
    ensures n in Walked(d, sid) <==> n.hash in d.byHash && d.byHash[n.hash] == n && n.sessionID == sid
  {
    NodesAtMembers(d.byHash, SessionRefs(d, sid), n);
    OfSessionMembers(d.byHash, d.log, sid, n.hash);
    if n in Walked(d, sid) {
      var r :| r in SessionRefs(d, sid) && r in d.byHash && d.byHash[r] == n;
      OfSessionMembers(d.byHash, d.log, sid, r);
    }
  }

  lemma ClearedNodes(d: Dag, sid: string, r: Ref)
    requires IndexesAgree(d)
    ensures r in Cleared(d, sid).byHash <==> r in d.byHash && d.byHash[r].sessionID != sid
    ensures r in Cleared(d, sid).byHash <==> r in Cleared(d, sid).log
    ensures r in Cleared(d, sid).byHash ==> Cleared(d, sid).byHash[r] == d.byHash[r]
  {
    OfSessionMembers(d.byHash, d.log, sid, r);
    OthersMembers(d.byHash, d.log, sid, r);
  }

  lemma {:induction false} OthersDistinct(nodes: map<Ref, Node>, log: seq<Ref>, sid: string)
    requires Distinct(log)
    ensures Distinct(Others(nodes, log, sid))
  {
    if log == [] {
    } else {
      OthersDistinct(nodes, log[..|log| - 1], sid);
      OthersMembers(nodes, log[..|log| - 1], sid, log[|log| - 1]);
    }
  }

  /** Filtering the kept part of the log by a session, over the kept nodes. */
  lemma {:induction false} OthersOfSession(nodes: map<Ref, Node>, kept: map<Ref, Node>, log: seq<Ref>, sid: string, s: string)
    requires forall r <- log :: r in nodes && (r in kept <==> nodes[r].sessionID != sid)
    requires forall r <- kept :: r in nodes && kept[r] == nodes[r]
    ensures OfSession(kept, Others(nodes, log, sid), s) == if s == sid then [] else OfSession(nodes, log, s)
  {
    if log == [] {
    } else {
      var front, last := log[..|log| - 1], log[|log| - 1];
      OthersOfSession(nodes, kept, front, sid, s);
      assert last in log;
      var others := Others(nodes, front, sid);
      assert (others + [last])[..|others|] == others && others + [] == others;
    }
  }

  lemma ClearKeepsSession(d: Dag, sid: string, s: string)
    requires IndexesAgree(d)
    ensures SessionAgrees(Cleared(d, sid), s)
  {
    assert SessionAgrees(d, s);
    var c := Cleared(d, sid);
    forall r: Ref
      ensures r in c.byHash <==> r in d.byHash && d.byHash[r].sessionID != sid
    {
      ClearedNodes(d, sid, r);
    }
    OthersOfSession(d.byHash, c.byHash, d.log, sid, s);
  }

  lemma ClearKeepsIndexes(d: Dag, sid: string)
    requires IndexesAgree(d)
    ensures IndexesAgree(Cleared(d, sid))
  {
    var c := Cleared(d, sid);
    forall r: Ref ensures r in c.byHash <==> r in c.log {
      ClearedNodes(d, sid, r);
    }
    OthersDistinct(d.byHash, d.log, sid);
    forall s ensures SessionAgrees(c, s) {
      ClearKeepsSession(d, sid, s);
    }
  }

  /** Clearing leaves parent references resolving exactly when no node of another session
      has a parent in the cleared one: the store keeps no check of this. */
  lemma ClearDangles(h: Hash, d: Dag, sid: string)
    requires Sound(h, d)
    ensures (forall r <- Cleared(d, sid).byHash, p <- Cleared(d, sid).byHash[r].parents :: p in Cleared(d, sid).byHash)
       <==> (forall r <- d.byHash, p <- d.byHash[r].parents ::
               d.byHash[r].sessionID != sid && p in d.byHash ==> d.byHash[p].sessionID != sid)
  {
    forall r: Ref
      ensures r in Cleared(d, sid).byHash <==> r in d.byHash && d.byHash[r].sessionID != sid
      ensures r in Cleared(d, sid).byHash ==> Cleared(d, sid).byHash[r] == d.byHash[r]
    {
      ClearedNodes(d, sid, r);
    }
    forall r, p | r in d.byHash && p in d.byHash[r].parents ensures p in d.byHash {
      ParentsResolve(h, d, r, p);
    }
  }

  lemma ParentsResolve(h: Hash, d: Dag, r: Ref, p: Ref)
    requires Sound(h, d) && r in d.byHash && p in d.byHash[r].parents
    ensures p in d.byHash
  {
    var i :| 0 <= i < |d.log| && d.log[i] == r;
    assert ParentsAt(d, i);
    assert p in d.log[..i];
  }
}
