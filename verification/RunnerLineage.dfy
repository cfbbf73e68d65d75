/** The lineage-enabled runner: verify-before-dispatch (pkg/ares/phase/runner_lineage.go) on
    top of the session machine, and what every run of it keeps. */
module RunnerLineage {
  import opened Wrappers
  import opened Pipeline
  import opened LineageNode
  import opened LineageCommit
  import opened LineageStore
  import opened AutoCommit
  import R = Runner

  /** What ComposeWith attaches to a runner. `orders` stands for Go's map iteration: the
      order in which the n-th range over a map with these keys yields them. */
  datatype Config = Config(hash: Hash, signer: Option<Signer>, verifiers: map<string, Verifier>,
                           orders: (nat, set<string>) -> seq<string>)

  datatype Lineage = Lineage(dag: Dag, ranges: nat)

  /** The store a runner carries: None for one built with Compose. */
  type Store = Option<Lineage>

  function Committing(c: Config, p: Phase, ctx: Context, s: Store): (Store, bool) {
    match s
    case None => (None, true)
    case Some(l) =>
      var (d, ok) := PhaseCommitted(c.hash, c.signer, p, ctx, l.dag,
                                    c.orders(l.ranges, p.needs.Keys), c.orders(l.ranges + 1, p.gives.Keys));
      (Some(Lineage(d, l.ranges + 2)), ok)
  }

  function CommitWith(c: Config): R.Commit<Store> {
    (p, ctx, s) => Committing(c, p, ctx, s)
  }

  // ---------------------------------------------------------------- verify, then dispatch

  datatype Verdict = Dispatched(outcome: R.Outcome) | NoNode | Refused(field: Mismatch) | UnknownParent

  /** Why an inbound node is not let in; None lets it in. */
  function Objection(c: Config, d: Dag, node: Node, payload: seq<int>): Option<Verdict> {
    var mismatch := Verify(c.hash, node, payload, c.verifiers);
    if mismatch.Some? then Some(Refused(mismatch.value))
    else if exists p <- node.parents :: p !in d.byHash then Some(UnknownParent)
    else None
  }

  function WithNode(w: R.World<Store>, node: Node): R.World<Store>
    requires w.lineage.Some?
  {
    w.(lineage := Some(w.lineage.value.(dag := Appended(w.lineage.value.dag, node).0)))
  }

  /** HandleLineageMessage */
  function Received(c: Config, m: Machine, w: R.World<Store>, sid: string, msg: Message, node: Option<Node>): (r: (R.World<Store>, Verdict))
    requires R.Wired(m) && R.AllPlaced(m, w)
    ensures R.AllPlaced(m, r.0)
  {
    if w.lineage.None? then
      var (w1, o) := R.Step(m, CommitWith(c), w, R.Handle(sid, msg));
      (w1, Dispatched(o))
    else if node.None? then (w, NoNode)
    else
      var objection := Objection(c, w.lineage.value.dag, node.value, msg.payload);
      if objection.Some? then (w, objection.value)
      else
        var (w1, o) := R.Step(m, CommitWith(c), WithNode(w, node.value), R.Handle(sid, msg));
        (w1, Dispatched(o))
  }

  method HandleLineageMessage(c: Config, r: R.SessionRunner<Store>, sid: string, msg: Message, node: Option<Node>)
    returns (v: Verdict)
    requires r.Valid() && r.commit == CommitWith(c)
    requires sid in r.sessions ==> r.sessions[sid].current.Some?
    modifies r
    ensures r.Valid()
    ensures (r.Here(), v) == Received(c, r.machine, old(r.Here()), sid, msg, node)
  {
    if r.lineage.None? {
      var o := r.HandleMessage(sid, msg);
      return Dispatched(o);
    }
    if node.None? {
      return NoNode;
    }
    var l := r.lineage.value;
    var mismatch := Verify(c.hash, node.value, msg.payload, c.verifiers);
    if mismatch.Some? {
      return Refused(mismatch.value);
    }
    var parents := node.value.parents;
    for i := 0 to |parents|
      invariant forall j :: 0 <= j < i ==> parents[j] in l.dag.byHash
    {
      if parents[i] !in l.dag.byHash {
        return UnknownParent;
      }
    }
    r.lineage := Some(l.(dag := Appended(l.dag, node.value).0));
    assert r.Here() == WithNode(old(r.Here()), node.value);
    var o := r.HandleMessage(sid, msg);
    return Dispatched(o);
  }

  // ---------------------------------------------------------------- runs

  datatype LCall = Plain(call: R.Call) | Receive(sid: string, msg: Message, node: Option<Node>)

  function Taken(c: Config, m: Machine, w: R.World<Store>, call: LCall): (w1: R.World<Store>)
    requires R.Wired(m) && R.AllPlaced(m, w)
    ensures R.AllPlaced(m, w1)
  {
    match call
    case Plain(k) => R.Step(m, CommitWith(c), w, k).0
    case Receive(sid, msg, node) => Received(c, m, w, sid, msg, node).0
  }

  function Ran(c: Config, m: Machine, w: R.World<Store>, calls: seq<LCall>): (w1: R.World<Store>)
    requires R.Wired(m) && R.AllPlaced(m, w)
    ensures R.AllPlaced(m, w1)
    decreases |calls|
  {
    if calls == [] then w else Ran(c, m, Taken(c, m, w, calls[0]), calls[1..])
  }

  // ---------------------------------------------------------------- the store over a step

  ghost predicate StoreSound(c: Config, s: Store) {
    s.Some? ==> Sound(c.hash, s.value.dag)
  }

  /** Still sound, and nothing lost. */
  ghost predicate Extends(c: Config, s: Store, s': Store) {
    StoreSound(c, s') && (s.Some? <==> s'.Some?) && (s.Some? ==> Grows(s.value.dag, s'.value.dag))
  }

  lemma ExtendsTransitive(c: Config, a: Store, b: Store, d: Store)
    requires Extends(c, a, b) && Extends(c, b, d)
    ensures Extends(c, a, d)
  {
    if a.Some? {
      GrowsTransitive(a.value.dag, b.value.dag, d.value.dag);
    }
  }

  lemma CommittingExtends(c: Config, p: Phase, ctx: Context, s: Store)
    requires StoreSound(c, s)
    ensures Extends(c, s, CommitWith(c)(p, ctx, s).0)
  {
    if s.Some? {
      var l := s.value;
      AutoCommitKeepsSound(c.hash, c.signer, p, ctx, l.dag, c.orders(l.ranges, p.needs.Keys), c.orders(l.ranges + 1, p.gives.Keys));
    }
  }

  lemma ExtendsItself(c: Config, s: Store)
    requires StoreSound(c, s)
    ensures Extends(c, s, s)
  {
    if s.Some? {
      assert s.value.dag.log[..|s.value.dag.log|] == s.value.dag.log;
    }
  }

  /** A reflexive and transitive relation that every commit keeps between the store before
      and after it. */
  ghost predicate Kept<L(!new)>(commit: R.Commit<L>, rel: (L, L) -> bool) {
    && (forall a :: rel(a, a))
    && (forall a, b, d :: rel(a, b) && rel(b, d) ==> rel(a, d))
    && (forall p, ctx, a :: rel(a, commit(p, ctx, a).0))
  }

  lemma HopKeeps<L(!new)>(m: Machine, commit: R.Commit<L>, rel: (L, L) -> bool, t: R.Tracker, l: L)
    requires R.Wired(m) && R.Placed(m, t) && t.current.Some? && Kept(commit, rel)
    ensures rel(l, R.Hop(m, commit, t, l).1)
  {
    var p := m.phases[t.current.value];
    var ctx := R.CallHook(t, R.Exit, t.current.value, R.NO_MESSAGE, p.onExit(t.ctx)).ctx;
    assert R.Hop(m, commit, t, l).1 == l || R.Hop(m, commit, t, l).1 == commit(p, ctx, l).0;
  }

  lemma {:induction false} CascadeKeeps<L(!new)>(m: Machine, commit: R.Commit<L>, rel: (L, L) -> bool, t: R.Tracker, l: L, hops: nat)
    requires R.Wired(m) && R.Placed(m, t) && t.current.Some? && Kept(commit, rel)
    ensures rel(l, R.Cascade(m, commit, t, l, hops).1)
    decreases hops
  {
    if hops == 0 {
    } else {
      HopKeeps(m, commit, rel, t, l);
      var (t1, l1, end) := R.Hop(m, commit, t, l);
      if end.Entered? && R.PassesThrough(m, t1.current.value, t1.ctx) {
        CascadeKeeps(m, commit, rel, t1, l1, hops - 1);
      }
    }
  }

  lemma {:induction false} WalkKeeps<L(!new)>(m: Machine, commit: R.Commit<L>, rel: (L, L) -> bool, t: R.Tracker, l: L,
                                              target: State, hops: nat)
    requires R.Wired(m) && R.Placed(m, t) && Kept(commit, rel)
    ensures rel(l, R.WalkTo(m, commit, t, l, target, hops).1)
    decreases hops
  {
    if hops > 0 && t.state != target && t.current.Some? {
      HopKeeps(m, commit, rel, t, l);
      var (t1, l1, end) := R.Hop(m, commit, t, l);
      if end.Entered? {
        WalkKeeps(m, commit, rel, t1, l1, target, hops - 1);
      }
    }
  }

  lemma DeliverKeeps<L(!new)>(m: Machine, commit: R.Commit<L>, rel: (L, L) -> bool, t: R.Tracker, l: L, msg: Message)
    requires R.Wired(m) && R.Placed(m, t) && Kept(commit, rel)
    ensures rel(l, R.Deliver(m, commit, t, l, msg).1)
  {
    if t.current.Some? {
      var k := t.current.value;
      var e := m.phases[k].onMessage(t.ctx, msg);
      CascadeKeeps(m, commit, rel, R.CallHook(t, R.OnMessage, k, msg, e), l, |m.phases| + 1);
    }
  }

  /** One call keeps what every commit keeps. */
  lemma SessionStepKeeps<L(!new)>(m: Machine, commit: R.Commit<L>, rel: (L, L) -> bool, t: Option<R.Tracker>, l: L, call: R.Call)
    requires R.Wired(m) && (t.Some? ==> R.Placed(m, t.value)) && Kept(commit, rel)
    ensures rel(l, R.SessionStep(m, commit, t, l, call).1)
  {
    if t.Some? {
      match call {
        case Handle(_, msg) => DeliverKeeps(m, commit, rel, t.value, l, msg);
        case AdvanceTo(_, target) => WalkKeeps(m, commit, rel, t.value, l, target, |m.phases| + 1);
        case _ =>
      }
    }
  }

  ghost predicate SoundlyExtends(c: Config, a: Store, b: Store) {
    StoreSound(c, a) ==> Extends(c, a, b)
  }

  lemma CommitsExtend(c: Config)
    ensures Kept(CommitWith(c), (a: Store, b: Store) => SoundlyExtends(c, a, b))
  {
    forall a: Store ensures SoundlyExtends(c, a, a) {
      if StoreSound(c, a) {
        ExtendsItself(c, a);
      }
    }
    forall a: Store, b: Store, d: Store | SoundlyExtends(c, a, b) && SoundlyExtends(c, b, d) ensures SoundlyExtends(c, a, d) {
      if StoreSound(c, a) {
        ExtendsTransitive(c, a, b, d);
      }
    }
    forall p, ctx, a: Store ensures SoundlyExtends(c, a, CommitWith(c)(p, ctx, a).0) {
      if StoreSound(c, a) {
        CommittingExtends(c, p, ctx, a);
      }
    }
  }

  lemma StepExtends(c: Config, m: Machine, w: R.World<Store>, call: R.Call)
    requires R.Wired(m) && R.AllPlaced(m, w) && StoreSound(c, w.lineage)
    ensures Extends(c, w.lineage, R.Step(m, CommitWith(c), w, call).0.lineage)
  {
    CommitsExtend(c);
    var rel := (a: Store, b: Store) => SoundlyExtends(c, a, b);
    SessionStepKeeps(m, CommitWith(c), rel, R.Lookup(w.sessions, call.sid), w.lineage, call);
    assert rel(w.lineage, R.Step(m, CommitWith(c), w, call).0.lineage);
  }

  /** Letting a node in keeps the store sound and stores a node of that hash. */
  lemma AdmittedExtends(c: Config, w: R.World<Store>, node: Node, payload: seq<int>)
    requires w.lineage.Some? && StoreSound(c, w.lineage)
    requires Objection(c, w.lineage.value.dag, node, payload).None?
    ensures Extends(c, w.lineage, WithNode(w, node).lineage)
    ensures node.hash in WithNode(w, node).lineage.value.dag.byHash
  {
    AppendKeepsSound(c.hash, w.lineage.value.dag, node);
  }

  lemma TakenExtends(c: Config, m: Machine, w: R.World<Store>, call: LCall)
    requires R.Wired(m) && R.AllPlaced(m, w) && StoreSound(c, w.lineage)
    ensures Extends(c, w.lineage, Taken(c, m, w, call).lineage)
  {
    match call {
      case Plain(k) => StepExtends(c, m, w, k);
      case Receive(sid, msg, node) =>
        ExtendsItself(c, w.lineage);
        if w.lineage.None? {
          StepExtends(c, m, w, R.Handle(sid, msg));
        } else if node.Some? && Objection(c, w.lineage.value.dag, node.value, msg.payload).None? {
          AdmittedExtends(c, w, node.value, msg.payload);
          StepExtends(c, m, WithNode(w, node.value), R.Handle(sid, msg));
          ExtendsTransitive(c, w.lineage, WithNode(w, node.value).lineage, Taken(c, m, w, call).lineage);
        }
    }
  }

  /** Over every run the store stays sound: the indexes agree without duplicates, every
      parent resolves and was stored before its child. Nothing stored is lost or changed. */
  lemma {:induction false} RunsKeepLineage(c: Config, m: Machine, w: R.World<Store>, calls: seq<LCall>)
    requires R.Wired(m) && R.AllPlaced(m, w) && StoreSound(c, w.lineage)
    ensures Extends(c, w.lineage, Ran(c, m, w, calls).lineage)
    decreases |calls|
  {
    ExtendsItself(c, w.lineage);
    if calls == [] {
    } else {
      TakenExtends(c, m, w, calls[0]);
      var w1 := Taken(c, m, w, calls[0]);
      RunsKeepLineage(c, m, w1, calls[1..]);
      ExtendsTransitive(c, w.lineage, w1.lineage, Ran(c, m, w1, calls[1..]).lineage);
    }
  }

  // ---------------------------------------------------------------- only vouched messages

  /** Every message in `after` was already in `before`, or is the one delivered. */
  predicate OnlyNew(before: seq<R.HookCall>, after: seq<R.HookCall>, delivered: Option<Message>) {
    forall e <- after :: e.kind == R.OnMessage ==> e in before || delivered == Some(e.msg)
  }

  lemma HopMessages<L>(m: Machine, commit: R.Commit<L>, t: R.Tracker, l: L)
    requires R.Wired(m) && R.Placed(m, t) && t.current.Some?
    ensures OnlyNew(t.history, R.Hop(m, commit, t, l).0.history, None)
  {
  }

  lemma {:induction false} CascadeMessages<L>(m: Machine, commit: R.Commit<L>, t: R.Tracker, l: L, hops: nat)
    requires R.Wired(m) && R.Placed(m, t) && t.current.Some?
    ensures OnlyNew(t.history, R.Cascade(m, commit, t, l, hops).0.history, None)
    decreases hops
  {
    if hops == 0 {
    } else {
      HopMessages(m, commit, t, l);
      var (t1, l1, end) := R.Hop(m, commit, t, l);
      if end.Entered? && R.PassesThrough(m, t1.current.value, t1.ctx) {
        CascadeMessages(m, commit, t1, l1, hops - 1);
      }
    }
  }

  lemma {:induction false} WalkMessages<L>(m: Machine, commit: R.Commit<L>, t: R.Tracker, l: L, target: State, hops: nat)
    requires R.Wired(m) && R.Placed(m, t)
    ensures OnlyNew(t.history, R.WalkTo(m, commit, t, l, target, hops).0.history, None)
    decreases hops
  {
    if hops > 0 && t.state != target && t.current.Some? {
      HopMessages(m, commit, t, l);
      var (t1, l1, end) := R.Hop(m, commit, t, l);
      if end.Entered? {
        WalkMessages(m, commit, t1, l1, target, hops - 1);
      }
    }
  }

  lemma DeliverMessages<L>(m: Machine, commit: R.Commit<L>, t: R.Tracker, l: L, msg: Message)
    requires R.Wired(m) && R.Placed(m, t)
    ensures OnlyNew(t.history, R.Deliver(m, commit, t, l, msg).0.history, Some(msg))
  {
    if t.current.Some? {
      var k := t.current.value;
      var e := m.phases[k].onMessage(t.ctx, msg);
      CascadeMessages(m, commit, R.CallHook(t, R.OnMessage, k, msg, e), l, |m.phases| + 1);
    }
  }

  function HistoryOf(t: Option<R.Tracker>): seq<R.HookCall> {
    if t.Some? then t.value.history else []
  }

  lemma SessionMessages<L>(m: Machine, commit: R.Commit<L>, t: Option<R.Tracker>, l: L, call: R.Call)
    requires R.Wired(m) && (t.Some? ==> R.Placed(m, t.value))
    ensures OnlyNew(HistoryOf(t), HistoryOf(R.SessionStep(m, commit, t, l, call).0),
                    if call.Handle? then Some(call.msg) else None)
  {
    if t.Some? {
      match call {
        case Handle(_, msg) => DeliverMessages(m, commit, t.value, l, msg);
        case AdvanceTo(_, target) => WalkMessages(m, commit, t.value, l, target, |m.phases| + 1);
        case _ =>
      }
    }
  }

  /** Some node that verifies against the payload has its hash in the store; if `own`, a node
      of the session itself. */
  ghost predicate Vouched(c: Config, d: Dag, own: bool, sid: string, payload: seq<int>) {
    exists node: Node ::
      Verify(c.hash, node, payload, c.verifiers).None? && node.hash in d.byHash && (own ==> node.sessionID == sid)
  }

  ghost predicate AllVouched(c: Config, d: Dag, own: bool, sid: string, history: seq<R.HookCall>) {
    forall e <- history :: e.kind == R.OnMessage ==> Vouched(c, d, own, sid, e.msg.payload)
  }

  ghost predicate SessionsVouched(c: Config, own: bool, w: R.World<Store>) {
    w.lineage.Some? && forall sid <- w.sessions :: AllVouched(c, w.lineage.value.dag, own, sid, w.sessions[sid].history)
  }

  lemma VouchedGrows(c: Config, d: Dag, d': Dag, own: bool, sid: string, history: seq<R.HookCall>)
    requires AllVouched(c, d, own, sid, history) && Grows(d, d')
    ensures AllVouched(c, d', own, sid, history)
  {
    forall e <- history | e.kind == R.OnMessage ensures Vouched(c, d', own, sid, e.msg.payload) {
      assert Vouched(c, d, own, sid, e.msg.payload);
    }
  }

  lemma VouchedNext(c: Config, d: Dag, own: bool, sid: string, before: seq<R.HookCall>, after: seq<R.HookCall>,
                    delivered: Option<Message>)
    requires AllVouched(c, d, own, sid, before) && OnlyNew(before, after, delivered)
    requires delivered.Some? ==> Vouched(c, d, own, sid, delivered.value.payload)
    ensures AllVouched(c, d, own, sid, after)
  {
  }

  lemma StepVouched(c: Config, m: Machine, own: bool, w: R.World<Store>, call: R.Call)
    requires R.Wired(m) && R.AllPlaced(m, w) && StoreSound(c, w.lineage) && SessionsVouched(c, own, w)
    requires call.Handle? ==> Vouched(c, w.lineage.value.dag, own, call.sid, call.msg.payload)
    ensures SessionsVouched(c, own, R.Step(m, CommitWith(c), w, call).0)
  {
    var w1 := R.Step(m, CommitWith(c), w, call).0;
    var d := w.lineage.value.dag;
    StepExtends(c, m, w, call);
    var t := R.Lookup(w.sessions, call.sid);
    SessionMessages(m, CommitWith(c), t, w.lineage, call);
    var t1 := R.SessionStep(m, CommitWith(c), t, w.lineage, call).0;
    VouchedNext(c, d, own, call.sid, HistoryOf(t), HistoryOf(t1), if call.Handle? then Some(call.msg) else None);
    forall sid <- w1.sessions ensures AllVouched(c, w1.lineage.value.dag, own, sid, w1.sessions[sid].history) {
      VouchedGrows(c, d, w1.lineage.value.dag, own, sid, w1.sessions[sid].history);
    }
  }

  /** The message comes through HandleLineageMessage; if `own`, with a node of its session,
      which the source does not check. */
  predicate GuardedCall(own: bool, call: LCall) {
    match call
    case Plain(k) => !k.Handle?
    case Receive(sid, _, node) => own && node.Some? ==> node.value.sessionID == sid
  }

  predicate Guarded(own: bool, calls: seq<LCall>) {
    forall k <- calls :: GuardedCall(own, k)
  }

  /** Over every run of a lineage-enabled runner fed only through HandleLineageMessage, each
      OnMessage a session ever saw carried a payload that some node vouched for by Verify, and a
      node of that hash is stored. It is a node of the same session if callers see to it that
      every message comes with one. */
  lemma {:induction false} OnlyVouchedMessages(c: Config, m: Machine, own: bool, w: R.World<Store>, calls: seq<LCall>)
    requires R.Wired(m) && R.AllPlaced(m, w) && StoreSound(c, w.lineage) && SessionsVouched(c, own, w)
    requires Guarded(own, calls)
    ensures SessionsVouched(c, own, Ran(c, m, w, calls))
    decreases |calls|
  {
    if calls == [] {
    } else {
      assert calls[0] in calls;
      TakenVouched(c, m, own, w, calls[0]);
      TakenExtends(c, m, w, calls[0]);
      OnlyVouchedMessages(c, m, own, Taken(c, m, w, calls[0]), calls[1..]);
    }
  }

  /** Both, from a runner as ComposeWith returns it. */
  lemma EveryLineageRun(c: Config, m: Machine, own: bool, calls: seq<LCall>)
    requires R.Wired(m) && Guarded(own, calls)
    ensures var w := Ran(c, m, FRESH, calls);
            SessionsVouched(c, own, w) && Sound(c.hash, w.lineage.value.dag)
  {
    RunsKeepLineage(c, m, FRESH, calls);
    OnlyVouchedMessages(c, m, own, FRESH, calls);
  }

  const FRESH: R.World<Store> := R.World(map[], Some(Lineage(EMPTY, 0)))

  lemma TakenVouched(c: Config, m: Machine, own: bool, w: R.World<Store>, call: LCall)
    requires R.Wired(m) && R.AllPlaced(m, w) && StoreSound(c, w.lineage) && SessionsVouched(c, own, w)
    requires GuardedCall(own, call)
    ensures SessionsVouched(c, own, Taken(c, m, w, call))
  {
    match call {
      case Plain(k) => StepVouched(c, m, own, w, k);
      case Receive(sid, msg, node) =>
        if node.Some? && Objection(c, w.lineage.value.dag, node.value, msg.payload).None? {
          AdmittedExtends(c, w, node.value, msg.payload);
          var w1 := WithNode(w, node.value);
          assert Vouched(c, w1.lineage.value.dag, own, sid, msg.payload);
          forall s <- w1.sessions ensures AllVouched(c, w1.lineage.value.dag, own, s, w1.sessions[s].history) {
            VouchedGrows(c, w.lineage.value.dag, w1.lineage.value.dag, own, s, w1.sessions[s].history);
          }
          StepVouched(c, m, own, w1, R.Handle(sid, msg));
        }
    }
  }

  /** A payload that is vouched for is the payload the stored node was made for, unless the
      hash function collides. */
  lemma VouchedIsStored(c: Config, d: Dag, node: Node, payload: seq<int>)
    requires Sound(c.hash, d) && Verify(c.hash, node, payload, c.verifiers).None? && node.hash in d.byHash
    requires Encodable(IdentityOf(node)) && Encodable(IdentityOf(d.byHash[node.hash]))
    ensures || (IdentityOf(d.byHash[node.hash]) == IdentityOf(node) && d.byHash[node.hash].payloadHash == c.hash(payload))
            || Collision(c.hash, Preimage(IdentityOf(node)), Preimage(IdentityOf(d.byHash[node.hash])))
  {
    var stored := d.byHash[node.hash];
    if Preimage(IdentityOf(node)) == Preimage(IdentityOf(stored)) {
      PreimageInjective(IdentityOf(node), IdentityOf(stored));
    }
  }
}
