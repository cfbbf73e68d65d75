/** When the auto-commit runs, and with what (pkg/ares/phase/runner.go, advance and
    AdvanceToState; pkg/ares/phase/runner_lineage.go): after every Exit that did not fail, and
    never otherwise. */
module RunnerCommits {
  import opened Wrappers
  import opened Pipeline
  import opened Runner

  /** The commits a list of hook calls asks for, in order, up to the first that fails: one after
      each successful Exit, with the phase exited and the context that Exit left. */
  function CommitsAlong<L>(m: Machine, commit: Commit<L>, calls: seq<HookCall>, l: L): (L, bool)
    requires forall c <- calls :: c.phase < |m.phases|
    decreases |calls|
  {
    if calls == [] then (l, true)
    else
      var c := calls[0];
      if c.kind != Exit || c.effect.failed then CommitsAlong(m, commit, calls[1..], l)
      else
        var (l1, ok) := commit(m.phases[c.phase],
                               Context(c.seen.sessionID, c.seen.cohortID, c.seen.values + c.effect.writes), l);
        if ok then CommitsAlong(m, commit, calls[1..], l1) else (l1, false)
  }

  predicate InPipeline(m: Machine, calls: seq<HookCall>) {
    forall c <- calls :: c.phase < |m.phases|
  }

  /** From t to t1 these calls were made, and exactly their commits. */
  ghost predicate Committed<L>(m: Machine, commit: Commit<L>, t: Tracker, l: L, t1: Tracker, l1: L, ok: bool, calls: seq<HookCall>) {
    InPipeline(m, calls) && t1.history == t.history + calls && CommitsAlong(m, commit, calls, l) == (l1, ok)
  }

  lemma {:induction false} CommitsAppend<L>(m: Machine, commit: Commit<L>, a: seq<HookCall>, b: seq<HookCall>, l: L)
    requires InPipeline(m, a) && InPipeline(m, b) && CommitsAlong(m, commit, a, l).1
    ensures InPipeline(m, a + b)
    ensures CommitsAlong(m, commit, a + b, l) == CommitsAlong(m, commit, b, CommitsAlong(m, commit, a, l).0)
    decreases |a|
  {
    if a == [] {
      assert a + b == b;
    } else {
      var c := a[0];
      assert (a + b)[0] == c && (a + b)[1..] == a[1..] + b;
      var l1 := if c.kind != Exit || c.effect.failed then l
                else commit(m.phases[c.phase], Context(c.seen.sessionID, c.seen.cohortID, c.seen.values + c.effect.writes), l).0;
      CommitsAppend(m, commit, a[1..], b, l1);
    }
  }

  lemma Chain<L>(m: Machine, commit: Commit<L>, t: Tracker, l: L, t1: Tracker, l1: L, a: seq<HookCall>,
                 t2: Tracker, l2: L, ok: bool, b: seq<HookCall>)
    requires Committed(m, commit, t, l, t1, l1, true, a) && Committed(m, commit, t1, l1, t2, l2, ok, b)
    ensures Committed(m, commit, t, l, t2, l2, ok, a + b)
  {
    CommitsAppend(m, commit, a, b, l);
    assert t.history + (a + b) == t.history + a + b;
  }

  lemma NoCommit<L>(m: Machine, commit: Commit<L>, c: HookCall, l: L)
    requires c.phase < |m.phases| && (c.kind != Exit || c.effect.failed)
    ensures CommitsAlong(m, commit, [c], l) == (l, true)
  {
    assert [c][1..] == [];
  }

  lemma OneCommit<L>(m: Machine, commit: Commit<L>, c: HookCall, l: L)
    requires c.phase < |m.phases| && c.kind == Exit && !c.effect.failed
    ensures CommitsAlong(m, commit, [c], l)
         == commit(m.phases[c.phase], Context(c.seen.sessionID, c.seen.cohortID, c.seen.values + c.effect.writes), l)
  {
    assert [c][1..] == [];
  }

  /** One hop commits once, after its Exit. */
  lemma HopCommits<L>(m: Machine, commit: Commit<L>, t: Tracker, l: L) returns (calls: seq<HookCall>)
    requires Wired(m) && Placed(m, t) && t.current.Some?
    ensures var (t1, l1, end) := Hop(m, commit, t, l);
            Committed(m, commit, t, l, t1, l1, end != Broke(CommitFailed), calls)
  {
    var k := t.current.value;
    var e := m.phases[k].onExit(t.ctx);
    var c := HookCall(Exit, k, NO_MESSAGE, t.ctx, t.writers, e);
    var (t1, l1, end) := Hop(m, commit, t, l);
    if e.failed {
      calls := [c];
      NoCommit(m, commit, c, l);
    } else {
      OneCommit(m, commit, c, l);
      if |t1.history| == |t.history| + 1 {
        calls := [c];
      } else {
        var d := t1.history[|t.history| + 1];
        calls := [c] + [d];
        NoCommit(m, commit, d, l1);
        CommitsAppend(m, commit, [c], [d], l);
        assert t1.history == t.history + [c] + [d] == t.history + calls;
      }
    }
  }

  lemma {:induction false} CascadeCommits<L>(m: Machine, commit: Commit<L>, t: Tracker, l: L, hops: nat)
    returns (calls: seq<HookCall>)
    requires Wired(m) && Placed(m, t) && t.current.Some?
    ensures var (t1, l1, o) := Cascade(m, commit, t, l, hops);
            Committed(m, commit, t, l, t1, l1, o != Failed(CommitFailed), calls)
    decreases hops
  {
    if hops == 0 {
      calls := [];
    } else {
      var first := HopCommits(m, commit, t, l);
      calls := first;
      var (t1, l1, end) := Hop(m, commit, t, l);
      if end.Entered? && PassesThrough(m, t1.current.value, t1.ctx) {
        var rest := CascadeCommits(m, commit, t1, l1, hops - 1);
        calls := first + rest;
        var (t2, l2, o) := Cascade(m, commit, t1, l1, hops - 1);
        Chain(m, commit, t, l, t1, l1, first, t2, l2, o != Failed(CommitFailed), rest);
      }
    }
  }

  lemma {:induction false} WalkCommits<L>(m: Machine, commit: Commit<L>, t: Tracker, l: L, target: State, hops: nat)
    returns (calls: seq<HookCall>)
    requires Wired(m) && Placed(m, t)
    ensures var (t1, l1, o) := WalkTo(m, commit, t, l, target, hops);
            Committed(m, commit, t, l, t1, l1, o != Failed(CommitFailed), calls)
    decreases hops
  {
    calls := [];
    if hops > 0 && t.state != target && t.current.Some? {
      var first := HopCommits(m, commit, t, l);
      calls := first;
      var (t1, l1, end) := Hop(m, commit, t, l);
      if end.Entered? {
        var rest := WalkCommits(m, commit, t1, l1, target, hops - 1);
        calls := first + rest;
        var (t2, l2, o) := WalkTo(m, commit, t1, l1, target, hops - 1);
        Chain(m, commit, t, l, t1, l1, first, t2, l2, o != Failed(CommitFailed), rest);
      }
    }
  }

  lemma DeliverCommits<L>(m: Machine, commit: Commit<L>, t: Tracker, l: L, msg: Message) returns (calls: seq<HookCall>)
    requires Wired(m) && Placed(m, t)
    ensures var (t1, l1, o) := Deliver(m, commit, t, l, msg);
            Committed(m, commit, t, l, t1, l1, o != Failed(CommitFailed), calls)
  {
    calls := [];
    if t.current.Some? && msg.msgType in m.phases[t.current.value].consumes {
      var k := t.current.value;
      var e := m.phases[k].onMessage(t.ctx, msg);
      var c := HookCall(OnMessage, k, msg, t.ctx, t.writers, e);
      var t0 := CallHook(t, OnMessage, k, msg, e);
      calls := [c];
      NoCommit(m, commit, c, l);
      if !e.failed && m.phases[k].complete(t0.ctx) {
        var rest := CascadeCommits(m, commit, t0, l, |m.phases| + 1);
        calls := [c] + rest;
        var (t1, l1, o) := Cascade(m, commit, t0, l, |m.phases| + 1);
        Chain(m, commit, t, l, t0, l, [c], t1, l1, o != Failed(CommitFailed), rest);
      }
    }
  }

  function HistoryIn<L>(w: World<L>, sid: string): seq<HookCall> {
    if sid in w.sessions then w.sessions[sid].history else []
  }

  /** What any call does to the store: exactly the commits that go with the hook calls it added
      to its session, in order; it reports a failed commit exactly when one of them failed. */
  lemma StepCommits<L>(m: Machine, commit: Commit<L>, w: World<L>, call: Call) returns (calls: seq<HookCall>)
    requires Wired(m) && AllPlaced(m, w)
    ensures InPipeline(m, calls)
    ensures var (w1, o) := Step(m, commit, w, call);
            && (call.sid in w1.sessions ==> HistoryIn(w1, call.sid) == HistoryIn(w, call.sid) + calls)
            && CommitsAlong(m, commit, calls, w.lineage) == (w1.lineage, o != Failed(CommitFailed))
  {
    calls := [];
    var (w1, o) := Step(m, commit, w, call);
    if call.sid in w.sessions {
      var t := w.sessions[call.sid];
      match call
      case Handle(_, msg) => calls := DeliverCommits(m, commit, t, w.lineage, msg);
      case AdvanceTo(_, target) =>
        if t.state != target && !(t.current.Some? && target in m.phases[t.current.value].internals) {
          calls := WalkCommits(m, commit, t, w.lineage, target, |m.phases| + 1);
        }
      case Seed(_, key, value) =>
        if t.current.Some? {
          calls := [HookCall(Seeded, t.current.value, Message(key, "", []), t.ctx, t.writers, Effect(map[key := value], false))];
          NoCommit(m, commit, calls[0], w.lineage);
        }
      case _ =>
    } else if call.Begin? && call.sid in w1.sessions {
      calls := w1.sessions[call.sid].history;
      NoCommit(m, commit, calls[0], w.lineage);
    }
  }
}
