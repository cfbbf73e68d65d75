/** Independence of sessions: what one session's calls see of another's
    (pkg/ares/phase/runner.go). */
module RunnerContext {
  import opened Wrappers
  import opened Pipeline
  import opened Runner

  // ---------------------------------------------------------------- sessions do not interfere

  /** Compose-built runners: no lineage store, so nothing is committed. */
  ghost predicate LineageDisabled<L(!new)>(commit: Commit<L>) {
    forall p, ctx, l :: commit(p, ctx, l) == (l, true)
  }

  lemma {:induction false} CascadeKeepsStore<L(!new)>(m: Machine, commit: Commit<L>, t: Tracker, l: L, hops: nat)
    requires Wired(m) && Placed(m, t) && t.current.Some? && LineageDisabled(commit)
    ensures Cascade(m, commit, t, l, hops).1 == l
    decreases hops
  {
    if hops == 0 {
    } else {
      var (t1, l1, end) := Hop(m, commit, t, l);
      assert l1 == l;
      if end.Entered? && PassesThrough(m, t1.current.value, t1.ctx) {
        CascadeKeepsStore(m, commit, t1, l1, hops - 1);
      }
    }
  }

  lemma {:induction false} WalkKeepsStore<L(!new)>(m: Machine, commit: Commit<L>, t: Tracker, l: L, target: State, hops: nat)
    requires Wired(m) && Placed(m, t) && LineageDisabled(commit)
    ensures WalkTo(m, commit, t, l, target, hops).1 == l
    decreases hops
  {
    if hops > 0 && t.state != target && t.current.Some? {
      var (t1, l1, end) := Hop(m, commit, t, l);
      assert l1 == l;
      if end.Entered? {
        WalkKeepsStore(m, commit, t1, l1, target, hops - 1);
      }
    }
  }

  lemma DeliverKeepsStore<L(!new)>(m: Machine, commit: Commit<L>, t: Tracker, l: L, msg: Message)
    requires Wired(m) && Placed(m, t) && LineageDisabled(commit)
    ensures Deliver(m, commit, t, l, msg).1 == l
  {
    if t.current.Some? {
      var k := t.current.value;
      var e := m.phases[k].onMessage(t.ctx, msg);
      CascadeKeepsStore(m, commit, CallHook(t, OnMessage, k, msg, e), l, |m.phases| + 1);
    }
  }

  lemma StepKeepsStore<L(!new)>(m: Machine, commit: Commit<L>, s: Option<Tracker>, l: L, call: Call)
    requires Wired(m) && (s.Some? ==> Placed(m, s.value)) && LineageDisabled(commit)
    ensures SessionStep(m, commit, s, l, call).1 == l
  {
    if s.Some? {
      match call
      case Handle(_, msg) => DeliverKeepsStore(m, commit, s.value, l, msg);
      case AdvanceTo(_, target) => WalkKeepsStore(m, commit, s.value, l, target, |m.phases| + 1);
      case _ =>
    }
  }

  /** The calls of one session, in order. */
  function CallsOf(calls: seq<Call>, sid: string): seq<Call> {
    if calls == [] then []
    else (if calls[0].sid == sid then [calls[0]] else []) + CallsOf(calls[1..], sid)
  }

  function OutcomesOf(calls: seq<Call>, outcomes: seq<Outcome>, sid: string): seq<Outcome>
    requires |calls| == |outcomes|
  {
    if calls == [] then []
    else (if calls[0].sid == sid then [outcomes[0]] else []) + OutcomesOf(calls[1..], outcomes[1..], sid)
  }

  /** Any interleaving of calls for many sessions, projected to one session, gives that
      session the results, the state and the context its calls give when run alone. */
  lemma {:induction false} SessionsDoNotInterfere<L(!new)>(m: Machine, commit: Commit<L>, w: World<L>, alone: World<L>,
                                                           calls: seq<Call>, sid: string)
    requires Wired(m) && AllPlaced(m, w) && AllPlaced(m, alone) && LineageDisabled(commit)
    requires Lookup(w.sessions, sid) == Lookup(alone.sessions, sid) && w.lineage == alone.lineage
    ensures var all := Run(m, commit, w, calls);
            var own := Run(m, commit, alone, CallsOf(calls, sid));
            && Lookup(all.0.sessions, sid) == Lookup(own.0.sessions, sid)
            && OutcomesOf(calls, all.1, sid) == own.1
    decreases |calls|
  {
    if calls == [] {
    } else {
      var c := calls[0];
      var (w1, o) := Step(m, commit, w, c);
      StepKeepsStore(m, commit, Lookup(w.sessions, c.sid), w.lineage, c);
      var rest := Run(m, commit, w1, calls[1..]);
      assert Run(m, commit, w, calls) == (rest.0, [o] + rest.1);
      assert ([o] + rest.1)[1..] == rest.1;
      if c.sid == sid {
        var (alone1, o1) := Step(m, commit, alone, c);
        SessionsDoNotInterfere(m, commit, w1, alone1, calls[1..], sid);
        var own := [c] + CallsOf(calls[1..], sid);
        assert own[0] == c && own[1..] == CallsOf(calls[1..], sid);
      } else {
        SessionsDoNotInterfere(m, commit, w1, alone, calls[1..], sid);
        assert CallsOf(calls, sid) == CallsOf(calls[1..], sid);
      }
    }
  }
}
