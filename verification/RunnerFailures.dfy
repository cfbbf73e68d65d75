/** What order is left once calls have failed (pkg/ares/phase/runner.go): a failed Enter leaves
    the session in the phase, and an Exit is repeated when what came after it failed. */
module RunnerFailures {
  import opened Wrappers
  import opened Pipeline
  import opened Runner
  import opened RunnerOrder

  /** Call b may come after call a if anything between may have failed: it is made in the
      same phase, or it enters the next inline phase after a successful Exit. */
  predicate MayFollow(phases: seq<Phase>, a: HookCall, b: HookCall) {
    && a.phase < |phases|
    && b.phase < |phases|
    && (if b.kind == Enter
        then a.kind == Exit && !a.effect.failed && InlineAt(phases, b.phase) && PrecedesInline(phases, a.phase, b.phase)
        else a.phase == b.phase)
    && (b.kind == OnMessage ==> b.msg.msgType in phases[b.phase].consumes)
  }

  predicate Onward(phases: seq<Phase>, calls: seq<HookCall>) {
    && (|calls| > 0 ==> calls[0].kind == Enter && calls[0].phase < |phases| && FirstInline(phases, calls[0].phase))
    && forall x :: 0 < x < |calls| ==> MayFollow(phases, calls[x - 1], calls[x])
  }

  predicate OnwardTo(m: Machine, t: Tracker) {
    && |t.history| > 0
    && Onward(m.phases, t.history)
    && (t.current.Some? ==> t.history[|t.history| - 1].phase == t.current.value)
  }

  /** Phases never go back, and an Enter moves on: no phase is entered twice. */
  lemma {:induction false} EnteredOnce(phases: seq<Phase>, calls: seq<HookCall>, x: nat, y: nat)
    requires Onward(phases, calls) && x < y < |calls|
    ensures calls[x].phase <= calls[y].phase
    ensures calls[y].kind == Enter ==> calls[x].phase < calls[y].phase
    decreases y - x
  {
    assert MayFollow(phases, calls[y - 1], calls[y]);
    if x < y - 1 {
      EnteredOnce(phases, calls, x, y - 1);
    }
  }

  lemma AppendOnward(phases: seq<Phase>, calls: seq<HookCall>, c: HookCall)
    requires Onward(phases, calls) && |calls| > 0 && MayFollow(phases, calls[|calls| - 1], c)
    ensures Onward(phases, calls + [c])
  {
    var all := calls + [c];
    forall x | 0 < x < |all| ensures MayFollow(phases, all[x - 1], all[x]) {
      if x < |calls| {
        assert MayFollow(phases, calls[x - 1], calls[x]);
      }
    }
  }

  /** A call made in the phase the session is in, whether or not it fails. */
  lemma CallStaysOnward(m: Machine, t: Tracker, kind: Kind, msg: Message, e: Effect)
    requires t.current.Some? && t.current.value < |m.phases| && OnwardTo(m, t) && kind != Enter
    requires kind == OnMessage ==> msg.msgType in m.phases[t.current.value].consumes
    ensures OnwardTo(m, CallHook(t, kind, t.current.value, msg, e))
  {
    AppendOnward(m.phases, t.history, HookCall(kind, t.current.value, msg, t.ctx, t.writers, e));
  }

  /** The Enter after a successful Exit, whether or not it fails. */
  lemma MoveStaysOnward(m: Machine, t: Tracker, exit: Effect, j: nat, t2: Tracker, enter: Effect)
    requires t.current.Some? && t.current.value < |m.phases| && OnwardTo(m, t) && !exit.failed
    requires j < |m.phases| && InlineAt(m.phases, j) && PrecedesInline(m.phases, t.current.value, j)
    requires t2 == CallHook(t, Exit, t.current.value, NO_MESSAGE, exit)
                     .(state := t2.state, entered := t2.entered, current := Some(j))
    ensures OnwardTo(m, CallHook(t2, Enter, j, NO_MESSAGE, enter))
  {
    var c := HookCall(Exit, t.current.value, NO_MESSAGE, t.ctx, t.writers, exit);
    AppendOnward(m.phases, t.history, c);
    AppendOnward(m.phases, t.history + [c], HookCall(Enter, j, NO_MESSAGE, t2.ctx, t2.writers, enter));
  }

  lemma HopStaysOnward<L>(m: Machine, commit: Commit<L>, t: Tracker, l: L)
    requires Forward(m) && Placed(m, t) && t.current.Some? && OnwardTo(m, t)
    ensures OnwardTo(m, Hop(m, commit, t, l).0)
  {
    var k := t.current.value;
    var p := m.phases[k];
    var e := p.onExit(t.ctx);
    CallStaysOnward(m, t, Exit, NO_MESSAGE, e);
    if !e.failed && p.exit != STATE_NONE && p.exit in m.byEntryState {
      assert ForwardAt(m, k);
      var j := m.byEntryState[p.exit];
      var t2 := CallHook(t, Exit, k, NO_MESSAGE, e).(state := p.exit, current := Some(j), entered := false);
      MoveStaysOnward(m, t, e, j, t2, m.phases[j].onEnter(t2.ctx));
    }
  }

  lemma {:induction false} CascadeStaysOnward<L>(m: Machine, commit: Commit<L>, t: Tracker, l: L, hops: nat)
    requires Forward(m) && Placed(m, t) && t.current.Some? && OnwardTo(m, t)
    ensures OnwardTo(m, Cascade(m, commit, t, l, hops).0)
    decreases hops
  {
    if hops == 0 {
    } else {
      HopStaysOnward(m, commit, t, l);
      var (t1, l1, end) := Hop(m, commit, t, l);
      if end.Entered? && PassesThrough(m, t1.current.value, t1.ctx) {
        CascadeStaysOnward(m, commit, t1, l1, hops - 1);
      }
    }
  }

  lemma {:induction false} WalkStaysOnward<L>(m: Machine, commit: Commit<L>, t: Tracker, l: L, target: State, hops: nat)
    requires Forward(m) && Placed(m, t) && OnwardTo(m, t)
    ensures OnwardTo(m, WalkTo(m, commit, t, l, target, hops).0)
    decreases hops
  {
    if hops > 0 && t.state != target && t.current.Some? {
      HopStaysOnward(m, commit, t, l);
      var (t1, l1, end) := Hop(m, commit, t, l);
      if end.Entered? {
        WalkStaysOnward(m, commit, t1, l1, target, hops - 1);
      }
    }
  }

  lemma DeliverStaysOnward<L>(m: Machine, commit: Commit<L>, t: Tracker, l: L, msg: Message)
    requires Forward(m) && Placed(m, t) && OnwardTo(m, t)
    ensures OnwardTo(m, Deliver(m, commit, t, l, msg).0)
  {
    if t.current.Some? && msg.msgType in m.phases[t.current.value].consumes {
      var k := t.current.value;
      var e := m.phases[k].onMessage(t.ctx, msg);
      CallStaysOnward(m, t, OnMessage, msg, e);
      CascadeStaysOnward(m, commit, CallHook(t, OnMessage, k, msg, e), l, |m.phases| + 1);
    }
  }

  lemma StartIsOnward(m: Machine, sid: string, cohort: string)
    requires Forward(m) && StartsFirst(m)
    ensures var s := Start(m, sid, cohort).0; s.Some? ==> OnwardTo(m, s.value)
  {
  }

  lemma CallKeepsOnward<L>(m: Machine, commit: Commit<L>, s: Option<Tracker>, l: L, call: Call)
    requires Forward(m) && StartsFirst(m) && (s.Some? ==> Placed(m, s.value) && OnwardTo(m, s.value))
    ensures var s1 := SessionStep(m, commit, s, l, call).0; s1.Some? ==> OnwardTo(m, s1.value)
  {
    match call
    case Begin(sid, cohort) => StartIsOnward(m, sid, cohort);
    case End(_) =>
    case Handle(_, msg) =>
      if s.Some? {
        DeliverStaysOnward(m, commit, s.value, l, msg);
      }
    case AdvanceTo(_, target) =>
      if s.Some? {
        WalkStaysOnward(m, commit, s.value, l, target, |m.phases| + 1);
      }
    case Seed(_, key, value) =>
      if s.Some? && s.value.current.Some? {
        CallStaysOnward(m, s.value, Seeded, Message(key, "", []), Effect(map[key := value], false));
      }
  }

  ghost predicate AllOnward<L>(m: Machine, w: World<L>) {
    forall sid <- w.sessions :: OnwardTo(m, w.sessions[sid])
  }

  lemma {:induction false} RunsGoOnward<L>(m: Machine, commit: Commit<L>, w: World<L>, calls: seq<Call>)
    requires Forward(m) && StartsFirst(m) && AllPlaced(m, w) && AllOnward(m, w)
    ensures AllOnward(m, Run(m, commit, w, calls).0)
    decreases |calls|
  {
    if calls == [] {
    } else {
      CallKeepsOnward(m, commit, Lookup(w.sessions, calls[0].sid), w.lineage, calls[0]);
      RunsGoOnward(m, commit, Step(m, commit, w, calls[0]).0, calls[1..]);
    }
  }

  /** For every accepted pipeline whose last phase does not lead back and every run, failing
      calls included, no session's phases go back and none is entered twice. */
  lemma NoPhaseTwice<L>(m: Machine, commit: Commit<L>, l: L, calls: seq<Call>, sid: string, x: nat, y: nat)
    requires Ready(m) && Wired(m) && Acyclic(m.phases)
    requires var w := Run(m, commit, World(map[], l), calls).0;
             sid in w.sessions && x < y < |w.sessions[sid].history|
    ensures var h := Run(m, commit, World(map[], l), calls).0.sessions[sid].history;
            && h[x].phase <= h[y].phase
            && (h[y].kind == Enter ==> h[x].phase < h[y].phase)
  {
    HopsGoForward(m);
    SessionsStartFirst(m);
    RunsGoOnward(m, commit, World(map[], l), calls);
    EnteredOnce(m.phases, Run(m, commit, World(map[], l), calls).0.sessions[sid].history, x, y);
  }

  /** A hook call after an Exit of the same phase, a second Exit among them: only in a session
      one of whose own calls has failed. */
  lemma RepeatsAfterFailure<L>(m: Machine, commit: Commit<L>, l: L, calls: seq<Call>, sid: string, x: nat, y: nat)
    returns (i: nat)
    requires Ready(m) && Wired(m) && Acyclic(m.phases)
    requires var w := Run(m, commit, World(map[], l), calls).0;
             && sid in w.sessions && x < y < |w.sessions[sid].history|
             && w.sessions[sid].history[x].kind == Exit
             && w.sessions[sid].history[x].phase == w.sessions[sid].history[y].phase
    ensures i < |calls| && calls[i].sid == sid && !Run(m, commit, World(map[], l), calls).1[i].Done?
  {
    var (w, os) := Run(m, commit, World(map[], l), calls);
    if FreeOfErrors(calls, os, sid) {
      HooksInPipelineOrder(m, commit, l, calls, sid);
      EachHookOnce(m.phases, w.sessions[sid].history, x, y);
      assert false;
    }
    i :| 0 <= i < |calls| && calls[i].sid == sid && !os[i].Done?;
  }
}
