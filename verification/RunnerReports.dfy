/** What the runner's calls report (pkg/ares/phase/runner.go): a hook error exactly when the last
    hook they called failed, the hop limit when the pipeline runs in circles, and what
    BeginSession leaves behind. */
module RunnerReports {
  import opened Wrappers
  import opened Pipeline
  import opened Runner
  import opened RunnerTargets
  import opened RunnerDelivery

  // ---------------------------------------------------------------- hook errors

  /** No hook call but the last failed, and that one exactly if a failure is reported. */
  predicate OnlyLastFails(calls: seq<HookCall>, failed: bool) {
    && (forall i :: 0 <= i < |calls| - 1 ==> !calls[i].effect.failed)
    && (failed <==> |calls| > 0 && calls[|calls| - 1].effect.failed)
  }

  predicate Adds(t: Tracker, t1: Tracker, calls: seq<HookCall>, failed: bool) {
    t1.history == t.history + calls && OnlyLastFails(calls, failed)
  }

  lemma AddsTwice(t: Tracker, t1: Tracker, a: seq<HookCall>, t2: Tracker, b: seq<HookCall>, failed: bool)
    requires Adds(t, t1, a, false) && Adds(t1, t2, b, failed)
    ensures Adds(t, t2, a + b, failed)
  {
    assert t.history + (a + b) == t.history + a + b;
  }

  lemma HopReports<L>(m: Machine, commit: Commit<L>, t: Tracker, l: L) returns (calls: seq<HookCall>)
    requires Wired(m) && Placed(m, t) && t.current.Some?
    ensures var (t1, _, end) := Hop(m, commit, t, l); Adds(t, t1, calls, end == Broke(HookFailed))
  {
    var t1 := Hop(m, commit, t, l).0;
    calls := t1.history[|t.history|..];
  }

  lemma {:induction false} CascadeReports<L>(m: Machine, commit: Commit<L>, t: Tracker, l: L, hops: nat)
    returns (calls: seq<HookCall>)
    requires Wired(m) && Placed(m, t) && t.current.Some?
    ensures var (t1, _, o) := Cascade(m, commit, t, l, hops); Adds(t, t1, calls, o == Failed(HookFailed))
    decreases hops
  {
    if hops == 0 {
      calls := [];
    } else {
      var first := HopReports(m, commit, t, l);
      calls := first;
      var (t1, l1, end) := Hop(m, commit, t, l);
      if end.Entered? && PassesThrough(m, t1.current.value, t1.ctx) {
        var rest := CascadeReports(m, commit, t1, l1, hops - 1);
        calls := first + rest;
        var (t2, _, o) := Cascade(m, commit, t1, l1, hops - 1);
        AddsTwice(t, t1, first, t2, rest, o == Failed(HookFailed));
      }
    }
  }

  lemma {:induction false} WalkReports<L>(m: Machine, commit: Commit<L>, t: Tracker, l: L, target: State, hops: nat)
    returns (calls: seq<HookCall>)
    requires Wired(m) && Placed(m, t)
    ensures var (t1, _, o) := WalkTo(m, commit, t, l, target, hops); Adds(t, t1, calls, o == Failed(HookFailed))
    decreases hops
  {
    calls := [];
    if hops > 0 && t.state != target && t.current.Some? {
      var first := HopReports(m, commit, t, l);
      calls := first;
      var (t1, l1, end) := Hop(m, commit, t, l);
      if end.Entered? {
        var rest := WalkReports(m, commit, t1, l1, target, hops - 1);
        calls := first + rest;
        var (t2, _, o) := WalkTo(m, commit, t1, l1, target, hops - 1);
        AddsTwice(t, t1, first, t2, rest, o == Failed(HookFailed));
      }
    }
  }

  lemma DeliverReports<L>(m: Machine, commit: Commit<L>, t: Tracker, l: L, msg: Message) returns (calls: seq<HookCall>)
    requires Wired(m) && Placed(m, t)
    ensures var (t1, _, o) := Deliver(m, commit, t, l, msg); Adds(t, t1, calls, o == Failed(HookFailed))
  {
    calls := [];
    if t.current.Some? && msg.msgType in m.phases[t.current.value].consumes {
      var k := t.current.value;
      var e := m.phases[k].onMessage(t.ctx, msg);
      var t0 := CallHook(t, OnMessage, k, msg, e);
      calls := [HookCall(OnMessage, k, msg, t.ctx, t.writers, e)];
      if !e.failed && m.phases[k].complete(t0.ctx) {
        var rest := CascadeReports(m, commit, t0, l, |m.phases| + 1);
        var (t1, _, o) := Cascade(m, commit, t0, l, |m.phases| + 1);
        AddsTwice(t, t0, calls, t1, rest, o == Failed(HookFailed));
        calls := calls + rest;
      }
    }
  }

  /** Any call for a tracked session that stays tracked: it reports a hook error exactly when the
      last hook it called failed, and it called no hook after one that failed. */
  lemma StepReports<L>(m: Machine, commit: Commit<L>, w: World<L>, call: Call) returns (calls: seq<HookCall>)
    requires Wired(m) && AllPlaced(m, w) && call.sid in w.sessions && !call.End?
    ensures var (w1, o) := Step(m, commit, w, call);
            call.sid in w1.sessions && Adds(w.sessions[call.sid], w1.sessions[call.sid], calls, o == Failed(HookFailed))
  {
    calls := [];
    var t := w.sessions[call.sid];
    match call
    case Handle(_, msg) => calls := DeliverReports(m, commit, t, w.lineage, msg);
    case AdvanceTo(_, target) =>
      if t.state != target && !(t.current.Some? && target in m.phases[t.current.value].internals) {
        calls := WalkReports(m, commit, t, w.lineage, target, |m.phases| + 1);
      }
    case Seed(_, key, value) =>
      if t.current.Some? {
        calls := [HookCall(Seeded, t.current.value, Message(key, "", []), t.ctx, t.writers, Effect(map[key := value], false))];
      }
    case Begin(_, _) =>
  }

  // ---------------------------------------------------------------- beginning a session

  /** The session starts in phase k, whose Enter is the one hook called, on an empty context. */
  predicate Began(m: Machine, sid: string, cohort: string, k: nat, t: Tracker)
    requires k < |m.phases|
  {
    var empty := Context(sid, cohort, map[]);
    var e := m.phases[k].onEnter(empty);
    && t.current == Some(k) && t.entered && t.state == m.initialState == m.phases[k].entry
    && t.ctx == Context(sid, cohort, e.writes) && t.history == [HookCall(Enter, k, NO_MESSAGE, empty, map[], e)]
  }

  /** BeginSession refuses an empty or known id and changes nothing. */
  lemma BeginRefused<L>(m: Machine, commit: Commit<L>, w: World<L>, sid: string, cohort: string)
    requires Wired(m) && AllPlaced(m, w) && (sid == "" || sid in w.sessions)
    ensures Step(m, commit, w, Begin(sid, cohort)) == (w, Failed(Permanent))
  {
    assert Store(w.sessions, sid, Lookup(w.sessions, sid)) == w.sessions;
  }

  lemma StartExactly(m: Machine, sid: string, cohort: string)
    requires Wired(m) && m.initialState in m.byEntryState
    ensures var k := m.byEntryState[m.initialState];
            var (s, o) := Start(m, sid, cohort);
            if m.phases[k].onEnter(Context(sid, cohort, map[])).failed then s.None? && o == Failed(HookFailed)
            else s.Some? && o == Done(true) && Began(m, sid, cohort, k, s.value)
  {
  }

  /** Otherwise it enters the initial phase and keeps the session exactly when that succeeds; a
      failed Enter leaves no trace. No other session is touched. */
  lemma BeginExactly<L>(m: Machine, commit: Commit<L>, w: World<L>, sid: string, cohort: string)
    requires Wired(m) && AllPlaced(m, w) && m.initialState in m.byEntryState && sid != "" && sid !in w.sessions
    ensures var (w1, o) := Step(m, commit, w, Begin(sid, cohort));
            var k := m.byEntryState[m.initialState];
            if m.phases[k].onEnter(Context(sid, cohort, map[])).failed then w1 == w && o == Failed(HookFailed)
            else
              && o == Done(true) && sid in w1.sessions && Began(m, sid, cohort, k, w1.sessions[sid])
              && w1.sessions == w.sessions[sid := w1.sessions[sid]] && w1.lineage == w.lineage
  {
    StartExactly(m, sid, cohort);
    assert w.sessions - {sid} == w.sessions;
  }

  // ---------------------------------------------------------------- the hop limit

  /** Phase k's Exit never fails and leads to a phase inside. */
  ghost predicate Turns(m: Machine, k: nat, inside: nat -> bool) {
    && k < |m.phases| && m.phases[k].exit != STATE_NONE && m.phases[k].exit in m.byEntryState
    && inside(m.byEntryState[m.phases[k].exit])
    && forall ctx :: !m.phases[k].onExit(ctx).failed
  }

  ghost predicate Entrable(m: Machine, k: nat) {
    k < |m.phases| && forall ctx :: !m.phases[k].onEnter(ctx).failed
  }

  /** Phase k waits for nothing. */
  ghost predicate Idle(m: Machine, k: nat) {
    k < |m.phases| && m.phases[k].consumes == [] && forall ctx :: m.phases[k].complete(ctx)
  }

  /** A ring of phases that no exit leads out of, where entering and exiting never fails. */
  ghost predicate Ring(m: Machine, inside: nat -> bool) {
    forall k: nat {:trigger inside(k)} :: inside(k) ==> Turns(m, k, inside) && Entrable(m, k)
  }

  ghost predicate CommitsSucceed<L(!new)>(commit: Commit<L>) {
    forall p, ctx, l :: commit(p, ctx, l).1
  }

  lemma HopStaysInside<L(!new)>(m: Machine, commit: Commit<L>, t: Tracker, l: L, inside: nat -> bool)
    requires Wired(m) && Placed(m, t) && t.current.Some? && CommitsSucceed(commit)
    requires Turns(m, t.current.value, inside) && Ring(m, inside)
    ensures var (t1, _, end) := Hop(m, commit, t, l);
            && end.Entered? && |t1.history| == |t.history| + 2 && inside(t1.current.value)
            && t1.current.value < |m.phases| && t1.state == m.phases[t1.current.value].entry
  {
    assert Entrable(m, m.byEntryState[m.phases[t.current.value].exit]);
  }

  /** What every hop inside keeps. */
  ghost predicate Circling(m: Machine, t: Tracker, inside: nat -> bool) {
    Placed(m, t) && t.current.Some? && Turns(m, t.current.value, inside) && Ring(m, inside)
  }

  lemma AdvancingCircles<L(!new)>(m: Machine, commit: Commit<L>, t: Tracker, l: L, advance: Advancing<L>,
                                  inside: nat -> bool, hops: nat)
    returns (t1: Tracker, l1: L)
    requires AdvancingIs(m, commit, advance) && CommitsSucceed(commit) && Circling(m, t, inside) && hops > 0
    requires forall k: nat :: inside(k) ==> Idle(m, k)
    ensures Circling(m, t1, inside) && |t1.history| == |t.history| + 2
    ensures advance(t, l, hops) == advance(t1, l1, hops - 1)
  {
    HopStaysInside(m, commit, t, l, inside);
    t1, l1 := Hop(m, commit, t, l).0, Hop(m, commit, t, l).1;
    assert Idle(m, t1.current.value);
    assert advance(t, l, hops) == Cascade(m, commit, t, l, hops);
    assert advance(t1, l1, hops - 1) == Cascade(m, commit, t1, l1, hops - 1);
  }

  lemma NoHopsLeft<L(!new)>(m: Machine, commit: Commit<L>, t: Tracker, l: L, advance: Advancing<L>)
    requires AdvancingIs(m, commit, advance) && Placed(m, t) && t.current.Some?
    ensures advance(t, l, 0) == (t, l, Failed(HopLimit))
  {
    assert advance(t, l, 0) == Cascade(m, commit, t, l, 0);
  }

  lemma {:induction false} AdvancingRunsAway<L(!new)>(m: Machine, commit: Commit<L>, t: Tracker, l: L, advance: Advancing<L>,
                                                      inside: nat -> bool, hops: nat)
    requires AdvancingIs(m, commit, advance) && CommitsSucceed(commit) && Circling(m, t, inside)
    requires forall k: nat :: inside(k) ==> Idle(m, k)
    ensures advance(t, l, hops).2 == Failed(HopLimit) && |advance(t, l, hops).0.history| == |t.history| + 2 * hops
    decreases hops
  {
    if hops == 0 {
      NoHopsLeft(m, commit, t, l, advance);
    } else {
      var t1, l1 := AdvancingCircles(m, commit, t, l, advance, inside, hops);
      AdvancingRunsAway(m, commit, t1, l1, advance, inside, hops - 1);
    }
  }

  /** None of the phases inside is entered by the target. */
  ghost predicate Missing(m: Machine, inside: nat -> bool, target: State) {
    forall k: nat :: inside(k) && k < |m.phases| ==> m.phases[k].entry != target
  }

  lemma WalkCircles<L(!new)>(m: Machine, commit: Commit<L>, t: Tracker, l: L, target: State, walk: Walk<L>,
                             inside: nat -> bool, hops: nat)
    returns (t1: Tracker, l1: L)
    requires WalkOf(m, commit, target, walk) && CommitsSucceed(commit) && Circling(m, t, inside) && hops > 0
    requires t.state != target && Missing(m, inside, target)
    ensures Circling(m, t1, inside) && |t1.history| == |t.history| + 2 && t1.state != target
    ensures walk(t, l, hops) == walk(t1, l1, hops - 1)
  {
    HopStaysInside(m, commit, t, l, inside);
    WalkOnce(m, commit, t, l, target, hops);
    t1, l1 := Hop(m, commit, t, l).0, Hop(m, commit, t, l).1;
    assert walk(t, l, hops) == WalkTo(m, commit, t, l, target, hops);
    assert walk(t1, l1, hops - 1) == WalkTo(m, commit, t1, l1, target, hops - 1);
  }

  lemma {:induction false} WalkRunsAway<L(!new)>(m: Machine, commit: Commit<L>, t: Tracker, l: L, target: State, walk: Walk<L>,
                                                 inside: nat -> bool, hops: nat)
    requires WalkOf(m, commit, target, walk) && CommitsSucceed(commit) && Circling(m, t, inside)
    requires t.state != target && Missing(m, inside, target)
    ensures walk(t, l, hops).2 == Failed(HopLimit) && |walk(t, l, hops).0.history| == |t.history| + 2 * hops
    decreases hops
  {
    if hops == 0 {
      assert walk(t, l, 0) == WalkTo(m, commit, t, l, target, 0);
    } else {
      var t1, l1 := WalkCircles(m, commit, t, l, target, walk, inside, hops);
      WalkRunsAway(m, commit, t1, l1, target, walk, inside, hops - 1);
    }
  }

  lemma ReachIsWalk<L(!new)>(m: Machine, commit: Commit<L>, t: Tracker, l: L, target: State, walk: Walk<L>)
    requires WalkOf(m, commit, target, walk) && Placed(m, t) && t.current.Some? && t.state != target
    requires target !in m.phases[t.current.value].internals
    ensures Reach(m, commit, t, l, target) == walk(t, l, |m.phases| + 1)
  {
    assert walk(t, l, |m.phases| + 1) == WalkTo(m, commit, t, l, target, |m.phases| + 1);
  }

  lemma ReachRunsAway<L(!new)>(m: Machine, commit: Commit<L>, t: Tracker, l: L, target: State, inside: nat -> bool)
    requires Wired(m) && CommitsSucceed(commit) && Circling(m, t, inside) && t.state != target && Missing(m, inside, target)
    requires target !in m.phases[t.current.value].internals
    ensures var (t1, _, o) := Reach(m, commit, t, l, target);
            o == Failed(HopLimit) && |t1.history| == |t.history| + 2 * (|m.phases| + 1)
  {
    var walk := TheWalk(m, commit, target);
    ReachIsWalk(m, commit, t, l, target, walk);
    WalkRunsAway(m, commit, t, l, target, walk, inside, |m.phases| + 1);
  }

  /** A walk that keeps going round phases none of which is the target gives up after one Exit and
      one Enter more than there are phases. */
  lemma WalkGivesUp<L(!new)>(m: Machine, commit: Commit<L>, w: World<L>, sid: string, target: State, inside: nat -> bool)
    requires Wired(m) && AllPlaced(m, w) && sid in w.sessions && CommitsSucceed(commit)
    requires Circling(m, w.sessions[sid], inside) && w.sessions[sid].state != target && Missing(m, inside, target)
    requires target !in m.phases[w.sessions[sid].current.value].internals
    ensures var (w1, o) := Step(m, commit, w, AdvanceTo(sid, target));
            && o == Failed(HopLimit) && sid in w1.sessions
            && |w1.sessions[sid].history| == |w.sessions[sid].history| + 2 * (|m.phases| + 1)
  {
    ReachRunsAway(m, commit, w.sessions[sid], w.lineage, target, inside);
  }

  /** So does the cascade after a message, when it goes round phases that wait for nothing. */
  lemma MessageGivesUp<L(!new)>(m: Machine, commit: Commit<L>, w: World<L>, sid: string, k: nat, msg: Message, inside: nat -> bool)
    requires Wired(m) && AllPlaced(m, w) && Listens(m, w, sid, k, msg) && CommitsSucceed(commit)
    requires !m.phases[k].onMessage(w.sessions[sid].ctx, msg).failed && Completes(m, w, sid, k, msg)
    requires Turns(m, k, inside) && Ring(m, inside) && forall j: nat :: inside(j) ==> Idle(m, j)
    ensures var (w1, o) := Step(m, commit, w, Handle(sid, msg));
            && o == Failed(HopLimit) && sid in w1.sessions
            && |w1.sessions[sid].history| == |w.sessions[sid].history| + 1 + 2 * (|m.phases| + 1)
  {
    var advance := TheAdvancing(m, commit);
    CompleteAdvances(m, commit, w, sid, k, msg, advance);
    AdvancingRunsAway(m, commit, TakenIn(m, w.sessions[sid], k, msg), w.lineage, advance, inside, |m.phases| + 1);
  }
}
