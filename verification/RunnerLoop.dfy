/** What leading back means: an accepted pipeline whose last inline phase exits into an earlier
    one enters that phase again in an error-free run (pkg/ares/phase/runner.go). */
module RunnerLoop {
  import opened Wrappers
  import opened Pipeline
  import opened Runner
  import opened RunnerOrder
  import opened RunnerTargets

  // ---------------------------------------------------------------- walking to a later entry

  /** Entry states name their phases, and every inline phase but the last exits to the next. */
  predicate StepsOnAt(m: Machine, k: nat) {
    k < |m.phases| && InlineAt(m.phases, k) ==>
      && m.phases[k].entry in m.byEntryState && m.byEntryState[m.phases[k].entry] == k
      && (!LastInline(m.phases, k) ==>
            && m.phases[k].exit != STATE_NONE && m.phases[k].exit in m.byEntryState
            && var j := m.byEntryState[m.phases[k].exit];
               j < |m.phases| && InlineAt(m.phases, j) && PrecedesInline(m.phases, k, j))
  }

  predicate StepsOn(m: Machine) {
    Wired(m) && forall k: nat {:trigger StepsOnAt(m, k)} :: k < |m.phases| ==> StepsOnAt(m, k)
  }

  lemma AcceptedStepsOn(m: Machine)
    requires Ready(m)
    ensures StepsOn(m)
  {
    ReadyIsWired(m);
    forall k: nat | k < |m.phases| && InlineAt(m.phases, k) ensures StepsOnAt(m, k) {
      if n :| k < n < |m.phases| && InlineAt(m.phases, n) {
        var j := InlineAfter(m.phases, k, n);
        ChainExits(m, k, j);
      }
    }
  }

  /** A property of the session that its hops from phases below q keep. */
  ghost predicate HopsKeep<L(!new)>(m: Machine, commit: Commit<L>, q: nat, keep: Tracker -> bool) {
    Wired(m) && forall t, l {:trigger Hop(m, commit, t, l)} ::
      Placed(m, t) && t.current.Some? && t.current.value < q && keep(t) ==> keep(Hop(m, commit, t, l).0)
  }

  lemma HopOn<L(!new)>(m: Machine, commit: Commit<L>, t: Tracker, l: L)
    requires Wired(m) && Placed(m, t) && t.current.Some? && Succeeds(m, commit)
    requires var exit := m.phases[t.current.value].exit; exit != STATE_NONE && exit in m.byEntryState
    ensures Hop(m, commit, t, l).2.Entered?
    ensures Hop(m, commit, t, l).0.current == Some(m.byEntryState[m.phases[t.current.value].exit])
  {
  }

  /** The next step of a walk towards the entry of the later phase q. */
  lemma StepTowards<L(!new)>(m: Machine, commit: Commit<L>, t: Tracker, l: L, q: nat, walk: Walk<L>, hops: nat)
    returns (t1: Tracker, l1: L)
    requires StepsOn(m) && Placed(m, t) && t.current.Some? && Succeeds(m, commit)
    requires t.current.value < q < |m.phases| && InlineAt(m.phases, q) && hops > 0
    requires WalkOf(m, commit, m.phases[q].entry, walk)
    ensures Hop(m, commit, t, l).0 == t1 && Placed(m, t1)
    ensures t1.current.Some? && t.current.value < t1.current.value <= q
    ensures walk(t, l, hops) == walk(t1, l1, hops - 1)
  {
    var target := m.phases[q].entry;
    assert StepsOnAt(m, t.current.value) && StepsOnAt(m, q);
    HopOn(m, commit, t, l);
    WalkOnce(m, commit, t, l, target, hops);
    t1, l1 := Hop(m, commit, t, l).0, Hop(m, commit, t, l).1;
    assert walk(t, l, hops) == WalkTo(m, commit, t, l, target, hops);
    assert walk(t1, l1, hops - 1) == WalkTo(m, commit, t1, l1, target, hops - 1);
  }

  lemma WalkStops<L(!new)>(m: Machine, commit: Commit<L>, t: Tracker, l: L, walk: Walk<L>, hops: nat)
    requires Wired(m) && Placed(m, t) && hops > 0 && WalkOf(m, commit, t.state, walk)
    ensures walk(t, l, hops) == (t, l, Done(false))
  {
    assert walk(t, l, hops) == WalkTo(m, commit, t, l, t.state, hops);
  }

  /** Walking to a later entry arrives there, keeping what every hop on the way keeps. */
  lemma {:induction false} WalkReaches<L(!new)>(m: Machine, commit: Commit<L>, t: Tracker, l: L, q: nat,
                                                walk: Walk<L>, hops: nat, keep: Tracker -> bool)
    requires StepsOn(m) && Placed(m, t) && t.current.Some? && Succeeds(m, commit)
    requires t.current.value <= q < |m.phases| && InlineAt(m.phases, q) && hops + t.current.value > q
    requires WalkOf(m, commit, m.phases[q].entry, walk) && HopsKeep(m, commit, q, keep) && keep(t)
    ensures var (t1, _, o) := walk(t, l, hops);
            o == Done(false) && Placed(m, t1) && t1.current == Some(q) && keep(t1)
    decreases hops
  {
    if t.current.value == q {
      WalkStops(m, commit, t, l, walk, hops);
    } else {
      var t1, l1 := StepTowards(m, commit, t, l, q, walk, hops);
      WalkReaches(m, commit, t1, l1, q, walk, hops - 1, keep);
    }
  }

  /** AdvanceToState with a later entry state. */
  lemma ReachArrives<L(!new)>(m: Machine, commit: Commit<L>, t: Tracker, l: L, q: nat, keep: Tracker -> bool)
    requires StepsOn(m) && Placed(m, t) && t.current.Some? && Succeeds(m, commit)
    requires t.current.value <= q < |m.phases| && InlineAt(m.phases, q)
    requires q == t.current.value || m.phases[q].entry !in m.phases[t.current.value].internals
    requires HopsKeep(m, commit, q, keep) && keep(t)
    ensures var (t1, _, o) := Reach(m, commit, t, l, m.phases[q].entry);
            o == Done(false) && Placed(m, t1) && t1.current == Some(q) && keep(t1)
  {
    var target := m.phases[q].entry;
    var walk := TheWalk(m, commit, target);
    WalkReaches(m, commit, t, l, q, walk, |m.phases| + 1, keep);
    assert walk(t, l, |m.phases| + 1) == WalkTo(m, commit, t, l, target, |m.phases| + 1);
    assert StepsOnAt(m, t.current.value) && StepsOnAt(m, q);
  }

  // ---------------------------------------------------------------- the first call

  /** A runner with an inline phase starts its sessions in the first one. */
  predicate StartsInline(m: Machine) {
    m.initialState in m.byEntryState && m.byEntryState[m.initialState] < |m.phases|
    && FirstInline(m.phases, m.byEntryState[m.initialState])
  }

  lemma AcceptedStartsInline(m: Machine, n: nat)
    requires Ready(m) && n < |m.phases| && InlineAt(m.phases, n)
    ensures StartsInline(m)
  {
    var i := FirstUpTo(m.phases, n);
    assert FirstInline(m.phases, i);
  }

  lemma BeginSucceeds<L(!new)>(m: Machine, commit: Commit<L>, l: L, sid: string, cohort: string)
    requires Wired(m) && StartsInline(m) && Succeeds(m, commit) && sid != ""
    ensures var (w, o) := Step(m, commit, World(map[], l), Begin(sid, cohort));
            && o.Done? && sid in w.sessions && w.lineage == l
            && Start(m, sid, cohort).0 == Some(w.sessions[sid])
  {
  }

  lemma StartEnters<L(!new)>(m: Machine, commit: Commit<L>, sid: string, cohort: string)
    requires Wired(m) && StartsInline(m) && Succeeds(m, commit)
    ensures var s := Start(m, sid, cohort).0;
            && s.Some? && s.value.current == Some(m.byEntryState[m.initialState]) && |s.value.history| == 1
            && s.value.history[0].kind == Enter && s.value.history[0].phase == m.byEntryState[m.initialState]
  {
  }

  // ---------------------------------------------------------------- entering a phase again

  predicate Enters(calls: seq<HookCall>, x: nat, j: nat) {
    x < |calls| && calls[x].kind == Enter && calls[x].phase == j
  }

  /** The session has entered phase j if it has come that far. */
  ghost predicate PassedBy(j: nat, t: Tracker) {
    t.current.Some? && (t.current.value >= j ==> exists x: nat :: Enters(t.history, x, j))
  }

  lemma HopPassesBy<L>(m: Machine, commit: Commit<L>, t: Tracker, l: L, j: nat)
    requires StepsOn(m) && Placed(m, t) && PassedBy(j, t)
    requires j < |m.phases| && InlineAt(m.phases, j) && !LastInline(m.phases, t.current.value)
    ensures PassedBy(j, Hop(m, commit, t, l).0)
  {
    var k := t.current.value;
    assert StepsOnAt(m, k);
    var t1 := Hop(m, commit, t, l).0;
    assert |t.history| <= |t1.history| && t1.history[..|t.history|] == t.history;
    if k >= j {
      var x: nat :| Enters(t.history, x, j);
      assert Enters(t1.history, x, j);
    } else if t1.current.value >= j {
      assert Enters(t1.history, |t.history| + 1, j);
    }
  }

  lemma HopsPassBy<L(!new)>(m: Machine, commit: Commit<L>, j: nat, last: nat)
    requires StepsOn(m) && j < |m.phases| && InlineAt(m.phases, j) && LastInline(m.phases, last)
    ensures HopsKeep(m, commit, last, (t: Tracker) => PassedBy(j, t))
  {
    forall t, l | Placed(m, t) && t.current.Some? && t.current.value < last && PassedBy(j, t)
      ensures PassedBy(j, Hop(m, commit, t, l).0)
    {
      HopPassesBy(m, commit, t, l, j);
    }
  }

  /** AdvanceToState to the phase the last exit leads back to is one hop. */
  lemma ReachBack<L(!new)>(m: Machine, commit: Commit<L>, t: Tracker, l: L, j: nat)
    requires StepsOn(m) && Placed(m, t) && t.current.Some? && Succeeds(m, commit)
    requires LeadsTo(m, t.current.value, j) && j != t.current.value
    requires m.phases[j].entry !in m.phases[t.current.value].internals
    ensures Reach(m, commit, t, l, m.phases[j].entry)
         == (Hop(m, commit, t, l).0, Hop(m, commit, t, l).1, Done(false))
    ensures Hop(m, commit, t, l).2.Entered? && Hop(m, commit, t, l).0.current == Some(j)
  {
    var target := m.phases[j].entry;
    assert StepsOnAt(m, t.current.value) && StepsOnAt(m, j);
    HopOn(m, commit, t, l);
    WalkOnce(m, commit, t, l, target, |m.phases| + 1);
    var (t1, l1, _) := Hop(m, commit, t, l);
    assert WalkTo(m, commit, t1, l1, target, |m.phases|) == (t1, l1, Done(false));
  }

  /** Phase k exits into phase j. */
  predicate LeadsTo(m: Machine, k: nat, j: nat) {
    && k < |m.phases| && j < |m.phases| && InlineAt(m.phases, j)
    && m.phases[j].entry != STATE_NONE && m.phases[k].exit == m.phases[j].entry
  }

  lemma {:induction false} RunOneMore<L>(m: Machine, commit: Commit<L>, w: World<L>, calls: seq<Call>, call: Call)
    requires Wired(m) && AllPlaced(m, w)
    ensures var (w1, os) := Run(m, commit, w, calls);
            var (w2, o) := Step(m, commit, w1, call);
            Run(m, commit, w, calls + [call]) == (w2, os + [o])
    decreases |calls|
  {
    var all := calls + [call];
    if calls == [] {
      assert all[0] == call && all[1..] == [];
      assert Run(m, commit, Step(m, commit, w, call).0, []) == (Step(m, commit, w, call).0, []);
      assert [Step(m, commit, w, call).1] + [] == [] + [Step(m, commit, w, call).1];
    } else {
      assert all[0] == calls[0] && all[1..] == calls[1..] + [call];
      var (w1, o1) := Step(m, commit, w, calls[0]);
      RunOneMore(m, commit, w1, calls[1..], call);
      var (w2, os) := Run(m, commit, w1, calls[1..]);
      var o := Step(m, commit, w2, call).1;
      assert [o1] + (os + [o]) == ([o1] + os) + [o];
    }
  }

  predicate AllDone(os: seq<Outcome>) {
    forall i :: 0 <= i < |os| ==> os[i].Done?
  }

  /** The calls, made on an empty runner, return no error and lead to w. */
  ghost predicate RunsTo<L>(m: Machine, commit: Commit<L>, l: L, calls: seq<Call>, w: World<L>) {
    Wired(m) && AllPlaced(m, w) && Run(m, commit, World(map[], l), calls).0 == w
    && AllDone(Run(m, commit, World(map[], l), calls).1)
  }

  lemma OneMoreCall<L>(m: Machine, commit: Commit<L>, l: L, calls: seq<Call>, w: World<L>, call: Call)
    requires RunsTo(m, commit, l, calls, w) && Step(m, commit, w, call).1.Done?
    ensures RunsTo(m, commit, l, calls + [call], Step(m, commit, w, call).0)
  {
    RunOneMore(m, commit, World(map[], l), calls, call);
  }

  lemma AdvanceStep<L>(m: Machine, commit: Commit<L>, w: World<L>, sid: string, target: State)
    requires Wired(m) && AllPlaced(m, w) && sid in w.sessions
    ensures var (w1, o) := Step(m, commit, w, AdvanceTo(sid, target));
            var (t1, l1, o1) := Reach(m, commit, w.sessions[sid], w.lineage, target);
            o == o1 && sid in w1.sessions && w1.sessions[sid] == t1 && w1.lineage == l1
  {
  }

  /** A call that returned no error, added to a run without one. */
  lemma AdvanceOnce<L>(m: Machine, commit: Commit<L>, l: L, calls: seq<Call>, w: World<L>, sid: string, target: State)
    returns (w1: World<L>)
    requires RunsTo(m, commit, l, calls, w) && sid in w.sessions
    requires Reach(m, commit, w.sessions[sid], w.lineage, target).2.Done?
    ensures RunsTo(m, commit, l, calls + [AdvanceTo(sid, target)], w1)
    ensures sid in w1.sessions && w1.sessions[sid] == Reach(m, commit, w.sessions[sid], w.lineage, target).0
  {
    AdvanceStep(m, commit, w, sid, target);
    OneMoreCall(m, commit, l, calls, w, AdvanceTo(sid, target));
    w1 := Step(m, commit, w, AdvanceTo(sid, target)).0;
  }

  lemma HopEnters<L>(m: Machine, commit: Commit<L>, t: Tracker, l: L, j: nat)
    requires Wired(m) && Placed(m, t) && t.current.Some? && Hop(m, commit, t, l).2.Entered?
    requires Hop(m, commit, t, l).0.current == Some(j)
    ensures var h := Hop(m, commit, t, l).0.history;
            |h| == |t.history| + 2 && h[..|t.history|] == t.history && Enters(h, |t.history| + 1, j)
  {
  }

  /** Begin and AdvanceToState to a later entry q, keeping what the hops on the way keep. */
  lemma BeginAndReach<L(!new)>(m: Machine, commit: Commit<L>, l: L, sid: string, q: nat, keep: Tracker -> bool)
    returns (w: World<L>)
    requires StepsOn(m) && StartsInline(m) && Succeeds(m, commit) && sid != ""
    requires m.byEntryState[m.initialState] < q < |m.phases| && InlineAt(m.phases, q)
    requires m.phases[q].entry !in m.phases[m.byEntryState[m.initialState]].internals
    requires HopsKeep(m, commit, q, keep)
    requires var s := Start(m, sid, "").0; s.Some? ==> keep(s.value)
    ensures RunsTo(m, commit, l, [Begin(sid, ""), AdvanceTo(sid, m.phases[q].entry)], w)
    ensures sid in w.sessions && w.sessions[sid].current == Some(q) && keep(w.sessions[sid])
  {
    var begin, advance := Begin(sid, ""), AdvanceTo(sid, m.phases[q].entry);
    var w1 := Step(m, commit, World(map[], l), begin).0;
    BeginSucceeds(m, commit, l, sid, "");
    StartEnters(m, commit, sid, "");
    OneMoreCall(m, commit, l, [], World(map[], l), begin);
    ReachArrives(m, commit, w1.sessions[sid], w1.lineage, q, keep);
    AdvanceStep(m, commit, w1, sid, m.phases[q].entry);
    w := Step(m, commit, w1, advance).0;
    assert [] + [begin] == [begin];
    OneMoreCall(m, commit, l, [begin], w1, advance);
    assert [begin] + [advance] == [begin, advance];
  }

  lemma StartPassesBy<L(!new)>(m: Machine, commit: Commit<L>, sid: string, j: nat)
    requires Wired(m) && StartsInline(m) && Succeeds(m, commit) && j < |m.phases| && InlineAt(m.phases, j)
    ensures var s := Start(m, sid, "").0; s.Some? ==> PassedBy(j, s.value)
    ensures m.byEntryState[m.initialState] <= j
  {
    StartEnters(m, commit, sid, "");
    assert Enters(Start(m, sid, "").0.value.history, 0, m.byEntryState[m.initialState]);
  }

  lemma EnteredAgain<L(!new)>(m: Machine, commit: Commit<L>, l: L, sid: string, last: nat, j: nat)
    returns (w: World<L>, x: nat, y: nat)
    requires StepsOn(m) && StartsInline(m) && Succeeds(m, commit) && sid != ""
    requires LastInline(m.phases, last) && j < last && LeadsTo(m, last, j)
    requires m.phases[last].entry !in m.phases[m.byEntryState[m.initialState]].internals
    requires m.phases[j].entry !in m.phases[last].internals
    ensures RunsTo(m, commit, l,
                   [Begin(sid, ""), AdvanceTo(sid, m.phases[last].entry), AdvanceTo(sid, m.phases[j].entry)], w)
    ensures sid in w.sessions && x < y && Enters(w.sessions[sid].history, x, j) && Enters(w.sessions[sid].history, y, j)
  {
    StartPassesBy(m, commit, sid, j);
    HopsPassBy(m, commit, j, last);
    var w2 := BeginAndReach(m, commit, l, sid, last, (t: Tracker) => PassedBy(j, t));
    var t2 := w2.sessions[sid];
    ReachBack(m, commit, t2, w2.lineage, j);
    HopEnters(m, commit, t2, w2.lineage, j);
    x :| Enters(t2.history, x, j);
    y := |t2.history| + 1;
    var calls := [Begin(sid, ""), AdvanceTo(sid, m.phases[last].entry)];
    w := AdvanceOnce(m, commit, l, calls, w2, sid, m.phases[j].entry);
    assert calls + [AdvanceTo(sid, m.phases[j].entry)] == [calls[0], calls[1], AdvanceTo(sid, m.phases[j].entry)];
  }

  lemma LeadsToEarlier(m: Machine, last: nat, j: nat)
    requires Ready(m) && j < last < |m.phases| && InlineAt(m.phases, j) && InlineAt(m.phases, last)
    requires m.phases[last].exit == m.phases[j].entry
    ensures LeadsTo(m, last, j) && m.phases[j].entry !in m.phases[last].internals
  {
    assert PhaseOk(m.phases, j) && PhaseOk(m.phases, last);
    forall x | 0 <= x < |m.phases[last].internals| ensures m.phases[last].internals[x] != m.phases[j].entry {
      assert InternalOk(m.phases, last, x);
    }
  }

  /** An accepted pipeline whose last inline phase exits into an earlier one: with succeeding
      hooks, Begin and two AdvanceToState calls, to the last phase's entry and back, return
      no error and enter the earlier phase twice. AdvanceToState would not leave the first
      phase if that listed the last entry among its internal states, which Compose lets pass. */
  lemma PhaseEnteredAgain<L(!new)>(m: Machine, commit: Commit<L>, l: L, sid: string, last: nat, j: nat)
    returns (w: World<L>, x: nat, y: nat)
    requires Ready(m) && Succeeds(m, commit) && sid != ""
    requires LastInline(m.phases, last) && j < last && InlineAt(m.phases, j)
    requires m.phases[last].exit == m.phases[j].entry
    requires forall i :: 0 <= i < |m.phases| && FirstInline(m.phases, i) ==>
                           m.phases[last].entry !in m.phases[i].internals
    ensures RunsTo(m, commit, l,
                   [Begin(sid, ""), AdvanceTo(sid, m.phases[last].entry), AdvanceTo(sid, m.phases[j].entry)], w)
    ensures sid in w.sessions && x < y && Enters(w.sessions[sid].history, x, j) && Enters(w.sessions[sid].history, y, j)
  {
    AcceptedStepsOn(m);
    AcceptedStartsInline(m, last);
    LeadsToEarlier(m, last, j);
    w, x, y := EnteredAgain(m, commit, l, sid, last, j);
  }
}
