/** AdvanceToState towards a state that is not ahead (pkg/ares/phase/runner.go): when it fails,
    and what it has run by then. */
module RunnerTargets {
  import opened Wrappers
  import opened Pipeline
  import opened Runner
  import opened RunnerOrder

  predicate EntriesNamed(m: Machine) {
    forall k: nat :: k < |m.phases| && InlineAt(m.phases, k) ==>
      m.phases[k].entry != STATE_NONE && STATE_NONE !in m.phases[k].internals
  }

  lemma AcceptedEntriesNamed(m: Machine)
    requires Ready(m)
    ensures EntriesNamed(m)
  {
    forall k: nat | k < |m.phases| && InlineAt(m.phases, k)
      ensures m.phases[k].entry != STATE_NONE && STATE_NONE !in m.phases[k].internals
    {
      assert PhaseOk(m.phases, k);
      forall x | 0 <= x < |m.phases[k].internals| ensures m.phases[k].internals[x] != STATE_NONE {
        assert InternalOk(m.phases, k, x);
      }
    }
  }

  lemma {:induction false} WalkMissesNone<L>(m: Machine, commit: Commit<L>, t: Tracker, l: L, hops: nat)
    requires Wired(m) && EntriesNamed(m) && Placed(m, t) && t.current.Some?
    ensures !WalkTo(m, commit, t, l, STATE_NONE, hops).2.Done?
    decreases hops
  {
    if hops == 0 {
    } else {
      var (t1, l1, end) := Hop(m, commit, t, l);
      if end.Entered? {
        WalkMissesNone(m, commit, t1, l1, hops - 1);
      }
    }
  }

  /** The empty state as a target is refused on every session but an ended one, where
      AdvanceToState returns nil: whatever the pipeline and whatever its hooks do. */
  lemma EmptyTargetExactly<L>(m: Machine, commit: Commit<L>, t: Tracker, l: L)
    requires Ready(m) && Wired(m) && Placed(m, t)
    ensures Reach(m, commit, t, l, STATE_NONE).2.Done? <==> t.current.None?
  {
    AcceptedEntriesNamed(m);
    if t.current.Some? {
      WalkMissesNone(m, commit, t, l, |m.phases| + 1);
    }
  }

  /** The Exit of phase k, then Enter and Exit of every inline phase after it. */
  predicate RunsOut(phases: seq<Phase>, k: nat, calls: seq<HookCall>)
    decreases |calls|
  {
    && |calls| > 0 && calls[0].kind == Exit && calls[0].phase == k < |phases|
    && if |calls| == 1 then LastInline(phases, k)
       else
         && calls[1].kind == Enter && calls[1].phase < |phases| && InlineAt(phases, calls[1].phase)
         && PrecedesInline(phases, k, calls[1].phase)
         && RunsOut(phases, calls[1].phase, calls[2..])
  }

  lemma {:induction false} RunsOutAtTheEnd(phases: seq<Phase>, k: nat, calls: seq<HookCall>)
    requires RunsOut(phases, k, calls)
    ensures var last := calls[|calls| - 1]; last.kind == Exit && LastInline(phases, last.phase)
    decreases |calls|
  {
    if |calls| == 1 {
    } else {
      RunsOutAtTheEnd(phases, calls[1].phase, calls[2..]);
    }
  }

  lemma RunsOutMore(phases: seq<Phase>, k: nat, history: seq<HookCall>, exit: HookCall, enter: HookCall, more: seq<HookCall>)
    returns (rest: seq<HookCall>)
    requires k < |phases| && exit.kind == Exit && exit.phase == k && enter.kind == Enter
    requires enter.phase < |phases| && InlineAt(phases, enter.phase) && PrecedesInline(phases, k, enter.phase)
    requires RunsOut(phases, enter.phase, more)
    ensures RunsOut(phases, k, rest) && rest[|rest| - 1] == more[|more| - 1]
    ensures history + [exit] + [enter] + more == history + rest
  {
    rest := [exit, enter] + more;
    assert rest[2..] == more;
  }

  lemma LastHop<L(!new)>(m: Machine, commit: Commit<L>, t: Tracker, l: L)
    requires Forward(m) && Placed(m, t) && t.current.Some? && Succeeds(m, commit)
    requires !Hop(m, commit, t, l).2.Entered?
    ensures Hop(m, commit, t, l).0.history == t.history + [ExitCall(m, t)]
    ensures RunsOut(m.phases, t.current.value, [ExitCall(m, t)])
    ensures Hop(m, commit, t, l).2
         == if MissedAfter(m.phases, t.current.value) == Permanent then ReachedEnd else Broke(FrameworkBug)
  {
    assert ForwardAt(m, t.current.value);
  }

  /** How a walk past the exit of phase k fails. */
  function MissedAfter(phases: seq<Phase>, k: nat): Failure
    requires k < |phases|
  {
    if phases[k].exit == STATE_NONE then Permanent else FrameworkBug
  }

  lemma WalkOnce<L>(m: Machine, commit: Commit<L>, t: Tracker, l: L, target: State, hops: nat)
    requires Wired(m) && Placed(m, t) && t.current.Some? && t.state != target && hops > 0
    ensures var (t1, l1, end) := Hop(m, commit, t, l);
            var (t2, l2, o) := WalkTo(m, commit, t, l, target, hops);
            match end
            case Broke(reason) => t2 == t1 && o == Failed(reason)
            case ReachedEnd => t2 == t1 && o == Failed(Permanent)
            case Entered => (t2, l2, o) == WalkTo(m, commit, t1, l1, target, hops - 1)
  {
  }

  /** The walk towards one target as a function of the session alone. */
  type Walk<!L> = (Tracker, L, nat) -> (Tracker, L, Outcome)

  ghost predicate WalkOf<L(!new)>(m: Machine, commit: Commit<L>, target: State, walk: Walk<L>) {
    Wired(m) && forall t, l, hops: nat {:trigger WalkTo(m, commit, t, l, target, hops)} ::
      Placed(m, t) ==> walk(t, l, hops) == WalkTo(m, commit, t, l, target, hops)
  }

  /** A session, not ended, with the target neither here nor ahead. */
  ghost predicate Misses(m: Machine, t: Tracker, target: State) {
    Placed(m, t) && t.current.Some? && t.state != target && !LaterEntry(m, t.current.value, target)
  }

  /** The walk's next hop then: its last, or one that leads on. */
  lemma HopPast<L(!new)>(m: Machine, commit: Commit<L>, t: Tracker, l: L, target: State, walk: Walk<L>, hops: nat)
    returns (over: bool, t1: Tracker, l1: L, exit: HookCall, enter: HookCall)
    requires Forward(m) && Misses(m, t, target) && Succeeds(m, commit) && hops > 0 && WalkOf(m, commit, target, walk)
    ensures exit.kind == Exit && exit.phase == t.current.value < |m.phases|
    ensures over ==> RunsOut(m.phases, t.current.value, [exit])
                     && walk(t, l, hops).0.history == t.history + [exit]
                     && walk(t, l, hops).2 == Failed(MissedAfter(m.phases, t.current.value))
    ensures !over ==> Misses(m, t1, target) && walk(t, l, hops) == walk(t1, l1, hops - 1)
                      && t1.current == Some(enter.phase) && t1.history == t.history + [exit] + [enter]
                      && enter.kind == Enter && enter.phase < |m.phases| && InlineAt(m.phases, enter.phase)
                      && PrecedesInline(m.phases, t.current.value, enter.phase)
  {
    LaterEntryStep(m, t.current.value, target);
    WalkOnce(m, commit, t, l, target, hops);
    var end := Hop(m, commit, t, l).2;
    t1, l1 := Hop(m, commit, t, l).0, Hop(m, commit, t, l).1;
    exit, over := ExitCall(m, t), !end.Entered?;
    enter := HopHistory(m, commit, t, l);
    assert walk(t, l, hops) == WalkTo(m, commit, t, l, target, hops);
    if over {
      LastHop(m, commit, t, l);
    } else {
      assert ForwardAt(m, t.current.value);
      assert walk(t1, l1, hops - 1) == WalkTo(m, commit, t1, l1, target, hops - 1);
    }
  }

  /** A target that is neither the current state nor a later entry: the walk fails only after
      it has exited the current phase and entered and exited every later one. */
  lemma {:induction false} MissedTargetRunsOut<L(!new)>(m: Machine, commit: Commit<L>, t: Tracker, l: L, target: State,
                                                        walk: Walk<L>, hops: nat)
    returns (rest: seq<HookCall>)
    requires Forward(m) && Misses(m, t, target) && Succeeds(m, commit) && WalkOf(m, commit, target, walk)
    requires hops + t.current.value > |m.phases|
    ensures RunsOut(m.phases, t.current.value, rest) && walk(t, l, hops).0.history == t.history + rest
    decreases hops
  {
    var over, t1, l1, exit, enter := HopPast(m, commit, t, l, target, walk, hops);
    if over {
      rest := [exit];
    } else {
      var more := MissedTargetRunsOut(m, commit, t1, l1, target, walk, hops - 1);
      rest := RunsOutMore(m.phases, t.current.value, t.history, exit, enter, more);
    }
  }

  lemma {:induction false} MissedTargetFails<L(!new)>(m: Machine, commit: Commit<L>, t: Tracker, l: L, target: State,
                                                      walk: Walk<L>, hops: nat, last: nat)
    requires Forward(m) && Misses(m, t, target) && Succeeds(m, commit) && WalkOf(m, commit, target, walk)
    requires hops + t.current.value > |m.phases| && LastInline(m.phases, last)
    ensures walk(t, l, hops).2 == Failed(MissedAfter(m.phases, last))
    decreases hops
  {
    var over, t1, l1, exit, enter := HopPast(m, commit, t, l, target, walk, hops);
    if over {
      OneLastInline(m.phases, t.current.value, last);
    } else {
      MissedTargetFails(m, commit, t1, l1, target, walk, hops - 1, last);
    }
  }

  lemma OneLastInline(phases: seq<Phase>, i: nat, j: nat)
    requires LastInline(phases, i) && LastInline(phases, j)
    ensures i == j
  {
  }

  lemma TheWalk<L(!new)>(m: Machine, commit: Commit<L>, target: State) returns (walk: Walk<L>)
    requires Wired(m)
    ensures WalkOf(m, commit, target, walk)
  {
    walk := (t: Tracker, l: L, hops: nat) =>
      if Placed(m, t) then WalkTo(m, commit, t, l, target, hops) else (t, l, Panicked);
  }

  /** With the empty target, AdvanceToState is its walk. */
  lemma ReachWalks<L(!new)>(m: Machine, commit: Commit<L>, t: Tracker, l: L, walk: Walk<L>)
    requires EntriesNamed(m) && Placed(m, t) && t.current.Some? && WalkOf(m, commit, STATE_NONE, walk)
    ensures Reach(m, commit, t, l, STATE_NONE) == walk(t, l, |m.phases| + 1)
    ensures Misses(m, t, STATE_NONE)
  {
    assert walk(t, l, |m.phases| + 1) == WalkTo(m, commit, t, l, STATE_NONE, |m.phases| + 1);
  }

  lemma WalkRunsOut<L(!new)>(m: Machine, commit: Commit<L>, t: Tracker, l: L) returns (rest: seq<HookCall>)
    requires Forward(m) && EntriesNamed(m) && Placed(m, t) && t.current.Some? && Succeeds(m, commit)
    ensures RunsOut(m.phases, t.current.value, rest)
    ensures rest[|rest| - 1].kind == Exit && LastInline(m.phases, rest[|rest| - 1].phase)
    ensures Reach(m, commit, t, l, STATE_NONE).0.history == t.history + rest
    ensures Reach(m, commit, t, l, STATE_NONE).2 == Failed(MissedAfter(m.phases, rest[|rest| - 1].phase))
  {
    var walk := TheWalk(m, commit, STATE_NONE);
    ReachWalks(m, commit, t, l, walk);
    rest := MissedTargetRunsOut(m, commit, t, l, STATE_NONE, walk, |m.phases| + 1);
    RunsOutAtTheEnd(m.phases, t.current.value, rest);
    MissedTargetFails(m, commit, t, l, STATE_NONE, walk, |m.phases| + 1, rest[|rest| - 1].phase);
  }

  /** The empty target on a session that has not ended, with succeeding hooks: refused, but
      only after the whole rest of the pipeline has run, down to the Exit of its last phase. */
  lemma EmptyTargetRunsOut<L(!new)>(m: Machine, commit: Commit<L>, t: Tracker, l: L) returns (rest: seq<HookCall>)
    requires Ready(m) && Wired(m) && Acyclic(m.phases) && Placed(m, t) && t.current.Some? && Succeeds(m, commit)
    ensures RunsOut(m.phases, t.current.value, rest)
    ensures rest[|rest| - 1].kind == Exit && LastInline(m.phases, rest[|rest| - 1].phase)
    ensures Reach(m, commit, t, l, STATE_NONE).0.history == t.history + rest
    ensures Reach(m, commit, t, l, STATE_NONE).2 == Failed(MissedAfter(m.phases, rest[|rest| - 1].phase))
  {
    HopsGoForward(m);
    AcceptedEntriesNamed(m);
    rest := WalkRunsOut(m, commit, t, l);
  }
}
