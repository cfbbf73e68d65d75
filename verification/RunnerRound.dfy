/** Round the loop: Compose's schema check misses the declarations that meet there, and when
    it does, a run shows it (pkg/ares/phase/runner.go). */
module RunnerRound {
  import opened Wrappers
  import opened Pipeline
  import opened Runner
  import opened RunnerOrder
  import opened RunnerTargets
  import opened RunnerLoop
  import opened RunnerSupply

  // ---------------------------------------------------------------- hooks that keep declarations

  /** Enter writes only keys the phase provides, and Exit all of them. */
  ghost predicate Dutiful(m: Machine) {
    forall k, ctx :: 0 <= k < |m.phases| ==>
      && m.phases[k].onEnter(ctx).writes.Keys <= m.phases[k].gives.Keys
      && m.phases[k].onExit(ctx).writes.Keys == m.phases[k].gives.Keys
  }

  lemma OneMoreDisciplined(phases: seq<Phase>, calls: seq<HookCall>, c: HookCall)
    requires AllDisciplined(phases, calls) && Disciplined(phases, c)
    ensures AllDisciplined(phases, calls + [c])
  {
  }

  /** The session has just entered its phase, with every key from its last provider. */
  ghost predicate JustEntered(m: Machine, back: Option<nat>, t: Tracker) {
    && t.current.Some? && t.current.value < |m.phases| && |t.history| > 0
    && (back.Some? ==> back.value <= t.current.value)
    && AllDisciplined(m.phases, t.history)
    && At(m.phases, back, t.current.value, t.ctx, t.writers)
    && EntersFrom(m, t.history, |t.history| - 1, back, t.current.value)
  }

  /** Call x is the Enter of phase k, with every key from its last provider. */
  ghost predicate EntersFrom(m: Machine, calls: seq<HookCall>, x: nat, back: Option<nat>, k: nat) {
    Enters(calls, x, k) && Arrived(m.phases, back, k, calls[x].seen, calls[x].writers)
  }

  /** One successful Exit and the Enter after it. */
  lemma ArrivalEnters(m: Machine, back: Option<nat>, t: Tracker, exit: Effect, j: nat, t2: Tracker, enter: Effect)
    requires JustEntered(m, back, t) && !exit.failed && Leaves(m, t.current.value, j)
    requires t2 == CallHook(t, Exit, t.current.value, NO_MESSAGE, exit)
                     .(state := t2.state, entered := t2.entered, current := Some(j))
    requires exit.writes.Keys == m.phases[t.current.value].gives.Keys && enter.writes.Keys <= m.phases[j].gives.Keys
    ensures JustEntered(m, if j == t.current.value + 1 then back else LeadsBack(m), CallHook(t2, Enter, j, NO_MESSAGE, enter))
  {
    var k := t.current.value;
    var c := HookCall(Exit, k, NO_MESSAGE, t.ctx, t.writers, exit);
    var d := HookCall(Enter, j, NO_MESSAGE, t2.ctx, t2.writers, enter);
    OneMoreDisciplined(m.phases, t.history, c);
    OneMoreDisciplined(m.phases, t.history + [c], d);
    ExitFeeds(m, back, t, k, j, exit);
    var back1 := if j == k + 1 then back else LeadsBack(m);
    ArrivedIsAt(m.phases, back1, j, t2.ctx, t2.writers);
    CallStaysAt(m.phases, back1, t2, Enter, j, NO_MESSAGE, enter);
  }

  lemma HopStaysEntered<L(!new)>(m: Machine, commit: Commit<L>, back: Option<nat>, t: Tracker, l: L, j: nat)
    requires Wired(m) && Placed(m, t) && Succeeds(m, commit) && Dutiful(m)
    requires JustEntered(m, back, t) && Leaves(m, t.current.value, j) && GoesTo(m, t.current.value, j)
    ensures Hop(m, commit, t, l).2.Entered? && Hop(m, commit, t, l).0.current == Some(j)
    ensures JustEntered(m, if j == t.current.value + 1 then back else LeadsBack(m), Hop(m, commit, t, l).0)
  {
    var k := t.current.value;
    var e := m.phases[k].onExit(t.ctx);
    var t2 := CallHook(t, Exit, k, NO_MESSAGE, e).(state := m.phases[k].exit, current := Some(j), entered := false);
    ArrivalEnters(m, back, t, e, j, t2, m.phases[j].onEnter(t2.ctx));
  }

  /** The exit of phase k names phase j. */
  predicate GoesTo(m: Machine, k: nat, j: nat) {
    k < |m.phases| && m.phases[k].exit != STATE_NONE && m.phases[k].exit in m.byEntryState
    && m.byEntryState[m.phases[k].exit] == j
  }

  // ---------------------------------------------------------------- once round

  lemma NextPhase(m: Machine, k: nat) returns (j: nat)
    requires Chained(m) && LeadsBack(m).Some? && k < |m.phases|
    ensures Leaves(m, k, j) && GoesTo(m, k, j) && j == if k + 1 < |m.phases| then k + 1 else LeadsBack(m).value
  {
    if k + 1 < |m.phases| {
      assert ChainedAt(m, k);
    }
    j := m.byEntryState[m.phases[k].exit];
  }

  /** Some call entered phase k after the pipeline had led back. */
  ghost predicate Found(m: Machine, k: nat, calls: seq<HookCall>) {
    exists x: nat :: EntersFrom(m, calls, x, LeadsBack(m), k)
  }

  /** At most d hops before the session has entered phase k after leading back. */
  ghost predicate Closing(m: Machine, k: nat, d: nat, t: Tracker)
    requires LeadsBack(m).Some?
  {
    && t.current.Some? && t.current.value < |m.phases|
    && AllDisciplined(m.phases, t.history)
    && (|| Found(m, k, t.history)
        || (JustEntered(m, None, t) && d == |m.phases| - t.current.value + k - LeadsBack(m).value)
        || (JustEntered(m, LeadsBack(m), t) && t.current.value <= k && d == k - t.current.value))
  }

  function Less(d: nat, hops: nat): nat {
    if d <= hops then 0 else d - hops
  }

  lemma ClosedIsFound(m: Machine, k: nat, t: Tracker)
    requires LeadsBack(m).Some? && LeadsBack(m).value <= k && Closing(m, k, 0, t)
    ensures Found(m, k, t.history)
  {
    if JustEntered(m, LeadsBack(m), t) && t.current.value == k {
      assert EntersFrom(m, t.history, |t.history| - 1, LeadsBack(m), k);
    }
  }

  /** A hop adds calls that keep their declarations and takes none away. */
  lemma HopAdds<L(!new)>(m: Machine, commit: Commit<L>, t: Tracker, l: L, j: nat)
    requires Wired(m) && Placed(m, t) && t.current.Some? && Succeeds(m, commit) && Dutiful(m)
    requires GoesTo(m, t.current.value, j) && j < |m.phases| && AllDisciplined(m.phases, t.history)
    ensures var (t1, _, end) := Hop(m, commit, t, l);
            && end.Entered? && t1.current == Some(j) && AllDisciplined(m.phases, t1.history)
            && |t.history| <= |t1.history| && t1.history[..|t.history|] == t.history
  {
    var k := t.current.value;
    var e := m.phases[k].onExit(t.ctx);
    var t2 := CallHook(t, Exit, k, NO_MESSAGE, e).(state := m.phases[k].exit, current := Some(j), entered := false);
    var c := HookCall(Exit, k, NO_MESSAGE, t.ctx, t.writers, e);
    var d := HookCall(Enter, j, NO_MESSAGE, t2.ctx, t2.writers, m.phases[j].onEnter(t2.ctx));
    OneMoreDisciplined(m.phases, t.history, c);
    OneMoreDisciplined(m.phases, t.history + [c], d);
    assert Hop(m, commit, t, l).0.history == t.history + [c] + [d];
  }

  lemma FoundStays(m: Machine, k: nat, calls: seq<HookCall>, more: seq<HookCall>)
    requires Found(m, k, calls) && |calls| <= |more| && more[..|calls|] == calls
    ensures Found(m, k, more)
  {
    var x: nat :| EntersFrom(m, calls, x, LeadsBack(m), k);
    assert more[x] == more[..|calls|][x];
    assert EntersFrom(m, more, x, LeadsBack(m), k);
  }

  lemma HopCloses<L(!new)>(m: Machine, commit: Commit<L>, t: Tracker, l: L, k: nat, d: nat)
    requires Chained(m) && Placed(m, t) && Succeeds(m, commit) && Dutiful(m)
    requires LeadsBack(m).Some? && LeadsBack(m).value <= k < |m.phases| && Closing(m, k, d, t)
    ensures Hop(m, commit, t, l).2.Entered? && Closing(m, k, Less(d, 1), Hop(m, commit, t, l).0)
  {
    var a := t.current.value;
    var j := NextPhase(m, a);
    HopAdds(m, commit, t, l, j);
    var t1 := Hop(m, commit, t, l).0;
    if d == 0 {
      ClosedIsFound(m, k, t);
    }
    if Found(m, k, t.history) {
      FoundStays(m, k, t.history, t1.history);
    } else if JustEntered(m, None, t) && d == |m.phases| - a + k - LeadsBack(m).value {
      HopStaysEntered(m, commit, None, t, l, j);
    } else {
      HopStaysEntered(m, commit, LeadsBack(m), t, l, j);
    }
  }

  lemma StepCloses<L(!new)>(m: Machine, commit: Commit<L>, t: Tracker, l: L, walk: Walk<L>, hops: nat, k: nat, d: nat)
    returns (t1: Tracker, l1: L)
    requires Chained(m) && EntriesNamed(m) && Placed(m, t) && Succeeds(m, commit) && Dutiful(m)
    requires LeadsBack(m).Some? && LeadsBack(m).value <= k < |m.phases| && Closing(m, k, d, t)
    requires WalkOf(m, commit, STATE_NONE, walk) && hops > 0
    ensures Placed(m, t1) && Closing(m, k, Less(d, 1), t1) && walk(t, l, hops) == walk(t1, l1, hops - 1)
  {
    HopCloses(m, commit, t, l, k, d);
    t1, l1 := NextOnWalk(m, commit, t, l, walk, hops);
  }

  lemma NextOnWalk<L(!new)>(m: Machine, commit: Commit<L>, t: Tracker, l: L, walk: Walk<L>, hops: nat)
    returns (t1: Tracker, l1: L)
    requires Wired(m) && EntriesNamed(m) && Placed(m, t) && t.current.Some? && hops > 0
    requires WalkOf(m, commit, STATE_NONE, walk) && Hop(m, commit, t, l).2.Entered?
    ensures t1 == Hop(m, commit, t, l).0 && Placed(m, t1) && walk(t, l, hops) == walk(t1, l1, hops - 1)
  {
    WalkOnce(m, commit, t, l, STATE_NONE, hops);
    t1, l1 := Hop(m, commit, t, l).0, Hop(m, commit, t, l).1;
    assert walk(t, l, hops) == WalkTo(m, commit, t, l, STATE_NONE, hops);
    assert walk(t1, l1, hops - 1) == WalkTo(m, commit, t1, l1, STATE_NONE, hops - 1);
  }

  /** Each hop of the walk towards no state brings the session closer. */
  lemma {:induction false} WalkCloses<L(!new)>(m: Machine, commit: Commit<L>, t: Tracker, l: L, walk: Walk<L>, hops: nat,
                                               k: nat, d: nat)
    requires Chained(m) && EntriesNamed(m) && Placed(m, t) && Succeeds(m, commit) && Dutiful(m)
    requires LeadsBack(m).Some? && LeadsBack(m).value <= k < |m.phases| && Closing(m, k, d, t)
    requires WalkOf(m, commit, STATE_NONE, walk)
    ensures var t1 := walk(t, l, hops).0; Placed(m, t1) && Closing(m, k, Less(d, hops), t1)
    decreases hops
  {
    if hops == 0 {
      assert walk(t, l, hops) == WalkTo(m, commit, t, l, STATE_NONE, hops);
    } else {
      var t1, l1 := StepCloses(m, commit, t, l, walk, hops, k, d);
      WalkCloses(m, commit, t1, l1, walk, hops - 1, k, Less(d, 1));
    }
  }

  lemma ReachCloses<L(!new)>(m: Machine, commit: Commit<L>, t: Tracker, l: L, k: nat, d: nat)
    requires Chained(m) && EntriesNamed(m) && Placed(m, t) && Succeeds(m, commit) && Dutiful(m)
    requires LeadsBack(m).Some? && LeadsBack(m).value <= k < |m.phases| && Closing(m, k, d, t)
    ensures Closing(m, k, Less(d, |m.phases| + 1), Reach(m, commit, t, l, STATE_NONE).0)
  {
    var walk := TheWalk(m, commit, STATE_NONE);
    ReachWalks(m, commit, t, l, walk);
    WalkCloses(m, commit, t, l, walk, |m.phases| + 1, k, d);
  }

  lemma StartIsEntered<L(!new)>(m: Machine, commit: Commit<L>, sid: string)
    requires Chained(m) && StartsInline(m) && Succeeds(m, commit) && Dutiful(m)
    ensures var s := Start(m, sid, "").0;
            s.Some? && s.value.current == Some(0) && Placed(m, s.value) && JustEntered(m, None, s.value)
  {
    var ctx := Context(sid, "", map[]);
    var e := m.phases[0].onEnter(ctx);
    var t := Tracker(ctx, m.initialState, Some(0), false, map[], []);
    var c := HookCall(Enter, 0, NO_MESSAGE, ctx, map[], e);
    NothingWritten(m.phases, ctx);
    OneMoreDisciplined(m.phases, [], c);
    ArrivedIsAt(m.phases, None, 0, ctx, map[]);
    CallStaysAt(m.phases, None, t, Enter, 0, NO_MESSAGE, e);
    assert CallHook(t, Enter, 0, NO_MESSAGE, e).history == [c];
    assert EntersFrom(m, [c], 0, None, 0);
  }

  // ---------------------------------------------------------------- the condition is exact

  /** A needed key whose last provider round the loop declares something else. */
  predicate Clashes(m: Machine, k: nat, key: string) {
    && LeadsBack(m).Some? && LeadsBack(m).value <= k < |m.phases|
    && key in m.phases[k].needs && !FitsFrom(m.phases, LeadsBack(m), k, key)
  }

  lemma FoundClashes(m: Machine, k: nat, key: string, calls: seq<HookCall>, x: nat)
    requires Clashes(m, k, key) && EntersFrom(m, calls, x, LeadsBack(m), k)
    ensures !WellWritten(m.phases, calls[x]) && !EntersWellWritten(m.phases, calls)
    ensures key in calls[x].writers
    ensures CameFrom(m.phases, LeadsBack(m), k, key) == Some(calls[x].writers[key])
  {
    assert Writer(calls[x].writers, key) == CameFrom(m.phases, LeadsBack(m), k, key);
  }

  lemma AdvanceCloses<L(!new)>(m: Machine, commit: Commit<L>, w: World<L>, sid: string, k: nat, d: nat)
    requires Chained(m) && EntriesNamed(m) && AllPlaced(m, w) && Succeeds(m, commit) && Dutiful(m)
    requires LeadsBack(m).Some? && LeadsBack(m).value <= k < |m.phases|
    requires sid in w.sessions && Closing(m, k, d, w.sessions[sid])
    ensures var w1 := Step(m, commit, w, AdvanceTo(sid, STATE_NONE)).0;
            sid in w1.sessions && Closing(m, k, Less(d, |m.phases| + 1), w1.sessions[sid])
  {
    AdvanceStep(m, commit, w, sid, STATE_NONE);
    ReachCloses(m, commit, w.sessions[sid], w.lineage, k, d);
  }

  lemma BeginCloses<L(!new)>(m: Machine, commit: Commit<L>, l: L, sid: string, k: nat) returns (d: nat)
    requires Chained(m) && StartsInline(m) && Succeeds(m, commit) && Dutiful(m) && sid != ""
    requires LeadsBack(m).Some? && LeadsBack(m).value <= k < |m.phases|
    ensures var w := Step(m, commit, World(map[], l), Begin(sid, "")).0;
            sid in w.sessions && Closing(m, k, d, w.sessions[sid]) && d <= 2 * |m.phases|
  {
    StartIsEntered(m, commit, sid);
    BeginSucceeds(m, commit, l, sid, "");
    d := |m.phases| + k - LeadsBack(m).value;
  }

  /** Begin and two attempts to advance to no state take the session round. */
  function LoopCalls(sid: string): seq<Call> {
    [Begin(sid, "")] + [AdvanceTo(sid, STATE_NONE)] + [AdvanceTo(sid, STATE_NONE)]
  }

  lemma LoopCallsFind<L(!new)>(m: Machine, commit: Commit<L>, l: L, sid: string, k: nat)
    requires Chained(m) && EntriesNamed(m) && StartsInline(m) && Succeeds(m, commit) && Dutiful(m) && sid != ""
    requires LeadsBack(m).Some? && LeadsBack(m).value <= k < |m.phases|
    ensures Kept(m, commit, l, LoopCalls(sid), sid)
    ensures Found(m, k, Run(m, commit, World(map[], l), LoopCalls(sid)).0.sessions[sid].history)
  {
    var w0, begin, advance := World(map[], l), [Begin(sid, "")], AdvanceTo(sid, STATE_NONE);
    var d := BeginCloses(m, commit, l, sid, k);
    RunOneMore(m, commit, w0, [], Begin(sid, ""));
    assert [] + begin == begin;
    var w1 := Run(m, commit, w0, begin).0;
    AdvanceCloses(m, commit, w1, sid, k, d);
    RunOneMore(m, commit, w0, begin, advance);
    var w2 := Run(m, commit, w0, begin + [advance]).0;
    AdvanceCloses(m, commit, w2, sid, k, Less(d, |m.phases| + 1));
    RunOneMore(m, commit, w0, begin + [advance], advance);
    ClosedIsFound(m, k, Run(m, commit, w0, LoopCalls(sid)).0.sessions[sid]);
  }

  /** A session of the run whose phases keep their declarations enters no phase with a needed
      key last written under a declaration that does not satisfy it. */
  ghost predicate RunFits<L>(m: Machine, commit: Commit<L>, l: L, calls: seq<Call>, sid: string)
    requires Wired(m)
  {
    Kept(m, commit, l, calls, sid) ==>
      EntersWellWritten(m.phases, Run(m, commit, World(map[], l), calls).0.sessions[sid].history)
  }

  lemma ClashShows<L(!new)>(m: Machine, commit: Commit<L>, l: L, sid: string, k: nat, key: string)
    requires Ready(m) && Wired(m) && AllInline(m.phases) && Succeeds(m, commit) && Dutiful(m) && sid != ""
    requires Clashes(m, k, key)
    ensures !RunFits(m, commit, l, LoopCalls(sid), sid)
  {
    AcceptedIsChained(m);
    AcceptedEntriesNamed(m);
    assert InlineAt(m.phases, 0);
    AcceptedStartsInline(m, 0);
    LoopCallsFind(m, commit, l, sid, k);
    var h := Run(m, commit, World(map[], l), LoopCalls(sid)).0.sessions[sid].history;
    var x: nat :| EntersFrom(m, h, x, LeadsBack(m), k);
    FoundClashes(m, k, key, h, x);
  }

  /** For every accepted all-inline pipeline with hooks that succeed and write what they
      declare: every run fits if and only if the declarations fit round the loop as well. */
  lemma CompositionExactly<L(!new)>(m: Machine, commit: Commit<L>, l: L)
    requires Ready(m) && Wired(m) && AllInline(m.phases) && Succeeds(m, commit) && Dutiful(m)
    ensures (forall calls, sid :: RunFits(m, commit, l, calls, sid)) <==> LoopMet(m)
  {
    if LoopMet(m) {
      forall calls, sid ensures RunFits(m, commit, l, calls, sid) {
        if Kept(m, commit, l, calls, sid) {
          CompositionIsSound(m, commit, l, calls, sid);
        }
      }
    } else {
      var k, key :| LeadsBack(m).value <= k < |m.phases| && key in m.phases[k].needs
                    && !FitsFrom(m.phases, LeadsBack(m), k, key);
      ClashShows(m, commit, l, "s", k, key);
    }
  }

  // ---------------------------------------------------------------- without an error

  lemma HopsStayEntered<L(!new)>(m: Machine, commit: Commit<L>, back: Option<nat>, q: nat)
    requires Chained(m) && Succeeds(m, commit) && Dutiful(m) && q < |m.phases|
    ensures HopsKeep(m, commit, q, (t: Tracker) => JustEntered(m, back, t))
  {
    forall t, l | Placed(m, t) && t.current.Some? && t.current.value < q && JustEntered(m, back, t)
      ensures JustEntered(m, back, Hop(m, commit, t, l).0)
    {
      assert ChainedAt(m, t.current.value);
      HopStaysEntered(m, commit, back, t, l, t.current.value + 1);
    }
  }

  /** AdvanceToState's walk leaves phase i for phase k: the one does not claim the other's
      entry as an internal state of its own. */
  predicate WalksTo(m: Machine, i: nat, k: nat) {
    i < |m.phases| && k < |m.phases| && m.phases[k].entry !in m.phases[i].internals
  }

  function BackOnce(m: Machine, sid: string, j: nat): seq<Call>
    requires |m.phases| > 0 && j < |m.phases|
  {
    [Begin(sid, ""), AdvanceTo(sid, m.phases[|m.phases| - 1].entry)] + [AdvanceTo(sid, m.phases[j].entry)]
  }

  function OnceRound(m: Machine, sid: string, j: nat, k: nat): seq<Call>
    requires |m.phases| > 0 && j < |m.phases| && k < |m.phases|
  {
    BackOnce(m, sid, j) + [AdvanceTo(sid, m.phases[k].entry)]
  }

  /** With a loop of two phases or more, four calls that return no error take a session
      round to any phase k of it. */
  lemma RoundWithoutError<L(!new)>(m: Machine, commit: Commit<L>, l: L, sid: string, j: nat, k: nat)
    returns (w: World<L>)
    requires Ready(m) && AllInline(m.phases) && Succeeds(m, commit) && Dutiful(m) && sid != ""
    requires LeadsBack(m) == Some(j) && j <= k < |m.phases| && j + 1 < |m.phases|
    requires WalksTo(m, 0, |m.phases| - 1) && (j == k || WalksTo(m, j, k))
    ensures RunsTo(m, commit, l, OnceRound(m, sid, j, k), w)
    ensures sid in w.sessions && JustEntered(m, Some(j), w.sessions[sid]) && w.sessions[sid].current == Some(k)
  {
    var last := |m.phases| - 1;
    AcceptedRounds(m, j);
    assert InlineAt(m.phases, k) && InlineAt(m.phases, last);
    var runs: Runs<L> := (calls, w1) => RunsTo(m, commit, l, calls, w1);
    w := RoundThrough(m, commit, l, runs, sid, j, k);
    assert RunsTo(m, commit, l, OnceRound(m, sid, j, k), w);
  }

  /** Error-free runs as a relation of the calls and where they lead. */
  type Runs<!L> = (seq<Call>, World<L>) -> bool

  ghost predicate RunsAre<L(!new)>(m: Machine, commit: Commit<L>, l: L, runs: Runs<L>) {
    forall calls, w {:trigger RunsTo(m, commit, l, calls, w)} :: runs(calls, w) <==> RunsTo(m, commit, l, calls, w)
  }

  /** What the calls below rely on. */
  ghost predicate Rounds(m: Machine, j: nat) {
    && Chained(m) && StepsOn(m) && StartsInline(m)
    && LeadsBack(m) == Some(j) && j + 1 < |m.phases|
    && LeadsTo(m, |m.phases| - 1, j) && WalksTo(m, |m.phases| - 1, j)
  }

  lemma AcceptedRounds(m: Machine, j: nat)
    requires Ready(m) && AllInline(m.phases) && LeadsBack(m) == Some(j) && j + 1 < |m.phases|
    ensures Rounds(m, j)
  {
    AcceptedIsChained(m);
    AcceptedStepsOn(m);
    assert InlineAt(m.phases, 0);
    AcceptedStartsInline(m, 0);
    assert InlineAt(m.phases, |m.phases| - 1);
    AcceptedLeads(m, j);
  }

  lemma LeadsBackIs(m: Machine, j: nat)
    requires Wired(m) && LeadsBack(m) == Some(j)
    ensures j < |m.phases| && InlineAt(m.phases, j) && m.phases[|m.phases| - 1].exit == m.phases[j].entry
  {
  }

  lemma AcceptedLeads(m: Machine, j: nat)
    requires Ready(m) && Wired(m) && LeadsBack(m) == Some(j) && j + 1 < |m.phases| && InlineAt(m.phases, |m.phases| - 1)
    ensures LeadsTo(m, |m.phases| - 1, j) && WalksTo(m, |m.phases| - 1, j)
  {
    LeadsBackIs(m, j);
    LeadsToEarlier(m, |m.phases| - 1, j);
  }

  lemma RoundThrough<L(!new)>(m: Machine, commit: Commit<L>, l: L, runs: Runs<L>, sid: string, j: nat, k: nat)
    returns (w: World<L>)
    requires RunsAre(m, commit, l, runs)
    requires Rounds(m, j) && Succeeds(m, commit) && Dutiful(m) && sid != "" && j <= k < |m.phases|
    requires InlineAt(m.phases, k) && InlineAt(m.phases, |m.phases| - 1)
    requires WalksTo(m, 0, |m.phases| - 1) && (j == k || WalksTo(m, j, k))
    ensures runs(OnceRound(m, sid, j, k), w)
    ensures sid in w.sessions && JustEntered(m, Some(j), w.sessions[sid]) && w.sessions[sid].current == Some(k)
  {
    var last := |m.phases| - 1;
    var w2 := BeginToLast(m, commit, l, runs, sid, last);
    var w3 := LegBack(m, commit, l, runs, [Begin(sid, ""), AdvanceTo(sid, m.phases[last].entry)], w2, sid, j);
    w := LegOn(m, commit, l, runs, BackOnce(m, sid, j), w3, sid, j, k);
  }

  lemma BackToPhase<L(!new)>(m: Machine, commit: Commit<L>, t: Tracker, l: L, j: nat, k: nat)
    requires Chained(m) && StepsOn(m) && Placed(m, t) && Succeeds(m, commit) && Dutiful(m)
    requires t.current == Some(j) && JustEntered(m, Some(j), t)
    requires j <= k < |m.phases| && InlineAt(m.phases, k) && (j == k || WalksTo(m, j, k))
    ensures var (t1, _, o) := Reach(m, commit, t, l, m.phases[k].entry);
            o.Done? && t1.current == Some(k) && JustEntered(m, Some(j), t1)
  {
    HopsStayEntered(m, commit, Some(j), k);
    ReachArrives(m, commit, t, l, k, (t: Tracker) => JustEntered(m, Some(j), t));
  }

  lemma BeginToLast<L(!new)>(m: Machine, commit: Commit<L>, l: L, runs: Runs<L>, sid: string, last: nat)
    returns (w: World<L>)
    requires RunsAre(m, commit, l, runs)
    requires Chained(m) && StepsOn(m) && StartsInline(m) && Succeeds(m, commit) && Dutiful(m) && sid != ""
    requires 0 < last < |m.phases| && InlineAt(m.phases, last) && WalksTo(m, 0, last)
    ensures runs([Begin(sid, ""), AdvanceTo(sid, m.phases[last].entry)], w)
    ensures sid in w.sessions && w.sessions[sid].current == Some(last) && JustEntered(m, None, w.sessions[sid])
  {
    StartIsEntered(m, commit, sid);
    HopsStayEntered(m, commit, None, last);
    w := BeginAndReach(m, commit, l, sid, last, (t: Tracker) => JustEntered(m, None, t));
  }

  lemma LastToBack<L(!new)>(m: Machine, commit: Commit<L>, t: Tracker, l: L, j: nat)
    requires Chained(m) && StepsOn(m) && Placed(m, t) && Succeeds(m, commit) && Dutiful(m)
    requires LeadsBack(m) == Some(j) && j + 1 < |m.phases| && t.current == Some(|m.phases| - 1)
    requires LeadsTo(m, |m.phases| - 1, j) && WalksTo(m, |m.phases| - 1, j) && JustEntered(m, None, t)
    ensures var (t1, _, o) := Reach(m, commit, t, l, m.phases[j].entry);
            o.Done? && t1.current == Some(j) && JustEntered(m, Some(j), t1)
  {
    ReachBack(m, commit, t, l, j);
    HopStaysEntered(m, commit, None, t, l, j);
  }

  lemma LegBack<L(!new)>(m: Machine, commit: Commit<L>, l: L, runs: Runs<L>, calls: seq<Call>, w: World<L>, sid: string, j: nat)
    returns (w1: World<L>)
    requires Chained(m) && StepsOn(m) && Succeeds(m, commit) && Dutiful(m)
    requires LeadsBack(m) == Some(j) && j + 1 < |m.phases|
    requires LeadsTo(m, |m.phases| - 1, j) && WalksTo(m, |m.phases| - 1, j)
    requires RunsAre(m, commit, l, runs) && runs(calls, w) && sid in w.sessions
    requires w.sessions[sid].current == Some(|m.phases| - 1) && JustEntered(m, None, w.sessions[sid])
    ensures runs(calls + [AdvanceTo(sid, m.phases[j].entry)], w1)
    ensures sid in w1.sessions && w1.sessions[sid].current == Some(j) && JustEntered(m, Some(j), w1.sessions[sid])
  {
    assert RunsTo(m, commit, l, calls, w);
    LastToBack(m, commit, w.sessions[sid], w.lineage, j);
    w1 := AdvanceOnce(m, commit, l, calls, w, sid, m.phases[j].entry);
  }

  lemma LegOn<L(!new)>(m: Machine, commit: Commit<L>, l: L, runs: Runs<L>, calls: seq<Call>, w: World<L>, sid: string,
                       j: nat, k: nat)
    returns (w1: World<L>)
    requires Chained(m) && StepsOn(m) && Succeeds(m, commit) && Dutiful(m)
    requires j <= k < |m.phases| && InlineAt(m.phases, k) && (j == k || WalksTo(m, j, k))
    requires RunsAre(m, commit, l, runs) && runs(calls, w) && sid in w.sessions
    requires w.sessions[sid].current == Some(j) && JustEntered(m, Some(j), w.sessions[sid])
    ensures runs(calls + [AdvanceTo(sid, m.phases[k].entry)], w1)
    ensures sid in w1.sessions && w1.sessions[sid].current == Some(k) && JustEntered(m, Some(j), w1.sessions[sid])
  {
    assert RunsTo(m, commit, l, calls, w);
    BackToPhase(m, commit, w.sessions[sid], w.lineage, j, k);
    w1 := AdvanceOnce(m, commit, l, calls, w, sid, m.phases[k].entry);
  }

  // ---------------------------------------------------------------- an instance

  function Typed(name: string): KeyType {
    KeyType(name, true, map[], false)
  }

  /** A phase that writes, on Exit, the key it provides. */
  function Writing(name: string, entry: State, exit: State, needs: Schema, gives: Schema): Phase {
    Phase(name, Inline, entry, exit, [], [], needs, gives,
          (ctx: Context) => Effect(map[], false), (ctx: Context, msg: Message) => Effect(map[], false),
          (ctx: Context) => false, (ctx: Context) => Effect(map key <- gives :: Bytes([]), false))
  }

  const FIRST := Writing("a", "A", "B", map[], map["k" := Typed("T")])
  const SECOND := Writing("b", "B", "C", map["k" := Typed("T")], map[])
  const THIRD := Writing("c", "C", "B", map[], map["k" := Typed("U")])

  /** a provides k as T, b needs it as T, and c, which leads back to b, provides it as U. */
  const CLASHING := Machine([FIRST, SECOND, THIRD], map["A" := 0, "B" := 1, "C" := 2], map[], "A")

  lemma ClashingPhasesOk()
    ensures Accepted(CLASHING.phases) && AllInline(CLASHING.phases)
  {
    var phases := CLASHING.phases;
    assert InlineAt(phases, 0) && InlineAt(phases, 1) && InlineAt(phases, 2);
    assert NamesBefore(phases, 0) == {} && NamesBefore(phases, 1) == {"a"} && NamesBefore(phases, 2) == {"a", "b"};
    assert ProvidedBefore(phases, 0) == map[] && ProvidedBefore(phases, 1) == map["k" := Typed("T")];
    assert PhaseOk(phases, 0);
    assert PhaseOk(phases, 1);
    assert PhaseOk(phases, 2);
  }

  lemma ClashingTables()
    requires AllInline(CLASHING.phases)
    ensures Derived(CLASHING) && LeadsBack(CLASHING) == Some(1)
  {
    assert FirstInline(CLASHING.phases, 0);
  }

  lemma ClashingIsAccepted()
    ensures Ready(CLASHING) && AllInline(CLASHING.phases) && Dutiful(CLASHING) && LeadsBack(CLASHING) == Some(1)
  {
    ClashingPhasesOk();
    ClashingTables();
  }

  lemma ClashingClashes()
    ensures Clashes(CLASHING, 1, "k") && CameFrom(CLASHING.phases, Some(1), 1, "k") == Some(2)
  {
    assert "k" in CLASHING.phases[2].gives;
    assert LastIn(CLASHING.phases, 0, 3, "k") == Some(2);
  }

  function NoCommit<L>(): Commit<L> {
    (p: Phase, ctx: Context, l: L) => (l, true)
  }

  /** Accepted, and four calls that return no error enter b, which was promised a T, with the
      U that c wrote, although every phase kept its declarations. */
  lemma AcceptedPipelineClashes<L(!new)>(l: L, sid: string) returns (w: World<L>, x: nat)
    requires sid != ""
    ensures Ready(CLASHING) && RunsTo(CLASHING, NoCommit(), l, OnceRound(CLASHING, sid, 1, 1), w)
    ensures sid in w.sessions
    ensures var h := w.sessions[sid].history;
            && AllDisciplined(CLASHING.phases, h) && Enters(h, x, 1)
            && "k" in h[x].writers && h[x].writers["k"] == 2 && !WellWritten(CLASHING.phases, h[x])
  {
    ClashingIsAccepted();
    ClashingClashes();
    w := RoundWithoutError(CLASHING, NoCommit(), l, sid, 1, 1);
    var h := w.sessions[sid].history;
    x := |h| - 1;
    FoundClashes(CLASHING, 1, "k", h, x);
  }
}
