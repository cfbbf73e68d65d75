/** What every run of the session runner keeps: the order in which a session's hooks are
    called, where a cascade lands, and when AdvanceToState succeeds. */
module RunnerOrder {
  import opened Wrappers
  import opened Pipeline
  import opened Runner

  // ---------------------------------------------------------------- the shape of a history

  predicate LastInline(phases: seq<Phase>, i: nat) {
    i < |phases| && InlineAt(phases, i) && forall m :: i < m < |phases| ==> !InlineAt(phases, m)
  }

  /** The last inline phase does not lead back into the pipeline: its exit state is
      STATE_NONE or a state no phase enters. */
  predicate Acyclic(phases: seq<Phase>) {
    forall i, j :: 0 <= i < |phases| && 0 <= j < |phases| && LastInline(phases, i) && InlineAt(phases, j) ==>
                     phases[j].entry != phases[i].exit
  }

  /** Call b may come right after call a: messages (and caller-side Sets) and the one Exit
      follow within the phase, and Enter follows the Exit of the inline phase before. */
  predicate Follows(phases: seq<Phase>, a: HookCall, b: HookCall) {
    && a.phase < |phases|
    && b.phase < |phases|
    && InlineAt(phases, b.phase)
    && match b.kind
       case Enter => a.kind == Exit && PrecedesInline(phases, a.phase, b.phase)
       case OnMessage => a.kind != Exit && a.phase == b.phase && b.msg.msgType in phases[b.phase].consumes
       case Exit => a.kind != Exit && a.phase == b.phase
       case Seeded => a.kind != Exit && a.phase == b.phase
  }

  /** Enter(p1) OnMessage* Exit(p1) Enter(p2) ..., in pipeline order, cut off anywhere. */
  predicate InOrder(phases: seq<Phase>, calls: seq<HookCall>) {
    && (|calls| > 0 ==> calls[0].kind == Enter && calls[0].phase < |phases| && FirstInline(phases, calls[0].phase))
    && forall x :: 0 < x < |calls| ==> Follows(phases, calls[x - 1], calls[x])
  }

  /** The history is in order and ends where the tracker is. */
  predicate Tracked(m: Machine, t: Tracker) {
    && |t.history| > 0
    && InOrder(m.phases, t.history)
    && var last := t.history[|t.history| - 1];
       match t.current
       case Some(k) => last.phase == k && last.kind != Exit
       case None => LastInline(m.phases, last.phase) && last.kind == Exit
  }

  /** Read off an ordered history: phases never go back, a phase's Enter comes before
      everything else it receives and its Exit after, so each happens at most once. */
  lemma {:induction false} EachHookOnce(phases: seq<Phase>, calls: seq<HookCall>, x: nat, y: nat)
    requires InOrder(phases, calls) && x < y < |calls|
    ensures calls[x].phase <= calls[y].phase
    ensures calls[x].phase == calls[y].phase ==> calls[x].kind != Exit && calls[y].kind != Enter
    decreases y - x
  {
    assert Follows(phases, calls[y - 1], calls[y]);
    if x < y - 1 {
      EachHookOnce(phases, calls, x, y - 1);
    }
  }

  // ---------------------------------------------------------------- one hop

  lemma InlineAfter(phases: seq<Phase>, k: nat, n: nat) returns (j: nat)
    requires k < n < |phases| && InlineAt(phases, k) && InlineAt(phases, n)
    ensures j < |phases| && InlineAt(phases, j) && PrecedesInline(phases, k, j)
  {
    j := k + 1;
    while !InlineAt(phases, j)
      invariant k < j <= n
      invariant forall m :: k < m < j ==> !InlineAt(phases, m)
      decreases n - j
    {
      j := j + 1;
    }
  }

  lemma ChainExits(m: Machine, k: nat, j: nat)
    requires Ready(m) && j < |m.phases| && InlineAt(m.phases, j) && PrecedesInline(m.phases, k, j)
    ensures m.phases[k].exit == m.phases[j].entry != STATE_NONE
    ensures m.phases[j].entry in m.byEntryState && m.byEntryState[m.phases[j].entry] == j
  {
    assert PhaseOk(m.phases, j);
  }

  /** An exit state names the next inline phase when there is one, so a hop always moves forward. */
  predicate ForwardAt(m: Machine, k: nat) {
    k < |m.phases| && InlineAt(m.phases, k) ==>
      && (m.phases[k].exit in m.byEntryState ==>
            var j := m.byEntryState[m.phases[k].exit];
            j < |m.phases| && InlineAt(m.phases, j) && PrecedesInline(m.phases, k, j))
      && (m.phases[k].exit == STATE_NONE || m.phases[k].exit !in m.byEntryState ==> LastInline(m.phases, k))
  }

  predicate Forward(m: Machine) {
    Wired(m) && forall k: nat {:trigger ForwardAt(m, k)} :: k < |m.phases| ==> ForwardAt(m, k)
  }

  lemma HopsGoForward(m: Machine)
    requires Ready(m) && Acyclic(m.phases)
    ensures Forward(m)
  {
    ReadyIsWired(m);
    forall k: nat | k < |m.phases| && InlineAt(m.phases, k)
      ensures ForwardAt(m, k)
    {
      if n :| k < n < |m.phases| && InlineAt(m.phases, n) {
        var j := InlineAfter(m.phases, k, n);
        ChainExits(m, k, j);
      } else {
        assert LastInline(m.phases, k);
      }
    }
  }

  /** The condition is exact: a last exit state that some phase enters by leads back. */
  lemma ForwardIsAcyclic(m: Machine)
    requires Ready(m)
    ensures Forward(m) <==> Acyclic(m.phases)
  {
    if Acyclic(m.phases) {
      HopsGoForward(m);
    } else {
      var i, j :| 0 <= i < |m.phases| && 0 <= j < |m.phases| && LastInline(m.phases, i) && InlineAt(m.phases, j)
                  && m.phases[j].entry == m.phases[i].exit;
      assert m.phases[i].exit in m.byEntryState;
      assert !ForwardAt(m, i);
    }
  }

  /** The initial state is the entry of the first inline phase. */
  predicate StartsFirst(m: Machine) {
    m.initialState in m.byEntryState ==>
      var k := m.byEntryState[m.initialState];
      k < |m.phases| && FirstInline(m.phases, k)
  }

  lemma SessionsStartFirst(m: Machine)
    requires Ready(m)
    ensures StartsFirst(m)
  {
    if m.initialState in m.byEntryState {
      var k := m.byEntryState[m.initialState];
      var i := FirstUpTo(m.phases, k);
      assert FirstInline(m.phases, i);
    }
  }

  lemma FirstUpTo(phases: seq<Phase>, k: nat) returns (i: nat)
    requires k < |phases| && InlineAt(phases, k)
    ensures i <= k && FirstInline(phases, i)
  {
    i := 0;
    while !InlineAt(phases, i)
      invariant 0 <= i <= k
      invariant forall x :: 0 <= x < i ==> !InlineAt(phases, x)
      decreases k - i
    {
      i := i + 1;
    }
  }

  function ExitCall(m: Machine, t: Tracker): HookCall
    requires t.current.Some? && t.current.value < |m.phases|
  {
    HookCall(Exit, t.current.value, NO_MESSAGE, t.ctx, t.writers, m.phases[t.current.value].onExit(t.ctx))
  }

  /** t1 is t after one successful hop, which added the Exit of one phase and `enter`. */
  predicate Hopped(m: Machine, t: Tracker, t1: Tracker, enter: HookCall) {
    && t.current.Some? && t.current.value < |m.phases|
    && m.phases[t.current.value].exit in m.byEntryState
    && t1.current == Some(m.byEntryState[m.phases[t.current.value].exit])
    && t1.history == t.history + [ExitCall(m, t)] + [enter]
    && enter.kind == Enter && enter.phase == t1.current.value
  }

  /** t1 is t after the last phase's exit. */
  predicate Exited(m: Machine, t: Tracker, t1: Tracker) {
    && t.current.Some? && t.current.value < |m.phases|
    && m.phases[t.current.value].exit == STATE_NONE
    && t1.current == t.current
    && t1.history == t.history + [ExitCall(m, t)]
  }

  lemma HopHistory<L>(m: Machine, commit: Commit<L>, t: Tracker, l: L) returns (enter: HookCall)
    requires Wired(m) && Placed(m, t) && t.current.Some?
    ensures Hop(m, commit, t, l).2.Entered? ==> Hopped(m, t, Hop(m, commit, t, l).0, enter)
    ensures Hop(m, commit, t, l).2.ReachedEnd? ==> Exited(m, t, Hop(m, commit, t, l).0)
  {
    var (t1, _, end) := Hop(m, commit, t, l);
    enter := t1.history[|t1.history| - 1];
  }

  lemma AppendInOrder(phases: seq<Phase>, calls: seq<HookCall>, c: HookCall)
    requires InOrder(phases, calls) && |calls| > 0 && Follows(phases, calls[|calls| - 1], c)
    ensures InOrder(phases, calls + [c])
  {
    var all := calls + [c];
    forall x | 0 < x < |all|
      ensures Follows(phases, all[x - 1], all[x])
    {
      if x < |calls| {
        assert Follows(phases, calls[x - 1], calls[x]);
      }
    }
  }

  lemma HoppedKeepsOrder(m: Machine, t: Tracker, t1: Tracker, enter: HookCall)
    requires Forward(m) && Placed(m, t) && Tracked(m, t) && Hopped(m, t, t1, enter)
    ensures Tracked(m, t1) && t.current.value < t1.current.value < |m.phases|
  {
    assert ForwardAt(m, t.current.value);
    AppendInOrder(m.phases, t.history, ExitCall(m, t));
    AppendInOrder(m.phases, t.history + [ExitCall(m, t)], enter);
  }

  lemma ExitedKeepsOrder(m: Machine, t: Tracker, t1: Tracker)
    requires Forward(m) && Placed(m, t) && Tracked(m, t) && Exited(m, t, t1)
    ensures Tracked(m, t1.(state := STATE_NONE, current := None))
  {
    assert ForwardAt(m, t.current.value);
    AppendInOrder(m.phases, t.history, ExitCall(m, t));
  }

  // ---------------------------------------------------------------- the cascade

  /** Where a cascade that started in `before` may stop: it left the phase it was in, every
      phase it left after that had nothing to wait for, and the one it stopped in has. */
  predicate Landed(m: Machine, before: Tracker, after: Tracker) {
    var n := |before.history|;
    && before.current.Some?
    && n < |after.history|
    && after.history[..n] == before.history
    && after.history[n].kind == Exit
    && after.history[n].phase == before.current.value
    && after.history[n].seen == before.ctx
    && (forall x :: n < x < |after.history| && after.history[x].kind == Exit ==> LeftIdle(m, after.history[x]))
    && (after.current.Some? ==>
          && before.current.value < after.current.value < |m.phases|
          && !NothingToDo(m.phases[after.current.value], after.ctx))
  }

  /** The phase consumes no messages and is complete. */
  predicate NothingToDo(p: Phase, ctx: Context) {
    p.consumes == [] && p.complete(ctx)
  }

  predicate LeftIdle(m: Machine, c: HookCall) {
    c.phase < |m.phases| && NothingToDo(m.phases[c.phase], c.seen)
  }

  /** A pass-through hop followed by a landing is a landing. */
  lemma HopThenLand(m: Machine, t: Tracker, t1: Tracker, enter: HookCall, t2: Tracker)
    requires Hopped(m, t, t1, enter) && Landed(m, t1, t2)
    requires t.current.value < t1.current.value < |m.phases| && PassesThrough(m, t1.current.value, t1.ctx)
    ensures Landed(m, t, t2)
  {
    var n := |t.history|;
    assert t2.history[..n] == t2.history[..n + 2][..n] == t.history;
    assert t2.history[n] == t2.history[..n + 2][n];
    assert t2.history[n + 1] == t2.history[..n + 2][n + 1];
    assert LeftIdle(m, t2.history[n + 2]);
  }

  lemma HopAlone(m: Machine, t: Tracker, t1: Tracker, enter: HookCall)
    requires Hopped(m, t, t1, enter) && t.current.value < t1.current.value < |m.phases|
    requires !PassesThrough(m, t1.current.value, t1.ctx)
    ensures Landed(m, t, t1)
  {
  }

  lemma ExitAlone(m: Machine, t: Tracker, t1: Tracker)
    requires Exited(m, t, t1)
    ensures Landed(m, t, t1.(state := STATE_NONE, current := None))
  {
  }

  lemma {:induction false} CascadeEnds<L>(m: Machine, commit: Commit<L>, t: Tracker, l: L, hops: nat)
    requires Forward(m) && Placed(m, t) && t.current.Some? && hops + t.current.value > |m.phases|
    ensures Cascade(m, commit, t, l, hops).2 != Failed(HopLimit) && Cascade(m, commit, t, l, hops).2 != Panicked
    decreases hops
  {
    var enter := HopHistory(m, commit, t, l);
    var (t1, l1, end) := Hop(m, commit, t, l);
    if end.Entered? && PassesThrough(m, t1.current.value, t1.ctx) {
      assert ForwardAt(m, t.current.value);
      CascadeEnds(m, commit, t1, l1, hops - 1);
    }
  }

  /** The hop limit is never what ends a cascade, and a cascade that succeeds stops at the
      first later phase that consumes messages or is incomplete, or at the end. */
  lemma {:induction false} CascadeLands<L>(m: Machine, commit: Commit<L>, t: Tracker, l: L, hops: nat)
    requires Forward(m) && Placed(m, t) && t.current.Some? && Tracked(m, t)
    requires hops + t.current.value > |m.phases|
    ensures var (t1, _, o) := Cascade(m, commit, t, l, hops);
            o != Failed(HopLimit) && o != Panicked && (o.Done? ==> Tracked(m, t1) && Landed(m, t, t1))
    decreases hops
  {
    CascadeEnds(m, commit, t, l, hops);
    var enter := HopHistory(m, commit, t, l);
    var (t1, l1, end) := Hop(m, commit, t, l);
    if end.Entered? {
      HoppedKeepsOrder(m, t, t1, enter);
      if PassesThrough(m, t1.current.value, t1.ctx) {
        CascadeLands(m, commit, t1, l1, hops - 1);
        var (t2, _, o) := Cascade(m, commit, t1, l1, hops - 1);
        if o.Done? {
          HopThenLand(m, t, t1, enter, t2);
        }
      } else {
        HopAlone(m, t, t1, enter);
      }
    } else if end.ReachedEnd? {
      ExitedKeepsOrder(m, t, t1);
      ExitAlone(m, t, t1);
    }
  }

  // ---------------------------------------------------------------- AdvanceToState

  /** No hook fails and no commit does. */
  ghost predicate Succeeds<L(!new)>(m: Machine, commit: Commit<L>) {
    && (forall k, ctx :: 0 <= k < |m.phases| ==> !m.phases[k].onExit(ctx).failed && !m.phases[k].onEnter(ctx).failed)
    && (forall p, ctx, l :: commit(p, ctx, l).1)
  }

  predicate LaterEntry(m: Machine, k: nat, target: State) {
    exists j :: k < j < |m.phases| && InlineAt(m.phases, j) && m.phases[j].entry == target
  }

  lemma HopSucceeds<L(!new)>(m: Machine, commit: Commit<L>, t: Tracker, l: L)
    requires Wired(m) && Placed(m, t) && t.current.Some? && Succeeds(m, commit)
    ensures Hop(m, commit, t, l).2 in {Entered, ReachedEnd, Broke(FrameworkBug)}
    ensures !Hop(m, commit, t, l).2.Entered? ==>
              var exit := m.phases[t.current.value].exit;
              exit == STATE_NONE || exit !in m.byEntryState
  {
  }

  /** The entries after phase k are the next inline phase's and those after it. */
  lemma LaterEntryStep(m: Machine, k: nat, target: State)
    requires Forward(m) && k < |m.phases| && InlineAt(m.phases, k)
    ensures var exit := m.phases[k].exit;
            if exit == STATE_NONE || exit !in m.byEntryState then !LaterEntry(m, k, target)
            else
              var j := m.byEntryState[exit];
              && k < j < |m.phases|
              && (LaterEntry(m, k, target) <==> exit == target || LaterEntry(m, j, target))
  {
    assert ForwardAt(m, k);
  }

  /** Walking forward finds exactly the current state and the entries of later phases. */
  lemma {:induction false} WalkFinds<L(!new)>(m: Machine, commit: Commit<L>, t: Tracker, l: L, target: State, hops: nat)
    requires Forward(m) && Placed(m, t) && t.current.Some? && Succeeds(m, commit)
    requires hops + t.current.value > |m.phases|
    ensures var (t1, _, o) := WalkTo(m, commit, t, l, target, hops);
            && (o.Done? <==> t.state == target || LaterEntry(m, t.current.value, target))
            && (o.Done? ==> t1.state == target)
            && o != Failed(HopLimit)
    decreases hops
  {
    if t.state != target {
      LaterEntryStep(m, t.current.value, target);
      HopSucceeds(m, commit, t, l);
      var enter := HopHistory(m, commit, t, l);
      var (t1, l1, end) := Hop(m, commit, t, l);
      if end.Entered? {
        WalkFinds(m, commit, t1, l1, target, hops - 1);
      }
    }
  }

  /** AdvanceToState on a session that has not ended: it returns nil exactly when the target
      is the current state, an internal state of the current phase, or a later entry state. */
  lemma AdvanceToStateExactly<L(!new)>(m: Machine, commit: Commit<L>, t: Tracker, l: L, target: State)
    requires Ready(m) && Wired(m) && Acyclic(m.phases) && Placed(m, t) && t.current.Some? && Succeeds(m, commit)
    ensures Reach(m, commit, t, l, target).2.Done? <==>
              || target == t.state
              || target in m.phases[t.current.value].internals
              || LaterEntry(m, t.current.value, target)
    ensures Reach(m, commit, t, l, target).2 != Failed(HopLimit)
  {
    HopsGoForward(m);
    WalkFinds(m, commit, t, l, target, |m.phases| + 1);
  }

  /** A call that returns nil leaves the session at the target, unless that is an internal
      state of the phase it was in. Compose lets a later phase enter by such a state; then
      AdvanceToState does not move. */
  lemma AdvanceToStateLands<L(!new)>(m: Machine, commit: Commit<L>, t: Tracker, l: L, target: State)
    requires Ready(m) && Wired(m) && Acyclic(m.phases) && Placed(m, t) && t.current.Some? && Succeeds(m, commit)
    requires Reach(m, commit, t, l, target).2.Done?
    ensures Reach(m, commit, t, l, target).0.state == target <==>
              target == t.state || target !in m.phases[t.current.value].internals
  {
    HopsGoForward(m);
    WalkFinds(m, commit, t, l, target, |m.phases| + 1);
  }

  lemma {:induction false} WalkKeepsOrder<L>(m: Machine, commit: Commit<L>, t: Tracker, l: L, target: State, hops: nat)
    requires Forward(m) && Placed(m, t) && Tracked(m, t)
    ensures WalkTo(m, commit, t, l, target, hops).2.Done? ==> Tracked(m, WalkTo(m, commit, t, l, target, hops).0)
    decreases hops
  {
    if hops > 0 && t.state != target && t.current.Some? {
      var enter := HopHistory(m, commit, t, l);
      var (t1, l1, end) := Hop(m, commit, t, l);
      if end.Entered? {
        HoppedKeepsOrder(m, t, t1, enter);
        WalkKeepsOrder(m, commit, t1, l1, target, hops - 1);
      }
    }
  }

  // ---------------------------------------------------------------- whole runs

  lemma DeliveryKeepsOrder(m: Machine, t: Tracker, msg: Message, e: Effect)
    requires Placed(m, t) && Tracked(m, t) && t.current.Some?
    requires msg.msgType in m.phases[t.current.value].consumes
    ensures Tracked(m, CallHook(t, OnMessage, t.current.value, msg, e))
  {
    AppendInOrder(m.phases, t.history, CallHook(t, OnMessage, t.current.value, msg, e).history[|t.history|]);
  }

  lemma MessageKeepsOrder<L>(m: Machine, commit: Commit<L>, t: Tracker, l: L, msg: Message)
    requires Forward(m) && Placed(m, t) && Tracked(m, t)
    ensures Deliver(m, commit, t, l, msg).2.Done? ==> Tracked(m, Deliver(m, commit, t, l, msg).0)
  {
    if t.current.Some? && msg.msgType in m.phases[t.current.value].consumes {
      var k := t.current.value;
      var e := m.phases[k].onMessage(t.ctx, msg);
      DeliveryKeepsOrder(m, t, msg, e);
      CascadeFromHere(m, commit, CallHook(t, OnMessage, k, msg, e), l);
    }
  }

  lemma CascadeFromHere<L>(m: Machine, commit: Commit<L>, t: Tracker, l: L)
    requires Forward(m) && Placed(m, t) && t.current.Some? && Tracked(m, t)
    ensures Cascade(m, commit, t, l, |m.phases| + 1).2.Done? ==> Tracked(m, Cascade(m, commit, t, l, |m.phases| + 1).0)
  {
    CascadeLands(m, commit, t, l, |m.phases| + 1);
  }

  /** No message ever runs into the hop limit. */
  lemma MessageEnds<L>(m: Machine, commit: Commit<L>, t: Tracker, l: L, msg: Message)
    requires Forward(m) && Placed(m, t)
    ensures Deliver(m, commit, t, l, msg).2 != Failed(HopLimit)
  {
    if t.current.Some? {
      var k := t.current.value;
      var e := m.phases[k].onMessage(t.ctx, msg);
      CascadeEnds(m, commit, CallHook(t, OnMessage, k, msg, e), l, |m.phases| + 1);
    }
  }

  lemma SetKeepsOrder(m: Machine, t: Tracker, key: string, value: Value)
    requires Placed(m, t) && Tracked(m, t)
    ensures Tracked(m, SetContext(t, key, value))
  {
    if t.current.Some? {
      AppendInOrder(m.phases, t.history, SetContext(t, key, value).history[|t.history|]);
    }
  }

  lemma CallKeepsOrder<L>(m: Machine, commit: Commit<L>, s: Option<Tracker>, l: L, call: Call)
    requires Forward(m) && StartsFirst(m) && (s.Some? ==> Placed(m, s.value) && Tracked(m, s.value))
    requires SessionStep(m, commit, s, l, call).2.Done?
    ensures var s1 := SessionStep(m, commit, s, l, call).0; s1.Some? ==> Tracked(m, s1.value)
  {
    match call
    case Begin(_, _) =>
    case Handle(_, msg) => MessageKeepsOrder(m, commit, s.value, l, msg);
    case AdvanceTo(_, target) => WalkKeepsOrder(m, commit, s.value, l, target, |m.phases| + 1);
    case End(_) =>
    case Seed(_, key, value) => SetKeepsOrder(m, s.value, key, value);
  }

  ghost predicate TrackedIn<L>(m: Machine, w: World<L>, sid: string) {
    sid in w.sessions ==> Tracked(m, w.sessions[sid])
  }

  /** The calls made for session sid return no error, whatever the others do. */
  predicate FreeOfErrors(calls: seq<Call>, os: seq<Outcome>, sid: string) {
    |os| == |calls| && forall i :: 0 <= i < |calls| && calls[i].sid == sid ==> os[i].Done?
  }

  lemma StepKeepsOrder<L>(m: Machine, commit: Commit<L>, w: World<L>, call: Call, sid: string)
    requires Forward(m) && StartsFirst(m) && AllPlaced(m, w) && TrackedIn(m, w, sid)
    requires call.sid == sid ==> Step(m, commit, w, call).1.Done?
    ensures TrackedIn(m, Step(m, commit, w, call).0, sid)
  {
    if call.sid == sid {
      CallKeepsOrder(m, commit, Lookup(w.sessions, sid), w.lineage, call);
    }
  }

  lemma FreeAfterFirst(calls: seq<Call>, os: seq<Outcome>, o: Outcome, rest: seq<Outcome>, sid: string)
    requires |calls| > 0 && os == [o] + rest && FreeOfErrors(calls, os, sid)
    ensures calls[0].sid == sid ==> o.Done?
    ensures FreeOfErrors(calls[1..], rest, sid)
  {
    assert os[0] == o;
    forall i | 0 <= i < |calls[1..]| && calls[1..][i].sid == sid ensures rest[i].Done? {
      assert rest[i] == os[i + 1] && calls[1..][i] == calls[i + 1];
    }
  }

  /** Over any run of serialised calls for any number of sessions, a session whose own calls
      return no error stays in order. */
  lemma {:induction false} RunsKeepOrder<L>(m: Machine, commit: Commit<L>, w: World<L>, calls: seq<Call>, sid: string)
    requires Forward(m) && StartsFirst(m) && AllPlaced(m, w) && TrackedIn(m, w, sid)
    requires FreeOfErrors(calls, Run(m, commit, w, calls).1, sid)
    ensures TrackedIn(m, Run(m, commit, w, calls).0, sid)
    decreases |calls|
  {
    if calls == [] {
    } else {
      var (w1, o) := Step(m, commit, w, calls[0]);
      FreeAfterFirst(calls, Run(m, commit, w, calls).1, o, Run(m, commit, w1, calls[1..]).1, sid);
      StepKeepsOrder(m, commit, w, calls[0], sid);
      RunsKeepOrder(m, commit, w1, calls[1..], sid);
    }
  }

  /** For every pipeline Compose accepts whose last phase does not lead back, and every run,
      the hook calls of each session whose own calls return no error are
      Enter(p1) OnMessage* Exit(p1) Enter(p2) ... in pipeline order. */
  lemma HooksInPipelineOrder<L>(m: Machine, commit: Commit<L>, l: L, calls: seq<Call>, sid: string)
    requires Ready(m) && Wired(m) && Acyclic(m.phases)
    requires FreeOfErrors(calls, Run(m, commit, World(map[], l), calls).1, sid)
    ensures var w := Run(m, commit, World(map[], l), calls).0;
            sid in w.sessions ==> InOrder(m.phases, w.sessions[sid].history)
  {
    HopsGoForward(m);
    SessionsStartFirst(m);
    RunsKeepOrder(m, commit, World(map[], l), calls, sid);
  }
}
