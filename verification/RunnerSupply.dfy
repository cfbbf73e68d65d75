/** Context flow between phases: what Compose's schema check buys at run time, for every
    accepted all-inline pipeline, whether or not its last phase leads back
    (pkg/ares/phase/runner.go). */
module RunnerSupply {
  import opened Wrappers
  import opened Pipeline
  import opened Runner
  import RunnerOrder

  // ---------------------------------------------------------------- who provided a key last

  /** The last phase of positions lo..hi-1 that declares `key`. */
  function LastIn(phases: seq<Phase>, lo: nat, hi: nat, key: string): (p: Option<nat>)
    requires hi <= |phases|
    ensures p.Some? ==> lo <= p.value < hi && key in phases[p.value].gives
    decreases hi
  {
    if hi <= lo then None
    else if key in phases[hi - 1].gives then Some(hi - 1)
    else LastIn(phases, lo, hi - 1, key)
  }

  lemma {:induction false} LastInSplits(phases: seq<Phase>, lo: nat, mid: nat, hi: nat, key: string)
    requires lo <= mid <= hi <= |phases|
    ensures LastIn(phases, lo, hi, key)
         == if LastIn(phases, mid, hi, key).Some? then LastIn(phases, mid, hi, key) else LastIn(phases, lo, mid, key)
    decreases hi
  {
    if mid == hi {
    } else if key !in phases[hi - 1].gives {
      LastInSplits(phases, lo, mid, hi - 1, key);
    }
  }

  /** Compose's accumulated schema holds, under each key, its last provider's declaration. */
  lemma {:induction false} LastInProvides(phases: seq<Phase>, k: nat, key: string)
    requires k <= |phases|
    ensures key in ProvidedBefore(phases, k) <==> LastIn(phases, 0, k, key).Some?
    ensures key in ProvidedBefore(phases, k) ==>
              ProvidedBefore(phases, k)[key] == phases[LastIn(phases, 0, k, key).value].gives[key]
    decreases k
  {
    if k == 0 {
    } else if key !in phases[k - 1].gives {
      LastInProvides(phases, k - 1, key);
    }
  }

  /** Where the value under `key` comes from on arrival at position k: on the way from the
      start (None), or after the pipeline has led back to position j (Some(j)). */
  function CameFrom(phases: seq<Phase>, back: Option<nat>, k: nat, key: string): (p: Option<nat>)
    requires k <= |phases|
    ensures p.Some? ==> p.value < |phases| && key in phases[p.value].gives
  {
    match back
    case None => LastIn(phases, 0, k, key)
    case Some(j) =>
      var here := LastIn(phases, j, k, key);
      if here.Some? then here else LastIn(phases, 0, |phases|, key)
  }

  /** From the last Exit to the phase the pipeline leads back to. */
  lemma CameRound(phases: seq<Phase>, back: Option<nat>, j: nat, key: string)
    requires j <= |phases| && (back.Some? ==> back.value <= |phases|)
    ensures CameFrom(phases, back, |phases|, key) == CameFrom(phases, Some(j), j, key)
  {
    if back.Some? {
      LastInSplits(phases, 0, back.value, |phases|, key);
    }
  }

  function Writer(writers: map<string, nat>, key: string): Option<nat> {
    if key in writers then Some(writers[key]) else None
  }

  /** About to enter position k: each key was last written by its last provider. */
  ghost predicate Arrived(phases: seq<Phase>, back: Option<nat>, k: nat, ctx: Context, writers: map<string, nat>) {
    && k <= |phases|
    && writers.Keys <= ctx.values.Keys
    && forall key :: Writer(writers, key) == CameFrom(phases, back, k, key)
  }

  /** In phase k: the same, or the phase has written the key since. */
  ghost predicate At(phases: seq<Phase>, back: Option<nat>, k: nat, ctx: Context, writers: map<string, nat>) {
    && k < |phases|
    && writers.Keys <= ctx.values.Keys
    && forall key :: Writer(writers, key) == CameFrom(phases, back, k, key)
                     || (Writer(writers, key) == Some(k) && key in phases[k].gives)
  }

  // ---------------------------------------------------------------- declarations kept

  /** A phase that keeps its declarations: it writes only keys it provides, and has written
      all of them itself once its Exit succeeds. Caller-side Sets are held to the same. */
  predicate Disciplined(phases: seq<Phase>, c: HookCall) {
    && c.phase < |phases|
    && (forall key <- c.effect.writes :: key in phases[c.phase].gives)
    && (c.kind == Exit && !c.effect.failed ==>
          forall key <- phases[c.phase].gives ::
            key in c.effect.writes || (key in c.writers && c.writers[key] == c.phase))
  }

  predicate AllDisciplined(phases: seq<Phase>, calls: seq<HookCall>) {
    forall x :: 0 <= x < |calls| ==> Disciplined(phases, calls[x])
  }

  lemma Shorter(phases: seq<Phase>, calls: seq<HookCall>, c: HookCall)
    requires AllDisciplined(phases, calls + [c])
    ensures AllDisciplined(phases, calls) && Disciplined(phases, c)
  {
    assert (calls + [c])[|calls|] == c;
    forall x | 0 <= x < |calls| ensures Disciplined(phases, calls[x]) {
      assert (calls + [c])[x] == calls[x];
    }
  }

  /** Calls within a phase, whatever they are and whether or not they fail. */
  lemma CallStaysAt(phases: seq<Phase>, back: Option<nat>, t: Tracker, kind: Kind, k: nat, msg: Message, e: Effect)
    requires At(phases, back, k, t.ctx, t.writers)
    requires forall key <- e.writes :: key in phases[k].gives
    ensures var t1 := CallHook(t, kind, k, msg, e); At(phases, back, k, t1.ctx, t1.writers)
  {
    var t1 := CallHook(t, kind, k, msg, e);
    forall key
      ensures Writer(t1.writers, key) == CameFrom(phases, back, k, key)
              || (Writer(t1.writers, key) == Some(k) && key in phases[k].gives)
    {
      assert key !in e.writes ==> Writer(t1.writers, key) == Writer(t.writers, key);
    }
  }

  /** Leaving phase k by a successful Exit arrives at position k + 1. */
  lemma ExitArrives(phases: seq<Phase>, back: Option<nat>, t: Tracker, k: nat, e: Effect)
    requires At(phases, back, k, t.ctx, t.writers) && (back.Some? ==> back.value <= k)
    requires !e.failed && Disciplined(phases, HookCall(Exit, k, NO_MESSAGE, t.ctx, t.writers, e))
    ensures var t1 := CallHook(t, Exit, k, NO_MESSAGE, e); Arrived(phases, back, k + 1, t1.ctx, t1.writers)
  {
    var t1 := CallHook(t, Exit, k, NO_MESSAGE, e);
    forall key ensures Writer(t1.writers, key) == CameFrom(phases, back, k + 1, key) {
      if key !in phases[k].gives {
        assert key !in e.writes;
        assert Writer(t1.writers, key) == Writer(t.writers, key);
      }
    }
  }

  // ---------------------------------------------------------------- the shape of the pipeline

  predicate AllInline(phases: seq<Phase>) {
    forall i :: 0 <= i < |phases| ==> InlineAt(phases, i)
  }

  /** The position the last exit leads back to, if it does. */
  function LeadsBack(m: Machine): Option<nat> {
    if |m.phases| == 0 then None else
    var exit := m.phases[|m.phases| - 1].exit;
    if exit != STATE_NONE && exit in m.byEntryState then Some(m.byEntryState[exit]) else None
  }

  /** Each exit but the last names the next phase. */
  predicate ChainedAt(m: Machine, k: nat)
    requires k + 1 < |m.phases|
  {
    m.phases[k].exit != STATE_NONE && m.phases[k].exit in m.byEntryState && m.byEntryState[m.phases[k].exit] == k + 1
  }

  /** The facts about an accepted all-inline pipeline that the runs below rely on. */
  predicate Chained(m: Machine) {
    && Wired(m)
    && (forall k: nat {:trigger ChainedAt(m, k)} :: k + 1 < |m.phases| ==> ChainedAt(m, k))
    && (m.initialState in m.byEntryState ==> m.byEntryState[m.initialState] == 0)
  }

  lemma AcceptedIsChained(m: Machine)
    requires Ready(m) && AllInline(m.phases)
    ensures Chained(m)
  {
    ReadyIsWired(m);
    RunnerOrder.SessionsStartFirst(m);
    if m.initialState in m.byEntryState {
      assert InlineAt(m.phases, 0);
    }
    forall k: nat | k + 1 < |m.phases| ensures ChainedAt(m, k) {
      assert InlineAt(m.phases, k) && InlineAt(m.phases, k + 1);
      RunnerOrder.ChainExits(m, k, k + 1);
    }
  }

  // ---------------------------------------------------------------- what every session keeps

  /** The tracker is in a phase, on its way from the start or after leading back. */
  ghost predicate Stands(m: Machine, k: nat, ctx: Context, writers: map<string, nat>) {
    || At(m.phases, None, k, ctx, writers)
    || (LeadsBack(m).Some? && LeadsBack(m).value <= k && At(m.phases, LeadsBack(m), k, ctx, writers))
  }

  /** The call found each key last written by the last provider before it on the way it came. */
  ghost predicate Fed(m: Machine, c: HookCall) {
    c.phase < |m.phases| &&
    (|| Arrived(m.phases, None, c.phase, c.seen, c.writers)
     || (LeadsBack(m).Some? && LeadsBack(m).value <= c.phase && Arrived(m.phases, LeadsBack(m), c.phase, c.seen, c.writers)))
  }

  ghost predicate EntersFed(m: Machine, calls: seq<HookCall>) {
    forall x :: 0 <= x < |calls| && calls[x].kind == Enter ==> Fed(m, calls[x])
  }

  /** What a session keeps as long as its phases are disciplined. */
  ghost predicate Sound(m: Machine, t: Tracker) {
    AllDisciplined(m.phases, t.history) ==>
      EntersFed(m, t.history) && (t.current.Some? ==> Stands(m, t.current.value, t.ctx, t.writers))
  }

  lemma FedAppends(m: Machine, calls: seq<HookCall>, c: HookCall)
    requires EntersFed(m, calls) && (c.kind == Enter ==> Fed(m, c))
    ensures EntersFed(m, calls + [c])
  {
  }

  lemma CallStands(m: Machine, t: Tracker, kind: Kind, k: nat, msg: Message, e: Effect)
    requires Stands(m, k, t.ctx, t.writers) && k < |m.phases|
    requires forall key <- e.writes :: key in m.phases[k].gives
    ensures var t1 := CallHook(t, kind, k, msg, e); Stands(m, k, t1.ctx, t1.writers)
  {
    if At(m.phases, None, k, t.ctx, t.writers) {
      CallStaysAt(m.phases, None, t, kind, k, msg, e);
    } else {
      CallStaysAt(m.phases, LeadsBack(m), t, kind, k, msg, e);
    }
  }

  /** A call made in the phase the session is in. */
  lemma CallStaysSound(m: Machine, t: Tracker, kind: Kind, msg: Message, e: Effect)
    requires t.current.Some? && Sound(m, t) && kind != Enter
    ensures Sound(m, CallHook(t, kind, t.current.value, msg, e))
  {
    var c := HookCall(kind, t.current.value, msg, t.ctx, t.writers, e);
    if AllDisciplined(m.phases, t.history + [c]) {
      Shorter(m.phases, t.history, c);
      CallStands(m, t, kind, t.current.value, msg, e);
      FedAppends(m, t.history, c);
    }
  }

  /** Leaving phase k for position j: the next one, or back from the last. */
  predicate Leaves(m: Machine, k: nat, j: nat) {
    k < |m.phases| && j < |m.phases| && (j == k + 1 || (k + 1 == |m.phases| && LeadsBack(m) == Some(j)))
  }

  lemma LeavesOn(m: Machine, k: nat)
    requires Chained(m) && k < |m.phases| && m.phases[k].exit != STATE_NONE && m.phases[k].exit in m.byEntryState
    ensures Leaves(m, k, m.byEntryState[m.phases[k].exit])
  {
    if k + 1 < |m.phases| {
      assert ChainedAt(m, k);
    }
  }

  lemma ArrivesFrom(m: Machine, back: Option<nat>, k: nat, j: nat, ctx: Context, writers: map<string, nat>)
    requires Leaves(m, k, j) && Arrived(m.phases, back, k + 1, ctx, writers) && (back.Some? ==> back.value <= k)
    ensures Arrived(m.phases, if j == k + 1 then back else LeadsBack(m), j, ctx, writers)
  {
    if j != k + 1 {
      forall key ensures Writer(writers, key) == CameFrom(m.phases, Some(j), j, key) {
        CameRound(m.phases, back, j, key);
      }
    }
  }

  lemma ArrivedIsAt(phases: seq<Phase>, back: Option<nat>, k: nat, ctx: Context, writers: map<string, nat>)
    requires k < |phases| && Arrived(phases, back, k, ctx, writers)
    ensures At(phases, back, k, ctx, writers)
  {
  }

  /** A successful Exit of phase k feeds the Enter of the phase it leads to. */
  lemma ExitFeeds(m: Machine, back: Option<nat>, t: Tracker, k: nat, j: nat, e: Effect)
    requires At(m.phases, back, k, t.ctx, t.writers) && Leaves(m, k, j) && (back.Some? ==> back.value <= k)
    requires !e.failed && Disciplined(m.phases, HookCall(Exit, k, NO_MESSAGE, t.ctx, t.writers, e))
    ensures var t1 := CallHook(t, Exit, k, NO_MESSAGE, e);
            Arrived(m.phases, if j == k + 1 then back else LeadsBack(m), j, t1.ctx, t1.writers)
  {
    ExitArrives(m.phases, back, t, k, e);
    var t1 := CallHook(t, Exit, k, NO_MESSAGE, e);
    ArrivesFrom(m, back, k, j, t1.ctx, t1.writers);
  }

  lemma StandsThenFed(m: Machine, t: Tracker, k: nat, j: nat, e: Effect, enter: Effect)
    requires Stands(m, k, t.ctx, t.writers) && Leaves(m, k, j)
    requires !e.failed && Disciplined(m.phases, HookCall(Exit, k, NO_MESSAGE, t.ctx, t.writers, e))
    ensures var t1 := CallHook(t, Exit, k, NO_MESSAGE, e);
            Stands(m, j, t1.ctx, t1.writers) && Fed(m, HookCall(Enter, j, NO_MESSAGE, t1.ctx, t1.writers, enter))
  {
    var back := if At(m.phases, None, k, t.ctx, t.writers) then None else LeadsBack(m);
    ExitFeeds(m, back, t, k, j, e);
    var t1 := CallHook(t, Exit, k, NO_MESSAGE, e);
    ArrivedIsAt(m.phases, if j == k + 1 then back else LeadsBack(m), j, t1.ctx, t1.writers);
  }

  /** A successful Exit of phase k followed by the Enter of the phase it leads to. */
  lemma ArrivalStaysSound(m: Machine, t: Tracker, exit: Effect, j: nat, t2: Tracker, enter: Effect)
    requires t.current.Some? && Sound(m, t) && !exit.failed && Leaves(m, t.current.value, j)
    requires t2 == CallHook(t, Exit, t.current.value, NO_MESSAGE, exit)
                     .(state := t2.state, entered := t2.entered, current := Some(j))
    ensures Sound(m, CallHook(t2, Enter, j, NO_MESSAGE, enter))
  {
    var k := t.current.value;
    var c := HookCall(Exit, k, NO_MESSAGE, t.ctx, t.writers, exit);
    var d := HookCall(Enter, j, NO_MESSAGE, t2.ctx, t2.writers, enter);
    if AllDisciplined(m.phases, t.history + [c] + [d]) {
      Shorter(m.phases, t.history + [c], d);
      Shorter(m.phases, t.history, c);
      StandsThenFed(m, t, k, j, exit, enter);
      FedAppends(m, t.history, c);
      FedAppends(m, t.history + [c], d);
      CallStands(m, t2, Enter, j, NO_MESSAGE, enter);
    }
  }

  lemma HopStaysSound<L>(m: Machine, commit: Commit<L>, t: Tracker, l: L)
    requires Chained(m) && Placed(m, t) && t.current.Some? && Sound(m, t)
    ensures Sound(m, Hop(m, commit, t, l).0)
  {
    var k := t.current.value;
    var p := m.phases[k];
    var e := p.onExit(t.ctx);
    CallStaysSound(m, t, Exit, NO_MESSAGE, e);
    if !e.failed && p.exit != STATE_NONE && p.exit in m.byEntryState {
      LeavesOn(m, k);
      var j := m.byEntryState[p.exit];
      var t2 := CallHook(t, Exit, k, NO_MESSAGE, e).(state := p.exit, current := Some(j), entered := false);
      ArrivalStaysSound(m, t, e, j, t2, m.phases[j].onEnter(t2.ctx));
    }
  }

  lemma {:induction false} CascadeStaysSound<L>(m: Machine, commit: Commit<L>, t: Tracker, l: L, hops: nat)
    requires Chained(m) && Placed(m, t) && t.current.Some? && Sound(m, t)
    ensures Sound(m, Cascade(m, commit, t, l, hops).0)
    decreases hops
  {
    if hops == 0 {
    } else {
      HopStaysSound(m, commit, t, l);
      var (t1, l1, end) := Hop(m, commit, t, l);
      if end.Entered? && PassesThrough(m, t1.current.value, t1.ctx) {
        CascadeStaysSound(m, commit, t1, l1, hops - 1);
      }
    }
  }

  lemma {:induction false} WalkStaysSound<L>(m: Machine, commit: Commit<L>, t: Tracker, l: L, target: State, hops: nat)
    requires Chained(m) && Placed(m, t) && Sound(m, t)
    ensures Sound(m, WalkTo(m, commit, t, l, target, hops).0)
    decreases hops
  {
    if hops > 0 && t.state != target && t.current.Some? {
      HopStaysSound(m, commit, t, l);
      var (t1, l1, end) := Hop(m, commit, t, l);
      if end.Entered? {
        WalkStaysSound(m, commit, t1, l1, target, hops - 1);
      }
    }
  }

  lemma NothingWritten(phases: seq<Phase>, ctx: Context)
    ensures Arrived(phases, None, 0, ctx, map[])
  {
  }

  lemma StartIsSound(m: Machine, sid: string, cohort: string)
    requires Chained(m)
    ensures var s := Start(m, sid, cohort).0; s.Some? ==> Sound(m, s.value)
  {
    if m.initialState in m.byEntryState {
      var ctx := Context(sid, cohort, map[]);
      var e := m.phases[0].onEnter(ctx);
      var t := Tracker(ctx, m.initialState, Some(0), false, map[], []);
      var c := HookCall(Enter, 0, NO_MESSAGE, ctx, map[], e);
      NothingWritten(m.phases, ctx);
      FedAppends(m, [], c);
      if AllDisciplined(m.phases, [] + [c]) {
        Shorter(m.phases, [], c);
        ArrivedIsAt(m.phases, None, 0, ctx, map[]);
        CallStands(m, t, Enter, 0, NO_MESSAGE, e);
      }
    }
  }

  lemma DeliverStaysSound<L>(m: Machine, commit: Commit<L>, t: Tracker, l: L, msg: Message)
    requires Chained(m) && Placed(m, t) && Sound(m, t)
    ensures Sound(m, Deliver(m, commit, t, l, msg).0)
  {
    if t.current.Some? {
      var k := t.current.value;
      var e := m.phases[k].onMessage(t.ctx, msg);
      CallStaysSound(m, t, OnMessage, msg, e);
      CascadeStaysSound(m, commit, CallHook(t, OnMessage, k, msg, e), l, |m.phases| + 1);
    }
  }

  lemma SessionStaysSound<L>(m: Machine, commit: Commit<L>, s: Option<Tracker>, l: L, call: Call)
    requires Chained(m) && (s.Some? ==> Placed(m, s.value) && Sound(m, s.value))
    ensures var s1 := SessionStep(m, commit, s, l, call).0; s1.Some? ==> Sound(m, s1.value)
  {
    match call
    case Begin(sid, cohort) => StartIsSound(m, sid, cohort);
    case End(_) =>
    case Handle(_, msg) =>
      if s.Some? {
        DeliverStaysSound(m, commit, s.value, l, msg);
      }
    case AdvanceTo(_, target) =>
      if s.Some? {
        WalkStaysSound(m, commit, s.value, l, target, |m.phases| + 1);
      }
    case Seed(_, key, value) =>
      if s.Some? && s.value.current.Some? {
        CallStaysSound(m, s.value, Seeded, Message(key, "", []), Effect(map[key := value], false));
      }
  }

  ghost predicate AllSound<L>(m: Machine, w: World<L>) {
    forall sid <- w.sessions :: Sound(m, w.sessions[sid])
  }

  /** Every run, failing calls included, over any number of sessions. */
  lemma {:induction false} RunsStaySound<L>(m: Machine, commit: Commit<L>, w: World<L>, calls: seq<Call>)
    requires Chained(m) && AllPlaced(m, w) && AllSound(m, w)
    ensures AllSound(m, Run(m, commit, w, calls).0)
    decreases |calls|
  {
    if calls == [] {
    } else {
      SessionStaysSound(m, commit, Lookup(w.sessions, calls[0].sid), w.lineage, calls[0]);
      RunsStaySound(m, commit, Step(m, commit, w, calls[0]).0, calls[1..]);
    }
  }

  // ---------------------------------------------------------------- what Enter may rely on

  /** Each required key is there, and so is each needed key an earlier phase provides. */
  predicate Present(phases: seq<Phase>, c: HookCall) {
    c.phase < |phases| && forall key <- phases[c.phase].needs ::
      && (phases[c.phase].needs[key].required ==> key in c.seen.values)
      && (key in ProvidedBefore(phases, c.phase) ==> key in c.seen.values && key in c.writers)
  }

  /** Each needed key that was written was last written by a phase that provides it under a
      declaration that satisfies this one's. */
  predicate WellWritten(phases: seq<Phase>, c: HookCall) {
    c.phase < |phases| && forall key <- phases[c.phase].needs ::
      key in c.writers ==>
        && c.writers[key] < |phases|
        && key in phases[c.writers[key]].gives
        && Compatible(phases[c.phase].needs[key], phases[c.writers[key]].gives[key])
  }

  predicate EntersPresent(phases: seq<Phase>, calls: seq<HookCall>) {
    forall x :: 0 <= x < |calls| && calls[x].kind == Enter ==> Present(phases, calls[x])
  }

  predicate EntersWellWritten(phases: seq<Phase>, calls: seq<HookCall>) {
    forall x :: 0 <= x < |calls| && calls[x].kind == Enter ==> WellWritten(phases, calls[x])
  }

  /** Each key found was written by an earlier phase. */
  predicate EntersFromBefore(calls: seq<HookCall>) {
    forall x :: 0 <= x < |calls| && calls[x].kind == Enter ==>
      forall key <- calls[x].writers :: calls[x].writers[key] < calls[x].phase
  }

  predicate NeedsMetAt(phases: seq<Phase>, k: nat)
    requires k < |phases|
  {
    SchemaMet(phases[k].needs, ProvidedBefore(phases, k))
  }

  predicate NeedsMet(phases: seq<Phase>) {
    forall k {:trigger NeedsMetAt(phases, k)} :: 0 <= k < |phases| ==> NeedsMetAt(phases, k)
  }

  lemma AcceptedNeedsMet(phases: seq<Phase>)
    requires Accepted(phases)
    ensures NeedsMet(phases)
  {
    forall k | 0 <= k < |phases| ensures NeedsMetAt(phases, k) {
      assert PhaseOk(phases, k);
    }
  }

  /** The declaration that feeds phase k's `key` along the way `back` satisfies it. */
  predicate FitsFrom(phases: seq<Phase>, back: Option<nat>, k: nat, key: string)
    requires k < |phases| && key in phases[k].needs
  {
    var p := CameFrom(phases, back, k, key);
    p.Some? ==> Compatible(phases[k].needs[key], phases[p.value].gives[key])
  }

  /** What Compose does not check: that the declarations also fit around the loop. For each
      phase from the one the last exit leads back to, the last provider on the way round is
      the last one since that phase, or else the last of the whole pipeline. */
  predicate LoopMet(m: Machine) {
    LeadsBack(m).Some? ==>
      forall k, key {:trigger FitsFrom(m.phases, LeadsBack(m), k, key)} ::
        LeadsBack(m).value <= k < |m.phases| && key in m.phases[k].needs ==> FitsFrom(m.phases, LeadsBack(m), k, key)
  }

  /** A pipeline that does not lead back has no loop to check. */
  lemma AcyclicLoopMet(m: Machine)
    requires Ready(m) && AllInline(m.phases) && RunnerOrder.Acyclic(m.phases)
    ensures LeadsBack(m) == None && LoopMet(m)
  {
    var n := |m.phases|;
    assert InlineAt(m.phases, n - 1);
    assert RunnerOrder.LastInline(m.phases, n - 1);
  }

  /** From the start, Compose's own check is the fit. */
  lemma FitsFromStart(phases: seq<Phase>, k: nat, key: string)
    requires NeedsMet(phases) && k < |phases| && key in phases[k].needs
    ensures FitsFrom(phases, None, k, key)
    ensures phases[k].needs[key].required ==> CameFrom(phases, None, k, key).Some?
    ensures key in ProvidedBefore(phases, k) <==> CameFrom(phases, None, k, key).Some?
  {
    assert NeedsMetAt(phases, k);
    LastInProvides(phases, k, key);
  }

  /** What is there on the way from the start is there round the loop. */
  lemma RoundHasMore(phases: seq<Phase>, back: Option<nat>, k: nat, key: string)
    requires k <= |phases| && CameFrom(phases, None, k, key).Some?
    ensures CameFrom(phases, back, k, key).Some?
  {
    LastInSplits(phases, 0, k, |phases|, key);
  }

  lemma FedIsPresent(m: Machine, c: HookCall)
    requires NeedsMet(m.phases) && Fed(m, c)
    ensures Present(m.phases, c)
  {
    var k := c.phase;
    var back := if Arrived(m.phases, None, k, c.seen, c.writers) then None else LeadsBack(m);
    forall key <- m.phases[k].needs
      ensures m.phases[k].needs[key].required ==> key in c.seen.values
      ensures key in ProvidedBefore(m.phases, k) ==> key in c.seen.values && key in c.writers
    {
      FitsFromStart(m.phases, k, key);
      if CameFrom(m.phases, None, k, key).Some? {
        RoundHasMore(m.phases, back, k, key);
        assert Writer(c.writers, key).Some?;
      }
    }
  }

  lemma FedIsWellWritten(m: Machine, c: HookCall)
    requires NeedsMet(m.phases) && LoopMet(m) && Fed(m, c)
    ensures WellWritten(m.phases, c)
  {
    var k := c.phase;
    var back := if Arrived(m.phases, None, k, c.seen, c.writers) then None else LeadsBack(m);
    forall key <- m.phases[k].needs | key in c.writers
      ensures c.writers[key] < |m.phases| && key in m.phases[c.writers[key]].gives
      ensures Compatible(m.phases[k].needs[key], m.phases[c.writers[key]].gives[key])
    {
      assert Writer(c.writers, key) == CameFrom(m.phases, back, k, key);
      FitsFromStart(m.phases, k, key);
      assert FitsFrom(m.phases, back, k, key);
    }
  }

  /** A run from an empty runner that leaves a session all of whose phases kept their declarations. */
  ghost predicate Kept<L>(m: Machine, commit: Commit<L>, l: L, calls: seq<Call>, sid: string)
    requires Wired(m)
  {
    var w := Run(m, commit, World(map[], l), calls).0;
    sid in w.sessions && AllDisciplined(m.phases, w.sessions[sid].history)
  }

  /** For every accepted all-inline pipeline, at every Enter of every run, failing calls
      included, of a session whose phases keep their declarations: each key was last written
      by its last provider on the way there, and all required keys are present. */
  lemma CompositionSupplies<L>(m: Machine, commit: Commit<L>, l: L, calls: seq<Call>, sid: string)
    requires Ready(m) && Wired(m) && AllInline(m.phases) && Kept(m, commit, l, calls, sid)
    ensures var h := Run(m, commit, World(map[], l), calls).0.sessions[sid].history;
            EntersFed(m, h) && EntersPresent(m.phases, h)
  {
    AcceptedIsChained(m);
    AcceptedNeedsMet(m.phases);
    RunsStaySound(m, commit, World(map[], l), calls);
    var h := Run(m, commit, World(map[], l), calls).0.sessions[sid].history;
    forall x | 0 <= x < |h| && h[x].kind == Enter ensures Present(m.phases, h[x]) {
      FedIsPresent(m, h[x]);
    }
  }

  lemma FedFromBefore(m: Machine, calls: seq<HookCall>)
    requires EntersFed(m, calls) && LeadsBack(m).None?
    ensures EntersFromBefore(calls)
  {
    forall x | 0 <= x < |calls| && calls[x].kind == Enter
      ensures forall key <- calls[x].writers :: calls[x].writers[key] < calls[x].phase
    {
      forall key <- calls[x].writers ensures calls[x].writers[key] < calls[x].phase {
        assert Writer(calls[x].writers, key) == CameFrom(m.phases, None, calls[x].phase, key);
      }
    }
  }

  /** If the declarations also fit round the loop, each needed key was last written under a
      declaration that satisfies the consumer's. */
  lemma CompositionIsSound<L>(m: Machine, commit: Commit<L>, l: L, calls: seq<Call>, sid: string)
    requires Ready(m) && Wired(m) && AllInline(m.phases) && LoopMet(m) && Kept(m, commit, l, calls, sid)
    ensures var h := Run(m, commit, World(map[], l), calls).0.sessions[sid].history;
            && EntersPresent(m.phases, h) && EntersWellWritten(m.phases, h)
            && (RunnerOrder.Acyclic(m.phases) ==> EntersFromBefore(h))
  {
    CompositionSupplies(m, commit, l, calls, sid);
    AcceptedNeedsMet(m.phases);
    var h := Run(m, commit, World(map[], l), calls).0.sessions[sid].history;
    forall x | 0 <= x < |h| && h[x].kind == Enter ensures WellWritten(m.phases, h[x]) {
      FedIsWellWritten(m, h[x]);
    }
    if RunnerOrder.Acyclic(m.phases) {
      AcyclicLoopMet(m);
      FedFromBefore(m, h);
    }
  }
}
