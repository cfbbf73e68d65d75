/** The session state machine: what one call of the runner does to the tracked sessions
    (pkg/ares/phase/runner.go), as step functions and as the class whose loops carry
    them out. Positions in the pipeline stand for the Go phase pointers. */
module Runner {
  import opened Wrappers
  import opened Pipeline

  const NO_MESSAGE := Message("", "", [])

  datatype Kind = Enter | OnMessage | Exit | Seeded

  /** One hook call (or one caller-side Set between calls): which phase it reached and with
      what message, and the context and last writers it found. */
  datatype HookCall = HookCall(kind: Kind, phase: nat, msg: Message,
                               seen: Context, writers: map<string, nat>, effect: Effect)

  /** A session's tracker. history and writers record what happened; no code reads them. */
  datatype Tracker = Tracker(ctx: Context, state: State, current: Option<nat>, entered: bool,
                             writers: map<string, nat>, history: seq<HookCall>)

  /** HopLimit is one of the ErrFrameworkBug cases, told apart so that its absence can be stated. */
  datatype Failure = Permanent | FrameworkBug | HopLimit | HookFailed | CommitFailed

  datatype Outcome = Done(transitioned: bool) | Failed(reason: Failure) | Panicked

  /** What Exit is followed by on a lineage-enabled runner: the auto-commit, over whatever
      store value L the runner carries; the flag is false when it failed. */
  type Commit<!L> = (Phase, Context, L) -> (L, bool)

  datatype World<L> = World(sessions: map<string, Tracker>, lineage: L)

  datatype Call =
    | Begin(sid: string, cohort: string)
    | Handle(sid: string, msg: Message)
    | AdvanceTo(sid: string, target: State)
    | End(sid: string)
    | Seed(sid: string, key: string, value: Value)

  // ---------------------------------------------------------------- contexts

  /** Keys a hook wrote are credited to its phase. */
  function Credit(writers: map<string, nat>, k: nat, writes: map<string, Value>): map<string, nat> {
    writers + map key <- writes :: k
  }

  function CallHook(t: Tracker, kind: Kind, k: nat, msg: Message, e: Effect): Tracker {
    t.(ctx := t.ctx.(values := t.ctx.values + e.writes),
       writers := Credit(t.writers, k, e.writes),
       history := t.history + [HookCall(kind, k, msg, t.ctx, t.writers, e)])
  }

  // ---------------------------------------------------------------- steps

  ghost predicate Ready(m: Machine) {
    Accepted(m.phases) && Derived(m)
  }

  /** The one fact about the derived tables the walking code relies on. */
  predicate Wired(m: Machine) {
    forall s <- m.byEntryState :: m.byEntryState[s] < |m.phases| && OwnsEntry(m, m.byEntryState[s], s)
  }

  predicate OwnsEntry(m: Machine, k: nat, s: State)
    requires k < |m.phases|
  {
    InlineAt(m.phases, k) && m.phases[k].entry == s
  }

  lemma ReadyIsWired(m: Machine)
    requires Ready(m)
    ensures Wired(m)
  {
  }

  /** The tracker sits at the entry state of an inline phase, or past the end. */
  predicate Placed(m: Machine, t: Tracker) {
    match t.current
    case Some(k) => k < |m.phases| && OwnsEntry(m, k, t.state)
    case None => t.state == STATE_NONE
  }

  datatype HopEnd = Entered | ReachedEnd | Broke(reason: Failure)

  /** Exit the current phase, commit its outputs, and enter the phase its exit state names. */
  function Hop<L>(m: Machine, commit: Commit<L>, t: Tracker, l: L): (r: (Tracker, L, HopEnd))
    requires Wired(m) && Placed(m, t) && t.current.Some?
    ensures Placed(m, r.0) && r.0.current.Some?
  {
    var k := t.current.value;
    var p := m.phases[k];
    var e := p.onExit(t.ctx);
    var t1 := CallHook(t, Exit, k, NO_MESSAGE, e);
    if e.failed then (t1, l, Broke(HookFailed)) else
    var (l1, committed) := commit(p, t1.ctx, l);
    if !committed then (t1, l1, Broke(CommitFailed))
    else if p.exit == STATE_NONE then (t1, l1, ReachedEnd)
    else if p.exit !in m.byEntryState then (t1, l1, Broke(FrameworkBug))
    else
      var j := m.byEntryState[p.exit];
      var t2 := t1.(state := p.exit, current := Some(j), entered := false);
      var e2 := m.phases[j].onEnter(t2.ctx);
      var t3 := CallHook(t2, Enter, j, NO_MESSAGE, e2);
      if e2.failed then (t3, l1, Broke(HookFailed)) else (t3.(entered := true), l1, Entered)
  }

  /** The phase the tracker is in has nothing to wait for. */
  predicate PassesThrough(m: Machine, k: nat, ctx: Context)
    requires k < |m.phases|
  {
    |m.phases[k].consumes| == 0 && m.phases[k].complete(ctx)
  }

  /** advance, with `hops` iterations of its loop left. */
  function Cascade<L>(m: Machine, commit: Commit<L>, t: Tracker, l: L, hops: nat): (r: (Tracker, L, Outcome))
    requires Wired(m) && Placed(m, t) && t.current.Some?
    ensures Placed(m, r.0)
    decreases hops
  {
    if hops == 0 then (t, l, Failed(HopLimit)) else
    var (t1, l1, end) := Hop(m, commit, t, l);
    match end
    case Broke(reason) => (t1, l1, Failed(reason))
    case ReachedEnd => (t1.(state := STATE_NONE, current := None), l1, Done(true))
    case Entered =>
      if PassesThrough(m, t1.current.value, t1.ctx) then Cascade(m, commit, t1, l1, hops - 1)
      else (t1, l1, Done(true))
  }

  /** AdvanceToState's loop, with `hops` iterations left. */
  function WalkTo<L>(m: Machine, commit: Commit<L>, t: Tracker, l: L, target: State, hops: nat): (r: (Tracker, L, Outcome))
    requires Wired(m) && Placed(m, t)
    ensures Placed(m, r.0)
    decreases hops
  {
    if hops == 0 then (t, l, Failed(HopLimit))
    else if t.state == target then (t, l, Done(false))
    else if t.current.None? then (t, l, Failed(FrameworkBug)) else
    var (t1, l1, end) := Hop(m, commit, t, l);
    match end
    case Broke(reason) => (t1, l1, Failed(reason))
    case ReachedEnd => (t1, l1, Failed(Permanent))
    case Entered => WalkTo(m, commit, t1, l1, target, hops - 1)
  }

  /** AdvanceToState on one tracked session. */
  function Reach<L>(m: Machine, commit: Commit<L>, t: Tracker, l: L, target: State): (r: (Tracker, L, Outcome))
    requires Wired(m) && Placed(m, t)
    ensures Placed(m, r.0)
  {
    if t.state == target then (t, l, Done(false))
    else if t.current.Some? && target in m.phases[t.current.value].internals then (t, l, Done(false))
    else WalkTo(m, commit, t, l, target, |m.phases| + 1)
  }

  /** HandleMessage on one tracked session. */
  function Deliver<L>(m: Machine, commit: Commit<L>, t: Tracker, l: L, msg: Message): (r: (Tracker, L, Outcome))
    requires Wired(m) && Placed(m, t)
    ensures Placed(m, r.0)
  {
    if t.current.None? then (t, l, Panicked) else
    var k := t.current.value;
    if msg.msgType !in m.phases[k].consumes then (t, l, Failed(Permanent)) else
    var e := m.phases[k].onMessage(t.ctx, msg);
    var t1 := CallHook(t, OnMessage, k, msg, e);
    if e.failed then (t1, l, Failed(HookFailed))
    else if !m.phases[k].complete(t1.ctx) then (t1, l, Done(false))
    else Cascade(m, commit, t1, l, |m.phases| + 1)
  }

  /** A caller's ctx.Set on the context BeginSession returned, made on behalf of the
      phase the session is in. */
  function SetContext(t: Tracker, key: string, value: Value): Tracker {
    match t.current
    case Some(k) => CallHook(t, Seeded, k, Message(key, "", []), Effect(map[key := value], false))
    case None => t.(ctx := t.ctx.(values := t.ctx.values[key := value]))
  }

  /** BeginSession's tracker after the first Enter, or None when no session is kept. */
  function Start(m: Machine, sid: string, cohort: string): (r: (Option<Tracker>, Outcome))
    requires Wired(m)
    ensures r.0.Some? ==> Placed(m, r.0.value) && r.1 == Done(true)
    ensures r.0.None? ==> !r.1.Done?
  {
    if m.initialState !in m.byEntryState then (None, Failed(FrameworkBug)) else
    var k := m.byEntryState[m.initialState];
    var ctx := Context(sid, cohort, map[]);
    var e := m.phases[k].onEnter(ctx);
    var t := CallHook(Tracker(ctx, m.initialState, Some(k), false, map[], []), Enter, k, NO_MESSAGE, e);
    if e.failed then (None, Failed(HookFailed)) else (Some(t.(entered := true)), Done(true))
  }

  ghost predicate AllPlaced<L>(m: Machine, w: World<L>) {
    forall sid <- w.sessions :: Placed(m, w.sessions[sid])
  }

  /** What one call does to a single session, seen on its own (None: not tracked). */
  function SessionStep<L>(m: Machine, commit: Commit<L>, s: Option<Tracker>, l: L, call: Call): (r: (Option<Tracker>, L, Outcome))
    requires Wired(m) && (s.Some? ==> Placed(m, s.value))
    ensures r.0.Some? ==> Placed(m, r.0.value)
  {
    match call
    case Begin(sid, cohort) =>
      if sid == "" || s.Some? then (s, l, Failed(Permanent))
      else var (t, o) := Start(m, sid, cohort); (t, l, o)
    case Handle(_, msg) =>
      if s.None? then (s, l, Failed(Permanent))
      else var (t, l1, o) := Deliver(m, commit, s.value, l, msg); (Some(t), l1, o)
    case AdvanceTo(_, target) =>
      if s.None? then (s, l, Failed(Permanent))
      else var (t, l1, o) := Reach(m, commit, s.value, l, target); (Some(t), l1, o)
    case End(_) => (None, l, Done(false))
    case Seed(_, key, value) =>
      if s.None? then (s, l, Failed(Permanent))
      else (Some(SetContext(s.value, key, value)), l, Done(false))
  }

  function Lookup(sessions: map<string, Tracker>, sid: string): Option<Tracker> {
    if sid in sessions then Some(sessions[sid]) else None
  }

  function Store(sessions: map<string, Tracker>, sid: string, s: Option<Tracker>): map<string, Tracker> {
    if s.Some? then sessions[sid := s.value] else sessions - {sid}
  }

  function Step<L>(m: Machine, commit: Commit<L>, w: World<L>, call: Call): (r: (World<L>, Outcome))
    requires Wired(m) && AllPlaced(m, w)
    ensures AllPlaced(m, r.0)
  {
    var (s, l, o) := SessionStep(m, commit, Lookup(w.sessions, call.sid), w.lineage, call);
    (World(Store(w.sessions, call.sid, s), l), o)
  }

  /** A run of serialised calls and the outcome of each. */
  function Run<L>(m: Machine, commit: Commit<L>, w: World<L>, calls: seq<Call>): (r: (World<L>, seq<Outcome>))
    requires Wired(m) && AllPlaced(m, w)
    ensures AllPlaced(m, r.0) && |r.1| == |calls|
    decreases |calls|
  {
    if calls == [] then (w, []) else
    var (w1, o) := Step(m, commit, w, calls[0]);
    var (w2, os) := Run(m, commit, w1, calls[1..]);
    (w2, [o] + os)
  }

  // ---------------------------------------------------------------- the runner object

  class SessionRunner<L(!new)> {
    const machine: Machine
    const commit: Commit<L>
    var sessions: map<string, Tracker>
    var lineage: L

    ghost predicate Valid()
      reads this
    {
      Wired(machine) && AllPlaced(machine, Here())
    }

    ghost function Here(): World<L>
      reads this
    {
      World(sessions, lineage)
    }

    constructor (m: Machine, commit: Commit<L>, lineage: L)
      requires Wired(m)
      ensures Valid() && machine == m && this.commit == commit
      ensures Here() == World(map[], lineage)
    {
      this.machine := m;
      this.commit := commit;
      this.lineage := lineage;
      this.sessions := map[];
    }

    method BeginSession(sid: string, cohort: string) returns (o: Outcome)
      requires Valid()
      modifies this`sessions
      ensures Valid()
      ensures (Here(), o) == Step(machine, commit, old(Here()), Begin(sid, cohort))
    {
      if sid == "" || sid in sessions {
        assert Store(sessions, sid, Lookup(sessions, sid)) == sessions;
        return Failed(Permanent);
      }
      if machine.initialState !in machine.byEntryState {
        assert sessions - {sid} == sessions;
        return Failed(FrameworkBug);
      }
      var k := machine.byEntryState[machine.initialState];
      var ctx := Context(sid, cohort, map[]);
      var t := Tracker(ctx, machine.initialState, Some(k), false, map[], []);
      sessions := sessions[sid := t];
      var e := machine.phases[k].onEnter(ctx);
      t := CallHook(t, Enter, k, NO_MESSAGE, e);
      if e.failed {
        sessions := sessions - {sid};
        assert sessions == old(sessions) - {sid};
        return Failed(HookFailed);
      }
      sessions := sessions[sid := t.(entered := true)];
      assert sessions == old(sessions)[sid := t.(entered := true)];
      o := Done(true);
    }

    /** The source dereferences a nil phase when the session is past its end, so callers
        must not send a message to a terminal session. */
    method HandleMessage(sid: string, msg: Message) returns (o: Outcome)
      requires Valid()
      requires sid in sessions ==> sessions[sid].current.Some?
      modifies this
      ensures Valid() && o != Panicked
      ensures (Here(), o) == Step(machine, commit, old(Here()), Handle(sid, msg))
    {
      if sid !in sessions {
        assert Store(sessions, sid, None) == sessions;
        return Failed(Permanent);
      }
      var t := sessions[sid];
      var k := t.current.value;
      var p := machine.phases[k];
      if msg.msgType !in p.consumes {
        assert sessions[sid := t] == sessions;
        return Failed(Permanent);
      }
      var e := p.onMessage(t.ctx, msg);
      t := CallHook(t, OnMessage, k, msg, e);
      sessions := sessions[sid := t];
      if e.failed {
        return Failed(HookFailed);
      }
      if !p.complete(t.ctx) {
        return Done(false);
      }
      t, lineage, o := Advance(t, lineage);
      sessions := sessions[sid := t];
      assert sessions == old(sessions)[sid := t];
    }

    method Advance(start: Tracker, store: L) returns (t: Tracker, l: L, o: Outcome)
      requires Wired(machine) && Placed(machine, start) && start.current.Some?
      ensures (t, l, o) == Cascade(machine, commit, start, store, |machine.phases| + 1)
      ensures o != Panicked
    {
      t, l := start, store;
      ghost var goal := Cascade(machine, commit, start, store, |machine.phases| + 1);
      var hop := 0;
      while hop < |machine.phases| + 1
        invariant 0 <= hop <= |machine.phases| + 1
        invariant Placed(machine, t) && t.current.Some?
        invariant Cascade(machine, commit, t, l, |machine.phases| + 1 - hop) == goal
      {
        var end;
        t, l, end := HopOnce(t, l);
        hop := hop + 1;
        if end.Broke? {
          return t, l, Failed(end.reason);
        }
        if end.ReachedEnd? {
          t := t.(state := STATE_NONE, current := None);
          return t, l, Done(true);
        }
        var p := machine.phases[t.current.value];
        if |p.consumes| > 0 || !p.complete(t.ctx) {
          return t, l, Done(true);
        }
      }
      o := Failed(HopLimit);
    }

    /** The body the two walking loops share. */
    method HopOnce(t: Tracker, l: L) returns (t': Tracker, l': L, end: HopEnd)
      requires Wired(machine) && Placed(machine, t) && t.current.Some?
      ensures (t', l', end) == Hop(machine, commit, t, l)
    {
      var k := t.current.value;
      var p := machine.phases[k];
      var e := p.onExit(t.ctx);
      t', l' := CallHook(t, Exit, k, NO_MESSAGE, e), l;
      if e.failed {
        return t', l', Broke(HookFailed);
      }
      var (committedStore, committed) := commit(p, t'.ctx, l');
      l' := committedStore;
      if !committed {
        return t', l', Broke(CommitFailed);
      }
      if p.exit == STATE_NONE {
        return t', l', ReachedEnd;
      }
      if p.exit !in machine.byEntryState {
        return t', l', Broke(FrameworkBug);
      }
      var j := machine.byEntryState[p.exit];
      t' := t'.(state := p.exit, current := Some(j), entered := false);
      e := machine.phases[j].onEnter(t'.ctx);
      t' := CallHook(t', Enter, j, NO_MESSAGE, e);
      if e.failed {
        return t', l', Broke(HookFailed);
      }
      t' := t'.(entered := true);
      end := Entered;
    }

    method AdvanceToState(sid: string, target: State) returns (o: Outcome)
      requires Valid()
      modifies this
      ensures Valid() && o != Panicked
      ensures (Here(), o) == Step(machine, commit, old(Here()), AdvanceTo(sid, target))
    {
      if sid !in sessions {
        assert Store(sessions, sid, None) == sessions;
        return Failed(Permanent);
      }
      var t := sessions[sid];
      assert sessions[sid := t] == sessions;
      if t.state == target {
        return Done(false);
      }
      if t.current.Some? && target in machine.phases[t.current.value].internals {
        return Done(false);
      }
      t, lineage, o := WalkForward(t, lineage, target);
      sessions := sessions[sid := t];
    }

    method WalkForward(start: Tracker, store: L, target: State) returns (t: Tracker, l: L, o: Outcome)
      requires Wired(machine) && Placed(machine, start)
      ensures (t, l, o) == WalkTo(machine, commit, start, store, target, |machine.phases| + 1)
      ensures o != Panicked
    {
      t, l := start, store;
      ghost var goal := WalkTo(machine, commit, start, store, target, |machine.phases| + 1);
      var hop := 0;
      while hop < |machine.phases| + 1
        invariant 0 <= hop <= |machine.phases| + 1
        invariant Placed(machine, t)
        invariant WalkTo(machine, commit, t, l, target, |machine.phases| + 1 - hop) == goal
      {
        if t.state == target {
          return t, l, Done(false);
        }
        if t.current.None? {
          return t, l, Failed(FrameworkBug);
        }
        var end;
        t, l, end := HopOnce(t, l);
        hop := hop + 1;
        if end.Broke? {
          return t, l, Failed(end.reason);
        }
        if end.ReachedEnd? {
          return t, l, Failed(Permanent);
        }
      }
      o := Failed(HopLimit);
    }

    method EndSession(sid: string)
      requires Valid()
      modifies this`sessions
      ensures Valid()
      ensures Here() == Step(machine, commit, old(Here()), End(sid)).0
    {
      sessions := sessions - {sid};
    }
  }
}
