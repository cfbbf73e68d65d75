/** What one message does to a session, call by call of its hooks, and what is left of a session
    that was ended (pkg/ares/phase/runner.go, HandleMessage and EndSession). */
module RunnerDelivery {
  import opened Wrappers
  import opened Pipeline
  import opened Runner
  import opened RunnerOrder

  /** The context once the hook's writes are in it. */
  function Written(ctx: Context, e: Effect): Context {
    Context(ctx.sessionID, ctx.cohortID, ctx.values + e.writes)
  }

  /** The session is tracked, in phase k, which consumes the message. */
  predicate Listens<L>(m: Machine, w: World<L>, sid: string, k: nat, msg: Message) {
    && sid in w.sessions && w.sessions[sid].current == Some(k)
    && k < |m.phases| && msg.msgType in m.phases[k].consumes
  }

  /** One more call in the history: the message, in phase k, with the context as it was. */
  predicate Heard(before: Tracker, after: Tracker, k: nat, msg: Message) {
    var n := |before.history|;
    && n < |after.history| && after.history[..n] == before.history
    && after.history[n].kind == OnMessage && after.history[n].phase == k
    && after.history[n].msg == msg && after.history[n].seen == before.ctx
  }

  // ---------------------------------------------------------------- refused and failing messages

  /** No such session, or a phase that does not consume the type: refused, nothing changed. */
  lemma MessageRefused<L>(m: Machine, commit: Commit<L>, w: World<L>, sid: string, msg: Message)
    requires Wired(m) && AllPlaced(m, w)
    requires sid !in w.sessions ||
             (w.sessions[sid].current.Some? && msg.msgType !in m.phases[w.sessions[sid].current.value].consumes)
    ensures Step(m, commit, w, Handle(sid, msg)) == (w, Failed(Permanent))
  {
    if sid in w.sessions {
      assert w.sessions[sid := w.sessions[sid]] == w.sessions;
    } else {
      assert w.sessions - {sid} == w.sessions;
    }
  }

  /** A failing OnMessage has been called, keeps what it wrote, and ends the matter. */
  lemma MessageFails<L>(m: Machine, commit: Commit<L>, w: World<L>, sid: string, k: nat, msg: Message)
    requires Wired(m) && AllPlaced(m, w) && Listens(m, w, sid, k, msg)
    requires m.phases[k].onMessage(w.sessions[sid].ctx, msg).failed
    ensures var (w1, o) := Step(m, commit, w, Handle(sid, msg));
            && o == Failed(HookFailed) && sid in w1.sessions && w1.lineage == w.lineage
            && var t, t1 := w.sessions[sid], w1.sessions[sid];
               && Heard(t, t1, k, msg) && |t1.history| == |t.history| + 1
               && t1.ctx == Written(t.ctx, m.phases[k].onMessage(t.ctx, msg))
               && t1.current == t.current && t1.state == t.state
  {
  }

  // ---------------------------------------------------------------- a message that is taken

  /** Is phase k complete once its OnMessage has run? */
  predicate Completes<L>(m: Machine, w: World<L>, sid: string, k: nat, msg: Message)
    requires Listens(m, w, sid, k, msg)
  {
    var t := w.sessions[sid];
    m.phases[k].complete(Written(t.ctx, m.phases[k].onMessage(t.ctx, msg)))
  }

  /** While the phase is not complete the session stays where it is. */
  lemma MessageWaits<L>(m: Machine, commit: Commit<L>, w: World<L>, sid: string, k: nat, msg: Message)
    requires Wired(m) && AllPlaced(m, w) && Listens(m, w, sid, k, msg)
    requires !m.phases[k].onMessage(w.sessions[sid].ctx, msg).failed && !Completes(m, w, sid, k, msg)
    ensures var (w1, o) := Step(m, commit, w, Handle(sid, msg));
            && o == Done(false) && sid in w1.sessions && w1.lineage == w.lineage
            && var t, t1 := w.sessions[sid], w1.sessions[sid];
               && Heard(t, t1, k, msg) && |t1.history| == |t.history| + 1
               && t1.ctx == Written(t.ctx, m.phases[k].onMessage(t.ctx, msg))
               && t1.current == t.current && t1.state == t.state
  {
  }

  /** The tracker once OnMessage has run. */
  function TakenIn(m: Machine, t: Tracker, k: nat, msg: Message): Tracker
    requires k < |m.phases|
  {
    CallHook(t, OnMessage, k, msg, m.phases[k].onMessage(t.ctx, msg))
  }

  /** A cascade, as a function of the session, the store and the hops left alone. */
  type Advancing<!L> = (Tracker, L, nat) -> (Tracker, L, Outcome)

  ghost predicate AdvancingIs<L(!new)>(m: Machine, commit: Commit<L>, advance: Advancing<L>) {
    Wired(m) && forall t, l, hops: nat {:trigger Cascade(m, commit, t, l, hops)} ::
      Placed(m, t) && t.current.Some? ==> advance(t, l, hops) == Cascade(m, commit, t, l, hops)
  }

  lemma TheAdvancing<L(!new)>(m: Machine, commit: Commit<L>) returns (advance: Advancing<L>)
    requires Wired(m)
    ensures AdvancingIs(m, commit, advance)
  {
    advance := (t: Tracker, l: L, hops: nat) =>
      if Placed(m, t) && t.current.Some? then Cascade(m, commit, t, l, hops) else (t, l, Panicked);
  }

  /** A message that completes the phase makes the session advance. */
  lemma CompleteAdvances<L(!new)>(m: Machine, commit: Commit<L>, w: World<L>, sid: string, k: nat, msg: Message,
                                  advance: Advancing<L>)
    requires Wired(m) && AllPlaced(m, w) && Listens(m, w, sid, k, msg) && AdvancingIs(m, commit, advance)
    requires !m.phases[k].onMessage(w.sessions[sid].ctx, msg).failed && Completes(m, w, sid, k, msg)
    ensures var (w1, o) := Step(m, commit, w, Handle(sid, msg));
            var r := advance(TakenIn(m, w.sessions[sid], k, msg), w.lineage, |m.phases| + 1);
            sid in w1.sessions && w1.sessions[sid] == r.0 && o == r.2
  {
    var t0 := TakenIn(m, w.sessions[sid], k, msg);
    assert advance(t0, w.lineage, |m.phases| + 1) == Cascade(m, commit, t0, w.lineage, |m.phases| + 1);
  }

  /** The first hook a cascade calls is the Exit of the phase it starts in. */
  lemma {:induction false} CascadeExits<L>(m: Machine, commit: Commit<L>, t: Tracker, l: L, hops: nat)
    requires Wired(m) && Placed(m, t) && t.current.Some? && hops > 0
    ensures var h := Cascade(m, commit, t, l, hops).0.history;
            && |h| > |t.history| && h[..|t.history| + 1] == t.history + [ExitCall(m, t)]
    decreases hops
  {
    var (t1, l1, end) := Hop(m, commit, t, l);
    assert t1.history[..|t.history| + 1] == t.history + [ExitCall(m, t)];
    if end.Entered? && PassesThrough(m, t1.current.value, t1.ctx) && hops > 1 {
      CascadeExits(m, commit, t1, l1, hops - 1);
      var h := Cascade(m, commit, t1, l1, hops - 1).0.history;
      assert h[..|t.history| + 1] == h[..|t1.history| + 1][..|t.history| + 1];
    }
  }

  lemma AdvancingExits<L(!new)>(m: Machine, commit: Commit<L>, t: Tracker, l: L, advance: Advancing<L>)
    requires AdvancingIs(m, commit, advance) && Placed(m, t) && t.current.Some?
    ensures var h := advance(t, l, |m.phases| + 1).0.history;
            |h| > |t.history| && h[..|t.history| + 1] == t.history + [ExitCall(m, t)]
  {
    CascadeExits(m, commit, t, l, |m.phases| + 1);
    assert advance(t, l, |m.phases| + 1) == Cascade(m, commit, t, l, |m.phases| + 1);
  }

  /** Once the phase is complete, the next hook called is its Exit, with what OnMessage left. */
  lemma MessageExits<L(!new)>(m: Machine, commit: Commit<L>, w: World<L>, sid: string, k: nat, msg: Message)
    requires Wired(m) && AllPlaced(m, w) && Listens(m, w, sid, k, msg)
    requires !m.phases[k].onMessage(w.sessions[sid].ctx, msg).failed && Completes(m, w, sid, k, msg)
    ensures var w1 := Step(m, commit, w, Handle(sid, msg)).0;
            && sid in w1.sessions
            && var t, t1 := w.sessions[sid], w1.sessions[sid];
               && Heard(t, t1, k, msg) && |t1.history| >= |t.history| + 2
               && var x := t1.history[|t.history| + 1];
                  x.kind == Exit && x.phase == k && x.seen == Written(t.ctx, m.phases[k].onMessage(t.ctx, msg))
  {
    var t := w.sessions[sid];
    var t0 := TakenIn(m, t, k, msg);
    var advance := TheAdvancing(m, commit);
    CompleteAdvances(m, commit, w, sid, k, msg, advance);
    AdvancingExits(m, commit, t0, w.lineage, advance);
    HistoryBegins(t.history, t0.history[|t.history|], ExitCall(m, t0), advance(t0, w.lineage, |m.phases| + 1).0.history);
  }

  lemma HistoryBegins(before: seq<HookCall>, a: HookCall, b: HookCall, after: seq<HookCall>)
    requires |after| >= |before| + 2 && after[..|before| + 2] == before + [a] + [b]
    ensures after[..|before|] == before && after[|before|] == a && after[|before| + 1] == b
  {
    assert after[..|before|] == after[..|before| + 2][..|before|];
    assert after[|before|] == after[..|before| + 2][|before|];
    assert after[|before| + 1] == after[..|before| + 2][|before| + 1];
  }

  lemma {:induction false} CascadeTransitions<L>(m: Machine, commit: Commit<L>, t: Tracker, l: L, hops: nat)
    requires Wired(m) && Placed(m, t) && t.current.Some?
    ensures var o := Cascade(m, commit, t, l, hops).2; o.Done? ==> o.transitioned
    decreases hops
  {
    if hops == 0 {
    } else {
      var (t1, l1, end) := Hop(m, commit, t, l);
      if end.Entered? && PassesThrough(m, t1.current.value, t1.ctx) {
        CascadeTransitions(m, commit, t1, l1, hops - 1);
      }
    }
  }

  lemma AdvancingLands<L(!new)>(m: Machine, commit: Commit<L>, t: Tracker, l: L, advance: Advancing<L>, hops: nat)
    requires Forward(m) && AdvancingIs(m, commit, advance) && Placed(m, t) && t.current.Some? && Tracked(m, t)
    requires hops + t.current.value > |m.phases|
    ensures advance(t, l, hops).2.Done? ==> Landed(m, t, advance(t, l, hops).0)
  {
    CascadeLands(m, commit, t, l, hops);
    assert advance(t, l, hops) == Cascade(m, commit, t, l, hops);
  }

  lemma AdvancingMoves<L(!new)>(m: Machine, commit: Commit<L>, t: Tracker, l: L, advance: Advancing<L>, hops: nat)
    requires AdvancingIs(m, commit, advance) && Placed(m, t) && t.current.Some?
    ensures var o := advance(t, l, hops).2; o.Done? ==> o.transitioned
  {
    CascadeTransitions(m, commit, t, l, hops);
    assert advance(t, l, hops) == Cascade(m, commit, t, l, hops);
  }

  /** And if all goes well the session has moved: to the first later phase that consumes
      messages or is not complete, or to its end. */
  lemma MessageLands<L(!new)>(m: Machine, commit: Commit<L>, w: World<L>, sid: string, k: nat, msg: Message)
    requires Forward(m) && AllPlaced(m, w) && Listens(m, w, sid, k, msg) && Tracked(m, w.sessions[sid])
    requires !m.phases[k].onMessage(w.sessions[sid].ctx, msg).failed && Completes(m, w, sid, k, msg)
    ensures var (w1, o) := Step(m, commit, w, Handle(sid, msg));
            && sid in w1.sessions
            && (o.Done? ==> o.transitioned && Landed(m, TakenIn(m, w.sessions[sid], k, msg), w1.sessions[sid]))
  {
    var t := w.sessions[sid];
    var advance := TheAdvancing(m, commit);
    CompleteAdvances(m, commit, w, sid, k, msg, advance);
    DeliveryKeepsOrder(m, t, msg, m.phases[k].onMessage(t.ctx, msg));
    AdvancingLands(m, commit, TakenIn(m, t, k, msg), w.lineage, advance, |m.phases| + 1);
    AdvancingMoves(m, commit, TakenIn(m, t, k, msg), w.lineage, advance, |m.phases| + 1);
  }

  // ---------------------------------------------------------------- messages that succeed

  /** The last inline phase exits to a state that is neither the end nor any phase's entry. */
  predicate Unclaimed(m: Machine) {
    exists k :: 0 <= k < |m.phases| && LastInline(m.phases, k)
                && m.phases[k].exit != STATE_NONE && m.phases[k].exit !in m.byEntryState
  }

  /** Where a hop leads when nothing fails. */
  lemma HopLeads<L(!new)>(m: Machine, commit: Commit<L>, t: Tracker, l: L)
    requires Forward(m) && Placed(m, t) && t.current.Some? && Succeeds(m, commit)
    ensures var (t1, _, end) := Hop(m, commit, t, l);
            if end.Entered? then t.current.value < t1.current.value
            else end == ReachedEnd || (end == Broke(FrameworkBug) && Unclaimed(m))
  {
    assert ForwardAt(m, t.current.value);
  }

  /** The next hop of a cascade: the one that ends it, or one that leads on. */
  lemma HopOnward<L(!new)>(m: Machine, commit: Commit<L>, t: Tracker, l: L, advance: Advancing<L>, hops: nat)
    returns (over: bool, t1: Tracker, l1: L)
    requires Forward(m) && AdvancingIs(m, commit, advance) && Placed(m, t) && t.current.Some? && Succeeds(m, commit)
    requires hops > 0
    ensures over ==> var o := advance(t, l, hops).2; o == Done(true) || (o == Failed(FrameworkBug) && Unclaimed(m))
    ensures !over ==> Placed(m, t1) && t1.current.Some? && t.current.value < t1.current.value
                      && advance(t, l, hops).2 == advance(t1, l1, hops - 1).2
  {
    HopLeads(m, commit, t, l);
    var end := Hop(m, commit, t, l).2;
    t1, l1 := Hop(m, commit, t, l).0, Hop(m, commit, t, l).1;
    assert advance(t, l, hops) == Cascade(m, commit, t, l, hops);
    over := !end.Entered? || !PassesThrough(m, t1.current.value, t1.ctx);
    if !over {
      assert advance(t1, l1, hops - 1) == Cascade(m, commit, t1, l1, hops - 1);
    }
  }

  lemma {:induction false} AdvancingSucceeds<L(!new)>(m: Machine, commit: Commit<L>, t: Tracker, l: L,
                                                      advance: Advancing<L>, hops: nat)
    requires Forward(m) && AdvancingIs(m, commit, advance) && Placed(m, t) && t.current.Some? && Succeeds(m, commit)
    requires hops + t.current.value > |m.phases|
    ensures var o := advance(t, l, hops).2; o == Done(true) || (o == Failed(FrameworkBug) && Unclaimed(m))
    decreases hops
  {
    var over, t1, l1 := HopOnward(m, commit, t, l, advance, hops);
    if !over {
      AdvancingSucceeds(m, commit, t1, l1, advance, hops - 1);
    }
  }

  /** With succeeding hooks and commits a message that completes the phase is never refused,
      unless the pipeline ends in a state nobody claims. */
  lemma MessageSucceeds<L(!new)>(m: Machine, commit: Commit<L>, w: World<L>, sid: string, k: nat, msg: Message)
    requires Forward(m) && AllPlaced(m, w) && Listens(m, w, sid, k, msg) && Succeeds(m, commit)
    requires !m.phases[k].onMessage(w.sessions[sid].ctx, msg).failed && Completes(m, w, sid, k, msg)
    ensures var o := Step(m, commit, w, Handle(sid, msg)).1;
            o == Done(true) || (o == Failed(FrameworkBug) && Unclaimed(m))
  {
    var advance := TheAdvancing(m, commit);
    CompleteAdvances(m, commit, w, sid, k, msg, advance);
    AdvancingSucceeds(m, commit, TakenIn(m, w.sessions[sid], k, msg), w.lineage, advance, |m.phases| + 1);
  }

  // ---------------------------------------------------------------- ended sessions

  /** EndSession forgets the session and no other: messages and walks for it are refused from
      then on, and it may begin again. */
  lemma EndForgets<L>(m: Machine, commit: Commit<L>, w: World<L>, sid: string, msg: Message, target: State, cohort: string)
    requires Wired(m) && AllPlaced(m, w) && sid != ""
    ensures var w1 := Step(m, commit, w, End(sid)).0;
            && sid !in w1.sessions && w1.lineage == w.lineage
            && (forall other :: other != sid ==> Lookup(w1.sessions, other) == Lookup(w.sessions, other))
            && Step(m, commit, w1, Handle(sid, msg)) == (w1, Failed(Permanent))
            && Step(m, commit, w1, AdvanceTo(sid, target)) == (w1, Failed(Permanent))
            && (Step(m, commit, w1, Begin(sid, cohort)).1.Done? <==> Start(m, sid, cohort).0.Some?)
  {
    var w1 := Step(m, commit, w, End(sid)).0;
    assert w1.sessions - {sid} == w1.sessions;
  }
}
