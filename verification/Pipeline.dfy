/** Phases, their declared schemas, and Compose: the check that a phase list forms a
    runnable pipeline and the lookup tables the runner derives from it
    (pkg/ares/phase/runner.go, types.go, phase.go). */
module Pipeline {
  import opened Wrappers

  type State = string

  const STATE_NONE: State := ""

  /** A Go `any` constraint value, seen through the two views the checks use:
      its numeric reading (absent for non-numbers) and its printed form. */
  datatype Constraint = Constraint(number: Option<real>, shown: string)

  datatype KeyType = KeyType(typeName: string, required: bool,
                             constraints: map<string, Constraint>, noLineage: bool)

  type Schema = map<string, KeyType>

  datatype RunsAt = Registration | SessionStart | Inline

  /** A context value: a byte slice, or any other Go value. */
  datatype Value = Bytes(bytes: seq<int>) | Other(shown: string)

  datatype Context = Context(sessionID: string, cohortID: string, values: map<string, Value>)

  /** Hooks reach the context only through Set and Update, so the effect of one is what it
      leaves under the keys it touched; a failing hook may have written before it failed. */
  datatype Effect = Effect(writes: map<string, Value>, failed: bool)

  datatype Message = Message(msgType: string, from: string, payload: seq<int>)

  datatype Phase = Phase(
    name: string,
    runsAt: RunsAt,
    entry: State,
    exit: State,
    internals: seq<State>,
    consumes: seq<string>,
    needs: Schema,
    gives: Schema,
    onEnter: Context -> Effect,
    onMessage: (Context, Message) -> Effect,
    complete: Context -> bool,
    onExit: Context -> Effect)

  // ---------------------------------------------------------------- schema checks

  predicate IsMinimum(name: string) {
    |name| > 4 && name[|name| - 4..] == "_min"
  }

  predicate AtLeast(a: Constraint, b: Constraint) {
    a.number.Some? && b.number.Some? && a.number.value >= b.number.value
  }

  predicate ConstraintMet(name: string, want: Constraint, got: map<string, Constraint>) {
    if name == "" then true
    else if IsMinimum(name) then
      var producerKey := name[..|name| - 4];
      producerKey in got && AtLeast(got[producerKey], want)
    else name in got && got[name].shown == want.shown
  }

  /** checkConstraints */
  predicate ConstraintsMet(want: map<string, Constraint>, got: map<string, Constraint>) {
    forall name <- want :: ConstraintMet(name, want[name], got)
  }

  predicate TypesAgree(want: KeyType, got: KeyType) {
    want.typeName == "" || got.typeName == "" || want.typeName == got.typeName
  }

  /** What a consumer's declaration asks of the declaration it is fed from. */
  predicate Compatible(want: KeyType, got: KeyType) {
    TypesAgree(want, got) && ConstraintsMet(want.constraints, got.constraints)
  }

  /** validateRequires */
  predicate SchemaMet(needs: Schema, provided: Schema) {
    forall key <- needs ::
      if key in provided then Compatible(needs[key], provided[key]) else !needs[key].required
  }

  // ---------------------------------------------------------------- acceptance

  /** What the first i phases provide, later declarations replacing earlier ones. */
  function ProvidedBefore(phases: seq<Phase>, i: nat): Schema
    requires i <= |phases|
  {
    if i == 0 then map[] else ProvidedBefore(phases, i - 1) + phases[i - 1].gives
  }

  function NamesBefore(phases: seq<Phase>, i: nat): set<string>
    requires i <= |phases|
  {
    if i == 0 then {} else NamesBefore(phases, i - 1) + {phases[i - 1].name}
  }

  predicate InlineAt(phases: seq<Phase>, i: nat)
    requires i < |phases|
  {
    phases[i].runsAt == Inline
  }

  /** j is the inline phase that comes right before position i. */
  predicate PrecedesInline(phases: seq<Phase>, j: nat, i: nat)
    requires i <= |phases|
  {
    j < i && InlineAt(phases, j) && forall m :: j < m < i ==> !InlineAt(phases, m)
  }

  predicate InternalOk(phases: seq<Phase>, i: nat, x: nat)
    requires i < |phases| && x < |phases[i].internals|
  {
    var sub := phases[i].internals[x];
    && sub != STATE_NONE
    && sub != phases[i].entry
    && (forall j :: 0 <= j < i && InlineAt(phases, j) ==> phases[j].entry != sub)
    && (forall j :: 0 <= j < i && InlineAt(phases, j) ==> sub !in phases[j].internals)
    && (forall y :: 0 <= y < x ==> phases[i].internals[y] != sub)
  }

  predicate StatesOk(phases: seq<Phase>, i: nat)
    requires i < |phases|
  {
    if InlineAt(phases, i) then
      && phases[i].entry != STATE_NONE
      && (forall j :: 0 <= j < i && InlineAt(phases, j) ==> phases[j].entry != phases[i].entry)
      && (forall x :: 0 <= x < |phases[i].internals| ==> InternalOk(phases, i, x))
      && (forall j :: 0 <= j < i && PrecedesInline(phases, j, i) ==> phases[j].exit == phases[i].entry)
    else phases[i].entry == STATE_NONE && phases[i].exit == STATE_NONE
  }

  /** Everything Compose asks of phase i, given the phases before it. */
  predicate PhaseOk(phases: seq<Phase>, i: nat)
    requires i < |phases|
  {
    && phases[i].name != ""
    && phases[i].name !in NamesBefore(phases, i)
    && SchemaMet(phases[i].needs, ProvidedBefore(phases, i))
    && StatesOk(phases, i)
  }

  predicate Accepted(phases: seq<Phase>) {
    |phases| > 0 && forall i {:trigger PhaseOk(phases, i)} :: 0 <= i < |phases| ==> PhaseOk(phases, i)
  }

  // ---------------------------------------------------------------- derived tables

  /** A composed runner; phases are named by their position in the pipeline. */
  datatype Machine = Machine(
    phases: seq<Phase>,
    byEntryState: map<State, nat>,
    byInternalState: map<State, nat>,
    initialState: State)

  /** byEntry holds the entry state of each inline phase below n, and nothing else. */
  predicate EntryTable(phases: seq<Phase>, n: nat, byEntry: map<State, nat>)
    requires n <= |phases|
  {
    && (forall i :: 0 <= i < n && InlineAt(phases, i) ==>
          phases[i].entry in byEntry && byEntry[phases[i].entry] == i)
    && (forall s <- byEntry ::
          byEntry[s] < n && InlineAt(phases, byEntry[s]) && phases[byEntry[s]].entry == s)
  }

  /** byInternal holds the first `upto` internal states of phase n and all of those below. */
  predicate InternalTable(phases: seq<Phase>, n: nat, upto: nat, byInternal: map<State, nat>)
    requires n < |phases| ==> upto <= |phases[n].internals|
    requires n < |phases| || (n == |phases| && upto == 0)
  {
    && (forall i, x :: 0 <= i < n && InlineAt(phases, i) && 0 <= x < |phases[i].internals| ==>
          phases[i].internals[x] in byInternal && byInternal[phases[i].internals[x]] == i)
    && (forall x :: 0 <= x < upto ==>
          phases[n].internals[x] in byInternal && byInternal[phases[n].internals[x]] == n)
    && (forall s <- byInternal ::
          || (byInternal[s] < n && InlineAt(phases, byInternal[s]) && s in phases[byInternal[s]].internals)
          || (byInternal[s] == n && n < |phases| && s in phases[n].internals[..upto]))
  }

  /** Position i holds the first inline phase of the pipeline. */
  predicate FirstInline(phases: seq<Phase>, i: nat)
    requires i < |phases|
  {
    InlineAt(phases, i) && forall m :: 0 <= m < i ==> !InlineAt(phases, m)
  }

  predicate InitialStateOf(phases: seq<Phase>, n: nat, s: State)
    requires n <= |phases|
  {
    && (forall i :: 0 <= i < n && FirstInline(phases, i) ==> phases[i].entry == s)
    && ((forall i :: 0 <= i < n ==> !InlineAt(phases, i)) ==> s == STATE_NONE)
  }

  ghost predicate Derived(m: Machine) {
    && EntryTable(m.phases, |m.phases|, m.byEntryState)
    && InternalTable(m.phases, |m.phases|, 0, m.byInternalState)
    && InitialStateOf(m.phases, |m.phases|, m.initialState)
  }

  /** The locals of Compose's loop. */
  datatype Tables = Tables(byName: map<string, nat>, byEntry: map<State, nat>, byInternal: map<State, nat>,
                           initial: State, provided: Schema, prevInline: Option<nat>)

  ghost predicate TablesFor(phases: seq<Phase>, n: nat, t: Tables)
    requires n <= |phases|
  {
    && t.byName.Keys == NamesBefore(phases, n)
    && t.provided == ProvidedBefore(phases, n)
    && EntryTable(phases, n, t.byEntry)
    && InternalTable(phases, n, 0, t.byInternal)
    && InitialStateOf(phases, n, t.initial)
    && PrevInlineIs(phases, n, t.prevInline)
  }

  predicate PrevInlineIs(phases: seq<Phase>, n: nat, prev: Option<nat>)
    requires n <= |phases|
  {
    match prev
    case None => forall j :: 0 <= j < n ==> !InlineAt(phases, j)
    case Some(j) => PrecedesInline(phases, j, n)
  }

  /** Compose accepts exactly the well-formed pipelines, and derives their tables. */
  method Compose(phases: seq<Phase>) returns (r: Option<Machine>)
    ensures r.Some? <==> Accepted(phases)
    ensures r.Some? ==> r.value.phases == phases && Derived(r.value)
  {
    if |phases| == 0 {
      return None;
    }
    var ok, t := AdmitAll(phases);
    r := if ok then Some(Machine(phases, t.byEntry, t.byInternal, t.initial)) else None;
  }

  const NO_TABLES := Tables(map[], map[], map[], STATE_NONE, map[], None)

  lemma NoTables(phases: seq<Phase>)
    ensures TablesFor(phases, 0, NO_TABLES)
  {
  }

  predicate AllOk(phases: seq<Phase>, n: nat)
    requires n <= |phases|
  {
    forall j: nat {:trigger PhaseOk(phases, j)} :: j < n ==> PhaseOk(phases, j)
  }

  lemma OneMoreOk(phases: seq<Phase>, i: nat)
    requires i < |phases|
    ensures AllOk(phases, i + 1) <==> AllOk(phases, i) && PhaseOk(phases, i)
  {
  }

  lemma AllMeansFirst(phases: seq<Phase>, i: nat)
    requires i <= |phases|
    ensures AllOk(phases, |phases|) ==> AllOk(phases, i)
  {
  }

  /** Compose's loop, which stops at the first phase it refuses. */
  method AdmitAll(phases: seq<Phase>) returns (ok: bool, t: Tables)
    ensures ok <==> AllOk(phases, |phases|)
    ensures ok ==> TablesFor(phases, |phases|, t)
  {
    ok, t := true, NO_TABLES;
    NoTables(phases);
    var i := 0;
    while i < |phases| && ok
      invariant 0 <= i <= |phases|
      invariant ok <==> AllOk(phases, i)
      invariant ok ==> TablesFor(phases, i, t)
    {
      OneMoreOk(phases, i);
      ok, t := AdmitPhase(phases, i, t);
      i := i + 1;
    }
    AllMeansFirst(phases, i);
  }

  /** One iteration of Compose's loop. */
  method AdmitPhase(phases: seq<Phase>, i: nat, t: Tables) returns (ok: bool, t': Tables)
    requires i < |phases| && TablesFor(phases, i, t)
    ensures ok <==> PhaseOk(phases, i)
    ensures ok ==> TablesFor(phases, i + 1, t')
  {
    var p := phases[i];
    if p.name == "" || p.name in t.byName || !SchemaMet(p.needs, t.provided) {
      return false, t;
    }
    var byEntry, byInternal;
    ok, byEntry, byInternal := ClaimStates(phases, i, t.byEntry, t.byInternal, t.prevInline);
    t' := t.(byName := t.byName[p.name := i], provided := t.provided + p.gives);
    if ok && p.runsAt == Inline {
      t' := t'.(byEntry := byEntry, byInternal := byInternal,
                initial := if t.prevInline.None? then p.entry else t.initial,
                prevInline := Some(i));
      InitialCarries(phases, i, t.prevInline, t.initial);
    } else if ok {
      t' := t'.(byEntry := byEntry, byInternal := byInternal);
      InitialCarries(phases, i, t.prevInline, t.initial);
    }
  }

  lemma InitialCarries(phases: seq<Phase>, i: nat, prev: Option<nat>, initial: State)
    requires i < |phases| && PrevInlineIs(phases, i, prev) && InitialStateOf(phases, i, initial)
    ensures InitialStateOf(phases, i + 1, if prev.None? && InlineAt(phases, i) then phases[i].entry else initial)
    ensures PrevInlineIs(phases, i + 1, if InlineAt(phases, i) then Some(i) else prev)
  {
  }

  /** The loop over one phase's internal states. The phase's own entry is registered
      before the loop in the source, so an internal state equal to it is refused too. */
  method ClaimInternals(phases: seq<Phase>, i: nat, byEntry: map<State, nat>, start: map<State, nat>)
    returns (ok: bool, byInternal: map<State, nat>)
    requires i < |phases| && InlineAt(phases, i)
    requires EntryTable(phases, i, byEntry) && InternalTable(phases, i, 0, start)
    ensures ok <==> forall x :: 0 <= x < |phases[i].internals| ==> InternalOk(phases, i, x)
    ensures ok ==> InternalTable(phases, i + 1, 0, byInternal)
  {
    byInternal := start;
    var subs := phases[i].internals;
    var x := 0;
    while x < |subs|
      invariant 0 <= x <= |subs|
      invariant forall y :: 0 <= y < x ==> InternalOk(phases, i, y)
      invariant InternalTable(phases, i, x, byInternal)
    {
      var sub := subs[x];
      if sub == STATE_NONE || sub == phases[i].entry || sub in byEntry || sub in byInternal {
        assert !InternalOk(phases, i, x);
        return false, byInternal;
      }
      byInternal := byInternal[sub := i];
      x := x + 1;
    }
    ok := true;
  }

  /** Comparing with prevInline is comparing with the inline phase right before. */
  lemma LinkIs(phases: seq<Phase>, i: nat, prev: Option<nat>)
    requires i < |phases| && PrevInlineIs(phases, i, prev)
    ensures prev.None? || phases[prev.value].exit == phases[i].entry
       <==> forall j :: 0 <= j < i && PrecedesInline(phases, j, i) ==> phases[j].exit == phases[i].entry
  {
  }

  /** The state declarations of phase i, checked against the phases before it and
      entered into the tables. */
  method ClaimStates(phases: seq<Phase>, i: nat, byEntry: map<State, nat>, byInternal: map<State, nat>,
                     prevInline: Option<nat>)
    returns (ok: bool, byEntry': map<State, nat>, byInternal': map<State, nat>)
    requires i < |phases|
    requires EntryTable(phases, i, byEntry) && InternalTable(phases, i, 0, byInternal)
    requires PrevInlineIs(phases, i, prevInline)
    ensures ok <==> StatesOk(phases, i)
    ensures ok ==> EntryTable(phases, i + 1, byEntry') && InternalTable(phases, i + 1, 0, byInternal')
  {
    var p := phases[i];
    byEntry', byInternal' := byEntry, byInternal;
    if p.runsAt != Inline {
      ok := p.entry == STATE_NONE && p.exit == STATE_NONE;
      return;
    }
    if p.entry == STATE_NONE || p.entry in byEntry {
      return false, byEntry, byInternal;
    }
    ok, byInternal' := ClaimInternals(phases, i, byEntry, byInternal);
    if !ok {
      return;
    }
    byEntry' := byEntry[p.entry := i];
    LinkIs(phases, i, prevInline);
    ok := prevInline.None? || phases[prevInline.value].exit == p.entry;
  }

  /** PhaseForState: entry states first, then internal states. */
  function PhaseForState(m: Machine, s: State): (r: Option<nat>)
    requires Derived(m)
    ensures r.Some? ==> r.value < |m.phases| && InlineAt(m.phases, r.value)
                        && (m.phases[r.value].entry == s || s in m.phases[r.value].internals)
    ensures forall i :: 0 <= i < |m.phases| && InlineAt(m.phases, i) && m.phases[i].entry == s ==> r == Some(i)
    ensures r.None? ==> forall i :: 0 <= i < |m.phases| && InlineAt(m.phases, i) ==>
                                    m.phases[i].entry != s && s !in m.phases[i].internals
  {
    if s in m.byEntryState then Some(m.byEntryState[s])
    else if s in m.byInternalState then Some(m.byInternalState[s])
    else None
  }
}
