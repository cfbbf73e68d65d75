/** Which pipelines Compose accepts, read off the declarations themselves
    (pkg/ares/phase/runner.go, validateRequires and checkConstraints). */
module PipelineSchema {
  import opened Wrappers
  import opened Pipeline

  /** j is the last phase before position k that declares the key. */
  predicate ProvidesLast(phases: seq<Phase>, j: nat, k: nat, key: string)
    requires k <= |phases|
  {
    j < k && key in phases[j].gives && forall i :: j < i < k ==> key !in phases[i].gives
  }

  /** The constraint asks for at least so much of x. */
  predicate MinimumOf(name: string, x: string) {
    x != "" && name == x + "_min"
  }

  /** x_min = v is met by a numeric x = u with u >= v, any other named constraint by one that
      prints the same; a constraint without a name asks for nothing. */
  ghost predicate Satisfied(name: string, want: Constraint, got: map<string, Constraint>) {
    && (forall x :: MinimumOf(name, x) ==>
          x in got && got[x].number.Some? && want.number.Some? && want.number.value <= got[x].number.value)
    && (name != "" && (forall x :: !MinimumOf(name, x)) ==> name in got && got[name].shown == want.shown)
  }

  /** The key as phase k needs it, against the phase that provides it last. */
  ghost predicate Fed(phases: seq<Phase>, k: nat, key: string)
    requires k < |phases| && key in phases[k].needs
  {
    var want := phases[k].needs[key];
    && (want.required ==> exists j :: 0 <= j < k && key in phases[j].gives)
    && forall j :: 0 <= j < k && ProvidesLast(phases, j, k, key) ==>
         var got := phases[j].gives[key];
         && (want.typeName == got.typeName || want.typeName == "" || got.typeName == "")
         && forall name <- want.constraints :: Satisfied(name, want.constraints[name], got.constraints)
  }

  predicate OwnName(phases: seq<Phase>, k: nat)
    requires k < |phases|
  {
    phases[k].name != "" && forall j :: 0 <= j < k ==> phases[j].name != phases[k].name
  }

  lemma MinimumIs(name: string)
    ensures IsMinimum(name) ==> MinimumOf(name, name[..|name| - 4])
    ensures forall x :: MinimumOf(name, x) ==> IsMinimum(name) && x == name[..|name| - 4]
  {
    if IsMinimum(name) {
      assert name == name[..|name| - 4] + name[|name| - 4..];
    }
    forall x | MinimumOf(name, x) ensures IsMinimum(name) && x == name[..|name| - 4] {
      assert name[|x|..] == "_min" && name[..|x|] == x;
    }
  }

  lemma ConstraintIs(name: string, want: Constraint, got: map<string, Constraint>)
    ensures ConstraintMet(name, want, got) <==> Satisfied(name, want, got)
  {
    MinimumIs(name);
    if IsMinimum(name) {
      assert MinimumOf(name, name[..|name| - 4]);
    }
  }

  lemma CompatibleIs(want: KeyType, got: KeyType)
    ensures Compatible(want, got) <==>
              && (want.typeName == got.typeName || want.typeName == "" || got.typeName == "")
              && forall name <- want.constraints :: Satisfied(name, want.constraints[name], got.constraints)
  {
    forall name <- want.constraints
      ensures ConstraintMet(name, want.constraints[name], got.constraints)
              <==> Satisfied(name, want.constraints[name], got.constraints)
    {
      ConstraintIs(name, want.constraints[name], got.constraints);
    }
  }

  /** What Compose has accumulated under a key is its last provider's declaration. */
  lemma {:induction false} LastDeclares(phases: seq<Phase>, k: nat, key: string) returns (last: Option<nat>)
    requires k <= |phases|
    ensures last.None? ==> key !in ProvidedBefore(phases, k) && forall j :: 0 <= j < k ==> key !in phases[j].gives
    ensures last.Some? ==> ProvidesLast(phases, last.value, k, key) && key in ProvidedBefore(phases, k)
                           && ProvidedBefore(phases, k)[key] == phases[last.value].gives[key]
    decreases k
  {
    if k == 0 {
      last := None;
    } else if key in phases[k - 1].gives {
      last := Some(k - 1);
    } else {
      last := LastDeclares(phases, k - 1, key);
    }
  }

  lemma FedIs(phases: seq<Phase>, k: nat, key: string)
    requires k < |phases| && key in phases[k].needs
    ensures Fed(phases, k, key) <==>
              var provided, needs := ProvidedBefore(phases, k), phases[k].needs;
              if key in provided then Compatible(needs[key], provided[key]) else !needs[key].required
  {
    var last := LastDeclares(phases, k, key);
    if last.Some? {
      CompatibleIs(phases[k].needs[key], phases[last.value].gives[key]);
    }
  }

  lemma SchemaIs(phases: seq<Phase>, k: nat)
    requires k < |phases|
    ensures SchemaMet(phases[k].needs, ProvidedBefore(phases, k)) <==> forall key <- phases[k].needs :: Fed(phases, k, key)
  {
    forall key <- phases[k].needs
      ensures Fed(phases, k, key) <==>
                var provided, needs := ProvidedBefore(phases, k), phases[k].needs;
                if key in provided then Compatible(needs[key], provided[key]) else !needs[key].required
    {
      FedIs(phases, k, key);
    }
  }

  lemma {:induction false} NamesAre(phases: seq<Phase>, k: nat, name: string)
    requires k <= |phases|
    ensures name in NamesBefore(phases, k) <==> exists j :: 0 <= j < k && phases[j].name == name
    decreases k
  {
    if k == 0 {
    } else {
      NamesAre(phases, k - 1, name);
      if name in NamesBefore(phases, k - 1) {
        var j :| 0 <= j < k - 1 && phases[j].name == name;
        assert 0 <= j < k;
      }
    }
  }

  // ---------------------------------------------------------------- states

  predicate InlineIn(phases: seq<Phase>, k: nat) {
    k < |phases| && phases[k].runsAt == Inline
  }

  /** Place x in the list of phase k's internal states. */
  predicate InternalAt(phases: seq<Phase>, k: nat, x: nat) {
    InlineIn(phases, k) && x < |phases[k].internals|
  }

  /** Inline phases enter by states of their own. */
  ghost predicate EntriesDistinct(phases: seq<Phase>) {
    && (forall k: nat :: InlineIn(phases, k) ==> phases[k].entry != STATE_NONE)
    && (forall j: nat, k: nat :: InlineIn(phases, j) && InlineIn(phases, k) && j != k ==> phases[j].entry != phases[k].entry)
  }

  /** No state is listed twice as internal, anywhere, and none is empty or the entry of the phase
      that lists it or of an earlier one. */
  ghost predicate InternalsDistinct(phases: seq<Phase>) {
    && (forall k: nat, x: nat :: InternalAt(phases, k, x) ==> phases[k].internals[x] != STATE_NONE)
    && (forall k: nat, x: nat, j: nat :: InternalAt(phases, k, x) && j <= k && InlineIn(phases, j) ==>
          phases[j].entry != phases[k].internals[x])
    && (forall j: nat, x: nat, k: nat, y: nat :: InternalAt(phases, j, x) && InternalAt(phases, k, y) && (j, x) != (k, y) ==>
          phases[j].internals[x] != phases[k].internals[y])
  }

  /** k is the next inline phase after j. */
  ghost predicate NextInline(phases: seq<Phase>, j: nat, k: nat) {
    InlineIn(phases, j) && InlineIn(phases, k) && j < k && forall i: nat :: j < i < k ==> !InlineIn(phases, i)
  }

  lemma NextIsPreceding(phases: seq<Phase>, j: nat, k: nat)
    requires k < |phases| && InlineIn(phases, k)
    ensures NextInline(phases, j, k) <==> PrecedesInline(phases, j, k)
  {
    assert forall i: nat :: j < i < k ==> (InlineIn(phases, i) <==> InlineAt(phases, i));
  }

  /** Each inline phase exits to the entry of the next one, and other phases have no states. */
  ghost predicate Linked(phases: seq<Phase>) {
    && (forall j: nat, k: nat :: NextInline(phases, j, k) ==> phases[j].exit == phases[k].entry)
    && (forall k :: 0 <= k < |phases| && !InlineIn(phases, k) ==>
          phases[k].entry == STATE_NONE && phases[k].exit == STATE_NONE)
  }

  ghost predicate AllStatesOk(phases: seq<Phase>) {
    forall k {:trigger StatesOk(phases, k)} :: 0 <= k < |phases| ==> StatesOk(phases, k)
  }

  lemma StatesOkDistinct(phases: seq<Phase>)
    requires AllStatesOk(phases)
    ensures EntriesDistinct(phases) && InternalsDistinct(phases)
  {
    forall k: nat | InlineIn(phases, k) ensures phases[k].entry != STATE_NONE {
      assert StatesOk(phases, k);
    }
    forall j: nat, k: nat | InlineIn(phases, j) && InlineIn(phases, k) && j != k ensures phases[j].entry != phases[k].entry {
      assert StatesOk(phases, j) && StatesOk(phases, k);
      assert InlineAt(phases, j) && InlineAt(phases, k);
    }
    forall k: nat, x: nat | InternalAt(phases, k, x) ensures phases[k].internals[x] != STATE_NONE {
      assert StatesOk(phases, k) && InternalOk(phases, k, x);
    }
    forall k: nat, x: nat, j: nat | InternalAt(phases, k, x) && j <= k && InlineIn(phases, j)
      ensures phases[j].entry != phases[k].internals[x]
    {
      assert StatesOk(phases, k) && InternalOk(phases, k, x) && InlineAt(phases, j);
    }
    forall j: nat, x: nat, k: nat, y: nat | InternalAt(phases, j, x) && InternalAt(phases, k, y) && (j, x) != (k, y)
      ensures phases[j].internals[x] != phases[k].internals[y]
    {
      if j < k || (j == k && x < y) {
        EarlierDiffers(phases, j, x, k, y);
      } else {
        EarlierDiffers(phases, k, y, j, x);
      }
    }
  }

  lemma EarlierDiffers(phases: seq<Phase>, j: nat, x: nat, k: nat, y: nat)
    requires AllStatesOk(phases) && InternalAt(phases, j, x) && InternalAt(phases, k, y) && (j < k || (j == k && x < y))
    ensures phases[j].internals[x] != phases[k].internals[y]
  {
    assert StatesOk(phases, k) && InternalOk(phases, k, y) && InlineAt(phases, j);
    assert phases[j].internals[x] in phases[j].internals;
  }

  lemma StatesOkLinked(phases: seq<Phase>)
    requires AllStatesOk(phases)
    ensures Linked(phases)
  {
    forall j: nat, k: nat | NextInline(phases, j, k) ensures phases[j].exit == phases[k].entry {
      NextIsPreceding(phases, j, k);
      assert StatesOk(phases, k);
    }
    forall k | 0 <= k < |phases| && !InlineIn(phases, k) ensures phases[k].entry == STATE_NONE && phases[k].exit == STATE_NONE {
      assert StatesOk(phases, k);
    }
  }

  lemma InternalsAreOk(phases: seq<Phase>, k: nat)
    requires InternalsDistinct(phases) && InlineIn(phases, k)
    ensures forall x :: 0 <= x < |phases[k].internals| ==> InternalOk(phases, k, x)
  {
    forall x | 0 <= x < |phases[k].internals| ensures InternalOk(phases, k, x) {
      var sub := phases[k].internals[x];
      assert InternalAt(phases, k, x) && InlineIn(phases, k);
      forall j | 0 <= j < k && InlineAt(phases, j) ensures phases[j].entry != sub && sub !in phases[j].internals {
        assert InlineIn(phases, j);
        forall y | 0 <= y < |phases[j].internals| ensures phases[j].internals[y] != sub {
          assert InternalAt(phases, j, y);
        }
      }
      forall y | 0 <= y < x ensures phases[k].internals[y] != sub {
        assert InternalAt(phases, k, y);
      }
    }
  }

  lemma InOrderIsOk(phases: seq<Phase>, k: nat)
    requires EntriesDistinct(phases) && InternalsDistinct(phases) && Linked(phases) && k < |phases|
    ensures StatesOk(phases, k)
  {
    if InlineIn(phases, k) {
      InternalsAreOk(phases, k);
      EntryIsOk(phases, k);
      LinkIsOk(phases, k);
    }
  }

  lemma EntryIsOk(phases: seq<Phase>, k: nat)
    requires EntriesDistinct(phases) && InlineIn(phases, k)
    ensures forall j :: 0 <= j < k && InlineAt(phases, j) ==> phases[j].entry != phases[k].entry
  {
    forall j | 0 <= j < k && InlineAt(phases, j) ensures phases[j].entry != phases[k].entry {
      assert InlineIn(phases, j);
    }
  }

  lemma LinkIsOk(phases: seq<Phase>, k: nat)
    requires Linked(phases) && InlineIn(phases, k)
    ensures forall j :: 0 <= j < k && PrecedesInline(phases, j, k) ==> phases[j].exit == phases[k].entry
  {
    forall j | 0 <= j < k && PrecedesInline(phases, j, k) ensures phases[j].exit == phases[k].entry {
      NextIsPreceding(phases, j, k);
    }
  }

  lemma StatesExactly(phases: seq<Phase>)
    ensures AllStatesOk(phases) <==> EntriesDistinct(phases) && InternalsDistinct(phases) && Linked(phases)
  {
    if AllStatesOk(phases) {
      StatesOkDistinct(phases);
      StatesOkLinked(phases);
    }
    if EntriesDistinct(phases) && InternalsDistinct(phases) && Linked(phases) {
      forall k | 0 <= k < |phases| ensures StatesOk(phases, k) {
        InOrderIsOk(phases, k);
      }
    }
  }

  // ---------------------------------------------------------------- acceptance

  lemma PhaseIs(phases: seq<Phase>, k: nat)
    requires k < |phases|
    ensures PhaseOk(phases, k) <==> NamedAndFed(phases, k) && StatesOk(phases, k)
  {
    NamesAre(phases, k, phases[k].name);
    SchemaIs(phases, k);
  }

  /** A name of its own, and every key it needs. */
  ghost predicate NamedAndFed(phases: seq<Phase>, k: nat)
    requires k < |phases|
  {
    OwnName(phases, k) && forall key <- phases[k].needs :: Fed(phases, k, key)
  }

  /** A pipeline is accepted exactly when its phases have names of their own, its states are
      distinct and linked, every needed key is provided if required, and its last provider's type
      and constraints meet the consumer's. */
  lemma AcceptedExactly(phases: seq<Phase>)
    ensures Accepted(phases) <==>
              && phases != [] && EntriesDistinct(phases) && InternalsDistinct(phases) && Linked(phases)
              && forall k {:trigger NamedAndFed(phases, k)} :: 0 <= k < |phases| ==> NamedAndFed(phases, k)
  {
    StatesExactly(phases);
    forall k | 0 <= k < |phases| ensures PhaseOk(phases, k) <==> NamedAndFed(phases, k) && StatesOk(phases, k) {
      PhaseIs(phases, k);
    }
    if Accepted(phases) {
      forall k | 0 <= k < |phases| ensures StatesOk(phases, k) && NamedAndFed(phases, k) {
        assert PhaseOk(phases, k);
      }
    }
    if AllStatesOk(phases) && forall k {:trigger NamedAndFed(phases, k)} :: 0 <= k < |phases| ==> NamedAndFed(phases, k) {
      forall k | 0 <= k < |phases| ensures PhaseOk(phases, k) {
        assert NamedAndFed(phases, k) && StatesOk(phases, k);
      }
    }
  }

  /** A depth of 10 meets a minimum of 8, and one of 3 does not. */
  lemma DepthsCompared(want: Constraint, got: Constraint)
    requires want.number == Some(8.0)
    ensures got.number == Some(10.0) ==> ConstraintMet("depth_min", want, map["depth" := got])
    ensures got.number == Some(3.0) ==> !ConstraintMet("depth_min", want, map["depth" := got])
  {
    assert "depth_min"[..5] == "depth" && "depth_min"[5..] == "_min";
  }
}
