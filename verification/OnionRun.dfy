/** Whole runs of the onion shuffle: N participants, the relay and every order in which batches
    can arrive, arrive again and be peeled (pkg/ares/onion/onion.go,
    examples/voting/cmd/session-service/main.go). */
module OnionRun {
  import opened Wrappers
  import opened Onion

  /** N participants; participant b wraps payloads[b] with the randomness of row b. */
  datatype Shuffle = Shuffle(names: seq<string>, keys: seq<nat>, payloads: seq<Term>, nonces: seq<seq<nat>>)

  ghost predicate Fresh(s: Shuffle) {
    forall b, i, c, j ::
      0 <= b < |s.nonces| && 0 <= i < |s.nonces[b]| && 0 <= c < |s.nonces| && 0 <= j < |s.nonces[c]| ==>
        (b, i) == (c, j) || s.nonces[b][i] != s.nonces[c][j]
  }

  ghost predicate WellFormed(s: Shuffle) {
    && |s.names| == |s.keys| == |s.payloads| == |s.nonces| > 0
    && (forall b :: 0 <= b < |s.nonces| ==> |s.nonces[b]| == |s.names|)
    && (forall b, c :: 0 <= b < c < |s.names| ==> s.names[b] != s.names[c])
    && Fresh(s)
  }

  function Pubs(s: Shuffle): seq<Pub> {
    seq(|s.keys|, i requires 0 <= i < |s.keys| => Pub(s.keys[i]))
  }

  /** Participant b's item once the first r peelers have removed their layers. */
  ghost function Item(s: Shuffle, b: nat, r: nat): Term
    requires WellFormed(s) && b < |s.names| && r <= |s.names|
  {
    Wrap(s.payloads[b], Pubs(s), s.nonces[b], r)
  }

  ghost function Memo(s: Shuffle, b: nat): Term
    requires WellFormed(s) && b < |s.names|
  {
    Item(s, b, b)
  }

  ghost function Items(s: Shuffle, r: nat): seq<Term>
    requires WellFormed(s) && r <= |s.names|
  {
    seq(|s.names|, b requires 0 <= b < |s.names| => Item(s, b, r))
  }

  /** How many envelopes lie around whatever is inside. */
  function Layers(t: Term): nat {
    if t.Sealed? then 1 + Layers(t.inner) else 0
  }

  /** Exactly N - r layers are left on top of the payload after r rounds. */
  lemma {:induction false} LayersLeft(s: Shuffle, b: nat, r: nat)
    requires WellFormed(s) && b < |s.names| && r <= |s.names|
    ensures Layers(Item(s, b, r)) == |s.names| - r + Layers(s.payloads[b])
    decreases |s.names| - r
  {
    if r >= |s.names| {
    } else {
      LayersLeft(s, b, r + 1);
    }
  }

  /** A peeler's memo is equal to one item of one round only: its own, at its own round. */
  lemma MemoMatchesOwnItemOnly(s: Shuffle, me: nat, b: nat, r: nat)
    requires WellFormed(s) && me < |s.names| && b < |s.names| && r < |s.names|
    ensures Item(s, b, r) == Memo(s, me) <==> b == me && r == me
  {
    assert Item(s, b, r).nonce == s.nonces[b][r];
    assert Memo(s, me).nonce == s.nonces[me][me];
  }

  /** Only the peeler whose turn it is can open anything in the batch. */
  lemma OnlyTheNextPeelerOpens(s: Shuffle, priv: Priv, b: nat, r: nat)
    requires WellFormed(s) && b < |s.names| && r < |s.names|
    ensures Open(priv, Item(s, b, r)) == (if priv == Priv(s.keys[r]) then Some(Item(s, b, r + 1)) else None)
  {
  }

  // ---------------------------------------------------------------- the transition system

  function Wire(ts: seq<Term>): seq<Encoded> {
    seq(|ts|, i requires 0 <= i < |ts| => Base64(ts[i]))
  }

  function Unwire(es: seq<Encoded>): (r: Option<seq<Term>>)
    ensures r.Some? ==> Wire(r.value) == es
  {
    if forall i :: 0 <= i < |es| ==> es[i].Base64?
    then Some(seq(|es|, i requires 0 <= i < |es| => es[i].term)) else None
  }

  /** What a finished peel found. */
  datatype Report = Report(peeler: string, own: int, batch: seq<Term>)

  /** The collected batches, the batches on their way to a peeler, and the finished peels; how
      often the relay has started a peel, and how often a batch was sent again. */
  datatype Net = Net(bucket: map<string, Batch>, mail: seq<Mail>, reports: seq<Report>,
                     starts: nat, repeats: nat, failed: bool)

  const QUIET := Net(map[], [], [], 0, 0, false)

  datatype Event = Post(b: nat) | Repeat(b: nat) | Peel(i: nat)

  /** Participant b has yet to send its batch, or has sent it; or some batch is on its way. */
  predicate Enabled(s: Shuffle, n: Net, e: Event) {
    match e
    case Post(b) => b < |s.names| && s.names[b] !in n.bucket
    case Repeat(b) => b < |s.names| && s.names[b] in n.bucket
    case Peel(i) => i < |n.mail|
  }

  function Sent(m: Option<Mail>): (r: seq<Mail>)
    ensures |r| == if m.Some? then 1 else 0
  {
    if m.Some? then [m.value] else []
  }

  /** The relay hook after an onion.batch of participant b. */
  ghost function Relaying(s: Shuffle, n: Net, b: nat): Net
    requires WellFormed(s) && b < |s.names|
  {
    var sent := Sent(Relayed(s.names, n.bucket, s.names[b], OnionBatch));
    n.(mail := n.mail + sent, starts := n.starts + |sent|)
  }

  /** Participant b's batch arrives, or arrives again; or the addressee of some mail peels it
      and forwards the result. The relay hook runs after each. */
  ghost function Next(s: Shuffle, n: Net, e: Event): Net
    requires WellFormed(s) && Enabled(s, n, e)
  {
    match e
    case Post(b) => Relaying(s, n.(bucket := n.bucket[s.names[b] := Batch([Base64(Item(s, b, 0))])]), b)
    case Repeat(b) => Relaying(s, Again(n), b)
    case Peel(i) => Peeling(s, n, i)
  }

  ghost function Peeling(s: Shuffle, n: Net, i: nat): Net
    requires WellFormed(s) && i < |n.mail|
  {
    var me := PeelerIndex(s.names, n.mail[i].to);
    var onions := Unwire(n.mail[i].onions);
    if me < 0 || onions.None? then n.(failed := true) else
    var peeled := Peeled(Priv(s.keys[me]), Some(Memo(s, me)), onions.value);
    if peeled.None? then n.(failed := true)
    else n.(reports := n.reports + [Report(s.names[me], peeled.value.1, peeled.value.0)],
            mail := Without(n.mail, i) + Sent(Relayed(s.names, n.bucket, s.names[me], PeelForward(Wire(peeled.value.0)))))
  }

  function Without(mail: seq<Mail>, i: nat): seq<Mail>
    requires i < |mail|
  {
    mail[..i] + mail[i + 1..]
  }

  ghost predicate Legal(s: Shuffle, n: Net, events: seq<Event>)
    requires WellFormed(s)
    decreases |events|
  {
    events == [] || (Enabled(s, n, events[0]) && Legal(s, Next(s, n, events[0]), events[1..]))
  }

  ghost function After(s: Shuffle, n: Net, events: seq<Event>): Net
    requires WellFormed(s) && Legal(s, n, events)
    decreases |events|
  {
    if events == [] then n else After(s, Next(s, n, events[0]), events[1..])
  }

  // ---------------------------------------------------------------- what every step keeps

  ghost predicate Posted(s: Shuffle, bucket: map<string, Batch>)
    requires WellFormed(s)
  {
    && bucket.Keys <= Names(s.names)
    && forall b :: 0 <= b < |s.names| && s.names[b] in bucket ==>
         bucket[s.names[b]] == Batch([Base64(Item(s, b, 0))])
  }

  function Names(names: seq<string>): set<string> {
    set name <- names
  }

  ghost predicate AllPosted(s: Shuffle, bucket: map<string, Batch>) {
    forall b :: 0 <= b < |s.names| ==> s.names[b] in bucket
  }

  /** The batch of round r, on its way to peeler r. */
  ghost function MailAt(s: Shuffle, r: nat): Mail
    requires WellFormed(s) && r < |s.names|
  {
    Mail(s.names[r], Wire(Items(s, r)))
  }

  ghost predicate RightMail(s: Shuffle, m: Mail)
    requires WellFormed(s)
  {
    var r := PeelerIndex(s.names, m.to);
    0 <= r && m == MailAt(s, r)
  }

  /** What peeler r reports: its own item at position r, and every item a layer lighter. */
  ghost function ReportAt(s: Shuffle, r: nat): Report
    requires WellFormed(s) && r < |s.names|
  {
    Report(s.names[r], r, Items(s, r + 1))
  }

  ghost predicate RightReport(s: Shuffle, rep: Report)
    requires WellFormed(s)
  {
    0 <= rep.own < |s.names| && rep == ReportAt(s, rep.own)
  }

  /** The rounds still ahead of the batches on their way. */
  function RoundsLeft(names: seq<string>, mail: seq<Mail>): int {
    if mail == [] then 0
    else RoundsLeft(names, mail[..|mail| - 1]) + |names| - PeelerIndex(names, mail[|mail| - 1].to)
  }

  /** The peels that were their batch's last. */
  function Finished(n: nat, reports: seq<Report>): nat {
    if reports == [] then 0
    else Finished(n, reports[..|reports| - 1]) + (if reports[|reports| - 1].own == n - 1 then 1 else 0)
  }

  ghost predicate Right(s: Shuffle, n: Net)
    requires WellFormed(s)
  {
    && !n.failed && Posted(s, n.bucket)
    && (forall x :: 0 <= x < |n.mail| ==> RightMail(s, n.mail[x]))
    && (forall x :: 0 <= x < |n.reports| ==> RightReport(s, n.reports[x]))
  }

  /** Each start is N peels, done or to come, and ends with one by the last peeler. */
  ghost predicate RoundsBalance(s: Shuffle, n: Net) {
    && RoundsLeft(s.names, n.mail) + |n.reports| == |s.names| * n.starts
    && |n.mail| + Finished(|s.names|, n.reports) == n.starts
  }

  ghost predicate Balanced(s: Shuffle, n: Net) {
    && RoundsBalance(s, n)
    && (if AllPosted(s, n.bucket) then 1 <= n.starts <= n.repeats + 1 else n.starts == 0)
  }

  ghost predicate OnTrack(s: Shuffle, n: Net)
    requires WellFormed(s)
  {
    Right(s, n) && Balanced(s, n)
  }

  // ---------------------------------------------------------------- counting

  lemma {:induction false} DistinctNamesCount(names: seq<string>, keys: set<string>)
    requires forall b, c :: 0 <= b < c < |names| ==> names[b] != names[c]
    requires forall b :: 0 <= b < |names| ==> names[b] in keys
    ensures |keys| >= |names|
  {
    if names == [] {
    } else {
      var last := names[|names| - 1];
      DistinctNamesCount(names[..|names| - 1], keys - {last});
    }
  }

  lemma {:induction false} NamesAtMost(names: seq<string>)
    ensures |Names(names)| <= |names|
  {
    if names == [] {
    } else {
      var last := names[|names| - 1];
      var rest := names[..|names| - 1];
      NamesAtMost(rest);
      assert Names(names) == Names(rest) + {last};
    }
  }

  /** Every batch is in exactly when the bucket has N entries. */
  lemma BucketFills(s: Shuffle, bucket: map<string, Batch>)
    requires WellFormed(s) && Posted(s, bucket)
    ensures |bucket| <= |s.names|
    ensures |bucket| == |s.names| <==> AllPosted(s, bucket)
  {
    var all := Names(s.names);
    assert |bucket| == |bucket.Keys|;
    NamesAtMost(s.names);
    SubsetSize(bucket.Keys, all);
    if AllPosted(s, bucket) {
      DistinctNamesCount(s.names, bucket.Keys);
    }
  }

  lemma SubsetSize(a: set<string>, b: set<string>)
    requires a <= b
    ensures |a| <= |b|
    ensures |a| == |b| ==> a == b
  {
    assert b == a + (b - a);
  }

  lemma {:induction false} RoundsLeftSplits(names: seq<string>, a: seq<Mail>, b: seq<Mail>)
    ensures RoundsLeft(names, a + b) == RoundsLeft(names, a) + RoundsLeft(names, b)
    decreases |b|
  {
    if b == [] {
      assert a + b == a;
    } else {
      assert (a + b)[..|a + b| - 1] == a + b[..|b| - 1];
      RoundsLeftSplits(names, a, b[..|b| - 1]);
    }
  }

  lemma RoundsLeftOne(names: seq<string>, m: Mail)
    ensures RoundsLeft(names, [m]) == |names| - PeelerIndex(names, m.to)
  {
    assert [m][..0] == [];
  }

  lemma RoundsLeftWithout(names: seq<string>, mail: seq<Mail>, i: nat)
    requires i < |mail|
    ensures RoundsLeft(names, mail) == RoundsLeft(names, Without(mail, i)) + |names| - PeelerIndex(names, mail[i].to)
  {
    assert mail == mail[..i] + ([mail[i]] + mail[i + 1..]);
    RoundsLeftSplits(names, mail[..i], [mail[i]] + mail[i + 1..]);
    RoundsLeftSplits(names, [mail[i]], mail[i + 1..]);
    RoundsLeftSplits(names, mail[..i], mail[i + 1..]);
    RoundsLeftOne(names, mail[i]);
  }

  lemma FinishedMore(n: nat, reports: seq<Report>, rep: Report)
    ensures Finished(n, reports + [rep]) == Finished(n, reports) + (if rep.own == n - 1 then 1 else 0)
  {
    assert (reports + [rep])[..|reports|] == reports;
  }

  // ---------------------------------------------------------------- a batch arrives

  lemma QuorumStartsThePeel(names: seq<string>, bucket: map<string, Batch>, from: string, items: seq<Term>)
    requires 0 < |names| == |items|
    requires forall b, c :: 0 <= b < c < |names| ==> names[b] != names[c]
    requires forall b :: 0 <= b < |names| ==> names[b] in bucket && bucket[names[b]] == Batch([Base64(items[b])])
    ensures Relayed(names, bucket, from, OnionBatch) == Some(Mail(names[0], Wire(items)))
  {
    DistinctNamesCount(names, bucket.Keys);
    assert |bucket| == |bucket.Keys|;
    assert AllUsable(names, bucket);
    assert FirstOnions(names, bucket) == Wire(items);
  }

  /** The relay starts a peel exactly when every batch is in. */
  lemma BatchRelayed(s: Shuffle, bucket: map<string, Batch>, from: string)
    requires WellFormed(s) && Posted(s, bucket)
    ensures Relayed(s.names, bucket, from, OnionBatch) == if AllPosted(s, bucket) then Some(MailAt(s, 0)) else None
  {
    if AllPosted(s, bucket) {
      QuorumStartsThePeel(s.names, bucket, from, Items(s, 0));
    } else {
      assert !AllUsable(s.names, bucket);
    }
  }

  lemma LaterMail(s: Shuffle, r: nat)
    requires WellFormed(s) && r < |s.names|
    ensures RightMail(s, MailAt(s, r)) && PeelerIndex(s.names, MailAt(s, r).to) == r
  {
    FirstIndexUnique(s.names, s.names[r], r);
  }

  /** What the relay does with a batch, once or again. */
  lemma BatchNext(s: Shuffle, n: Net, b: nat)
    requires WellFormed(s) && Posted(s, n.bucket) && b < |s.names|
    ensures Relaying(s, n, b)
         == if AllPosted(s, n.bucket) then n.(mail := n.mail + [MailAt(s, 0)], starts := n.starts + 1) else n
  {
    BatchRelayed(s, n.bucket, s.names[b]);
    assert n.mail + [] == n.mail;
  }

  lemma BatchStaysRight(s: Shuffle, n: Net, b: nat)
    requires WellFormed(s) && Right(s, n) && b < |s.names|
    ensures Right(s, Relaying(s, n, b))
  {
    BatchNext(s, n, b);
    LaterMail(s, 0);
  }

  /** A start puts one mail with all its rounds ahead on its way. */
  lemma StartBalances(s: Shuffle, n: Net)
    requires WellFormed(s) && RoundsBalance(s, n)
    ensures RoundsBalance(s, n.(mail := n.mail + [MailAt(s, 0)], starts := n.starts + 1))
  {
    LaterMail(s, 0);
    RoundsLeftSplits(s.names, n.mail, [MailAt(s, 0)]);
    RoundsLeftOne(s.names, MailAt(s, 0));
    OneMoreTimes(|s.names|, n.starts);
  }

  lemma OneMoreTimes(n: nat, a: nat)
    ensures n * (a + 1) == n * a + n
  {
  }

  lemma PostFills(s: Shuffle, bucket: map<string, Batch>, b: nat)
    requires WellFormed(s) && Posted(s, bucket) && b < |s.names| && s.names[b] !in bucket
    ensures var more := bucket[s.names[b] := Batch([Base64(Item(s, b, 0))])]; Posted(s, more) && |more| == |bucket| + 1
    ensures !AllPosted(s, bucket)
  {
    PostedMore(s, bucket, b);
    OneMore(bucket, s.names[b], Batch([Base64(Item(s, b, 0))]));
  }

  lemma OneMore(bucket: map<string, Batch>, name: string, batch: Batch)
    requires name !in bucket
    ensures |bucket[name := batch]| == |bucket| + 1
  {
    assert bucket[name := batch].Keys == bucket.Keys + {name};
  }

  lemma PostedMore(s: Shuffle, bucket: map<string, Batch>, b: nat)
    requires WellFormed(s) && Posted(s, bucket) && b < |s.names| && s.names[b] !in bucket
    ensures Posted(s, bucket[s.names[b] := Batch([Base64(Item(s, b, 0))])])
  {
    var more := bucket[s.names[b] := Batch([Base64(Item(s, b, 0))])];
    assert s.names[b] in Names(s.names);
    forall c | 0 <= c < |s.names| && s.names[c] in more ensures more[s.names[c]] == Batch([Base64(Item(s, c, 0))]) {
      assert c != b ==> s.names[c] != s.names[b];
    }
  }

  lemma PostStays(s: Shuffle, n: Net, b: nat)
    requires WellFormed(s) && OnTrack(s, n) && Enabled(s, n, Post(b))
    ensures OnTrack(s, Next(s, n, Post(b)))
    ensures Taken(Next(s, n, Post(b))) == Taken(n) + 1
  {
    PostFills(s, n.bucket, b);
    var n0 := n.(bucket := n.bucket[s.names[b] := Batch([Base64(Item(s, b, 0))])]);
    BatchStaysRight(s, n0, b);
    BatchNext(s, n0, b);
    StartBalances(s, n0);
  }

  lemma RepeatStays(s: Shuffle, n: Net, b: nat)
    requires WellFormed(s) && OnTrack(s, n) && Enabled(s, n, Repeat(b))
    ensures OnTrack(s, Next(s, n, Repeat(b)))
    ensures Taken(Next(s, n, Repeat(b))) == Taken(n) + 1
  {
    var n0 := Again(n);
    AgainStaysRight(s, n);
    BatchStaysRight(s, n0, b);
    BatchNext(s, n0, b);
    StartBalances(s, n0);
  }

  function Again(n: Net): Net {
    n.(repeats := n.repeats + 1)
  }

  lemma AgainStaysRight(s: Shuffle, n: Net)
    requires WellFormed(s) && Right(s, n)
    ensures Right(s, Again(n))
  {
  }

  // ---------------------------------------------------------------- a peel

  /** Peeler r opens every item of round r and finds its own at position r. */
  lemma PeelRound(s: Shuffle, r: nat)
    requires WellFormed(s) && r < |s.names|
    ensures Peeled(Priv(s.keys[r]), Some(Memo(s, r)), Items(s, r)) == Some((Items(s, r + 1), r))
  {
    forall b | 0 <= b < |s.names|
      ensures Open(Priv(s.keys[r]), Items(s, r)[b]) == Some(Items(s, r + 1)[b])
      ensures Items(s, r)[b] == Memo(s, r) <==> b == r
    {
      OnlyTheNextPeelerOpens(s, Priv(s.keys[r]), b, r);
      MemoMatchesOwnItemOnly(s, r, b, r);
    }
    assert Items(s, r)[r] == Memo(s, r);
    assert Inners(Priv(s.keys[r]), Items(s, r)) == Items(s, r + 1);
  }

  /** The relay passes a peeled batch on to the next in line, if there is one. */
  lemma RelayNext(names: seq<string>, bucket: map<string, Batch>, r: nat, payload: seq<Encoded>)
    requires r < |names| && forall b, c :: 0 <= b < c < |names| ==> names[b] != names[c]
    ensures Relayed(names, bucket, names[r], PeelForward(payload))
         == if r + 1 < |names| then Some(Mail(names[r + 1], payload)) else None
  {
    FirstIndexUnique(names, names[r], r);
  }

  /** What the addressee of the i-th mail makes of it. */
  lemma PeelNext(s: Shuffle, n: Net, i: nat) returns (r: nat)
    requires WellFormed(s) && i < |n.mail| && RightMail(s, n.mail[i])
    ensures r < |s.names| && PeelerIndex(s.names, n.mail[i].to) == r
    ensures Peeling(s, n, i)
         == n.(reports := n.reports + [ReportAt(s, r)],
               mail := Without(n.mail, i) + Sent(if r + 1 < |s.names| then Some(MailAt(s, r + 1)) else None))
  {
    r := PeelerIndex(s.names, n.mail[i].to);
    assert Unwire(Wire(Items(s, r))).value == Items(s, r);
    PeelRound(s, r);
    RelayNext(s.names, n.bucket, r, Wire(Items(s, r + 1)));
  }

  lemma PeelStaysRight(s: Shuffle, n: Net, i: nat)
    requires WellFormed(s) && Right(s, n) && i < |n.mail|
    ensures Right(s, Peeling(s, n, i)) && |Peeling(s, n, i).reports| == |n.reports| + 1
    ensures Peeling(s, n, i).bucket == n.bucket && Peeling(s, n, i).starts == n.starts && Peeling(s, n, i).repeats == n.repeats
  {
    var r := PeelNext(s, n, i);
    if r + 1 < |s.names| {
      LaterMail(s, r + 1);
    }
  }

  lemma PeelStaysBalanced(s: Shuffle, n: Net, i: nat)
    requires WellFormed(s) && OnTrack(s, n) && i < |n.mail|
    ensures Balanced(s, Peeling(s, n, i))
  {
    var r := PeelNext(s, n, i);
    RoundsLeftWithout(s.names, n.mail, i);
    FinishedMore(|s.names|, n.reports, ReportAt(s, r));
    if r + 1 < |s.names| {
      LaterMail(s, r + 1);
      RoundsLeftSplits(s.names, Without(n.mail, i), [MailAt(s, r + 1)]);
      RoundsLeftOne(s.names, MailAt(s, r + 1));
    } else {
      assert Without(n.mail, i) + [] == Without(n.mail, i);
    }
  }

  // ---------------------------------------------------------------- whole runs

  lemma StepStays(s: Shuffle, n: Net, e: Event)
    requires WellFormed(s) && OnTrack(s, n) && Enabled(s, n, e)
    ensures OnTrack(s, Next(s, n, e))
    ensures var n1 := Next(s, n, e); Taken(n1) == Taken(n) + 1
  {
    match e {
      case Post(b) => PostStays(s, n, b);
      case Repeat(b) => RepeatStays(s, n, b);
      case Peel(i) =>
        PeelStaysRight(s, n, i);
        PeelStaysBalanced(s, n, i);
    }
  }

  /** The events that led to a state. */
  function Taken(n: Net): nat {
    |n.bucket| + n.repeats + |n.reports|
  }

  lemma {:induction false} RunStaysOnTrack(s: Shuffle, n: Net, events: seq<Event>)
    requires WellFormed(s) && OnTrack(s, n) && Legal(s, n, events)
    ensures OnTrack(s, After(s, n, events)) && |events| == Taken(After(s, n, events)) - Taken(n)
    decreases |events|
  {
    if events == [] {
    } else {
      StepStays(s, n, events[0]);
      RunStaysOnTrack(s, Next(s, n, events[0]), events[1..]);
    }
  }

  /** No batch is missing and none is on its way. */
  ghost predicate AtRest(s: Shuffle, n: Net) {
    AllPosted(s, n.bucket) && n.mail == []
  }

  /** Every run of the shuffle, batches arriving in any order and any of them again at any time:
      no peel fails, every peeler finds its own item at its own position and leaves everyone
      one layer less, and whenever the last peeler is done it holds the payloads in participant
      order (OnTrack, Delivers). A run comes to rest exactly when nothing but a repeat can happen; each of its
      starts has then made N peels and reached the last peeler, at least one did, and without
      repeats it took 2N events. */
  lemma ShuffleDelivers(s: Shuffle, events: seq<Event>)
    requires WellFormed(s) && Legal(s, QUIET, events)
    ensures var n := After(s, QUIET, events); OnTrack(s, n) && Delivers(s, n) && |events| == Taken(n)
  {
    assert OnTrack(s, QUIET) by {
      assert s.names[0] !in QUIET.bucket;
    }
    RunStaysOnTrack(s, QUIET, events);
    OnTrackDelivers(s, After(s, QUIET, events));
  }

  ghost predicate Delivers(s: Shuffle, n: Net)
    requires WellFormed(s)
  {
    && (forall x :: 0 <= x < |n.reports| && n.reports[x].own == |s.names| - 1 ==> n.reports[x].batch == s.payloads)
    && (AtRest(s, n) <==> forall e :: Enabled(s, n, e) ==> e.Repeat?)
    && (AtRest(s, n) ==> |n.reports| == |s.names| * n.starts && Finished(|s.names|, n.reports) == n.starts >= 1)
    && (AtRest(s, n) && n.repeats == 0 ==> Taken(n) == 2 * |s.names|)
    && |n.reports| <= |s.names| * (n.repeats + 1)
  }

  lemma OnTrackDelivers(s: Shuffle, n: Net)
    requires WellFormed(s) && OnTrack(s, n)
    ensures Delivers(s, n)
  {
    LastReports(s, n.reports);
    RestIsStuck(s, n);
    if AtRest(s, n) {
      RestCounts(s, n);
    }
    ReportsBound(s, n);
  }

  /** At rest every start has run its course. */
  lemma RestCounts(s: Shuffle, n: Net)
    requires WellFormed(s) && OnTrack(s, n) && AtRest(s, n)
    ensures |n.reports| == |s.names| * n.starts && Finished(|s.names|, n.reports) == n.starts >= 1
    ensures n.repeats == 0 ==> Taken(n) == 2 * |s.names|
  {
    BucketFills(s, n.bucket);
    if n.repeats == 0 {
      assert n.starts == 1;
    }
  }

  lemma ReportsBound(s: Shuffle, n: Net)
    requires WellFormed(s) && OnTrack(s, n)
    ensures |n.reports| <= |s.names| * (n.repeats + 1)
  {
    RoundsAreLeft(s, n.mail);
    StartsBound(|s.names|, n.starts, n.repeats + 1);
  }

  lemma LastReports(s: Shuffle, reports: seq<Report>)
    requires WellFormed(s) && forall x :: 0 <= x < |reports| ==> RightReport(s, reports[x])
    ensures forall x :: 0 <= x < |reports| && reports[x].own == |s.names| - 1 ==> reports[x].batch == s.payloads
  {
    AllItems(s);
  }

  lemma AllItems(s: Shuffle)
    requires WellFormed(s)
    ensures Items(s, |s.names|) == s.payloads
  {
  }

  lemma StartsBound(n: nat, a: nat, b: nat)
    ensures a <= b ==> n * a <= n * b
  {
  }

  lemma {:induction false} RoundsAreLeft(s: Shuffle, mail: seq<Mail>)
    ensures RoundsLeft(s.names, mail) >= 0
  {
    if mail == [] {
    } else {
      RoundsAreLeft(s, mail[..|mail| - 1]);
    }
  }

  lemma RestIsStuck(s: Shuffle, n: Net)
    requires WellFormed(s)
    ensures AtRest(s, n) <==> forall e :: Enabled(s, n, e) ==> e.Repeat?
  {
    if !AllPosted(s, n.bucket) {
      var b :| 0 <= b < |s.names| && s.names[b] !in n.bucket;
      assert Enabled(s, n, Post(b));
    } else if n.mail != [] {
      assert Enabled(s, n, Peel(0));
    }
  }
}
