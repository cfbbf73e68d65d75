/** The comparator worker pool (pkg/ares/crypto/cgo/bridge.go, runUnionComparatorsWith): a
    feeder hands indices to workers over an unbuffered channel, workers fuse and send to a
    results channel with room for every comparator, and a collector drains it. The
    scheduler may run any enabled goroutine next. */
module WorkerPool {
  import opened Wrappers

  type Chunks = seq<seq<int>>

  /** What the (deterministic) fuse gives for one comparator. */
  datatype Lane = Fine(chunks: Chunks) | Failed(error: string)

  datatype Worker = Waiting | Holding(job: nat) | Fused(job: nat) | Finished

  /** next: the index the feeder offers; runs: the fuse calls made so far; collected: the
      results the collector has taken, which it put in `out`. */
  datatype Pool = Pool(next: nat, jobsClosed: bool, workers: seq<Worker>, buffer: seq<nat>, resultsClosed: bool,
                       out: map<nat, Chunks>, firstErr: Option<string>, returned: bool,
                       runs: seq<nat>, collected: seq<nat>)

  datatype Move = Hand(w: nat) | CloseJobs | Fuse(w: nat) | Send(w: nat) | Quit(w: nat) | CloseResults | Collect | Return

  function Start(workers: nat): Pool {
    Pool(0, false, seq(workers, _ => Waiting), [], false, map[], None, false, [], [])
  }

  predicate WorkerIs(p: Pool, w: nat) {
    w < |p.workers|
  }

  predicate Enabled(lanes: seq<Lane>, p: Pool, m: Move) {
    !p.returned &&
    match m
    case Hand(w) => WorkerIs(p, w) && p.workers[w].Waiting? && p.next < |lanes|
    case CloseJobs => p.next == |lanes| && !p.jobsClosed
    case Fuse(w) => WorkerIs(p, w) && p.workers[w].Holding?
    case Send(w) => WorkerIs(p, w) && p.workers[w].Fused? && |p.buffer| < |lanes|
    case Quit(w) => WorkerIs(p, w) && p.workers[w].Waiting? && p.jobsClosed
    case CloseResults => p.jobsClosed && !p.resultsClosed && forall w :: 0 <= w < |p.workers| ==> p.workers[w].Finished?
    case Collect => |p.buffer| > 0 && p.buffer[0] < |lanes|
    case Return => p.resultsClosed && |p.buffer| == 0
  }

  function Apply(lanes: seq<Lane>, p: Pool, m: Move): Pool
    requires Enabled(lanes, p, m)
  {
    match m
    case Hand(w) => p.(workers := p.workers[w := Holding(p.next)], next := p.next + 1)
    case CloseJobs => p.(jobsClosed := true)
    case Fuse(w) => p.(workers := p.workers[w := Fused(p.workers[w].job)], runs := p.runs + [p.workers[w].job])
    case Send(w) => p.(workers := p.workers[w := Waiting], buffer := p.buffer + [p.workers[w].job])
    case Quit(w) => p.(workers := p.workers[w := Finished])
    case CloseResults => p.(resultsClosed := true)
    case Collect => TakeResult(lanes, p)
    case Return => p.(returned := true)
  }

  /** One iteration of the collector's loop. */
  function TakeResult(lanes: seq<Lane>, p: Pool): Pool
    requires |p.buffer| > 0 && p.buffer[0] < |lanes|
  {
    var i := p.buffer[0];
    var firstFailure := lanes[i].Failed? && p.firstErr.None?;
    p.(buffer := p.buffer[1..], collected := p.collected + [i],
       out := if firstFailure then p.out else p.out[i := if lanes[i].Fine? then lanes[i].chunks else []],
       firstErr := if firstFailure then Some(lanes[i].error) else p.firstErr)
  }

  // ---------------------------------------------------------------- counting indices

  function Count(s: seq<nat>, i: nat): nat {
    if s == [] then 0 else Count(s[..|s| - 1], i) + (if s[|s| - 1] == i then 1 else 0)
  }

  /** A quantity added up over the workers. */
  function Sum(ws: seq<Worker>, f: Worker -> nat): nat {
    if ws == [] then 0 else Sum(ws[..|ws| - 1], f) + f(ws[|ws| - 1])
  }

  /** The worker is busy with index i. */
  function HasJob(i: nat): Worker -> nat {
    (w: Worker) => if (w.Holding? || w.Fused?) && w.job == i then 1 else 0
  }

  /** The worker has fused index i and not sent it yet. */
  function HasResult(i: nat): Worker -> nat {
    (w: Worker) => if w.Fused? && w.job == i then 1 else 0
  }

  function Busy(): Worker -> nat {
    (w: Worker) => if w.Holding? || w.Fused? then 1 else 0
  }

  /** The moves a worker's state still entails. */
  function Weight(): Worker -> nat {
    (w: Worker) => match w case Waiting => 1 case Holding(_) => 4 case Fused(_) => 3 case Finished => 0
  }

  lemma {:induction false} Replace(ws: seq<Worker>, w: nat, x: Worker, f: Worker -> nat)
    requires w < |ws|
    ensures Sum(ws[w := x], f) + f(ws[w]) == Sum(ws, f) + f(x)
  {
    var front := ws[..|ws| - 1];
    if w == |ws| - 1 {
      assert ws[w := x][..|ws| - 1] == front;
    } else {
      Replace(front, w, x, f);
      assert ws[w := x][..|ws| - 1] == front[w := x];
    }
  }

  lemma {:induction false} SumOf(ws: seq<Worker>, f: Worker -> nat, each: nat)
    requires forall w :: 0 <= w < |ws| ==> f(ws[w]) == each
    ensures Sum(ws, f) == each * |ws|
  {
    if ws == [] {
    } else {
      SumOf(ws[..|ws| - 1], f, each);
    }
  }

  lemma CountAppend(s: seq<nat>, j: nat, i: nat)
    ensures Count(s + [j], i) == Count(s, i) + (if j == i then 1 else 0)
  {
    assert (s + [j])[..|s|] == s;
  }

  lemma {:induction false} CountFirst(s: seq<nat>, i: nat)
    requires s != []
    ensures Count(s, i) == Count(s[1..], i) + (if s[0] == i then 1 else 0)
  {
    if |s| <= 1 {
    } else {
      CountFirst(s[..|s| - 1], i);
      assert s[..|s| - 1][1..] == s[1..][..|s| - 2];
    }
  }

  lemma {:induction false} CountMember(s: seq<nat>, i: nat)
    ensures Count(s, i) > 0 <==> i in s
  {
    if s == [] {
    } else {
      CountMember(s[..|s| - 1], i);
      assert s == s[..|s| - 1] + [s[|s| - 1]];
    }
  }

  // ---------------------------------------------------------------- what every step keeps

  /** Index i is in exactly one place once handed out (with a worker, in the results
      buffer, or collected), and was fused once if it has got past its worker's fuse. */
  ghost predicate Balanced(p: Pool, i: nat) {
    && Sum(p.workers, HasJob(i)) + Count(p.buffer, i) + Count(p.collected, i) == (if i < p.next then 1 else 0)
    && Sum(p.workers, HasResult(i)) + Count(p.buffer, i) + Count(p.collected, i) == Count(p.runs, i)
  }

  ghost predicate Accounted(lanes: seq<Lane>, p: Pool) {
    && p.next <= |lanes|
    && Sum(p.workers, Busy()) + |p.buffer| + |p.collected| == p.next
    && forall i: nat {:trigger Balanced(p, i)} :: Balanced(p, i)
  }

  ghost predicate AllFinished(ws: seq<Worker>) {
    forall w :: 0 <= w < |ws| ==> ws[w].Finished?
  }

  ghost predicate NoneFinished(ws: seq<Worker>) {
    forall w :: 0 <= w < |ws| ==> !ws[w].Finished?
  }

  ghost predicate Ordered(lanes: seq<Lane>, p: Pool) {
    && (p.jobsClosed ==> p.next == |lanes|)
    && (p.resultsClosed ==> p.jobsClosed && AllFinished(p.workers))
    && (!p.jobsClosed ==> NoneFinished(p.workers))
    && (p.returned ==> p.resultsClosed && p.buffer == [])
  }

  /** An error is set exactly when a collected lane failed, and is one of theirs; until then
      `out` holds the chunks of the collected lanes. */
  ghost predicate Tallied(lanes: seq<Lane>, collected: seq<nat>, out: map<nat, Chunks>, firstErr: Option<string>) {
    && (forall i <- collected :: i < |lanes|)
    && match firstErr
       case Some(e) => exists i <- collected :: lanes[i] == Failed(e)
       case None => (forall i <- collected :: i in out && lanes[i] == Fine(out[i]))
  }

  ghost predicate Inv(lanes: seq<Lane>, p: Pool) {
    Accounted(lanes, p) && Ordered(lanes, p) && Tallied(lanes, p.collected, p.out, p.firstErr)
  }

  lemma BufferedBelow(lanes: seq<Lane>, p: Pool)
    requires Accounted(lanes, p)
    ensures forall k :: 0 <= k < |p.buffer| ==> p.buffer[k] < |lanes|
  {
    forall k | 0 <= k < |p.buffer| ensures p.buffer[k] < |lanes| {
      assert Balanced(p, p.buffer[k]);
      CountMember(p.buffer, p.buffer[k]);
    }
  }

  /** A worker holding a result always finds room for it. */
  lemma SendNeverBlocks(lanes: seq<Lane>, p: Pool, w: nat)
    requires Accounted(lanes, p) && !p.returned && w < |p.workers| && p.workers[w].Fused?
    ensures Enabled(lanes, p, Send(w))
  {
    Replace(p.workers, w, Waiting, Busy());
  }

  /** The state a worker is in after its move. */
  function Moved(p: Pool, m: Move): Worker
    requires (m.Hand? || m.Fuse? || m.Send? || m.Quit?) && m.w < |p.workers| && (m.Fuse? ==> p.workers[m.w].Holding?)
  {
    match m
    case Hand(_) => Holding(p.next)
    case Fuse(w) => Fused(p.workers[w].job)
    case Send(_) => Waiting
    case Quit(_) => Finished
  }

  lemma WorkerKeepsBalance(lanes: seq<Lane>, p: Pool, m: Move, i: nat)
    requires Balanced(p, i) && Enabled(lanes, p, m) && (m.Hand? || m.Fuse? || m.Send? || m.Quit?)
    ensures Balanced(Apply(lanes, p, m), i)
  {
    Replace(p.workers, m.w, Moved(p, m), HasJob(i));
    Replace(p.workers, m.w, Moved(p, m), HasResult(i));
    if m.Fuse? {
      CountAppend(p.runs, p.workers[m.w].job, i);
    } else if m.Send? {
      CountAppend(p.buffer, p.workers[m.w].job, i);
    }
  }

  lemma StepKeepsBalance(lanes: seq<Lane>, p: Pool, m: Move, i: nat)
    requires Balanced(p, i) && Enabled(lanes, p, m)
    ensures Balanced(Apply(lanes, p, m), i)
  {
    if m.Hand? || m.Fuse? || m.Send? || m.Quit? {
      WorkerKeepsBalance(lanes, p, m, i);
    } else if m.Collect? {
      CollectKeepsBalance(lanes, p, i);
    } else {
      SamePlaces(p, Apply(lanes, p, m), i);
    }
  }

  lemma SamePlaces(p: Pool, q: Pool, i: nat)
    requires Balanced(p, i)
    requires q.workers == p.workers && q.runs == p.runs && q.next == p.next
    requires Count(q.buffer, i) + Count(q.collected, i) == Count(p.buffer, i) + Count(p.collected, i)
    ensures Balanced(q, i)
  {
  }

  lemma CollectKeepsBalance(lanes: seq<Lane>, p: Pool, i: nat)
    requires Balanced(p, i) && |p.buffer| > 0 && p.buffer[0] < |lanes|
    ensures Balanced(TakeResult(lanes, p), i)
  {
    var q := TakeResult(lanes, p);
    FirstMoves(p.buffer, q.buffer, p.collected, q.collected, i);
    SamePlaces(p, q, i);
  }

  lemma FirstMoves(from: seq<nat>, from': seq<nat>, to: seq<nat>, to': seq<nat>, i: nat)
    requires from != [] && from' == from[1..] && to' == to + [from[0]]
    ensures Count(from', i) + Count(to', i) == Count(from, i) + Count(to, i)
  {
    CountFirst(from, i);
    CountAppend(to, from[0], i);
  }

  lemma StepKeepsAccounts(lanes: seq<Lane>, p: Pool, m: Move)
    requires Accounted(lanes, p) && Enabled(lanes, p, m)
    ensures Accounted(lanes, Apply(lanes, p, m))
  {
    if m.Hand? || m.Fuse? || m.Send? || m.Quit? {
      Replace(p.workers, m.w, Moved(p, m), Busy());
    }
    var q := Apply(lanes, p, m);
    forall i: nat ensures Balanced(q, i) {
      assert Balanced(p, i);
      StepKeepsBalance(lanes, p, m, i);
    }
  }

  lemma StepKeepsTally(lanes: seq<Lane>, p: Pool)
    requires Tallied(lanes, p.collected, p.out, p.firstErr) && |p.buffer| > 0 && p.buffer[0] < |lanes|
    ensures var q := TakeResult(lanes, p); Tallied(lanes, q.collected, q.out, q.firstErr)
  {
    var i := p.buffer[0];
    var q := TakeResult(lanes, p);
    assert q.collected == p.collected + [i];
    if p.firstErr.Some? {
      var j :| j in p.collected && lanes[j] == Failed(p.firstErr.value);
      assert j in q.collected;
    } else if lanes[i].Failed? {
      assert i in q.collected && lanes[i] == Failed(q.firstErr.value);
    }
  }

  lemma StepKeepsOrder(lanes: seq<Lane>, p: Pool, m: Move)
    requires Ordered(lanes, p) && Enabled(lanes, p, m)
    ensures Ordered(lanes, Apply(lanes, p, m))
  {
  }

  lemma StepKeepsInv(lanes: seq<Lane>, p: Pool, m: Move)
    requires Inv(lanes, p) && Enabled(lanes, p, m)
    ensures Inv(lanes, Apply(lanes, p, m))
  {
    StepKeepsAccounts(lanes, p, m);
    StepKeepsOrder(lanes, p, m);
    if m.Collect? {
      StepKeepsTally(lanes, p);
    }
  }

  // ---------------------------------------------------------------- termination and progress

  function Flag(b: bool): nat {
    if b then 0 else 1
  }

  function Remaining(lanes: seq<Lane>, p: Pool): int {
    4 * (|lanes| - p.next) + Sum(p.workers, Weight()) + |p.buffer|
    + Flag(p.jobsClosed) + Flag(p.resultsClosed) + Flag(p.returned)
  }

  lemma StepsRunOut(lanes: seq<Lane>, p: Pool, m: Move)
    requires p.next <= |lanes| && Enabled(lanes, p, m)
    ensures 0 <= Remaining(lanes, Apply(lanes, p, m)) < Remaining(lanes, p)
  {
    if m.Hand? || m.Fuse? || m.Send? || m.Quit? {
      Replace(p.workers, m.w, Moved(p, m), Weight());
    }
  }

  /** No deadlock: with a worker, or nothing to do, some goroutine can always move. */
  lemma Progress(lanes: seq<Lane>, p: Pool) returns (m: Move)
    requires Inv(lanes, p) && !p.returned && (|p.workers| > 0 || lanes == [])
    ensures Enabled(lanes, p, m)
  {
    BufferedBelow(lanes, p);
    if w :| 0 <= w < |p.workers| && p.workers[w].Fused? {
      SendNeverBlocks(lanes, p, w);
      m := Send(w);
    } else if w :| 0 <= w < |p.workers| && p.workers[w].Holding? {
      m := Fuse(w);
    } else if p.next < |lanes| {
      assert !p.workers[0].Finished?;
      m := Hand(0);
    } else if !p.jobsClosed {
      m := CloseJobs;
    } else if w :| 0 <= w < |p.workers| && p.workers[w].Waiting? {
      m := Quit(w);
    } else if !p.resultsClosed {
      m := CloseResults;
    } else if |p.buffer| > 0 {
      m := Collect;
    } else {
      m := Return;
    }
  }

  // ---------------------------------------------------------------- whole schedules

  ghost predicate Schedule(lanes: seq<Lane>, p: Pool, moves: seq<Move>)
    decreases |moves|
  {
    moves == [] || (Enabled(lanes, p, moves[0]) && Schedule(lanes, Apply(lanes, p, moves[0]), moves[1..]))
  }

  ghost function After(lanes: seq<Lane>, p: Pool, moves: seq<Move>): Pool
    requires Schedule(lanes, p, moves)
    decreases |moves|
  {
    if moves == [] then p else After(lanes, Apply(lanes, p, moves[0]), moves[1..])
  }

  lemma {:induction false} ScheduleKeepsInv(lanes: seq<Lane>, p: Pool, moves: seq<Move>)
    requires Inv(lanes, p) && Schedule(lanes, p, moves)
    ensures Inv(lanes, After(lanes, p, moves)) && |After(lanes, p, moves).workers| == |p.workers|
    ensures 0 <= Remaining(lanes, After(lanes, p, moves)) <= Remaining(lanes, p) - |moves|
    decreases |moves|
  {
    if moves == [] {
    } else {
      StepKeepsInv(lanes, p, moves[0]);
      StepsRunOut(lanes, p, moves[0]);
      ScheduleKeepsInv(lanes, Apply(lanes, p, moves[0]), moves[1..]);
    }
  }

  lemma StartInv(lanes: seq<Lane>, workers: nat)
    ensures Inv(lanes, Start(workers)) && Remaining(lanes, Start(workers)) == 4 * |lanes| + workers + 3
  {
    var p := Start(workers);
    SumOf(p.workers, Busy(), 0);
    SumOf(p.workers, Weight(), 1);
    forall i: nat ensures Balanced(p, i) {
      SumOf(p.workers, HasJob(i), 0);
      SumOf(p.workers, HasResult(i), 0);
    }
  }

  /** What the function returns once the collector is done: the chunks in order, or an error. */
  datatype Answer = Result(out: seq<Chunks>) | Error(error: string)

  predicate AllFine(lanes: seq<Lane>) {
    forall i :: 0 <= i < |lanes| ==> lanes[i].Fine?
  }

  predicate Returns(lanes: seq<Lane>, p: Pool, a: Answer) {
    match a
    case Error(e) => p.firstErr == Some(e)
    case Result(out) => p.firstErr.None? && |out| == |lanes|
                        && forall i :: 0 <= i < |lanes| ==> out[i] == if i in p.out then p.out[i] else []
  }

  /** The answer every lane agrees with. */
  predicate Right(lanes: seq<Lane>, a: Answer) {
    match a
    case Result(out) => |out| == |lanes| && forall i :: 0 <= i < |lanes| ==> lanes[i] == Fine(out[i])
    case Error(e) => exists i :: 0 <= i < |lanes| && lanes[i] == Failed(e)
  }

  ghost predicate FusedOnce(lanes: seq<Lane>, p: Pool) {
    forall i: nat :: Count(p.runs, i) == if i < |lanes| then 1 else 0
  }

  /** Every schedule over c >= 1 workers: it makes at most 4n + c + 3 moves, it can be
      continued until the pool returns, and then each comparator was fused exactly once and
      the answer is right: an error if and only if some lane failed. */
  lemma EverySchedule(lanes: seq<Lane>, workers: nat, moves: seq<Move>, a: Answer)
    requires workers > 0 || lanes == []
    requires Schedule(lanes, Start(workers), moves)
    ensures |moves| <= 4 * |lanes| + workers + 3
    ensures var p := After(lanes, Start(workers), moves);
            && (!p.returned ==> exists m :: Enabled(lanes, p, m))
            && (p.returned ==> FusedOnce(lanes, p))
            && (p.returned && Returns(lanes, p, a) ==> Right(lanes, a) && (a.Result? <==> AllFine(lanes)))
  {
    StartInv(lanes, workers);
    ScheduleKeepsInv(lanes, Start(workers), moves);
    var p := After(lanes, Start(workers), moves);
    if !p.returned {
      var m := Progress(lanes, p);
    } else {
      ReturnedIsRight(lanes, p, a);
    }
  }

  lemma ReturnedIsRight(lanes: seq<Lane>, p: Pool, a: Answer)
    requires Inv(lanes, p) && p.returned
    ensures FusedOnce(lanes, p)
    ensures Returns(lanes, p, a) ==> Right(lanes, a) && (a.Result? <==> AllFine(lanes))
  {
    forall i: nat
      ensures Count(p.runs, i) == if i < |lanes| then 1 else 0
      ensures i in p.collected <==> i < |lanes|
    {
      assert Balanced(p, i);
      SumOf(p.workers, HasJob(i), 0);
      SumOf(p.workers, HasResult(i), 0);
      CountMember(p.collected, i);
    }
    if Returns(lanes, p, a) && a.Result? {
      forall i | 0 <= i < |lanes| ensures lanes[i] == Fine(a.out[i]) {
        assert i in p.collected;
      }
    }
  }

  /** With work to do and no worker the pool never gets past its first hand-over. */
  lemma NoWorkersDeadlock(lanes: seq<Lane>)
    requires lanes != []
    ensures !Start(0).returned && forall m :: !Enabled(lanes, Start(0), m)
  {
  }

  // ---------------------------------------------------------------- the other paths

  function Clamp(concurrency: int, n: nat): (c: nat)
    ensures n > 0 ==> 1 <= c <= n
    ensures 1 <= concurrency <= n ==> c == concurrency
    ensures n > 0 && concurrency <= 0 ==> c == 1
    ensures concurrency > n ==> c == n
  {
    var atLeastOne := if concurrency <= 0 then 1 else concurrency;
    if atLeastOne > n then n else atLeastOne
  }

  /** The loop taken when concurrency is 1: it stops at the first lane that fails. */
  method RunSequential(lanes: seq<Lane>) returns (a: Answer)
    ensures Right(lanes, a) && (a.Result? <==> AllFine(lanes))
    ensures a.Error? ==> exists i :: 0 <= i < |lanes| && lanes[i] == Failed(a.error) && AllFine(lanes[..i])
  {
    var out: seq<Chunks> := [];
    for i := 0 to |lanes|
      invariant |out| == i && forall j :: 0 <= j < i ==> lanes[j] == Fine(out[j])
    {
      match lanes[i] {
        case Failed(e) =>
          assert AllFine(lanes[..i]);
          return Error(e);
        case Fine(chunks) => out := out + [chunks];
      }
    }
    return Result(out);
  }

  /** Without a failing lane there is one right answer, so pool and loop agree. */
  lemma RightIsUnique(lanes: seq<Lane>, a: Answer, b: Answer)
    requires Right(lanes, a) && Right(lanes, b) && AllFine(lanes)
    ensures a == b && a.Result?
  {
    if a.Result? && b.Result? {
      forall i | 0 <= i < |lanes| ensures a.out[i] == b.out[i] {
        assert lanes[i] == Fine(a.out[i]) && lanes[i] == Fine(b.out[i]);
      }
    }
  }
}
