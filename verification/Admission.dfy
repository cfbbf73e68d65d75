/** Inbound admission: frame validation (pkg/ares/transport/validate.go), the replay counter and
    the order of the gates (hub.go), and the token bucket (rate_limit.go). Times are seconds,
    as reals, on a clock that may step backwards. */
module Admission {
  import opened Wrappers
  import opened RealFacts

  datatype Frame = Frame(version: string, sessionID: string, pseudonym: string, msgType: string,
                         seqNo: int, hasLineage: bool)

  /** ValidateInboundMessage */
  predicate ValidFrame(f: Frame) {
    f.version == "" || f.version == "1" || (f.version == "2" && f.hasLineage)
  }

  // ---------------------------------------------------------------- replay counter

  function SeqKey(f: Frame): string {
    f.sessionID + "|" + f.pseudonym + "|" + f.msgType
  }

  type SeqHigh = map<string, int>

  predicate Fresh(high: SeqHigh, f: Frame) {
    f.seqNo == 0 || SeqKey(f) !in high || f.seqNo > high[SeqKey(f)]
  }

  function Recorded(high: SeqHigh, f: Frame): SeqHigh {
    if f.seqNo == 0 || !Fresh(high, f) then high else high[SeqKey(f) := f.seqNo]
  }

  /** The table after the frames, all passed to the check. */
  function HighAfter(high: SeqHigh, frames: seq<Frame>): SeqHigh {
    if frames == [] then high else Recorded(HighAfter(high, frames[..|frames| - 1]), frames[|frames| - 1])
  }

  /** The check's verdict on the frame at position x. */
  predicate Passes(high: SeqHigh, frames: seq<Frame>, x: nat)
    requires x < |frames|
  {
    Fresh(HighAfter(high, frames[..x]), frames[x])
  }

  class Hub {
    var seqHigh: SeqHigh

    constructor ()
      ensures seqHigh == map[]
    {
      seqHigh := map[];
    }

    method CheckAndRecordSeq(f: Frame) returns (ok: bool)
      modifies this
      ensures ok == Fresh(old(seqHigh), f) && seqHigh == Recorded(old(seqHigh), f)
    {
      if f.seqNo == 0 {
        return true;
      }
      var key := f.sessionID + "|" + f.pseudonym + "|" + f.msgType;
      if key in seqHigh && f.seqNo <= seqHigh[key] {
        return false;
      }
      seqHigh := seqHigh[key := f.seqNo];
      ok := true;
    }
  }

  /** Recorded numbers never go down. */
  lemma {:induction false} HighGrows(high: SeqHigh, frames: seq<Frame>, x: nat, key: string)
    requires x <= |frames| && key in HighAfter(high, frames[..x])
    ensures key in HighAfter(high, frames) && HighAfter(high, frames[..x])[key] <= HighAfter(high, frames)[key]
  {
    if x == |frames| {
      assert frames[..x] == frames;
    } else {
      var front := frames[..|frames| - 1];
      assert front[..x] == frames[..x];
      HighGrows(high, front, x, key);
    }
  }

  /** What the table holds for a key is the last number it let through, and the largest. */
  lemma {:induction false} HighIsLast(frames: seq<Frame>, key: string)
    requires key in HighAfter(map[], frames)
    ensures exists x :: 0 <= x < |frames| && Passes(map[], frames, x) && frames[x].seqNo != 0
                        && SeqKey(frames[x]) == key && frames[x].seqNo == HighAfter(map[], frames)[key]
  {
    var n := |frames| - 1;
    var front, last := frames[..n], frames[n];
    if last.seqNo != 0 && SeqKey(last) == key && Fresh(HighAfter(map[], front), last) {
      assert Passes(map[], frames, n);
    } else {
      HighIsLast(front, key);
      var x :| 0 <= x < |front| && Passes(map[], front, x) && front[x].seqNo != 0
               && SeqKey(front[x]) == key && front[x].seqNo == HighAfter(map[], front)[key];
      assert front[..x] == frames[..x] && front[x] == frames[x];
      assert Passes(map[], frames, x);
    }
  }

  /** Earlier accepted number of the same key. */
  predicate Precedes(frames: seq<Frame>, y: nat, x: nat)
    requires y < x < |frames|
  {
    Passes(map[], frames, y) && frames[y].seqNo != 0 && SeqKey(frames[y]) == SeqKey(frames[x])
  }

  /** Over every run, a numbered frame passes exactly when its number exceeds every number
      already accepted under its key: accepted numbers strictly increase, and nothing else
      is turned away. */
  lemma NumbersIncrease(frames: seq<Frame>, x: nat)
    requires x < |frames| && frames[x].seqNo != 0
    ensures Passes(map[], frames, x) <==> forall y :: 0 <= y < x && Precedes(frames, y, x) ==> frames[y].seqNo < frames[x].seqNo
  {
    var key := SeqKey(frames[x]);
    var high := HighAfter(map[], frames[..x]);
    forall y | 0 <= y < x && Precedes(frames, y, x) ensures key in high && frames[y].seqNo <= high[key] {
      AcceptedIsRecorded(frames, y);
      assert frames[..x][..y + 1] == frames[..y + 1];
      HighGrows(map[], frames[..x], y + 1, key);
    }
    if key in high {
      HighIsLast(frames[..x], key);
      var y :| 0 <= y < x && Passes(map[], frames[..x], y) && frames[..x][y].seqNo != 0
               && SeqKey(frames[..x][y]) == key && frames[..x][y].seqNo == high[key];
      assert frames[..x][..y] == frames[..y];
      assert Precedes(frames, y, x);
    }
  }

  lemma AcceptedIsRecorded(frames: seq<Frame>, y: nat)
    requires y < |frames| && Passes(map[], frames, y) && frames[y].seqNo != 0
    ensures var h := HighAfter(map[], frames[..y + 1]); SeqKey(frames[y]) in h && h[SeqKey(frames[y])] == frames[y].seqNo
  {
    assert frames[..y + 1][..y] == frames[..y];
  }

  /** Frames of one (session, pseudonym, type) share a key, so their accepted numbers increase. */
  lemma TripleIncreases(frames: seq<Frame>, y: nat, x: nat)
    requires y < x < |frames| && Passes(map[], frames, y) && Passes(map[], frames, x)
    requires frames[y].seqNo != 0 && frames[x].seqNo != 0
    requires frames[y].sessionID == frames[x].sessionID && frames[y].pseudonym == frames[x].pseudonym
             && frames[y].msgType == frames[x].msgType
    ensures frames[y].seqNo < frames[x].seqNo
  {
    NumbersIncrease(frames, x);
    assert Precedes(frames, y, x);
  }

  // ---------------------------------------------------------------- joined keys

  lemma NotShorter(a: string, x: string, b: string, y: string)
    requires '|' !in b && a + "|" + x == b + "|" + y
    ensures |a| >= |b|
  {
    var s, t := a + "|" + x, b + "|" + y;
    assert s[|a|] == '|';
    assert forall k :: 0 <= k < |b| ==> t[k] == b[k];
  }

  lemma BarSplits(a: string, x: string, b: string, y: string)
    requires '|' !in a && '|' !in b && a + "|" + x == b + "|" + y
    ensures a == b && x == y
  {
    NotShorter(a, x, b, y);
    NotShorter(b, y, a, x);
    var s, t := a + "|" + x, b + "|" + y;
    assert a == s[..|a|] && b == t[..|b|];
    assert x == s[|a| + 1..] && y == t[|b| + 1..];
  }

  /** Without a bar in the session or the pseudonym the key tells the triples apart. */
  lemma KeysApart(f: Frame, g: Frame)
    requires '|' !in f.sessionID && '|' !in g.sessionID && '|' !in f.pseudonym && '|' !in g.pseudonym
    requires SeqKey(f) == SeqKey(g)
    ensures f.sessionID == g.sessionID && f.pseudonym == g.pseudonym && f.msgType == g.msgType
  {
    assert SeqKey(f) == f.sessionID + "|" + (f.pseudonym + "|" + f.msgType);
    assert SeqKey(g) == g.sessionID + "|" + (g.pseudonym + "|" + g.msgType);
    BarSplits(f.sessionID, f.pseudonym + "|" + f.msgType, g.sessionID, g.pseudonym + "|" + g.msgType);
    BarSplits(f.pseudonym, f.msgType, g.pseudonym, g.msgType);
  }

  predicate SameTriple(f: Frame, g: Frame) {
    f.sessionID == g.sessionID && f.pseudonym == g.pseudonym && f.msgType == g.msgType
  }

  predicate NoBars(f: Frame) {
    '|' !in f.sessionID && '|' !in f.pseudonym && '|' !in f.msgType
  }

  /** Every frame with f's key has f's session, pseudonym and type. */
  ghost predicate KeyIsOwn(f: Frame) {
    forall g: Frame :: SeqKey(g) == SeqKey(f) ==> SameTriple(f, g)
  }

  lemma AtBar(s: string) returns (a: string, b: string)
    requires '|' in s
    ensures s == a + "|" + b
  {
    var i :| 0 <= i < |s| && s[i] == '|';
    a, b := s[..i], s[i + 1..];
  }

  /** A bar anywhere lets another triple make the same key. */
  lemma BarIsShared(f: Frame) returns (g: Frame)
    requires !NoBars(f)
    ensures SeqKey(g) == SeqKey(f) && !SameTriple(f, g)
  {
    if '|' in f.sessionID {
      var a, b := AtBar(f.sessionID);
      g := f.(sessionID := a, pseudonym := b, msgType := f.pseudonym + "|" + f.msgType);
      assert SeqKey(f) == a + "|" + b + "|" + f.pseudonym + "|" + f.msgType;
      assert |a| < |f.sessionID|;
    } else if '|' in f.pseudonym {
      var a, b := AtBar(f.pseudonym);
      g := f.(pseudonym := a, msgType := b + "|" + f.msgType);
      assert |a| < |f.pseudonym|;
    } else {
      var a, b := AtBar(f.msgType);
      g := f.(sessionID := f.sessionID + "|" + f.pseudonym, pseudonym := a, msgType := b);
      assert |g.sessionID| > |f.sessionID|;
    }
  }

  lemma {:induction false} BarsIn(a: string, b: string)
    ensures Bars(a + b) == Bars(a) + Bars(b)
  {
    if a == "" {
      assert a + b == b;
    } else {
      assert (a + b)[1..] == a[1..] + b;
      BarsIn(a[1..], b);
    }
  }

  function Bars(s: string): nat {
    if s == "" then 0 else Bars(s[1..]) + (if s[0] == '|' then 1 else 0)
  }

  lemma {:induction false} NoBarsIn(s: string)
    ensures Bars(s) == 0 <==> '|' !in s
  {
    if s == "" {
    } else {
      NoBarsIn(s[1..]);
      assert s == [s[0]] + s[1..];
    }
  }

  lemma KeyBars(f: Frame)
    ensures Bars(SeqKey(f)) == Bars(f.sessionID) + Bars(f.pseudonym) + Bars(f.msgType) + 2
  {
    BarsIn(f.sessionID + "|" + f.pseudonym + "|", f.msgType);
    BarsIn(f.sessionID + "|" + f.pseudonym, "|");
    BarsIn(f.sessionID + "|", f.pseudonym);
    BarsIn(f.sessionID, "|");
  }

  lemma BarlessIsOwn(f: Frame, g: Frame)
    requires NoBars(f) && SeqKey(g) == SeqKey(f)
    ensures SameTriple(f, g)
  {
    KeyBars(f);
    KeyBars(g);
    NoBarsIn(f.sessionID);
    NoBarsIn(f.pseudonym);
    NoBarsIn(f.msgType);
    NoBarsIn(g.sessionID);
    NoBarsIn(g.pseudonym);
    KeysApart(f, g);
  }

  /** The joined key stands for the frame's own triple exactly when none of its three parts
      holds a bar, which the sender of one frame can check by itself. */
  lemma KeyIsOwnExactly(f: Frame)
    ensures KeyIsOwn(f) <==> NoBars(f)
  {
    if NoBars(f) {
      forall g: Frame | SeqKey(g) == SeqKey(f) ensures SameTriple(f, g) {
        BarlessIsOwn(f, g);
      }
    } else {
      var g := BarIsShared(f);
    }
  }

  /** With a bar in any part, a numbered frame makes the first frame of some other triple look
      like a replay. */
  lemma KeysCoincide(f: Frame) returns (g: Frame)
    requires !NoBars(f) && f.seqNo > 0
    ensures !SameTriple(f, g) && g.seqNo > 0 && Passes(map[], [f, g], 0) && !Passes(map[], [f, g], 1)
  {
    g := BarIsShared(f);
    g := g.(seqNo := f.seqNo);
    var frames := [f, g];
    assert frames[..0] == [] && frames[..1] == [f];
    AcceptedIsRecorded(frames, 0);
  }

  // ---------------------------------------------------------------- token bucket

  datatype Bucket = Bucket(capacity: real, rate: real, tokens: real, lastTick: real)

  predicate Sensible(b: Bucket) {
    b.capacity > 0.0 && b.rate > 0.0 && 0.0 <= b.tokens <= b.capacity
  }

  function Later(a: real, b: real): real {
    if b > a then b else a
  }

  /** The bucket topped up for a call at `now`. */
  function Refilled(b: Bucket, now: real): Bucket {
    if now <= b.lastTick then b
    else
      var tokens := b.tokens + Product(now - b.lastTick, b.rate);
      b.(tokens := if tokens > b.capacity then b.capacity else tokens, lastTick := now)
  }

  function Admit(b: Bucket, now: real): (Bucket, bool) {
    var r := Refilled(b, now);
    if r.tokens >= 1.0 then (r.(tokens := r.tokens - 1.0), true) else (r, false)
  }

  /** newRateLimiter: None admits every frame. */
  function NewBucket(rate: real, burst: real, now: real): Option<Bucket> {
    if rate <= 0.0 || burst <= 0.0 then None else Some(Bucket(burst, rate, burst, now))
  }

  class RateLimiter {
    const capacity: real
    const refillRate: real
    var tokens: real
    var lastTick: real

    ghost function View(): Bucket
      reads this
    {
      Bucket(capacity, refillRate, tokens, lastTick)
    }

    constructor (rate: real, burst: real, now: real)
      requires rate > 0.0 && burst > 0.0
      ensures Some(View()) == NewBucket(rate, burst, now) && Sensible(View())
    {
      capacity, refillRate, tokens, lastTick := burst, rate, burst, now;
    }

    method Allow(now: real) returns (ok: bool)
      requires Sensible(View())
      modifies this
      ensures (View(), ok) == Admit(old(View()), now) && Sensible(View())
    {
      AdmitSensible(View(), now);
      var elapsed := now - lastTick;
      if elapsed > 0.0 {
        var earned := elapsed * refillRate;
        assert earned == Product(now - old(lastTick), refillRate);
        tokens := tokens + earned;
        if tokens > capacity {
          tokens := capacity;
        }
        lastTick := now;
      }
      if tokens >= 1.0 {
        tokens := tokens - 1.0;
        return true;
      }
      ok := false;
    }
  }

  lemma RefillBounds(b: Bucket, now: real)
    requires Sensible(b)
    ensures Sensible(Refilled(b, now)) && Refilled(b, now).lastTick == Later(b.lastTick, now)
    ensures Refilled(b, now).tokens <= b.tokens + Product(Later(b.lastTick, now) - b.lastTick, b.rate)
  {
    if now > b.lastTick {
      ProductPositive(now - b.lastTick, b.rate);
    }
  }

  /** One call: the bucket stays within its bounds, its tick is the latest time seen, and
      what it admits is paid for by tokens held or by time gone by. */
  lemma AdmitSensible(b: Bucket, now: real)
    requires Sensible(b)
    ensures var (b1, ok) := Admit(b, now);
            && Sensible(b1) && b1.rate == b.rate && b1.capacity == b.capacity
            && b1.lastTick == Later(b.lastTick, now)
            && (if ok then 1.0 else 0.0) <= b.tokens - b1.tokens + Product(b1.lastTick - b.lastTick, b.rate)
  {
    RefillBounds(b, now);
  }

  /** The number of calls admitted, and the bucket after them. */
  function Admitted(b: Bucket, times: seq<real>): (nat, Bucket)
    decreases |times|
  {
    if times == [] then (0, b)
    else
      var (b1, ok) := Admit(b, times[0]);
      var (n, b2) := Admitted(b1, times[1..]);
      (n + (if ok then 1 else 0), b2)
  }

  /** The latest time seen so far: a clock reading may be earlier than the one before. */
  function Latest(start: real, times: seq<real>): real
    decreases |times|
  {
    if times == [] then start else Latest(Later(start, times[0]), times[1..])
  }

  lemma {:induction false} Ledger(b: Bucket, times: seq<real>)
    requires Sensible(b)
    ensures var (n, b1) := Admitted(b, times);
            && Sensible(b1) && b1.rate == b.rate && b1.capacity == b.capacity
            && b1.lastTick == Latest(b.lastTick, times)
            && n as real <= b.tokens - b1.tokens + Product(b1.lastTick - b.lastTick, b.rate)
    decreases |times|
  {
    if times == [] {
    } else {
      var b1 := Admit(b, times[0]).0;
      AdmitSensible(b, times[0]);
      Ledger(b1, times[1..]);
      Spread(Admitted(b1, times[1..]).1.lastTick, b1.lastTick, b.lastTick, b.rate);
    }
  }

  lemma Spread(c: real, b: real, a: real, k: real)
    ensures Product(c - b, k) + Product(b - a, k) == Product(c - a, k)
  {
  }

  /** Any window of calls, from any state of the bucket, admits at most the burst plus the
      rate times how far the latest time seen moved. */
  lemma WindowBound(b: Bucket, times: seq<real>)
    requires Sensible(b)
    ensures Admitted(b, times).0 as real <= b.capacity + Product(Latest(b.lastTick, times) - b.lastTick, b.rate)
  {
    Ledger(b, times);
  }

  /** Calls at least 1/rate apart. */
  predicate Spaced(rate: real, times: seq<real>) {
    forall i :: 0 < i < |times| ==> Apart(rate, times[i - 1], times[i])
  }

  /** From a to b a whole token is earned. */
  predicate Apart(rate: real, a: real, b: real) {
    Product(b - a, rate) >= 1.0
  }

  lemma {:induction false} SpacedCallsPass(b: Bucket, times: seq<real>)
    requires Sensible(b) && b.capacity >= 1.0 && Spaced(b.rate, times)
    requires times != [] ==> times[0] >= b.lastTick && (b.tokens >= 1.0 || Apart(b.rate, b.lastTick, times[0]))
    ensures Admitted(b, times).0 == |times|
    decreases |times|
  {
    if times == [] {
    } else {
      var b1 := Admit(b, times[0]).0;
      AdmitSensible(b, times[0]);
      PaidFor(b, times[0]);
      var rest := times[1..];
      assert forall i :: 0 < i < |rest| ==> rest[i] == times[i + 1] && rest[i - 1] == times[i];
      if rest != [] {
        assert Apart(b.rate, times[0], times[1]);
        Ahead(times[0], times[1], b.rate);
      }
      SpacedCallsPass(b1, rest);
    }
  }

  lemma PaidFor(b: Bucket, now: real)
    requires Sensible(b) && b.capacity >= 1.0 && now >= b.lastTick
    requires b.tokens >= 1.0 || Apart(b.rate, b.lastTick, now)
    ensures Admit(b, now).1
  {
    if now > b.lastTick {
      ProductPositive(now - b.lastTick, b.rate);
    }
  }

  lemma Ahead(a: real, b: real, k: real)
    requires Apart(k, a, b) && k > 0.0
    ensures b > a
  {
    if b < a {
      ProductPositive(a - b, k);
      Spread(a, b, a, k);
    }
  }

  /** How many calls, from the first on, come no later than the bucket's last tick. */
  function EarlyCalls(tick: real, times: seq<real>): (k: nat)
    ensures k <= |times| && (k < |times| ==> times[k] > tick)
    ensures forall i :: 0 <= i < k ==> times[i] <= tick
  {
    if times == [] || times[0] > tick then 0 else 1 + EarlyCalls(tick, times[1..])
  }

  /** The early calls are paid from the tokens at hand, one each, and what is left then, topped
      up at the next call, pays for that one. */
  ghost predicate Affordable(b: Bucket, times: seq<real>) {
    var k := EarlyCalls(b.lastTick, times);
    && k as real <= b.tokens
    && (k < |times| ==> b.tokens - k as real + Product(times[k] - b.lastTick, b.rate) >= 1.0)
  }

  lemma SpacedRest(rate: real, times: seq<real>)
    requires times != [] && Spaced(rate, times)
    ensures Spaced(rate, times[1..])
  {
    var rest := times[1..];
    forall i | 0 < i < |rest| ensures Apart(rate, rest[i - 1], rest[i]) {
      assert rest[i] == times[i + 1] && rest[i - 1] == times[i];
    }
  }

  lemma {:induction false} NoMoreThanCalls(b: Bucket, times: seq<real>)
    ensures Admitted(b, times).0 <= |times|
    decreases |times|
  {
    if times == [] {
    } else {
      NoMoreThanCalls(Admit(b, times[0]).0, times[1..]);
    }
  }

  /** A first call that is admitted leaves the question to the rest. */
  lemma FirstThenRest(b: Bucket, times: seq<real>)
    requires times != []
    ensures Admitted(b, times).0 == |times| <==>
              Admit(b, times[0]).1 && Admitted(Admit(b, times[0]).0, times[1..]).0 == |times| - 1
  {
    NoMoreThanCalls(Admit(b, times[0]).0, times[1..]);
  }

  /** Once a call comes after the last tick, a spaced run passes if that call does. */
  lemma LateCallsPass(b: Bucket, times: seq<real>)
    requires Sensible(b) && b.capacity >= 1.0 && Spaced(b.rate, times) && times != [] && times[0] > b.lastTick
    ensures Admitted(b, times).0 == |times| <==> b.tokens + Product(times[0] - b.lastTick, b.rate) >= 1.0
  {
    var b1 := Admit(b, times[0]).0;
    AdmitSensible(b, times[0]);
    ProductPositive(times[0] - b.lastTick, b.rate);
    FirstThenRest(b, times);
    var rest := times[1..];
    SpacedRest(b.rate, times);
    if rest != [] {
      assert Apart(b.rate, times[0], times[1]);
      Ahead(times[0], times[1], b.rate);
    }
    SpacedCallsPass(b1, rest);
  }

  /** Calls spaced at the rate are never dropped exactly when the tokens at hand cover the
      calls dated before the bucket's last tick and the first one after it is paid for. */
  lemma {:induction false} SpacedCallsExactly(b: Bucket, times: seq<real>)
    requires Sensible(b) && b.capacity >= 1.0 && Spaced(b.rate, times)
    ensures Admitted(b, times).0 == |times| <==> Affordable(b, times)
    decreases |times|
  {
    if times == [] {
    } else if times[0] > b.lastTick {
      LateCallsPass(b, times);
    } else {
      var b1 := Admit(b, times[0]).0;
      FirstThenRest(b, times);
      SpacedRest(b.rate, times);
      AdmitSensible(b, times[0]);
      SpacedCallsExactly(b1, times[1..]);
      EarlyStep(b, b1, times);
    }
  }

  lemma EarlyStep(b: Bucket, b1: Bucket, times: seq<real>)
    requires times != [] && times[0] <= b.lastTick && b1 == Admit(b, times[0]).0
    ensures Affordable(b, times) <==> Admit(b, times[0]).1 && Affordable(b1, times[1..])
  {
    var k := EarlyCalls(b.lastTick, times[1..]);
    assert EarlyCalls(b.lastTick, times) == k + 1;
    assert k < |times[1..]| ==> times[1..][k] == times[k + 1];
    assert (k + 1) as real == k as real + 1.0;
  }

  /** A new limiter drops no call that keeps to its rate exactly when its burst covers the
      calls dated no later than its creation, and the call after those is paid for. */
  lemma NewLimiterExactly(rate: real, burst: real, now: real, times: seq<real>)
    requires rate > 0.0 && burst >= 1.0 && Spaced(rate, times)
    ensures Admitted(NewBucket(rate, burst, now).value, times).0 == |times| <==>
              Affordable(NewBucket(rate, burst, now).value, times)
  {
    SpacedCallsExactly(NewBucket(rate, burst, now).value, times);
  }

  /** In particular when the first call comes no earlier than the limiter. */
  lemma NewLimiterPasses(rate: real, burst: real, now: real, times: seq<real>)
    requires rate > 0.0 && burst >= 1.0 && Spaced(rate, times) && (times != [] ==> times[0] >= now)
    ensures Admitted(NewBucket(rate, burst, now).value, times).0 == |times|
  {
    var b := NewBucket(rate, burst, now).value;
    var k := EarlyCalls(now, times);
    if |times| >= 2 {
      assert Apart(rate, times[0], times[1]);
      Ahead(times[0], times[1], rate);
    }
    assert k <= 1;
    NewLimiterExactly(rate, burst, now, times);
    if k == 0 && times != [] {
      ProductPositive(times[0] - now, rate);
    } else if k == 1 && |times| > 1 {
      assert times[0] == now && Apart(rate, now, times[1]);
    }
  }

  /** A burst below one admits nothing, however long one waits. */
  lemma {:induction false} SmallBurstStarves(b: Bucket, times: seq<real>)
    requires Sensible(b) && b.capacity < 1.0
    ensures Admitted(b, times).0 == 0
    decreases |times|
  {
    if times == [] {
    } else {
      AdmitSensible(b, times[0]);
      RefillBounds(b, times[0]);
      SmallBurstStarves(Admit(b, times[0]).0, times[1..]);
    }
  }

  /** A first call before the limiter was made breaks the promise: the refill waits for the
      clock to catch up. */
  lemma EarlyCallStarves()
    ensures Spaced(1.0, [8.0, 9.0]) && Admitted(NewBucket(1.0, 1.0, 10.0).value, [8.0, 9.0]).0 == 1
  {
    var b := NewBucket(1.0, 1.0, 10.0).value;
    var times := [8.0, 9.0];
    var (b1, ok) := Admit(b, 8.0);
    assert ok && b1 == Bucket(1.0, 1.0, 0.0, 10.0);
    assert times[1..] == [9.0];
    assert Admit(b1, 9.0) == (b1, false);
    assert Admitted(b1, [9.0]).0 == 0;
  }

  // ---------------------------------------------------------------- the gates in order

  datatype Fate = Invalid | Replayed | RateLimited | Delivered

  /** The shared sequence table and one connection's bucket. */
  datatype Gates = Gates(high: SeqHigh, bucket: Option<Bucket>)

  /** One iteration of readPump, at the given clock reading. */
  function Gate(g: Gates, f: Frame, now: real): (Gates, Fate) {
    if !ValidFrame(f) then (g, Invalid)
    else if !Fresh(g.high, f) then (g, Replayed)
    else
      var g1 := g.(high := Recorded(g.high, f));
      match g.bucket
      case None => (g1, Delivered)
      case Some(b) =>
        var (b1, ok) := Admit(b, now);
        (g1.(bucket := Some(b1)), if ok then Delivered else RateLimited)
  }

  function Gated(g: Gates, frames: seq<(Frame, real)>): (Gates, seq<Fate>)
    decreases |frames|
  {
    if frames == [] then (g, [])
    else
      var (g1, fate) := Gate(g, frames[0].0, frames[0].1);
      var (g2, fates) := Gated(g1, frames[1..]);
      (g2, [fate] + fates)
  }

  ghost function GatesOf(hub: Hub, limiter: RateLimiter?): Gates
    reads hub, limiter
  {
    Gates(hub.seqHigh, if limiter == null then None else Some(limiter.View()))
  }

  method ReadPump(hub: Hub, limiter: RateLimiter?, frames: seq<(Frame, real)>) returns (fates: seq<Fate>)
    requires limiter != null ==> Sensible(limiter.View())
    modifies hub, limiter
    ensures (GatesOf(hub, limiter), fates) == Gated(old(GatesOf(hub, limiter)), frames)
    ensures limiter != null ==> Sensible(limiter.View())
  {
    fates := [];
    ghost var start := GatesOf(hub, limiter);
    for i := 0 to |frames|
      invariant limiter != null ==> Sensible(limiter.View())
      invariant Gated(start, frames[..i]) == (GatesOf(hub, limiter), fates)
    {
      GatedStep(start, frames, i);
      var (f, now) := frames[i];
      var fate := GateFrame(hub, limiter, f, now);
      fates := fates + [fate];
    }
    assert frames[..|frames|] == frames;
  }

  method GateFrame(hub: Hub, limiter: RateLimiter?, f: Frame, now: real) returns (fate: Fate)
    requires limiter != null ==> Sensible(limiter.View())
    modifies hub, limiter
    ensures (GatesOf(hub, limiter), fate) == Gate(old(GatesOf(hub, limiter)), f, now)
    ensures limiter != null ==> Sensible(limiter.View())
  {
    if !ValidFrame(f) {
      return Invalid;
    }
    var isNew := hub.CheckAndRecordSeq(f);
    if !isNew {
      return Replayed;
    }
    if limiter != null {
      var ok := limiter.Allow(now);
      if !ok {
        return RateLimited;
      }
    }
    fate := Delivered;
  }

  lemma {:induction false} GatedStep(g: Gates, frames: seq<(Frame, real)>, i: nat)
    requires i < |frames|
    ensures var (g1, fates) := Gated(g, frames[..i]);
            var (g2, fate) := Gate(g1, frames[i].0, frames[i].1);
            Gated(g, frames[..i + 1]) == (g2, fates + [fate])
    decreases i
  {
    if i == 0 {
      assert frames[..0] == [] && frames[..1] == [frames[0]] && frames[..1][1..] == [];
      var (g1, first) := Gate(g, frames[0].0, frames[0].1);
      assert Gated(g1, []) == (g1, []);
      assert [first] + [] == [] + [first];
    } else {
      var (g1, first) := Gate(g, frames[0].0, frames[0].1);
      GatedStep(g1, frames[1..], i - 1);
      assert frames[..i][1..] == frames[1..][..i - 1] && frames[..i + 1][1..] == frames[1..][..i];
      var (g2, rest) := Gated(g1, frames[1..][..i - 1]);
      var fate := Gate(g2, frames[i].0, frames[i].1).1;
      assert [first] + (rest + [fate]) == ([first] + rest) + [fate];
    }
  }

  /** The number is recorded before the limiter is asked, so a rate-limited frame that carries
      one cannot be sent again: whatever happens in between, a copy is turned away as a replay.
      Without a number a copy never is. */
  lemma RateLimitedIsLost(g: Gates, f: Frame, now: real, between: seq<(Frame, real)>, again: real)
    requires Gate(g, f, now).1 == RateLimited
    ensures Gate(Gated(Gate(g, f, now).0, between).0, f, again).1 == Replayed <==> f.seqNo != 0
  {
    if f.seqNo != 0 {
      TableGrows(Gate(g, f, now).0, between, SeqKey(f));
    }
  }

  lemma {:induction false} TableGrows(g: Gates, frames: seq<(Frame, real)>, key: string)
    requires key in g.high
    ensures key in Gated(g, frames).0.high && g.high[key] <= Gated(g, frames).0.high[key]
    decreases |frames|
  {
    if frames == [] {
    } else {
      TableGrows(Gate(g, frames[0].0, frames[0].1).0, frames[1..], key);
    }
  }

  function DeliveredIn(fates: seq<Fate>): nat {
    if fates == [] then 0 else DeliveredIn(fates[1..]) + (if fates[0].Delivered? then 1 else 0)
  }

  function TimesOf(frames: seq<(Frame, real)>): (t: seq<real>)
    ensures |t| == |frames|
  {
    seq(|frames|, i requires 0 <= i < |frames| => frames[i].1)
  }

  lemma GatePays(g: Gates, f: Frame, now: real)
    requires g.bucket.Some? && Sensible(g.bucket.value)
    ensures var (g1, fate) := Gate(g, f, now);
            && g1.bucket.Some? && Paid(g.bucket.value, g1.bucket.value, if fate.Delivered? then 1 else 0)
            && g1.bucket.value.lastTick <= Later(g.bucket.value.lastTick, now)
  {
    AdmitSensible(g.bucket.value, now);
    var b := g.bucket.value;
    NothingEarned(b.rate);
    assert b.lastTick - b.lastTick == 0.0;
  }

  /** Going from b to b1 with n frames delivered, each was paid for by tokens or by time. */
  ghost predicate Paid(b: Bucket, b1: Bucket, n: nat) {
    && Sensible(b1) && b1.rate == b.rate && b1.capacity == b.capacity && b.lastTick <= b1.lastTick
    && n as real <= b.tokens - b1.tokens + Product(b1.lastTick - b.lastTick, b.rate)
  }

  lemma PaidTwice(a: Bucket, b: Bucket, c: Bucket, m: nat, n: nat)
    requires Paid(a, b, m) && Paid(b, c, n)
    ensures Paid(a, c, m + n)
  {
    Spread(c.lastTick, b.lastTick, a.lastTick, a.rate);
  }

  /** Over any stretch of frames on one connection, what the handler sees is paid for by the
      tokens held and by the movement of the latest clock reading. */
  lemma {:induction false} DeliveredBound(g: Gates, frames: seq<(Frame, real)>)
    requires g.bucket.Some? && Sensible(g.bucket.value)
    ensures var (g1, fates) := Gated(g, frames);
            && g1.bucket.Some? && Paid(g.bucket.value, g1.bucket.value, DeliveredIn(fates))
            && g1.bucket.value.lastTick <= Latest(g.bucket.value.lastTick, TimesOf(frames))
    decreases |frames|
  {
    if frames != [] {
      var b := g.bucket.value;
      var (g1, fate) := Gate(g, frames[0].0, frames[0].1);
      GatePays(g, frames[0].0, frames[0].1);
      DeliveredBound(g1, frames[1..]);
      var (g2, fates) := Gated(g1, frames[1..]);
      PaidTwice(b, g1.bucket.value, g2.bucket.value, if fate.Delivered? then 1 else 0, DeliveredIn(fates));
      assert TimesOf(frames)[1..] == TimesOf(frames[1..]);
      LatestMonotone(g1.bucket.value.lastTick, Later(b.lastTick, frames[0].1), TimesOf(frames[1..]));
      assert ([fate] + fates)[1..] == fates;
    } else {
      NothingEarned(g.bucket.value.rate);
    }
  }

  /** So it is at most the burst plus the rate times that movement. */
  lemma DeliveredCapped(g: Gates, frames: seq<(Frame, real)>)
    requires g.bucket.Some? && Sensible(g.bucket.value)
    ensures DeliveredIn(Gated(g, frames).1) as real
         <= g.bucket.value.capacity
            + Product(Latest(g.bucket.value.lastTick, TimesOf(frames)) - g.bucket.value.lastTick, g.bucket.value.rate)
  {
    DeliveredBound(g, frames);
    var b, b1 := g.bucket.value, Gated(g, frames).0.bucket.value;
    EarnedMonotone(b1.lastTick - b.lastTick, Latest(b.lastTick, TimesOf(frames)) - b.lastTick, b.rate);
  }

  lemma EarnedMonotone(a: real, b: real, rate: real)
    requires a <= b && rate > 0.0
    ensures Product(a, rate) <= Product(b, rate)
  {
    Monotone(a, b, rate);
  }

  lemma NothingEarned(rate: real)
    ensures Product(0.0, rate) == 0.0
  {
  }

  lemma {:induction false} LatestMonotone(a: real, b: real, times: seq<real>)
    requires a <= b
    ensures Latest(a, times) <= Latest(b, times)
    decreases |times|
  {
    if times == [] {
    } else {
      LatestMonotone(Later(a, times[0]), Later(b, times[0]), times[1..]);
    }
  }
}
