/** What becomes of each inbound frame, in the frame's own terms (pkg/ares/transport/validate.go,
    hub.go and rate_limit.go), and that a sender who keeps to the rate gets every frame through. */
module AdmissionFlow {
  import opened Wrappers
  import opened RealFacts
  import opened Admission

  // ---------------------------------------------------------------- one frame

  /** The tokens a bucket holds at `now`: what it had and what time has earned, up to its size. */
  function TokensAt(b: Bucket, now: real): real {
    var earned := if now > b.lastTick then Product(now - b.lastTick, b.rate) else 0.0;
    if b.tokens + earned > b.capacity then b.capacity else b.tokens + earned
  }

  predicate Versioned(f: Frame) {
    f.version in ["", "1", "2"] && (f.version == "2" ==> f.hasLineage)
  }

  /** The hub has seen this number, or a later one, from the same sender on the same session. */
  predicate Seen(high: SeqHigh, f: Frame) {
    var key := f.sessionID + "|" + f.pseudonym + "|" + f.msgType;
    f.seqNo != 0 && key in high && high[key] >= f.seqNo
  }

  predicate LimiterSensible(g: Gates) {
    g.bucket.Some? ==> Sensible(g.bucket.value)
  }

  /** A frame is delivered exactly when it is well versioned, not seen before, and there is no
      limiter or the limiter holds a token for it at that time. */
  lemma FateExactly(g: Gates, f: Frame, now: real)
    requires LimiterSensible(g)
    ensures Gate(g, f, now).1 == Invalid <==> !Versioned(f)
    ensures Gate(g, f, now).1 == Replayed <==> Versioned(f) && Seen(g.high, f)
    ensures Gate(g, f, now).1 == Delivered <==>
              && Versioned(f) && !Seen(g.high, f)
              && (g.bucket.None? || TokensAt(g.bucket.value, now) >= 1.0)
  {
  }

  /** What one frame leaves behind: the number is recorded if it got as far as the limiter, and
      the limiter pays a token for a delivery and nothing for a drop. */
  lemma GatesAfterExactly(g: Gates, f: Frame, now: real)
    requires LimiterSensible(g)
    ensures var (g1, fate) := Gate(g, f, now);
            && g1.high == (if fate in [Delivered, RateLimited] && f.seqNo != 0
                           then g.high[f.sessionID + "|" + f.pseudonym + "|" + f.msgType := f.seqNo] else g.high)
            && (g.bucket.None? ==> g1.bucket.None?)
            && (g.bucket.Some? && fate in [Invalid, Replayed] ==> g1.bucket == g.bucket)
            && (g.bucket.Some? && fate in [Delivered, RateLimited] ==>
                  var b := g.bucket.value;
                  var left := TokensAt(b, now) - if fate.Delivered? then 1.0 else 0.0;
                  g1.bucket == Some(Bucket(b.capacity, b.rate, left, Later(b.lastTick, now))))
  {
  }

  /** There is no limiter exactly when the rate or the burst is not positive, and then nothing is
      ever rate limited; otherwise it starts full. */
  lemma NewLimiterIs(rate: real, burst: real, now: real)
    ensures NewBucket(rate, burst, now).None? <==> rate <= 0.0 || burst <= 0.0
    ensures NewBucket(rate, burst, now).Some? ==>
              var b := NewBucket(rate, burst, now).value; Sensible(b) && TokensAt(b, now) == burst && b.rate == rate
  {
  }

  // ---------------------------------------------------------------- any stretch of frames

  /** The times at which the limiter is asked: those of valid frames that are no replays. */
  function Asked(high: SeqHigh, frames: seq<(Frame, real)>): seq<real>
    decreases |frames|
  {
    if frames == [] then []
    else
      var (f, now) := frames[0];
      if !ValidFrame(f) || !Fresh(high, f) then Asked(high, frames[1..])
      else [now] + Asked(Recorded(high, f), frames[1..])
  }

  lemma AdmittedFirst(b: Bucket, now: real, rest: seq<real>)
    ensures var (b1, ok) := Admit(b, now);
            Admitted(b, [now] + rest)
            == (Admitted(b1, rest).0 + (if ok then 1 else 0), Admitted(b1, rest).1)
  {
    assert ([now] + rest)[1..] == rest;
  }

  /** Over any frames the handler sees exactly as many as the limiter lets pass when it is asked
      at those times; without a limiter, one for each. */
  lemma {:induction false} DeliveredIsAdmitted(g: Gates, frames: seq<(Frame, real)>)
    ensures DeliveredIn(Gated(g, frames).1)
         == if g.bucket.None? then |Asked(g.high, frames)| else Admitted(g.bucket.value, Asked(g.high, frames)).0
    decreases |frames|
  {
    if frames == [] {
    } else {
      var (f, now) := frames[0];
      var (g1, fate) := Gate(g, f, now);
      DeliveredIsAdmitted(g1, frames[1..]);
      var fates := Gated(g1, frames[1..]).1;
      assert ([fate] + fates)[1..] == fates;
      if g.bucket.Some? && ValidFrame(f) && Fresh(g.high, f) {
        AdmittedFirst(g.bucket.value, now, Asked(Recorded(g.high, f), frames[1..]));
      }
    }
  }

  // ---------------------------------------------------------------- a steady sender

  /** Well versioned frames with increasing positive numbers, each above what the hub has recorded. */
  predicate Numbered(high: SeqHigh, frames: seq<(Frame, real)>) {
    && (forall i :: 0 <= i < |frames| ==> Versioned(frames[i].0) && frames[i].0.seqNo > 0)
    && (forall i, j :: 0 <= i < j < |frames| ==> frames[i].0.seqNo < frames[j].0.seqNo)
    && (forall i :: 0 <= i < |frames| && SeqKey(frames[i].0) in high ==> high[SeqKey(frames[i].0)] < frames[i].0.seqNo)
  }

  lemma NumberedRest(high: SeqHigh, frames: seq<(Frame, real)>)
    requires Numbered(high, frames) && frames != []
    ensures ValidFrame(frames[0].0) && Fresh(high, frames[0].0)
    ensures Numbered(Recorded(high, frames[0].0), frames[1..])
  {
    var rest := frames[1..];
    assert forall i :: 0 <= i < |rest| ==> rest[i] == frames[i + 1];
  }

  /** The limiter is asked about each of them. */
  lemma {:induction false} NumberedAreAsked(high: SeqHigh, frames: seq<(Frame, real)>)
    requires Numbered(high, frames)
    ensures Asked(high, frames) == TimesOf(frames)
    decreases |frames|
  {
    if frames == [] {
    } else {
      NumberedRest(high, frames);
      NumberedAreAsked(Recorded(high, frames[0].0), frames[1..]);
      assert TimesOf(frames) == [frames[0].1] + TimesOf(frames[1..]);
    }
  }

  predicate AllDelivered(fates: seq<Fate>) {
    forall i :: 0 <= i < |fates| ==> fates[i].Delivered?
  }

  lemma {:induction false} CountsAll(fates: seq<Fate>)
    ensures DeliveredIn(fates) <= |fates|
    ensures DeliveredIn(fates) == |fates| <==> AllDelivered(fates)
    decreases |fates|
  {
    if fates == [] {
    } else {
      CountsAll(fates[1..]);
      assert fates == [fates[0]] + fates[1..];
    }
  }

  lemma {:induction false} OneFateEach(g: Gates, frames: seq<(Frame, real)>)
    ensures |Gated(g, frames).1| == |frames|
    decreases |frames|
  {
    if frames == [] {
    } else {
      OneFateEach(Gate(g, frames[0].0, frames[0].1).0, frames[1..]);
    }
  }

  /** Numbered frames spaced at the rate are all delivered exactly when the tokens at hand cover
      those dated no later than the bucket's last tick and the first one after that is paid for. */
  lemma SpacedFramesExactly(g: Gates, frames: seq<(Frame, real)>)
    requires g.bucket.Some? && Sensible(g.bucket.value) && g.bucket.value.capacity >= 1.0
    requires Numbered(g.high, frames) && Spaced(g.bucket.value.rate, TimesOf(frames))
    ensures AllDelivered(Gated(g, frames).1) <==> Affordable(g.bucket.value, TimesOf(frames))
  {
    DeliveredIsAdmitted(g, frames);
    NumberedAreAsked(g.high, frames);
    SpacedCallsExactly(g.bucket.value, TimesOf(frames));
    CountsAll(Gated(g, frames).1);
    OneFateEach(g, frames);
  }

  /** On a new connection, a sender who numbers its frames and keeps to the rate, on a clock not
      behind the hub's, gets every frame through, whatever the hub has recorded of others. */
  lemma SteadySenderDelivers(high: SeqHigh, rate: real, burst: real, now: real, frames: seq<(Frame, real)>)
    requires rate > 0.0 && burst >= 1.0 && Numbered(high, frames) && Spaced(rate, TimesOf(frames))
    requires frames != [] ==> frames[0].1 >= now
    ensures AllDelivered(Gated(Gates(high, NewBucket(rate, burst, now)), frames).1)
  {
    var g := Gates(high, NewBucket(rate, burst, now));
    NewLimiterPasses(rate, burst, now, TimesOf(frames));
    DeliveredIsAdmitted(g, frames);
    NumberedAreAsked(high, frames);
    CountsAll(Gated(g, frames).1);
    OneFateEach(g, frames);
  }
}
