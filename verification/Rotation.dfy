/** Rotation keys: the index set generated (pkg/ares/crypto/cgo/minimal_rotation_keys.go), the
    batch size chosen (bridge.go), and the rotate-and-add loops that have to make do with them
    (openfhe_wrapper.cpp). A ciphertext is its slots, and rotation is cyclic. */
module Rotation {

  // ---------------------------------------------------------------- doublings

  function Pow2(k: nat): nat {
    if k == 0 then 1 else 2 * Pow2(k - 1)
  }

  /** Rotation indices: s, 2s, 4s, ... below n, or their negatives. */
  function Shifts(n: int, s: nat, left: bool): seq<int>
    requires s > 0
    decreases n - s
  {
    if s >= n then [] else [Index(s, left)] + Shifts(n, 2 * s, left)
  }

  function Index(s: nat, left: bool): int {
    if left then s else 0 - s
  }

  /** The first of s, 2s, 4s, ... that is at least n. */
  function Cover(n: int, s: nat): (c: nat)
    requires s > 0
    ensures c >= n && c >= s && (c > s ==> c >= 2 * s && c < 2 * n)
    decreases n - s
  {
    if s >= n then s else Cover(n, 2 * s)
  }

  /** There are ceil(log2 n) of them from 1, the powers of two, and the next covers n. */
  lemma {:induction false} ShiftsCount(n: int, s: nat, left: bool, k: nat)
    requires s > 0 && s == Pow2(k)
    ensures var d := Shifts(n, s, left);
            && (forall i :: 0 <= i < |d| ==> d[i] == Index(Pow2(k + i), left))
            && Pow2(k + |d|) == Cover(n, s) && (d != [] ==> Pow2(k + |d| - 1) < n)
    decreases n - s
  {
    if s >= n {
    } else {
      ShiftsCount(n, 2 * s, left, k + 1);
      var d, rest := Shifts(n, s, left), Shifts(n, 2 * s, left);
      forall i | 0 <= i < |d| ensures d[i] == Index(Pow2(k + i), left) {
        if i > 0 {
          assert d[i] == rest[i - 1];
        }
      }
    }
  }

  lemma {:induction false} CoverMonotone(m: int, n: int, s: nat)
    requires s > 0 && m <= n
    ensures Cover(m, s) <= Cover(n, s)
    decreases n - s
  {
    if s >= m {
    } else {
      CoverMonotone(m, n, 2 * s);
    }
  }

  /** Moving the first index from the rest to what is already listed. */
  lemma ShiftOver(listed: seq<int>, n: int, s: nat, left: bool)
    requires 0 < s < n
    ensures (listed + [Index(s, left)]) + Shifts(n, 2 * s, left) == listed + Shifts(n, s, left)
  {
  }

  method MinimalRotationIndices(profileDim: int, payloadSlots: int) returns (idx: seq<int>)
    ensures idx == Shifts(profileDim, 1, true) + Shifts(payloadSlots, 1, false)
  {
    idx := [];
    var s := 1;
    while s < profileDim
      invariant s > 0 && idx + Shifts(profileDim, s, true) == Shifts(profileDim, 1, true)
      decreases profileDim - s
    {
      ShiftOver(idx, profileDim, s, true);
      idx := idx + [s];
      s := s * 2;
    }
    assert idx == Shifts(profileDim, 1, true);
    ghost var goal := idx + Shifts(payloadSlots, 1, false);
    s := 1;
    while s < payloadSlots
      invariant s > 0 && idx + Shifts(payloadSlots, s, false) == goal
      decreases payloadSlots - s
    {
      ShiftOver(idx, payloadSlots, s, false);
      idx := idx + [-s];
      s := s * 2;
    }
    assert idx == goal;
  }

  function Larger(a: int, b: int): int {
    if b > a then b else a
  }

  /** The batch size under minimal keys, computed on 32 bits: the need is truncated to them, and
      past 2^31 the shift overflows to 0 and the loop never ends. */
  method BatchSize(profileDim: int, payloadSlots: int) returns (bs: nat)
    requires 0 < profileDim && 0 < payloadSlots
    requires Larger(profileDim, payloadSlots) % U32_RANGE <= 0x8000_0000
    ensures bs == Cover(Larger(profileDim, payloadSlots) % U32_RANGE, 1) <= 0x8000_0000
    ensures Larger(profileDim, payloadSlots) <= 0x8000_0000 <==>
              bs >= Cover(profileDim, 1) && bs >= Cover(payloadSlots, 1)
  {
    var need := profileDim;
    if payloadSlots > need {
      need := payloadSlots;
    }
    var need32 := need % U32_RANGE;
    bs := 1;
    ghost var k := 0;
    while bs < need32
      invariant bs > 0 && bs == Pow2(k) && k <= 31 && Cover(need32, bs) == Cover(need32, 1)
      decreases need32 - bs
    {
      SmallPowers(k);
      bs := bs * 2;
      k := k + 1;
    }
    SmallPowers(k);
    CoversNeed(profileDim, payloadSlots, need, bs);
  }

  const U32_RANGE: int := 0x1_0000_0000

  /** A size of at most 2^31 covers both dimensions only if neither exceeds 2^31. */
  lemma CoversNeed(profileDim: int, payloadSlots: int, need: int, bs: nat)
    requires 0 < profileDim && 0 < payloadSlots && need == Larger(profileDim, payloadSlots)
    requires bs == Cover(need % U32_RANGE, 1) <= 0x8000_0000
    ensures need <= 0x8000_0000 <==> bs >= Cover(profileDim, 1) && bs >= Cover(payloadSlots, 1)
  {
    if need <= 0x8000_0000 {
      CoverMonotone(profileDim, need, 1);
      CoverMonotone(payloadSlots, need, 1);
    }
  }

  lemma SmallPowers(k: nat)
    requires k <= 31
    ensures Pow2(k) <= 0x8000_0000 && (k == 31 ==> Pow2(k) == 0x8000_0000)
  {
    PowersGrow(k, 31);
    FourMore(0);
    FourMore(4);
    FourMore(8);
    FourMore(12);
    FourMore(16);
    FourMore(20);
    FourMore(24);
    assert Pow2(31) == 8 * Pow2(28);
  }

  lemma FourMore(k: nat)
    ensures Pow2(k + 4) == 16 * Pow2(k)
  {
    assert Pow2(k + 2) == 4 * Pow2(k);
  }

  lemma {:induction false} PowersGrow(j: nat, k: nat)
    requires j <= k
    ensures Pow2(j) <= Pow2(k)
  {
    if j >= k {
    } else {
      PowersGrow(j, k - 1);
    }
  }

  // ---------------------------------------------------------------- slots

  type Slots = seq<real>

  /** EvalRotate: left by k, or right by -k. */
  function Rotate(v: Slots, k: int): (r: Slots)
    requires -|v| <= k <= |v|
    ensures |r| == |v|
  {
    if k >= 0 then v[k..] + v[..k] else v[|v| + k..] + v[..|v| + k]
  }

  function Add(v: Slots, w: Slots): (r: Slots)
    requires |v| == |w|
    ensures |r| == |v| && forall i :: 0 <= i < |v| ==> r[i] == v[i] + w[i]
  {
    seq(|v|, i requires 0 <= i < |v| => v[i] + w[i])
  }

  /** v[i] + ... + v[i + n - 1] */
  function Sum(v: Slots, i: nat, n: nat): real
    requires i + n <= |v|
  {
    if n == 0 then 0.0 else Sum(v, i, n - 1) + v[i + n - 1]
  }

  lemma {:induction false} SumSplits(v: Slots, i: nat, m: nat, n: nat)
    requires i + m + n <= |v|
    ensures Sum(v, i, m + n) == Sum(v, i, m) + Sum(v, i + m, n)
  {
    if n == 0 {
    } else {
      SumSplits(v, i, m, n - 1);
    }
  }

  /** A sum of one is the slot itself, so with SumSplits a sum is its slots added up. */
  lemma SumOfOne(v: Slots, i: nat)
    requires i < |v|
    ensures Sum(v, i, 1) == v[i] && Sum(v, i, 0) == 0.0
  {
  }

  lemma {:induction false} SumOfZeros(v: Slots, i: nat, n: nat)
    requires i + n <= |v| && forall j :: i <= j < i + n ==> v[j] == 0.0
    ensures Sum(v, i, n) == 0.0
  {
    if n == 0 {
    } else {
      SumOfZeros(v, i, n - 1);
    }
  }

  /** acc[i] is the sum of the window of w slots from i, for every window that fits. */
  ghost predicate Windows(v: Slots, acc: Slots, w: nat) {
    |acc| == |v| && forall i :: 0 <= i < |v| && i + w <= |v| ==> acc[i] == Sum(v, i, w)
  }

  lemma WindowsDouble(v: Slots, acc: Slots, w: nat)
    requires w > 0 && 2 * w <= |v| && Windows(v, acc, w)
    ensures Windows(v, Add(acc, Rotate(acc, w)), 2 * w)
  {
    var next := Add(acc, Rotate(acc, w));
    forall i | 0 <= i < |v| && i + 2 * w <= |v| ensures next[i] == Sum(v, i, 2 * w) {
      assert Rotate(acc, w)[i] == acc[i + w];
      SumSplits(v, i, w, w);
    }
  }

  /** The index a loop is about to rotate by is among the keys. */
  lemma KeyAtHand(listed: seq<int>, n: int, s: nat, left: bool, keys: seq<int>)
    requires 0 < s < n && listed + Shifts(n, s, left) == Shifts(n, 1, left)
    requires forall k <- Shifts(n, 1, left) :: k in keys
    ensures Index(s, left) in keys
  {
    assert (listed + Shifts(n, s, left))[|listed|] == Index(s, left);
  }

  /** One round: rotate left and add. A rotation needs its key. */
  method FoldBy(ghost v: Slots, acc: Slots, w: nat, keys: seq<int>) returns (next: Slots)
    requires w in keys
    requires w > 0 && 2 * w <= |v| && Windows(v, acc, w)
    ensures Windows(v, next, 2 * w)
  {
    WindowsDouble(v, acc, w);
    next := Add(acc, Rotate(acc, w));
  }

  /** fold_dot_to_first_slot: given the positive keys, every rotation it makes has its key, it
      uses each of them once and in order, and slot 0 ends up with the sum. */
  method FoldDotToFirstSlot(v: Slots, profileDim: nat, keys: seq<int>) returns (acc: Slots, used: seq<int>)
    requires 1 <= profileDim && Cover(profileDim, 1) <= |v|
    requires forall j :: profileDim <= j < |v| ==> v[j] == 0.0
    requires forall k <- Shifts(profileDim, 1, true) :: k in keys
    ensures used == Shifts(profileDim, 1, true)
    ensures |acc| == |v| && acc[0] == Sum(v, 0, profileDim)
  {
    acc, used := v, [];
    var s := 1;
    while s < profileDim
      invariant s > 0 && Cover(profileDim, s) == Cover(profileDim, 1) && Windows(v, acc, s)
      invariant used + Shifts(profileDim, s, true) == Shifts(profileDim, 1, true)
      decreases profileDim - s
    {
      assert 2 * s <= Cover(profileDim, s);
      ShiftOver(used, profileDim, s, true);
      KeyAtHand(used, profileDim, s, true, keys);
      acc := FoldBy(v, acc, s, keys);
      used := used + [s];
      s := s * 2;
    }
    FoldedSum(v, acc, profileDim, s);
  }

  lemma FoldedSum(v: Slots, acc: Slots, dim: nat, w: nat)
    requires 0 < dim <= w <= |v| && Windows(v, acc, w) && forall j :: dim <= j < |v| ==> v[j] == 0.0
    ensures acc[0] == Sum(v, 0, dim)
  {
    SumSplits(v, 0, dim, w - dim);
    SumOfZeros(v, dim, w - dim);
  }

  /** The first w slots hold x and the rest nothing. */
  ghost predicate Filled(out: Slots, x: real, w: nat) {
    forall i :: 0 <= i < |out| ==> out[i] == if i < w then x else 0.0
  }

  lemma FilledDouble(out: Slots, x: real, w: nat)
    requires w > 0 && 2 * w <= |out| && Filled(out, x, w)
    ensures Filled(Add(out, Rotate(out, Index(w, false))), x, 2 * w)
  {
    var r := Rotate(out, Index(w, false));
    forall i | 0 <= i < |out| ensures r[i] == if w <= i < 2 * w then x else 0.0 {
      assert r[i] == if i < w then out[|out| - w + i] else out[i - w];
    }
  }

  /** One round: rotate right and add, with the key of that rotation. */
  method SpreadBy(out: Slots, x: real, w: nat, keys: seq<int>) returns (next: Slots)
    requires Index(w, false) in keys
    requires w > 0 && 2 * w <= |out| && Filled(out, x, w)
    ensures |next| == |out| && Filled(next, x, 2 * w)
  {
    FilledDouble(out, x, w);
    next := Add(out, Rotate(out, Index(w, false)));
  }

  /** broadcast_first_slot: slot 0 is copied into every payload slot, whatever the others
      held, again with each negative key used once and in order. */
  method BroadcastFirstSlot(v: Slots, payloadSlots: nat, keys: seq<int>) returns (out: Slots, used: seq<int>)
    requires 1 <= payloadSlots && Cover(payloadSlots, 1) <= |v|
    requires forall k <- Shifts(payloadSlots, 1, false) :: k in keys
    ensures used == Shifts(payloadSlots, 1, false)
    ensures |out| == |v| && Filled(out, v[0], Cover(payloadSlots, 1))
    ensures forall i :: 0 <= i < payloadSlots ==> out[i] == v[0]
  {
    out := seq(|v|, i requires 0 <= i < |v| => if i == 0 then v[0] else 0.0);
    used := [];
    var shift := 1;
    while shift < payloadSlots
      invariant shift > 0 && Cover(payloadSlots, shift) == Cover(payloadSlots, 1)
      invariant |out| == |v| && Filled(out, v[0], shift)
      invariant used + Shifts(payloadSlots, shift, false) == Shifts(payloadSlots, 1, false)
      decreases payloadSlots - shift
    {
      assert 2 * shift <= Cover(payloadSlots, shift);
      ShiftOver(used, payloadSlots, shift, false);
      KeyAtHand(used, payloadSlots, shift, false, keys);
      out := SpreadBy(out, v[0], shift, keys);
      used := used + [-shift];
      shift := shift * 2;
    }
  }

  /** c is the logarithm of n to base 2, rounded up. */
  predicate CeilLog2(n: nat, c: nat) {
    Pow2(c) >= n && (c > 0 ==> Pow2(c - 1) < n)
  }

  /** With the generated keys and no others, in any batch large enough, the dot product of the
      profile reaches every payload slot; together the two loops use every generated key. */
  method ScorePayload(v: Slots, profileDim: nat, payloadSlots: nat) returns (out: Slots, keys: seq<int>, used: seq<int>)
    requires 1 <= profileDim && 1 <= payloadSlots
    requires Cover(profileDim, 1) <= |v| && Cover(payloadSlots, 1) <= |v|
    requires forall j :: profileDim <= j < |v| ==> v[j] == 0.0
    ensures used == keys == Shifts(profileDim, 1, true) + Shifts(payloadSlots, 1, false)
    ensures |out| == |v| && forall i :: 0 <= i < payloadSlots ==> out[i] == Sum(v, 0, profileDim)
  {
    keys := MinimalRotationIndices(profileDim, payloadSlots);
    var acc, folded := FoldDotToFirstSlot(v, profileDim, keys);
    var spread;
    out, spread := BroadcastFirstSlot(acc, payloadSlots, keys);
    used := folded + spread;
  }

  /** It holds nothing else: p indices that are the powers of two and n that are their
      negatives, p and n being the rounded-up logarithms. */
  lemma IndicesCount(profileDim: nat, payloadSlots: nat, idx: seq<int>) returns (p: nat, n: nat)
    requires profileDim >= 1 && payloadSlots >= 1
    requires idx == Shifts(profileDim, 1, true) + Shifts(payloadSlots, 1, false)
    ensures CeilLog2(profileDim, p) && CeilLog2(payloadSlots, n) && |idx| == p + n
    ensures forall i :: 0 <= i < p ==> idx[i] == Pow2(i)
    ensures forall i :: 0 <= i < n ==> idx[p + i] == Index(Pow2(i), false)
  {
    p := PowersOnly(profileDim, true, Shifts(profileDim, 1, true));
    n := PowersOnly(payloadSlots, false, Shifts(payloadSlots, 1, false));
    var neg := Shifts(payloadSlots, 1, false);
    forall i | 0 <= i < n ensures idx[p + i] == Index(Pow2(i), false) {
      assert idx[p + i] == neg[i];
    }
  }

  lemma PowersOnly(n: nat, left: bool, d: seq<int>) returns (c: nat)
    requires n >= 1 && d == Shifts(n, 1, left)
    ensures c == |d| && CeilLog2(n, c) && forall i :: 0 <= i < c ==> d[i] == Index(Pow2(i), left)
  {
    c := |d|;
    ShiftsCount(n, 1, left, 0);
  }
}
