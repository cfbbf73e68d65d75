/** The seeded byte source of the slot permutation (pkg/ares/onion/permutation.go): a buffered
    SHA-256 counter-mode keystream, and rejection sampling on its 32-bit draws. */
module Keystream {
  import opened Wrappers

  const U32: int := 0x1_0000_0000
  const U64: int := 0x1_0000_0000_0000_0000

  /** The keystream blocks of one seed, by block number: SHA-256(seed || counter) in the
      source (Keystream below); all that matters here is that a block has 32 bytes. */
  type Blocks = nat -> seq<byte>

  ghost predicate Blocks32(h: Blocks) {
    forall ctr :: |h(ctr)| == 32
  }

  // ---------------------------------------------------------------- the keystream

  /** Byte k of the keystream: H(seed || k/32)[k mod 32]. */
  function StreamByte(h: Blocks, k: nat): byte
    requires Blocks32(h)
  {
    h(k / 32)[k % 32]
  }

  function Word(a: int, b: int, c: int, d: int): int {
    a * 0x100_0000 + b * 0x1_0000 + c * 0x100 + d
  }

  type Words = nat -> nat

  /** A keystream read byte by byte and, from each position, as a 32-bit word. */
  datatype Keys = Keys(bytes: nat -> byte, words: Words)

  /** The 32-bit word at position p, most significant byte first. */
  function Draw(bytes: nat -> byte, p: nat): (v: nat)
    ensures v < U32
  {
    Word(bytes(p), bytes(p + 1), bytes(p + 2), bytes(p + 3))
  }

  ghost predicate KeysOf(h: Blocks, ks: Keys) {
    && Blocks32(h)
    && (forall k: nat {:trigger StreamByte(h, k)} :: ks.bytes(k) == StreamByte(h, k))
    && (forall p: nat {:trigger Draw(ks.bytes, p)} :: ks.words(p) == Draw(ks.bytes, p))
  }

  /** Every seed has such a keystream. */
  lemma TheKeys(h: Blocks) returns (ks: Keys)
    requires Blocks32(h)
    ensures KeysOf(h, ks)
  {
    var bytes := (k: nat) => if Blocks32(h) then StreamByte(h, k) else 0;
    ks := Keys(bytes, p => Draw(bytes, p));
  }

  /** uint32(m) */
  function Wrapped(m: int): (w: nat)
    ensures w < U32 && (0 <= m < U32 ==> w == m) && (m >= 0 ==> w <= m) && (m == U32 ==> w == 0)
  {
    m % U32
  }

  /** Draws at or above this are rejected. */
  function Limit(m: nat): nat
    requires 1 <= m < U32
  {
    (U32 - 1) / m * m
  }

  /** Draw number i of the draws that start at position p. */
  function Nth(s: Words, p: nat, i: nat): nat {
    s(p + 4 * i)
  }

  predicate AllRejected(s: Words, p: nat, limit: nat, k: nat) {
    forall i {:trigger Nth(s, p, i)} :: 0 <= i < k ==> Nth(s, p, i) >= limit
  }

  /** The draw after k rejections is the first one below the limit. */
  ghost predicate FirstAccepted(s: Words, p: nat, limit: nat, k: nat) {
    Nth(s, p, k) < limit && AllRejected(s, p, limit, k)
  }

  ghost predicate AcceptsLater(s: Words, p: nat, limit: nat) {
    exists k: nat :: FirstAccepted(s, p, limit, k)
  }

  /** From every position some draw is accepted; on other keystreams the source loops forever. */
  ghost predicate Fair(s: Words) {
    forall p: nat, m: nat | 1 <= m < U32 :: AcceptsLater(s, p, Limit(m))
  }

  /** r is the outcome of rejection sampling below m at position p, and next what is left. */
  ghost predicate Sampled(s: Words, p: nat, m: nat, r: nat, next: nat)
    requires 1 <= m < U32
  {
    exists k: nat :: FirstAccepted(s, p, Limit(m), k) && r == Nth(s, p, k) % m && next == p + 4 * k + 4
  }

  lemma Position(blocks: nat, off: nat)
    requires off < 32
    ensures (32 * blocks + off) / 32 == blocks && (32 * blocks + off) % 32 == off
  {
  }

  class SeedStream {
    /** Not wrapped at 2^64: only its low eight bytes are hashed (CounterWraps). */
    var counter: nat
    var buf: seq<byte>
    var off: nat
    ghost var pos: nat

    /** The buffer is the last of the `counter` blocks made so far, handed out up to off. */
    ghost predicate Valid(h: Blocks)
      reads this
    {
      && Blocks32(h)
      && if counter == 0 then buf == [] && off == 0 && pos == 0
         else buf == h(counter - 1) && off <= 32 && pos == 32 * (counter - 1) + off
    }

    constructor (ghost h: Blocks)
      requires Blocks32(h)
      ensures Valid(h) && pos == 0
    {
      counter, buf, off, pos := 0, [], 0, 0;
    }

    /** The buffered byte source is the plain keystream. */
    method Next(h: Blocks, ghost ks: Keys) returns (b: byte)
      requires Valid(h) && KeysOf(h, ks)
      modifies this
      ensures Valid(h) && pos == old(pos) + 1
      ensures b == ks.bytes(old(pos))
    {
      if off >= |buf| {
        buf := h(counter);
        counter := counter + 1;
        off := 0;
      }
      Position(counter - 1, off);
      b := buf[off];
      assert b == StreamByte(h, pos);
      off := off + 1;
      pos := pos + 1;
    }

    /** Four bytes, most significant first. */
    method NextWord(h: Blocks, ghost ks: Keys) returns (v: nat)
      requires Valid(h) && KeysOf(h, ks)
      modifies this
      ensures Valid(h) && pos == old(pos) + 4
      ensures v == ks.words(old(pos))
    {
      var a := Next(h, ks);
      var b := Next(h, ks);
      var c := Next(h, ks);
      var d := Next(h, ks);
      v := Word(a, b, c, d);
      assert v == Draw(ks.bytes, old(pos));
    }

    /** Rejection sampling: the first accepted draw, reduced modulo m. The modulus is used as
        uint32(m), so it wraps at 2^32, and where it wraps to 0 the source divides by zero. */
    method Intn(h: Blocks, ghost ks: Keys, m: int) returns (r: Option<nat>)
      requires Valid(h) && KeysOf(h, ks)
      requires m > 1 && Wrapped(m) != 0 ==> AcceptsLater(ks.words, pos, Limit(Wrapped(m)))
      modifies this
      ensures Valid(h)
      ensures r.None? <==> m > 1 && Wrapped(m) == 0
      ensures m <= 1 ==> r == Some(0) && pos == old(pos)
      ensures m > 1 && r.Some? ==> Sampled(ks.words, old(pos), Wrapped(m), r.value, pos) && r.value < Wrapped(m)
    {
      if m <= 1 {
        return Some(0);
      }
      var m32 := Wrapped(m);
      if m32 == 0 {
        return None;
      }
      var v;
      ghost var k;
      v, k := FirstBelow(h, ks, (U32 - 1) / m32 * m32);
      r := Some(v % m32);
    }

    /** intn's loop. */
    method FirstBelow(h: Blocks, ghost ks: Keys, limit: nat) returns (v: nat, ghost k: nat)
      requires Valid(h) && KeysOf(h, ks) && AcceptsLater(ks.words, pos, limit)
      modifies this
      ensures Valid(h)
      ensures FirstAccepted(ks.words, old(pos), limit, k) && v == Nth(ks.words, old(pos), k) && pos == old(pos) + 4 * k + 4
    {
      ghost var start := pos;
      ghost var last: nat :| FirstAccepted(ks.words, start, limit, last);
      k := 0;
      v := NextWord(h, ks);
      while v >= limit
        invariant Valid(h) && pos == start + 4 * k + 4 && k <= last && v == Nth(ks.words, start, k)
        invariant AllRejected(ks.words, start, limit, k)
        decreases last - k
      {
        assert k != last;
        k := k + 1;
        v := NextWord(h, ks);
      }
    }
  }

  // ---------------------------------------------------------------- sampling is unbiased

  /** The accepted draws that reduce to r. */
  function Accepted(m: nat, q: nat, r: nat): set<int>
    requires m > 0
  {
    set v: int | 0 <= v < q * m && v % m == r
  }

  lemma Multiples(m: int, d: int)
    requires m > 0
    ensures d >= 1 ==> m * d >= m
    ensures d >= 2 ==> m * d >= 2 * m
    ensures d <= 0 ==> m * d <= 0
    ensures d <= -1 ==> m * d <= -m
  {
  }

  lemma DivUnique(v: int, m: int, q: int, r: int)
    requires m > 0 && 0 <= r < m && v == q * m + r
    ensures v / m == q && v % m == r
  {
    var d := v / m - q;
    assert v == m * (v / m) + v % m;
    assert m * d == r - v % m;
    Multiples(m, d);
  }

  /** Each residue is hit by the same number of accepted draws. */
  lemma {:induction false} EachResidueEqually(m: nat, q: nat, r: nat)
    requires 0 < m && r < m
    ensures |Accepted(m, q, r)| == q
    decreases q
  {
    if q == 0 {
      assert Accepted(m, q, r) == {};
    } else {
      EachResidueEqually(m, q - 1, r);
      var x := (q - 1) * m + r;
      DivUnique(x, m, q - 1, r);
      assert q * m == (q - 1) * m + m;
      forall v | v in Accepted(m, q, r) && v !in Accepted(m, q - 1, r) ensures v == x {
        DivUnique(v, m, q - 1, v - (q - 1) * m);
      }
      OneMore(Accepted(m, q, r), Accepted(m, q - 1, r), x);
    }
  }

  lemma OneMore(all: set<int>, some: set<int>, x: int)
    requires some <= all && x in all && x !in some && forall v <- all :: v in some || v == x
    ensures |all| == |some| + 1
  {
    forall v ensures v in all <==> v in some + {x} {
    }
    assert all == some + {x};
  }

  /** intn's limit: every residue is reached by limit/m accepted draws, and at least half of
      all 32-bit draws are accepted; exactly half only for m = 2^31. */
  lemma SamplingIsUniform(m: nat, r: nat)
    requires 1 <= m < U32 && r < m
    ensures |set v: int | 0 <= v < Limit(m) && v % m == r| == Limit(m) / m
    ensures Limit(m) < U32 <= 2 * Limit(m)
    ensures 2 * Limit(m) == U32 <==> m == 0x8000_0000
  {
    var q := (U32 - 1) / m;
    EachResidueEqually(m, q, r);
    assert Accepted(m, q, r) == set v: int | 0 <= v < Limit(m) && v % m == r;
    DivUnique(q * m, m, q, 0);
    assert U32 - 1 == m * q + (U32 - 1) % m;
    Multiples(m, q);
    assert q * m == m * q == Limit(m);
  }

  // ---------------------------------------------------------------- the blocks of a seed

  function Byte(n: nat): byte {
    n % 256
  }

  function BigEndian64(n: nat): seq<byte> {
    [Byte(n / 0x100_0000_0000_0000), Byte(n / 0x1_0000_0000_0000), Byte(n / 0x100_0000_0000), Byte(n / 0x1_0000_0000),
     Byte(n / 0x100_0000), Byte(n / 0x1_0000), Byte(n / 0x100), Byte(n)]
  }

  function Keystream(sha: seq<byte> -> seq<byte>, seed: seq<byte>): Blocks {
    ctr => sha(seed + BigEndian64(ctr))
  }

  lemma LowByte(n: nat, d: nat, e: nat)
    requires d > 0 && e > 0
    ensures (n % (d * 256 * e)) / d % 256 == n / d % 256
  {
    var w := d * 256 * e;
    var q, r := n / w, n % w;
    assert n == w * q + r;
    var x := 256 * e * q;
    assert w * q == d * x by {
      assert d * 256 * e * q == d * (256 * e * q);
    }
    DivUnique(n, d, x + r / d, r % d) by {
      assert r == d * (r / d) + r % d;
      assert d * (x + r / d) == d * x + d * (r / d);
    }
    var y := r / d;
    DivUnique(x + y, 256, e * q + y / 256, y % 256) by {
      assert y == 256 * (y / 256) + y % 256;
      assert x == 256 * (e * q);
    }
  }

  /** The source's counter wraps at 2^64, which its eight big-endian bytes do not show. */
  lemma CounterWraps(n: nat)
    ensures BigEndian64(n % U64) == BigEndian64(n)
  {
    LowByte(n, 0x100_0000_0000_0000, 1);
    LowByte(n, 0x1_0000_0000_0000, 0x100);
    LowByte(n, 0x100_0000_0000, 0x1_0000);
    LowByte(n, 0x1_0000_0000, 0x100_0000);
    LowByte(n, 0x100_0000, 0x1_0000_0000);
    LowByte(n, 0x1_0000, 0x100_0000_0000);
    LowByte(n, 0x100, 0x1_0000_0000_0000);
    LowByte(n, 1, 0x100_0000_0000_0000);
  }
}
