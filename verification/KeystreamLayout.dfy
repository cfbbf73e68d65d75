/** The keystream byte by byte (pkg/ares/onion/permutation.go): blocks in counter order, words read
    high byte first, one after the other, and the counter's own bytes. */
module KeystreamLayout {
  import opened Wrappers
  import opened Keystream

  /** Byte r of block c is byte 32c + r of the stream. */
  lemma BlocksInOrder(h: Blocks, c: nat, r: nat)
    requires Blocks32(h) && r < 32
    ensures StreamByte(h, 32 * c + r) == h(c)[r]
  {
    Position(c, r);
  }

  /** A word's four bytes, high byte first, are these. */
  predicate SpelledBy(v: nat, a: byte, b: byte, c: byte, d: byte) {
    v / 0x100_0000 == a && v / 0x1_0000 % 0x100 == b && v / 0x100 % 0x100 == c && v % 0x100 == d
  }

  lemma WordSpelled(a: byte, b: byte, c: byte, d: byte)
    ensures Word(a, b, c, d) >= 0 && SpelledBy(Word(a, b, c, d), a, b, c, d)
  {
    var v := Word(a, b, c, d);
    DivUnique(v, 0x100_0000, a, b * 0x1_0000 + c * 0x100 + d);
    DivUnique(v, 0x1_0000, a * 0x100 + b, c * 0x100 + d);
    DivUnique(a * 0x100 + b, 0x100, a, b);
    DivUnique(v, 0x100, (a * 0x100 + b) * 0x100 + c, d);
    DivUnique((a * 0x100 + b) * 0x100 + c, 0x100, a * 0x100 + b, c);
  }

  /** Draw number i from position p on reads the four bytes of the stream that follow the 4i
      bytes read before it. */
  lemma DrawsInOrder(h: Blocks, ks: Keys, p: nat, i: nat)
    requires KeysOf(h, ks)
    ensures var q := p + 4 * i;
            SpelledBy(Nth(ks.words, p, i), StreamByte(h, q), StreamByte(h, q + 1), StreamByte(h, q + 2), StreamByte(h, q + 3))
  {
    var q := p + 4 * i;
    assert ks.words(q) == Draw(ks.bytes, q);
    assert ks.bytes(q) == StreamByte(h, q) && ks.bytes(q + 1) == StreamByte(h, q + 1);
    assert ks.bytes(q + 2) == StreamByte(h, q + 2) && ks.bytes(q + 3) == StreamByte(h, q + 3);
    WordSpelled(ks.bytes(q), ks.bytes(q + 1), ks.bytes(q + 2), ks.bytes(q + 3));
  }

  // ---------------------------------------------------------------- the counter

  /** Bytes read as a number, high byte first. */
  function ReadBytes(b: seq<byte>): nat {
    if b == [] then 0 else 0x100 * ReadBytes(b[..|b| - 1]) + b[|b| - 1]
  }

  lemma Regrouped(d: int, p: int, r: int, t: int)
    ensures d * (0x100 * p + r) + t == p * (0x100 * d) + (d * r + t)
  {
    assert d * (0x100 * p + r) == d * (0x100 * p) + d * r;
    assert d * (0x100 * p) == p * (0x100 * d);
  }

  lemma SmallEnough(d: int, r: int, t: int)
    requires 0 <= t < d && 0 <= r <= 0xff
    ensures 0 <= d * r + t < 0x100 * d
  {
    assert 0 <= d * r;
    assert d * (0xff - r) >= 0;
    assert d * (0xff - r) == d * 0xff - d * r;
  }

  lemma ByteStep(n: nat, d: nat)
    requires d > 0
    ensures n / d == 0x100 * (n / (0x100 * d)) + Byte(n / d)
  {
    var q, t := n / d, n % d;
    var p, r := q / 0x100, q % 0x100;
    assert n == d * q + t;
    Regrouped(d, p, r, t);
    SmallEnough(d, r, t);
    DivUnique(n, 0x100 * d, p, d * r + t);
  }

  lemma OneByteMore(b: seq<byte>, x: byte)
    ensures ReadBytes(b + [x]) == 0x100 * ReadBytes(b) + x
  {
    assert (b + [x])[..|b|] == b;
  }

  /** The bytes above and including the one of weight d. */
  lemma ReadsUpTo(n: nat, b: seq<byte>, d: nat)
    requires d > 0 && ReadBytes(b) == n / (0x100 * d)
    ensures ReadBytes(b + [Byte(n / d)]) == n / d
  {
    ByteStep(n, d);
    OneByteMore(b, Byte(n / d));
  }

  lemma CounterReads(n: nat)
    requires n < U64
    ensures ReadBytes(BigEndian64(n)) == n
  {
    var b := BigEndian64(n);
    assert b[..0] == [];
    assert ReadBytes(b[..0]) == n / (0x100 * 0x100_0000_0000_0000);
    ReadsUpTo(n, b[..0], 0x100_0000_0000_0000);
    assert b[..1] == b[..0] + [b[0]];
    ReadsUpTo(n, b[..1], 0x1_0000_0000_0000);
    assert b[..2] == b[..1] + [b[1]];
    ReadsUpTo(n, b[..2], 0x100_0000_0000);
    assert b[..3] == b[..2] + [b[2]];
    ReadsUpTo(n, b[..3], 0x1_0000_0000);
    assert b[..4] == b[..3] + [b[3]];
    ReadsUpTo(n, b[..4], 0x100_0000);
    assert b[..5] == b[..4] + [b[4]];
    ReadsUpTo(n, b[..5], 0x1_0000);
    assert b[..6] == b[..5] + [b[5]];
    ReadsUpTo(n, b[..6], 0x100);
    assert b[..7] == b[..6] + [b[6]];
    ReadsUpTo(n, b[..7], 1);
    assert b == b[..7] + [b[7]];
  }

  /** Block number ctr hashes the seed followed by eight bytes that read as the counter,
      modulo 2^64. */
  lemma BlockHashes(sha: seq<byte> -> seq<byte>, seed: seq<byte>, ctr: nat) returns (counter: seq<byte>)
    ensures Keystream.Keystream(sha, seed)(ctr) == sha(seed + counter)
    ensures |counter| == 8 && ReadBytes(counter) == ctr % U64
  {
    counter := BigEndian64(ctr);
    CounterWraps(ctr);
    CounterReads(ctr % U64);
  }
}
