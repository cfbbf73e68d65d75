/** The length-prefixed encodings a lineage node's hash and signature are taken over, and how
    far they are injective (pkg/ares/lineage/node.go). SHA-256 is an arbitrary function with
    32-byte results. A Go string is a string of byte-valued chars. */
module LineageNode {

  type Ref = r: seq<int> | |r| == 32 witness seq(32, _ => 0)

  type Hash = seq<int> -> Ref

  const U32_RANGE := 0x1_0000_0000

  /** Two different inputs the hash does not tell apart. */
  predicate Collision(h: Hash, x: seq<int>, y: seq<int>) {
    x != y && h(x) == h(y)
  }

  // ---------------------------------------------------------------- encodings

  function AsBytes(s: string): (b: seq<int>)
    ensures |b| == |s| && forall i :: 0 <= i < |s| ==> b[i] == s[i] as int
  {
    seq(|s|, i requires 0 <= i < |s| => s[i] as int)
  }

  /** PutUint32 of uint32(n): the four low bytes, high byte first. */
  function U32(n: nat): (b: seq<int>)
    ensures |b| == 4
  {
    var w := n % U32_RANGE;
    [w / 0x100_0000, w / 0x1_0000 % 0x100, w / 0x100 % 0x100, w % 0x100]
  }

  function Prefixed(b: seq<int>): seq<int> {
    U32(|b|) + b
  }

  function Flat(refs: seq<Ref>): seq<int> {
    if refs == [] then [] else refs[0] + Flat(refs[1..])
  }

  /** The fields a node's hash commits to. */
  datatype Identity = Identity(sessionID: string, phaseID: string, role: string,
                               payloadHash: Ref, parents: seq<Ref>)

  function Preimage(i: Identity): seq<int> {
    Prefixed(AsBytes(i.sessionID)) + (Prefixed(AsBytes(i.phaseID)) + (Prefixed(AsBytes(i.role))
    + (Prefixed(i.payloadHash) + (U32(|i.parents|) + Flat(i.parents)))))
  }

  function SigningText(hash: Ref, sessionID: string, phaseID: string, role: string): seq<int> {
    hash + (Prefixed(AsBytes(sessionID)) + (Prefixed(AsBytes(phaseID)) + Prefixed(AsBytes(role))))
  }

  /** A growing byte buffer; the hash state and bytes.Buffer both are one. */
  class Buffer {
    var written: seq<int>

    constructor ()
      ensures written == []
    {
      written := [];
    }

    method WriteLenPrefixed(b: seq<int>)
      modifies this
      ensures written == old(written) + Prefixed(b)
    {
      written := written + U32(|b|);
      written := written + b;
    }

    /** The parent count and the parents, which need no prefix of their own. */
    method WriteRefs(refs: seq<Ref>)
      modifies this
      ensures written == old(written) + (U32(|refs|) + Flat(refs))
    {
      written := written + U32(|refs|);
      ghost var goal := written + Flat(refs);
      var i := 0;
      while i < |refs|
        invariant 0 <= i <= |refs|
        invariant written + Flat(refs[i..]) == goal
      {
        FlatStep(written, refs, i);
        written := written + refs[i];
        i := i + 1;
      }
      assert written == goal;
    }
  }

  method DeriveNodeHash(h: Hash, sessionID: string, phaseID: string, role: string, payload: seq<int>, parents: seq<Ref>)
    returns (out: Ref)
    ensures out == h(Preimage(Identity(sessionID, phaseID, role, h(payload), parents)))
  {
    var payloadHash := h(payload);
    var buf := new Buffer();
    buf.WriteLenPrefixed(AsBytes(sessionID));
    buf.WriteLenPrefixed(AsBytes(phaseID));
    buf.WriteLenPrefixed(AsBytes(role));
    buf.WriteLenPrefixed(payloadHash);
    buf.WriteRefs(parents);
    PreimageGrouped(Identity(sessionID, phaseID, role, payloadHash, parents));
    out := h(buf.written);
  }

  lemma PreimageGrouped(i: Identity)
    ensures Preimage(i) == [] + Prefixed(AsBytes(i.sessionID)) + Prefixed(AsBytes(i.phaseID)) + Prefixed(AsBytes(i.role))
                           + Prefixed(i.payloadHash) + (U32(|i.parents|) + Flat(i.parents))
  {
  }

  lemma FlatStep(written: seq<int>, parents: seq<Ref>, i: nat)
    requires i < |parents|
    ensures written + parents[i] + Flat(parents[i + 1..]) == written + Flat(parents[i..])
  {
    assert parents[i..][1..] == parents[i + 1..];
  }

  method SigningMessage(hash: Ref, sessionID: string, phaseID: string, role: string) returns (msg: seq<int>)
    ensures msg == SigningText(hash, sessionID, phaseID, role)
  {
    var buf := new Buffer();
    buf.written := buf.written + hash;
    buf.WriteLenPrefixed(AsBytes(sessionID));
    buf.WriteLenPrefixed(AsBytes(phaseID));
    buf.WriteLenPrefixed(AsBytes(role));
    assert buf.written == SigningText(hash, sessionID, phaseID, role);
    return buf.written;
  }

  // ---------------------------------------------------------------- the encodings are injective

  lemma U32Injective(a: nat, b: nat)
    requires a < U32_RANGE && b < U32_RANGE && U32(a) == U32(b)
    ensures a == b
  {
    assert U32(a)[0] == U32(b)[0] && U32(a)[1] == U32(b)[1] && U32(a)[2] == U32(b)[2] && U32(a)[3] == U32(b)[3];
    U32Digits(a);
    U32Digits(b);
  }

  lemma U32Bytes(n: nat)
    requires n % U32_RANGE == n
    ensures U32(n) == [n / 0x100_0000, n / 0x1_0000 % 0x100, n / 0x100 % 0x100, n % 0x100]
  {
  }

  lemma U32Digits(n: nat)
    requires n < U32_RANGE
    ensures n == U32(n)[0] * 0x100_0000 + U32(n)[1] * 0x1_0000 + U32(n)[2] * 0x100 + U32(n)[3]
  {
    Halves(n);
    Bytes(n / 0x1_0000);
    Quarter(n);
    U32Bytes(n);
  }

  lemma Quarter(n: nat)
    requires n < U32_RANGE
    ensures n / 0x1_0000 / 0x100 == n / 0x100_0000 && n % U32_RANGE == n
  {
  }

  lemma Halves(n: nat)
    requires n < U32_RANGE
    ensures n == n / 0x1_0000 * 0x1_0000 + n / 0x100 % 0x100 * 0x100 + n % 0x100
  {
  }

  lemma Bytes(n: nat)
    ensures n == n / 0x100 * 0x100 + n % 0x100
  {
  }

  lemma SplitEqual(a: seq<int>, x: seq<int>, b: seq<int>, y: seq<int>)
    requires |a| == |b| && a + x == b + y
    ensures a == b && x == y
  {
    assert a == (a + x)[..|a|] && b == (b + y)[..|b|];
    assert x == (a + x)[|a|..] && y == (b + y)[|b|..];
  }

  /** A short enough prefixed field can be told from what follows it. */
  lemma PrefixedSplits(a: seq<int>, x: seq<int>, b: seq<int>, y: seq<int>)
    requires |a| < U32_RANGE && |b| < U32_RANGE
    requires Prefixed(a) + x == Prefixed(b) + y
    ensures a == b && x == y
  {
    assert Prefixed(a) + x == U32(|a|) + (a + x) && Prefixed(b) + y == U32(|b|) + (b + y);
    SplitEqual(U32(|a|), a + x, U32(|b|), b + y);
    U32Injective(|a|, |b|);
    SplitEqual(a, x, b, y);
  }

  lemma AsBytesInjective(s: string, t: string)
    requires AsBytes(s) == AsBytes(t)
    ensures s == t
  {
    assert |AsBytes(s)| == |s| && |AsBytes(t)| == |t|;
    forall i | 0 <= i < |s| ensures s[i] == t[i] {
      assert AsBytes(s)[i] == AsBytes(t)[i];
    }
  }

  lemma FieldSplits(s: string, x: seq<int>, t: string, y: seq<int>)
    requires |s| < U32_RANGE && |t| < U32_RANGE
    requires Prefixed(AsBytes(s)) + x == Prefixed(AsBytes(t)) + y
    ensures s == t && x == y
  {
    PrefixedSplits(AsBytes(s), x, AsBytes(t), y);
    AsBytesInjective(s, t);
  }

  lemma {:induction false} FlatInjective(a: seq<Ref>, b: seq<Ref>)
    requires |a| == |b| && Flat(a) == Flat(b)
    ensures a == b
  {
    if a == [] {
    } else {
      SplitEqual(a[0], Flat(a[1..]), b[0], Flat(b[1..]));
      FlatInjective(a[1..], b[1..]);
      assert a == [a[0]] + a[1..] && b == [b[0]] + b[1..];
    }
  }

  predicate Encodable(i: Identity) {
    |i.sessionID| < U32_RANGE && |i.phaseID| < U32_RANGE && |i.role| < U32_RANGE && |i.parents| < U32_RANGE
  }

  lemma PreimageInjective(a: Identity, b: Identity)
    requires Encodable(a) && Encodable(b) && Preimage(a) == Preimage(b)
    ensures a == b
  {
    var tailA := U32(|a.parents|) + Flat(a.parents);
    var tailB := U32(|b.parents|) + Flat(b.parents);
    FieldSplits(a.sessionID, Prefixed(AsBytes(a.phaseID)) + (Prefixed(AsBytes(a.role)) + (Prefixed(a.payloadHash) + tailA)),
                b.sessionID, Prefixed(AsBytes(b.phaseID)) + (Prefixed(AsBytes(b.role)) + (Prefixed(b.payloadHash) + tailB)));
    FieldSplits(a.phaseID, Prefixed(AsBytes(a.role)) + (Prefixed(a.payloadHash) + tailA),
                b.phaseID, Prefixed(AsBytes(b.role)) + (Prefixed(b.payloadHash) + tailB));
    FieldSplits(a.role, Prefixed(a.payloadHash) + tailA, b.role, Prefixed(b.payloadHash) + tailB);
    PrefixedSplits(a.payloadHash, tailA, b.payloadHash, tailB);
    SplitEqual(U32(|a.parents|), Flat(a.parents), U32(|b.parents|), Flat(b.parents));
    U32Injective(|a.parents|, |b.parents|);
    FlatInjective(a.parents, b.parents);
  }

  lemma SigningTextInjective(h1: Ref, s1: string, p1: string, r1: string, h2: Ref, s2: string, p2: string, r2: string)
    requires |s1| < U32_RANGE && |p1| < U32_RANGE && |r1| < U32_RANGE
    requires |s2| < U32_RANGE && |p2| < U32_RANGE && |r2| < U32_RANGE
    requires SigningText(h1, s1, p1, r1) == SigningText(h2, s2, p2, r2)
    ensures h1 == h2 && s1 == s2 && p1 == p2 && r1 == r2
  {
    var x1, x2 := Prefixed(AsBytes(p1)) + Prefixed(AsBytes(r1)), Prefixed(AsBytes(p2)) + Prefixed(AsBytes(r2));
    SplitEqual(h1, Prefixed(AsBytes(s1)) + x1, h2, Prefixed(AsBytes(s2)) + x2);
    FieldSplits(s1, x1, s2, x2);
    FieldSplits(p1, Prefixed(AsBytes(r1)), p2, Prefixed(AsBytes(r2)));
    assert Prefixed(AsBytes(r1)) + [] == Prefixed(AsBytes(r1)) && Prefixed(AsBytes(r2)) + [] == Prefixed(AsBytes(r2));
    FieldSplits(r1, [], r2, []);
  }

  function Zeros(n: nat): string {
    seq(n, _ => '\0')
  }

  /** The length bound is needed: uint32(len) is 0 at 2^32, and a 2^32-byte run of zero
      bytes may then be read as the session or as the phase. */
  lemma LongFieldsCollide(role: string, payloadHash: Ref, parents: seq<Ref>)
    ensures var a := Identity(Zeros(U32_RANGE), "", role, payloadHash, parents);
            var b := Identity("", Zeros(U32_RANGE), role, payloadHash, parents);
            a != b && Preimage(a) == Preimage(b)
  {
    var a := Identity(Zeros(U32_RANGE), "", role, payloadHash, parents);
    var b := Identity("", Zeros(U32_RANGE), role, payloadHash, parents);
    assert |a.sessionID| != |b.sessionID|;
    var tail := Prefixed(AsBytes(role)) + (Prefixed(payloadHash) + (U32(|parents|) + Flat(parents)));
    ZerosMove(U32_RANGE, tail);
  }

  /** The same for the signing message. */
  lemma LongFieldsSignAlike(hash: Ref, role: string)
    ensures SigningText(hash, Zeros(U32_RANGE), "", role) == SigningText(hash, "", Zeros(U32_RANGE), role)
    ensures Zeros(U32_RANGE) != ""
  {
    ZerosMove(U32_RANGE, Prefixed(AsBytes(role)));
    assert |Zeros(U32_RANGE)| != 0;
  }

  predicate FieldsBelow(i: Identity, b: nat) {
    |i.sessionID| < b && |i.phaseID| < b && |i.role| < b && |i.parents| < b
  }

  /** Below b the pre-image tells any two identities apart. */
  ghost predicate InjectiveBelow(b: nat) {
    forall x: Identity, y: Identity :: FieldsBelow(x, b) && FieldsBelow(y, b) && Preimage(x) == Preimage(y) ==> x == y
  }

  /** Below b the signing message tells hashes, sessions, phases and roles apart. */
  ghost predicate SignsInjectivelyBelow(b: nat) {
    forall h1: Ref, s1: string, p1: string, r1: string, h2: Ref, s2: string, p2: string, r2: string
      {:trigger SigningText(h1, s1, p1, r1), SigningText(h2, s2, p2, r2)} ::
      |s1| < b && |p1| < b && |r1| < b && |s2| < b && |p2| < b && |r2| < b ==>
        (SigningText(h1, s1, p1, r1) == SigningText(h2, s2, p2, r2) ==> (h1, s1, p1, r1) == (h2, s2, p2, r2))
  }

  /** 2^32 is exactly how far the pre-image binds. */
  lemma PreimageLimit(b: nat)
    ensures InjectiveBelow(b) <==> b <= U32_RANGE
  {
    if b <= U32_RANGE {
      forall x: Identity, y: Identity | FieldsBelow(x, b) && FieldsBelow(y, b) && Preimage(x) == Preimage(y)
        ensures x == y
      {
        PreimageInjective(x, y);
      }
    } else {
      var ref: Ref := seq(32, _ => 0);
      var x := Identity(Zeros(U32_RANGE), "", "", ref, []);
      var y := Identity("", Zeros(U32_RANGE), "", ref, []);
      LongFieldsCollide("", ref, []);
      assert FieldsBelow(x, b) && FieldsBelow(y, b);
    }
  }

  /** And how far the signing message does. */
  lemma SigningLimit(b: nat)
    ensures SignsInjectivelyBelow(b) <==> b <= U32_RANGE
  {
    if b <= U32_RANGE {
      forall h1: Ref, s1: string, p1: string, r1: string, h2: Ref, s2: string, p2: string, r2: string
        | |s1| < b && |p1| < b && |r1| < b && |s2| < b && |p2| < b && |r2| < b
          && SigningText(h1, s1, p1, r1) == SigningText(h2, s2, p2, r2)
        ensures (h1, s1, p1, r1) == (h2, s2, p2, r2)
      {
        SigningTextInjective(h1, s1, p1, r1, h2, s2, p2, r2);
      }
    } else {
      var ref: Ref := seq(32, _ => 0);
      LongFieldsSignAlike(ref, "");
    }
  }

  lemma ZerosMove(n: nat, tail: seq<int>)
    requires U32(n) == U32(0)
    ensures Prefixed(AsBytes(Zeros(n))) + (Prefixed(AsBytes("")) + tail)
         == Prefixed(AsBytes("")) + (Prefixed(AsBytes(Zeros(n))) + tail)
  {
    var z := AsBytes(Zeros(n));
    var u := U32(0);
    assert u == [0, 0, 0, 0];
    assert AsBytes("") == [];
    assert u + z == z + u;
    assert (u + z) + ((u + []) + tail) == u + (z + u) + tail;
    assert (u + []) + ((u + z) + tail) == u + (u + z) + tail;
  }
}
