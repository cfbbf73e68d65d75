/** What a node's hash and its signature cover, field by field: a reader takes the pre-image and
    the signing message apart again (pkg/ares/lineage/node.go). */
module LineageRead {
  import opened Wrappers
  import opened LineageNode

  /** Four bytes, high byte first. */
  function ReadU32(b: seq<int>): int
    requires |b| >= 4
  {
    ((b[0] * 0x100 + b[1]) * 0x100 + b[2]) * 0x100 + b[3]
  }

  /** A length-prefixed field and what follows it. */
  function ReadField(b: seq<int>): Option<(seq<int>, seq<int>)> {
    if |b| < 4 || !(0 <= ReadU32(b) <= |b| - 4) then None
    else Some((b[4..4 + ReadU32(b)], b[4 + ReadU32(b)..]))
  }

  /** The next k fields and what follows them. */
  function ReadFields(b: seq<int>, k: nat): Option<(seq<seq<int>>, seq<int>)> {
    if k == 0 then Some(([], b)) else
    var first := ReadField(b);
    if first.None? then None else
    var more := ReadFields(first.value.1, k - 1);
    if more.None? then None else Some(([first.value.0] + more.value.0, more.value.1))
  }

  lemma U32Reads(n: nat, rest: seq<int>)
    requires n < U32_RANGE
    ensures ReadU32(U32(n) + rest) == n
  {
    U32Digits(n);
    var b := U32(n);
    assert (b + rest)[0] == b[0] && (b + rest)[1] == b[1] && (b + rest)[2] == b[2] && (b + rest)[3] == b[3];
  }

  lemma FieldReads(a: seq<int>, rest: seq<int>)
    requires |a| < U32_RANGE
    ensures ReadField(Prefixed(a) + rest) == Some((a, rest))
  {
    var b := Prefixed(a) + rest;
    assert b == U32(|a|) + (a + rest);
    U32Reads(|a|, a + rest);
    assert b[4..4 + |a|] == a && b[4 + |a|..] == rest;
  }

  lemma MoreFieldsRead(a: seq<int>, rest: seq<int>, k: nat, fields: seq<seq<int>>, after: seq<int>)
    requires |a| < U32_RANGE && ReadFields(rest, k) == Some((fields, after))
    ensures ReadFields(Prefixed(a) + rest, k + 1) == Some(([a] + fields, after))
  {
    FieldReads(a, rest);
  }

  lemma LastFieldReads(a: seq<int>, rest: seq<int>)
    requires |a| < U32_RANGE
    ensures ReadFields(Prefixed(a) + rest, 1) == Some(([a], rest))
  {
    FieldReads(a, rest);
    assert [a] + [] == [a];
  }

  /** Parent number k as it stands in a list of 32-byte hashes. */
  function Nth(b: seq<int>, k: nat): seq<int>
    requires 32 * k + 32 <= |b|
  {
    b[32 * k..32 * k + 32]
  }

  lemma {:induction false} FlatReads(refs: seq<Ref>, k: nat)
    requires k < |refs|
    ensures |Flat(refs)| == 32 * |refs| && Nth(Flat(refs), k) == refs[k]
    decreases |refs|
  {
    FlatLength(refs);
    FlatLength(refs[1..]);
    if k > 0 {
      FlatReads(refs[1..], k - 1);
      var rest := Flat(refs[1..]);
      assert Flat(refs)[32 * k..32 * k + 32] == rest[32 * (k - 1)..32 * (k - 1) + 32];
    }
  }

  lemma {:induction false} FlatLength(refs: seq<Ref>)
    ensures |Flat(refs)| == 32 * |refs|
    decreases |refs|
  {
    if refs == [] {
    } else {
      FlatLength(refs[1..]);
    }
  }

  /** The pre-image of a node's hash is, in this order: session, phase, role, payload hash, the
      number of parents, and the parents. */
  lemma PreimageReads(i: Identity)
    requires Encodable(i)
    ensures var r := ReadFields(Preimage(i), 4);
            && r.Some? && r.value.0 == [AsBytes(i.sessionID), AsBytes(i.phaseID), AsBytes(i.role), i.payloadHash]
            && var rest := r.value.1;
               && |rest| == 4 + 32 * |i.parents| && ReadU32(rest) == |i.parents|
               && forall k :: 0 <= k < |i.parents| ==> Nth(rest[4..], k) == i.parents[k]
  {
    var s, p, r, h := AsBytes(i.sessionID), AsBytes(i.phaseID), AsBytes(i.role), i.payloadHash;
    var tail := U32(|i.parents|) + Flat(i.parents);
    LastFieldReads(h, tail);
    MoreFieldsRead(r, Prefixed(h) + tail, 1, [h], tail);
    MoreFieldsRead(p, Prefixed(r) + (Prefixed(h) + tail), 2, [r] + [h], tail);
    MoreFieldsRead(s, Prefixed(p) + (Prefixed(r) + (Prefixed(h) + tail)), 3, [p] + ([r] + [h]), tail);
    assert [s] + ([p] + ([r] + [h])) == [s, p, r, h];
    U32Reads(|i.parents|, Flat(i.parents));
    FlatLength(i.parents);
    assert tail[4..] == Flat(i.parents);
    forall k | 0 <= k < |i.parents| ensures Nth(tail[4..], k) == i.parents[k] {
      FlatReads(i.parents, k);
    }
  }

  /** The signing message is the hash, then session, phase and role. */
  lemma SigningReads(hash: Ref, sessionID: string, phaseID: string, role: string)
    requires |sessionID| < U32_RANGE && |phaseID| < U32_RANGE && |role| < U32_RANGE
    ensures var text := SigningText(hash, sessionID, phaseID, role);
            && |text| >= 32 && text[..32] == hash
            && ReadFields(text[32..], 3) == Some(([AsBytes(sessionID), AsBytes(phaseID), AsBytes(role)], []))
  {
    var s, p, r := AsBytes(sessionID), AsBytes(phaseID), AsBytes(role);
    LastFieldReads(r, []);
    assert Prefixed(r) + [] == Prefixed(r);
    MoreFieldsRead(p, Prefixed(r), 1, [r], []);
    MoreFieldsRead(s, Prefixed(p) + Prefixed(r), 2, [p] + [r], []);
    assert [s] + ([p] + [r]) == [s, p, r];
    var text := SigningText(hash, sessionID, phaseID, role);
    assert text[..32] == hash && text[32..] == Prefixed(s) + (Prefixed(p) + Prefixed(r));
  }
}
