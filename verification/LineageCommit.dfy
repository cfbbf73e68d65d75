/** Canonical parent order, signed commits and their verification
    (pkg/ares/lineage/node.go, commit.go, verify.go). */
module LineageCommit {
  import opened Wrappers
  import opened Pipeline
  import opened LineageNode

  // ---------------------------------------------------------------- lexicographic order

  /** bytes.Compare(a, b) < 0 */
  predicate Less(a: seq<int>, b: seq<int>) {
    if a == [] then b != []
    else b != [] && (a[0] < b[0] || (a[0] == b[0] && Less(a[1..], b[1..])))
  }

  /** The first place where they differ decides, or a comes to its end first. */
  predicate DiffersAt(a: seq<int>, b: seq<int>, i: nat) {
    i <= |a| && i < |b| && a[..i] == b[..i] && (i == |a| || a[i] < b[i])
  }

  /** Bytes are compared from the left, the smaller byte and the shorter list coming first. */
  lemma {:induction false} LessExactly(a: seq<int>, b: seq<int>)
    ensures Less(a, b) <==> exists i: nat :: DiffersAt(a, b, i)
    decreases |a|
  {
    if a == [] {
      if b != [] {
        assert DiffersAt(a, b, 0);
      }
    } else if b != [] && a[0] == b[0] {
      LessExactly(a[1..], b[1..]);
      if Less(a, b) {
        var i: nat :| DiffersAt(a[1..], b[1..], i);
        assert a[..i + 1] == [a[0]] + a[1..][..i] && b[..i + 1] == [b[0]] + b[1..][..i];
        assert DiffersAt(a, b, i + 1);
      }
      if i: nat :| DiffersAt(a, b, i) {
        assert i > 0 && a[1..][..i - 1] == a[..i][1..] && b[1..][..i - 1] == b[..i][1..];
        assert DiffersAt(a[1..], b[1..], i - 1);
      }
    } else if b != [] {
      if Less(a, b) {
        assert DiffersAt(a, b, 0);
      }
      if i: nat :| DiffersAt(a, b, i) {
        SameHead(a, b, i);
      }
    }
  }

  lemma SameHead(a: seq<int>, b: seq<int>, i: nat)
    requires i <= |a| && i <= |b| && a[..i] == b[..i]
    ensures i > 0 ==> a[0] == b[0]
  {
    if i > 0 {
      assert a[..i][0] == b[..i][0];
    }
  }

  lemma {:induction false} LessIrreflexive(a: seq<int>)
    ensures !Less(a, a)
  {
    if a == [] {
    } else {
      LessIrreflexive(a[1..]);
    }
  }

  lemma {:induction false} LessTransitive(a: seq<int>, b: seq<int>, c: seq<int>)
    requires Less(a, b) && Less(b, c)
    ensures Less(a, c)
  {
    if a != [] && a[0] == b[0] && b[0] == c[0] {
      LessTransitive(a[1..], b[1..], c[1..]);
    }
  }

  lemma {:induction false} LessTotal(a: seq<int>, b: seq<int>)
    ensures a == b || Less(a, b) || Less(b, a)
  {
    if a != [] && b != [] && a[0] == b[0] {
      LessTotal(a[1..], b[1..]);
      assert a == [a[0]] + a[1..] && b == [b[0]] + b[1..];
    }
  }

  // ---------------------------------------------------------------- stable sort

  datatype Parent = Parent(ref: Ref, role: string)

  predicate Sorted(s: seq<Parent>) {
    forall i, j :: 0 <= i < j < |s| ==> !Less(s[j].ref, s[i].ref)
  }

  /** The elements with one given ref, in order. */
  function Same(s: seq<Parent>, ref: Ref): seq<Parent> {
    if s == [] then []
    else (if s[0].ref == ref then [s[0]] else []) + Same(s[1..], ref)
  }

  /** A stable rearrangement keeps, for every ref, the elements of that ref in order. */
  ghost predicate StableRearrangement(s: seq<Parent>, t: seq<Parent>) {
    |s| == |t| && forall ref: Ref :: Same(s, ref) == Same(t, ref)
  }

  /** After every element it does not precede. */
  function Insert(x: Parent, s: seq<Parent>): seq<Parent> {
    if s == [] || Less(x.ref, s[0].ref) then [x] + s
    else [s[0]] + Insert(x, s[1..])
  }

  /** sort.SliceStable by ref. */
  function StableSort(s: seq<Parent>): seq<Parent> {
    if s == [] then [] else Insert(s[|s| - 1], StableSort(s[..|s| - 1]))
  }

  lemma {:induction false} InsertElements(x: Parent, s: seq<Parent>)
    ensures multiset(Insert(x, s)) == multiset(s) + multiset{x}
    ensures |Insert(x, s)| == |s| + 1
  {
    if s != [] && !Less(x.ref, s[0].ref) {
      InsertElements(x, s[1..]);
      assert s == [s[0]] + s[1..];
    }
  }

  lemma NotLessTransitive(a: seq<int>, b: seq<int>, c: seq<int>)
    requires !Less(b, a) && !Less(c, b)
    ensures !Less(c, a)
  {
    LessTotal(a, b);
    LessTotal(b, c);
    if Less(c, a) {
      if a != b {
        LessTransitive(c, a, b);
      }
      assert false;
    }
  }

  predicate LowerBound(ref: Ref, s: seq<Parent>) {
    forall i :: 0 <= i < |s| ==> !Less(s[i].ref, ref)
  }

  lemma {:induction false} InsertSorted(x: Parent, s: seq<Parent>)
    requires Sorted(s)
    ensures Sorted(Insert(x, s))
  {
    if s == [] {
    } else if Less(x.ref, s[0].ref) {
      LessAsymmetric(x.ref, s[0].ref);
      forall j | 0 <= j < |s| ensures !Less(s[j].ref, x.ref) {
        if j > 0 {
          NotLessTransitive(x.ref, s[0].ref, s[j].ref);
        }
      }
    } else {
      InsertSorted(x, s[1..]);
      InsertBound(s[0].ref, x, s[1..]);
    }
  }

  lemma LessAsymmetric(a: seq<int>, b: seq<int>)
    requires Less(a, b)
    ensures !Less(b, a)
  {
    if Less(b, a) {
      LessTransitive(a, b, a);
      LessIrreflexive(a);
      assert false;
    }
  }

  lemma {:induction false} InsertBound(ref: Ref, x: Parent, s: seq<Parent>)
    requires LowerBound(ref, s) && !Less(x.ref, ref)
    ensures LowerBound(ref, Insert(x, s))
  {
    if s != [] && !Less(x.ref, s[0].ref) {
      InsertBound(ref, x, s[1..]);
    }
  }

  lemma {:induction false} SameAppend(s: seq<Parent>, t: seq<Parent>, ref: Ref)
    ensures Same(s + t, ref) == Same(s, ref) + Same(t, ref)
  {
    if s == [] {
      assert s + t == t;
    } else {
      var head := if s[0].ref == ref then [s[0]] else [];
      assert Same(s + t, ref) == head + Same(s[1..] + t, ref) by {
        assert (s + t)[1..] == s[1..] + t;
      }
      SameAppend(s[1..], t, ref);
      assert head + (Same(s[1..], ref) + Same(t, ref)) == (head + Same(s[1..], ref)) + Same(t, ref);
    }
  }

  lemma {:induction false} InsertSame(x: Parent, s: seq<Parent>, ref: Ref)
    requires Sorted(s)
    ensures Same(Insert(x, s), ref) == Same(s + [x], ref)
  {
    SameAppend(s, [x], ref);
    if s == [] {
    } else if Less(x.ref, s[0].ref) {
      assert ([x] + s)[1..] == s;
      LessIrreflexive(x.ref);
      if x.ref == ref {
        assert forall j :: 0 < j < |s| ==> !Less(s[j].ref, s[0].ref);
        SameNone(s, ref);
      }
    } else {
      InsertSame(x, s[1..], ref);
      SameAppend(s[1..], [x], ref);
      assert Insert(x, s)[1..] == Insert(x, s[1..]);
    }
  }

  lemma {:induction false} SameNone(s: seq<Parent>, ref: Ref)
    requires forall j :: 0 <= j < |s| ==> s[j].ref != ref
    ensures Same(s, ref) == []
  {
    if s == [] {
    } else {
      SameNone(s[1..], ref);
    }
  }

  lemma {:induction false} StableSortSorts(s: seq<Parent>)
    ensures Sorted(StableSort(s)) && StableRearrangement(s, StableSort(s))
    ensures multiset(StableSort(s)) == multiset(s)
  {
    if s == [] {
    } else {
      var front, last := s[..|s| - 1], s[|s| - 1];
      assert s == front + [last];
      StableSortSorts(front);
      InsertElements(last, StableSort(front));
      InsertSorted(last, StableSort(front));
      forall ref: Ref ensures Same(s, ref) == Same(StableSort(s), ref) {
        InsertSame(last, StableSort(front), ref);
        SameAppend(front, [last], ref);
        SameAppend(StableSort(front), [last], ref);
      }
    }
  }

  lemma {:induction false} SameMember(s: seq<Parent>, k: nat)
    requires k < |s|
    ensures Same(s, s[k].ref) != []
  {
    if k == 0 {
    } else {
      SameMember(s[1..], k - 1);
    }
  }

  lemma {:induction false} SameFirst(s: seq<Parent>, ref: Ref) returns (k: nat)
    requires Same(s, ref) != []
    ensures k < |s| && s[k].ref == ref
  {
    if s[0].ref == ref {
      k := 0;
    } else {
      k := SameFirst(s[1..], ref);
      k := k + 1;
    }
  }

  lemma SameHeads(s: seq<Parent>, t: seq<Parent>)
    requires Sorted(s) && Sorted(t) && s != [] && t != [] && StableRearrangement(s, t)
    ensures s[0] == t[0] && StableRearrangement(s[1..], t[1..])
  {
    SameMember(s, 0);
    SameMember(t, 0);
    var i := SameFirst(t, s[0].ref);
    var j := SameFirst(s, t[0].ref);
    assert !Less(t[i].ref, t[0].ref) || i == 0;
    assert !Less(s[j].ref, s[0].ref) || j == 0;
    LessIrreflexive(s[0].ref);
    LessIrreflexive(t[0].ref);
    LessTotal(s[0].ref, t[0].ref);
    assert Same(s, s[0].ref)[0] == s[0];
    assert Same(t, t[0].ref)[0] == t[0];
    forall ref: Ref ensures Same(s[1..], ref) == Same(t[1..], ref) {
      SameTail(s, ref);
      SameTail(t, ref);
    }
  }

  lemma SameTail(s: seq<Parent>, ref: Ref)
    requires s != []
    ensures Same(s[1..], ref) == if s[0].ref == ref then Same(s, ref)[1..] else Same(s, ref)
  {
  }

  /** There is only one sorted stable rearrangement, so the sorting algorithm is immaterial. */
  lemma {:induction false} SortedStableUnique(s: seq<Parent>, t: seq<Parent>)
    requires Sorted(s) && Sorted(t) && StableRearrangement(s, t)
    ensures s == t
  {
    if s == [] {
    } else {
      SameHeads(s, t);
      SortedStableUnique(s[1..], t[1..]);
      assert s == [s[0]] + s[1..] && t == [t[0]] + t[1..];
    }
  }

  lemma SortIdempotent(s: seq<Parent>)
    requires Sorted(s)
    ensures StableSort(s) == s
  {
    StableSortSorts(s);
    SortedStableUnique(StableSort(s), s);
  }

  function RefsOf(s: seq<Parent>): (r: seq<Ref>)
    ensures |r| == |s| && forall i :: 0 <= i < |s| ==> r[i] == s[i].ref
  {
    seq(|s|, i requires 0 <= i < |s| => s[i].ref)
  }

  function RolesOf(s: seq<Parent>): (r: seq<string>)
    ensures |r| == |s| && forall i :: 0 <= i < |s| ==> r[i] == s[i].role
  {
    seq(|s|, i requires 0 <= i < |s| => s[i].role)
  }

  ghost predicate SortedRefs(a: seq<Ref>) {
    forall i, j :: 0 <= i < j < |a| ==> !Less(a[j], a[i])
  }

  /** Two ascending lists of the same refs are the same list. */
  lemma {:induction false} SortedRefsUnique(a: seq<Ref>, b: seq<Ref>)
    requires SortedRefs(a) && SortedRefs(b) && multiset(a) == multiset(b)
    ensures a == b
  {
    if a == [] {
      assert |multiset(b)| == 0;
    } else {
      assert |multiset(b)| == |a|;
      SameLeast(a, b);
      assert a == [a[0]] + a[1..] && b == [b[0]] + b[1..];
      assert multiset(a[1..]) == multiset(a) - multiset{a[0]} == multiset(b[1..]);
      SortedRefsUnique(a[1..], b[1..]);
    }
  }

  lemma SameLeast(a: seq<Ref>, b: seq<Ref>)
    requires SortedRefs(a) && SortedRefs(b) && multiset(a) == multiset(b) && a != [] && b != []
    ensures a[0] == b[0]
  {
    assert a[0] in multiset(b) && b[0] in multiset(a);
    var i :| 0 <= i < |b| && b[i] == a[0];
    var j :| 0 <= j < |a| && a[j] == b[0];
    LessTotal(a[0], b[0]);
    LessIrreflexive(a[0]);
  }

  /** parentRoles padded with empty roles to the length of parents. */
  function Paired(parents: seq<Ref>, roles: seq<string>): (s: seq<Parent>)
    ensures |s| == |parents|
  {
    seq(|parents|, i requires 0 <= i < |parents| => Parent(parents[i], if i < |roles| then roles[i] else ""))
  }

  method SortParents(parents: seq<Ref>, roles: seq<string>) returns (sortedRefs: seq<Ref>, sortedRoles: seq<string>)
    ensures sortedRefs == RefsOf(StableSort(Paired(parents, roles)))
    ensures sortedRoles == RolesOf(StableSort(Paired(parents, roles)))
  {
    var indexed: seq<Parent> := [];
    for i := 0 to |parents|
      invariant |indexed| == i && indexed == Paired(parents, roles)[..i]
    {
      var role := "";
      if i < |roles| {
        role := roles[i];
      }
      indexed := indexed + [Parent(parents[i], role)];
    }
    assert indexed == Paired(parents, roles);
    indexed := StableSort(indexed);
    sortedRefs, sortedRoles := [], [];
    for i := 0 to |indexed|
      invariant sortedRefs == RefsOf(indexed)[..i] && sortedRoles == RolesOf(indexed)[..i]
    {
      sortedRefs := sortedRefs + [indexed[i].ref];
      sortedRoles := sortedRoles + [indexed[i].role];
    }
  }

  lemma {:induction false} InsertRefs(x: Parent, s: seq<Parent>)
    ensures multiset(RefsOf(Insert(x, s))) == multiset(RefsOf(s)) + multiset{x.ref}
  {
    if s == [] || Less(x.ref, s[0].ref) {
      assert RefsOf([x] + s) == [x.ref] + RefsOf(s);
    } else {
      InsertRefs(x, s[1..]);
      assert RefsOf(Insert(x, s)) == [s[0].ref] + RefsOf(Insert(x, s[1..]));
      assert RefsOf(s) == [s[0].ref] + RefsOf(s[1..]);
    }
  }

  lemma {:induction false} SortKeepsRefs(s: seq<Parent>)
    ensures multiset(RefsOf(StableSort(s))) == multiset(RefsOf(s))
  {
    if s == [] {
    } else {
      var front, last := s[..|s| - 1], s[|s| - 1];
      SortKeepsRefs(front);
      InsertRefs(last, StableSort(front));
      assert RefsOf(s) == RefsOf(front) + [last.ref];
    }
  }

  lemma SortedRefsOf(s: seq<Parent>)
    ensures SortedRefs(RefsOf(StableSort(s))) && multiset(RefsOf(StableSort(s))) == multiset(RefsOf(s))
  {
    StableSortSorts(s);
    SortKeepsRefs(s);
  }

  /** The canonical refs depend on which refs there are, not on the order or the roles. */
  lemma ParentOrderIrrelevant(s: seq<Parent>, t: seq<Parent>)
    requires multiset(RefsOf(s)) == multiset(RefsOf(t))
    ensures RefsOf(StableSort(s)) == RefsOf(StableSort(t))
  {
    SortedRefsOf(s);
    SortedRefsOf(t);
    SortedRefsUnique(RefsOf(StableSort(s)), RefsOf(StableSort(t)));
  }

  // ---------------------------------------------------------------- nodes

  datatype Node = Node(hash: Ref, sessionID: string, phaseID: string, role: string,
                       parents: seq<Ref>, parentRoles: seq<string>, payloadHash: Ref,
                       producer: seq<int>, signature: seq<int>, algorithm: string)

  function IdentityOf(n: Node): Identity {
    Identity(n.sessionID, n.phaseID, n.role, n.payloadHash, n.parents)
  }

  datatype Signer = Signer(algorithm: string, publicKey: seq<int>, sign: seq<int> -> Option<seq<int>>)

  /** (public key, message, signature) */
  type Verifier = (seq<int>, seq<int>, seq<int>) -> bool

  /** NewDAGNode, given already paired parents. */
  function NewNode(h: Hash, sessionID: string, phaseID: string, role: string, payload: seq<int>,
                   parents: seq<Parent>, producer: seq<int>, signature: seq<int>, algorithm: string): Node
  {
    var sorted := StableSort(parents);
    Node(h(Preimage(Identity(sessionID, phaseID, role, h(payload), RefsOf(sorted)))),
         sessionID, phaseID, role, RefsOf(sorted), RolesOf(sorted), h(payload), producer, signature, algorithm)
  }

  function AsParents(nodes: seq<Node>): (s: seq<Parent>)
    ensures |s| == |nodes| && forall i :: 0 <= i < |nodes| ==> s[i] == Parent(nodes[i].hash, nodes[i].role)
  {
    seq(|nodes|, i requires 0 <= i < |nodes| => Parent(nodes[i].hash, nodes[i].role))
  }

  /** The node Commit makes; None when there is no signer or signing fails. */
  function Committed(h: Hash, sessionID: string, phaseID: string, role: string, payload: seq<int>,
                     parents: seq<Node>, signer: Option<Signer>): Option<Node>
  {
    if signer.None? then None else
    var unsigned := NewNode(h, sessionID, phaseID, role, payload, AsParents(parents),
                            signer.value.publicKey, [], signer.value.algorithm);
    var signature := signer.value.sign(SigningText(unsigned.hash, sessionID, phaseID, role));
    if signature.None? then None else Some(unsigned.(signature := signature.value))
  }

  method Commit(h: Hash, sessionID: string, phaseID: string, role: string, payload: seq<int>,
                parents: seq<Node>, signer: Option<Signer>) returns (r: Option<Node>)
    ensures r == Committed(h, sessionID, phaseID, role, payload, parents, signer)
  {
    if signer.None? {
      return None;
    }
    var refs: seq<Ref>, roles: seq<string> := [], [];
    for i := 0 to |parents|
      invariant refs == RefsOf(AsParents(parents))[..i] && roles == RolesOf(AsParents(parents))[..i]
    {
      refs := refs + [parents[i].hash];
      roles := roles + [parents[i].role];
    }
    assert Paired(refs, roles) == AsParents(parents);
    var sortedRefs, sortedRoles := SortParents(refs, roles);
    var hash := DeriveNodeHash(h, sessionID, phaseID, role, payload, sortedRefs);
    var sigMsg := SigningMessage(hash, sessionID, phaseID, role);
    var signature := signer.value.sign(sigMsg);
    if signature.None? {
      return None;
    }
    assert Paired(sortedRefs, sortedRoles) == StableSort(AsParents(parents));
    StableSortSorts(AsParents(parents));
    SortIdempotent(StableSort(AsParents(parents)));
    r := Some(NewNode(h, sessionID, phaseID, role, payload, Paired(sortedRefs, sortedRoles),
                      signer.value.publicKey, signature.value, signer.value.algorithm));
  }

  /** The parents' hashes and roles, in the order given. */
  ghost predicate Lists(s: seq<Parent>, nodes: seq<Node>) {
    |s| == |nodes| && forall i :: 0 <= i < |nodes| ==> s[i].ref == nodes[i].hash && s[i].role == nodes[i].role
  }

  /** A committed node holds the fields it was given, the payload's hash, its parents in ascending
      order with their roles kept beside them, the hash over all that and the signer's signature
      over the hash and the three names; there is one exactly when that can be signed. */
  lemma CommittedExactly(h: Hash, sessionID: string, phaseID: string, role: string, payload: seq<int>,
                         parents: seq<Node>, signer: Signer, given: seq<Parent>)
    requires Lists(given, parents)
    ensures Committed(h, sessionID, phaseID, role, payload, parents, None).None?
    ensures var r := Committed(h, sessionID, phaseID, role, payload, parents, Some(signer));
            r.Some? ==>
              var n := r.value;
              && n.sessionID == sessionID && n.phaseID == phaseID && n.role == role
              && n.payloadHash == h(payload) && n.hash == h(Preimage(Identity(sessionID, phaseID, role, h(payload), n.parents)))
              && n.producer == signer.publicKey && n.algorithm == signer.algorithm
              && signer.sign(SigningText(n.hash, sessionID, phaseID, role)) == Some(n.signature)
              && |n.parentRoles| == |n.parents| && Sorted(Paired(n.parents, n.parentRoles))
              && StableRearrangement(given, Paired(n.parents, n.parentRoles))
    ensures Committed(h, sessionID, phaseID, role, payload, parents, Some(signer)).None? ==>
              exists refs :: SortedRefs(refs) && multiset(refs) == multiset(RefsOf(given))
                && signer.sign(SigningText(h(Preimage(Identity(sessionID, phaseID, role, h(payload), refs))),
                                           sessionID, phaseID, role)).None?
  {
    assert given == AsParents(parents);
    var sorted := StableSort(given);
    StableSortSorts(given);
    SortedRefsOf(given);
    assert Paired(RefsOf(sorted), RolesOf(sorted)) == sorted;
  }

  // ---------------------------------------------------------------- verification

  datatype Mismatch = AlgorithmField | PayloadHashField | SignatureField

  predicate KnownAlgorithm(node: Node, verifiers: map<string, Verifier>) {
    node.algorithm in verifiers
  }

  /** Both hashes are those of the payload and the fields. */
  predicate Derived(h: Hash, node: Node, payload: seq<int>) {
    node.payloadHash == h(payload) && node.hash == h(Preimage(IdentityOf(node)))
  }

  /** A non-empty producer's key verifies the signature over the node's own fields. */
  predicate Signed(node: Node, verifiers: map<string, Verifier>) {
    && node.algorithm in verifiers && node.producer != []
    && verifiers[node.algorithm](node.producer, SigningText(node.hash, node.sessionID, node.phaseID, node.role), node.signature)
  }

  /** Verify: None when the node checks out against the payload. */
  function Verify(h: Hash, node: Node, payload: seq<int>, verifiers: map<string, Verifier>): (r: Option<Mismatch>)
    ensures r.None? <==> KnownAlgorithm(node, verifiers) && Derived(h, node, payload) && Signed(node, verifiers)
    ensures r == Some(AlgorithmField) <==> !KnownAlgorithm(node, verifiers)
    ensures r == Some(PayloadHashField) <==> KnownAlgorithm(node, verifiers) && !Derived(h, node, payload)
  {
    if node.algorithm !in verifiers then Some(AlgorithmField)
    else if h(payload) != node.payloadHash then Some(PayloadHashField)
    else if h(Preimage(Identity(node.sessionID, node.phaseID, node.role, h(payload), node.parents))) != node.hash
    then Some(PayloadHashField)
    else if |node.producer| == 0 then Some(SignatureField)
    else if !verifiers[node.algorithm](node.producer, SigningText(node.hash, node.sessionID, node.phaseID, node.role), node.signature)
    then Some(SignatureField)
    else None
  }

  /** The verifier accepts what the signer signs. */
  ghost predicate Accepts(v: Verifier, signer: Signer) {
    forall msg :: signer.sign(msg).Some? ==> v(signer.publicKey, msg, signer.sign(msg).value)
  }

  /** Verify accepts every commit, unless the signer has an empty public key. */
  lemma VerifyAcceptsCommit(h: Hash, sessionID: string, phaseID: string, role: string, payload: seq<int>,
                            parents: seq<Node>, signer: Signer, verifiers: map<string, Verifier>)
    requires signer.algorithm in verifiers && Accepts(verifiers[signer.algorithm], signer)
    ensures var r := Committed(h, sessionID, phaseID, role, payload, parents, Some(signer));
            r.Some? ==> (Verify(h, r.value, payload, verifiers).None? <==> signer.publicKey != [])
  {
  }

  /** The committed hash, parents and signature do not depend on the order parents come in. */
  lemma CommitIgnoresParentOrder(h: Hash, sessionID: string, phaseID: string, role: string, payload: seq<int>,
                                 p1: seq<Node>, p2: seq<Node>, signer: Option<Signer>)
    requires multiset(RefsOf(AsParents(p1))) == multiset(RefsOf(AsParents(p2)))
    ensures var a := Committed(h, sessionID, phaseID, role, payload, p1, signer);
            var b := Committed(h, sessionID, phaseID, role, payload, p2, signer);
            && (a.Some? <==> b.Some?)
            && (a.Some? ==> a.value.hash == b.value.hash && a.value == b.value.(parentRoles := a.value.parentRoles))
  {
    ParentOrderIrrelevant(AsParents(p1), AsParents(p2));
  }

  /** A hash names one identity, and an accepted node one payload, up to an explicit
      collision of the hash function. */
  lemma VerifiedNodesBind(h: Hash, a: Node, pa: seq<int>, b: Node, pb: seq<int>, verifiers: map<string, Verifier>)
    requires Verify(h, a, pa, verifiers).None? && Verify(h, b, pb, verifiers).None?
    requires Encodable(IdentityOf(a)) && Encodable(IdentityOf(b)) && a.hash == b.hash
    ensures || (IdentityOf(a) == IdentityOf(b) && pa == pb)
            || Collision(h, pa, pb)
            || Collision(h, Preimage(IdentityOf(a)), Preimage(IdentityOf(b)))
  {
    if Preimage(IdentityOf(a)) == Preimage(IdentityOf(b)) {
      PreimageInjective(IdentityOf(a), IdentityOf(b));
    }
  }
}
