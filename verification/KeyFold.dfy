/** What the eval-sum combine functions compute (pkg/ares/crypto/cgo/incremental_combine.go),
    on values: a rotation key is a map from rotation index to an opaque element, the native
    fold adds two keys index by index, and the native merge overwrites index by index. */
module KeyFold {
  import opened Wrappers

  type Blob = seq<int>
  type Elem = int
  type Tag = int
  type AVectors = int
  type RotKey = map<int, Elem>

  /** The native library: deserialisation of the three kinds of handle, rebuilding a key
      from a-vectors and serialised b-vectors, serialisation, and the sum of two elements
      under a public key's tag. None is a native failure. */
  datatype Lib = Lib(readRot: Blob -> Option<RotKey>, readPk: Blob -> Option<Tag>, readA: Blob -> Option<AVectors>,
                     rebuild: (AVectors, Blob) -> Option<RotKey>, write: RotKey -> Blob,
                     add: (Elem, Elem, Tag) -> Option<Elem>)

  type Resolver = string -> Option<Blob>

  // ---------------------------------------------------------------- loading shares

  datatype KeyRef = KeyRef(full: string, aRef: string, bRef: string)

  predicate IsFull(ref: KeyRef) {
    ref.full != "" && ref.aRef == "" && ref.bRef == ""
  }

  predicate IsSplit(ref: KeyRef) {
    ref.full == "" && ref.aRef != "" && ref.bRef != ""
  }

  function ReadRot(lib: Lib, b: Blob): Option<RotKey> {
    if b == [] then None else lib.readRot(b)
  }

  function ReadPk(lib: Lib, b: Blob): Option<Tag> {
    if b == [] then None else lib.readPk(b)
  }

  function ReadA(lib: Lib, a: Blob): Option<AVectors> {
    if a == [] then None else lib.readA(a)
  }

  /** reconstructRotKeyFromAB: deserialise the a-vectors, then rebuild. */
  function RebuildFromAB(lib: Lib, a: Blob, b: Blob): Option<RotKey> {
    if a == [] || b == [] || lib.readA(a).None? then None else lib.rebuild(lib.readA(a).value, b)
  }

  /** resolveIndexedEvalSumKeyRef */
  function ResolveRef(lib: Lib, resolve: Resolver, ref: KeyRef): Option<RotKey> {
    if IsFull(ref) then
      if resolve(ref.full).None? then None else ReadRot(lib, resolve(ref.full).value)
    else if IsSplit(ref) then
      match (resolve(ref.aRef), resolve(ref.bRef))
      case (Some(a), Some(b)) => RebuildFromAB(lib, a, b)
      case _ => None
    else None
  }

  /** A full reference names the whole key, a split one the a-vectors and the b-vectors apart, and
      only non-empty blobs count; any other reference resolves to nothing. */
  lemma RefResolvesExactly(lib: Lib, resolve: Resolver, full: string, aRef: string, bRef: string, key: RotKey)
    ensures ResolveRef(lib, resolve, KeyRef(full, aRef, bRef)) == Some(key) <==>
              || (aRef == "" == bRef && full != "" && resolve(full).Some? && resolve(full).value != []
                  && lib.readRot(resolve(full).value) == Some(key))
              || (full == "" && aRef != "" && bRef != "" && resolve(aRef).Some? && resolve(bRef).Some?
                  && resolve(aRef).value != [] && resolve(bRef).value != []
                  && lib.readA(resolve(aRef).value).Some?
                  && lib.rebuild(lib.readA(resolve(aRef).value).value, resolve(bRef).value) == Some(key))
  {
  }

  /** Where one share comes from: bytes at hand, or a reference resolved when it is needed. */
  datatype Source = Raw(blob: Blob) | Named(name: string) | Lazy(ref: KeyRef)

  function Load(lib: Lib, resolve: Resolver, s: Source): Option<RotKey> {
    match s
    case Raw(b) => ReadRot(lib, b)
    case Named(name) => if resolve(name).None? then None else ReadRot(lib, resolve(name).value)
    case Lazy(ref) => ResolveRef(lib, resolve, ref)
  }

  function LoadAll(lib: Lib, resolve: Resolver, sources: seq<Source>): (r: seq<Option<RotKey>>)
    ensures |r| == |sources| && forall i :: 0 <= i < |sources| ==> r[i] == Load(lib, resolve, sources[i])
  {
    seq(|sources|, i requires 0 <= i < |sources| => Load(lib, resolve, sources[i]))
  }

  // ---------------------------------------------------------------- folding

  function FoldKeys(lib: Lib, a: RotKey, b: RotKey, tag: Tag): Option<RotKey> {
    if forall i :: i in a && i in b ==> lib.add(a[i], b[i], tag).Some?
    then Some(map i | i in a && i in b :: lib.add(a[i], b[i], tag).value)
    else None
  }

  /** The lead's share with those of parties 1, ..., n - 1 folded in, one by one. */
  function FoldParties(lib: Lib, pks: seq<Blob>, shares: seq<Option<RotKey>>, n: nat): Option<RotKey>
    requires 0 < n <= |shares| <= |pks|
  {
    if n == 1 then shares[0]
    else
      var acc := FoldParties(lib, pks, shares, n - 1);
      var tag := ReadPk(lib, pks[n - 1]);
      if acc.None? || tag.None? || shares[n - 1].None? then None
      else FoldKeys(lib, acc.value, shares[n - 1].value, tag.value)
  }

  function Combined(lib: Lib, pks: seq<Blob>, shares: seq<Option<RotKey>>): Option<RotKey>
    requires 0 < |shares| <= |pks|
  {
    FoldParties(lib, pks, shares, |shares|)
  }

  /** One party more: its share and its key have to load, and every index both sides have is the
      library's sum of the two elements under that key. */
  lemma FoldExactly(lib: Lib, pks: seq<Blob>, shares: seq<Option<RotKey>>, n: nat, key: RotKey)
    requires 0 < n < |shares| <= |pks|
    ensures FoldParties(lib, pks, shares, 1) == shares[0]
    ensures FoldParties(lib, pks, shares, n + 1) == Some(key) <==>
              && FoldParties(lib, pks, shares, n).Some? && shares[n].Some?
              && pks[n] != [] && lib.readPk(pks[n]).Some?
              && var a, b, tag := FoldParties(lib, pks, shares, n).value, shares[n].value, lib.readPk(pks[n]).value;
                 && key.Keys == a.Keys * b.Keys
                 && forall i <- key :: lib.add(a[i], b[i], tag) == Some(key[i])
  {
    if FoldParties(lib, pks, shares, n).Some? && shares[n].Some? && ReadPk(lib, pks[n]).Some? {
      var a, b, tag := FoldParties(lib, pks, shares, n).value, shares[n].value, ReadPk(lib, pks[n]).value;
      KeysFold(lib, a, b, tag, key);
    }
  }

  lemma KeysFold(lib: Lib, a: RotKey, b: RotKey, tag: Tag, key: RotKey)
    ensures FoldKeys(lib, a, b, tag) == Some(key) <==>
              key.Keys == a.Keys * b.Keys && forall i <- key :: lib.add(a[i], b[i], tag) == Some(key[i])
  {
    if key.Keys == a.Keys * b.Keys && forall i <- key :: lib.add(a[i], b[i], tag) == Some(key[i]) {
      assert forall i :: i in a && i in b ==> i in key;
      assert FoldKeys(lib, a, b, tag).value == key;
    }
  }

  /** The per-index combine: fold every index on its own and merge the results in order.
      column(i) holds the parties' shares of index i. */
  function MergedColumns(lib: Lib, pks: seq<Blob>, column: int -> seq<Option<RotKey>>, indices: seq<int>): Option<RotKey>
    requires forall i <- indices :: 0 < |column(i)| <= |pks|
  {
    if indices == [] then Some(map[])
    else
      var front, last := indices[..|indices| - 1], indices[|indices| - 1];
      var acc := MergedColumns(lib, pks, column, front);
      var next := Combined(lib, pks, column(last));
      if acc.None? || next.None? then None else Some(acc.value + next.value)
  }

  // ---------------------------------------------------------------- index by index is the same

  /** The fold seen at one index: elems[p] is party p's element. */
  function FoldElem(lib: Lib, pks: seq<Blob>, elems: seq<Elem>, n: nat): Option<Elem>
    requires 0 < n <= |elems| <= |pks|
  {
    if n == 1 then Some(elems[0])
    else
      var acc := FoldElem(lib, pks, elems, n - 1);
      var tag := ReadPk(lib, pks[n - 1]);
      if acc.None? || tag.None? then None else lib.add(acc.value, elems[n - 1], tag.value)
  }

  /** Party p's share of every index in `table`, where table[i][p] is its element. */
  function PartyKey(table: map<int, seq<Elem>>, p: nat): RotKey
    requires forall i <- table :: p < |table[i]|
  {
    map i <- table :: table[i][p]
  }

  ghost predicate Rectangular(table: map<int, seq<Elem>>, parties: nat) {
    parties > 0 && forall i <- table :: |table[i]| == parties
  }

  /** The whole-key fold, all indices at once, does at each index what FoldElem does. */
  ghost predicate FoldedTable(lib: Lib, pks: seq<Blob>, table: map<int, seq<Elem>>, n: nat, r: Option<RotKey>)
    requires forall i <- table :: 0 < n <= |table[i]| <= |pks|
  {
    match r
    case Some(key) => key.Keys == table.Keys && forall i <- table :: FoldElem(lib, pks, table[i], n) == Some(key[i])
    case None => exists i <- table :: FoldElem(lib, pks, table[i], n).None?
  }

  /** The table pins the result down. */
  lemma FoldedTableUnique(lib: Lib, pks: seq<Blob>, table: map<int, seq<Elem>>, n: nat, r: Option<RotKey>, s: Option<RotKey>)
    requires forall i <- table :: 0 < n <= |table[i]| <= |pks|
    requires FoldedTable(lib, pks, table, n, r) && FoldedTable(lib, pks, table, n, s)
    ensures r == s
  {
    if r.Some? && s.Some? {
      forall i <- table ensures r.value[i] == s.value[i] {
        assert Some(r.value[i]) == FoldElem(lib, pks, table[i], n) == Some(s.value[i]);
      }
      assert r.value == s.value;
    }
  }

  lemma {:induction false} WholeFold(lib: Lib, pks: seq<Blob>, table: map<int, seq<Elem>>, shares: seq<Option<RotKey>>, n: nat, some: int)
    requires some in table && Rectangular(table, |shares|) && 0 < n <= |shares| <= |pks|
    requires forall p :: 0 <= p < |shares| ==> shares[p] == Some(PartyKey(table, p))
    ensures FoldedTable(lib, pks, table, n, FoldParties(lib, pks, shares, n))
  {
    if n <= 1 {
    } else {
      WholeFold(lib, pks, table, shares, n - 1, some);
      var acc := FoldParties(lib, pks, shares, n - 1);
      var tag := ReadPk(lib, pks[n - 1]);
      if acc.Some? && tag.Some? {
        FoldStep(lib, pks, table, n, acc.value, tag.value);
      } else if acc.None? {
        var i :| i in table && FoldElem(lib, pks, table[i], n - 1).None?;
        assert FoldElem(lib, pks, table[i], n).None?;
      } else {
        assert FoldElem(lib, pks, table[some], n).None?;
      }
    }
  }

  lemma FoldStep(lib: Lib, pks: seq<Blob>, table: map<int, seq<Elem>>, n: nat, acc: RotKey, tag: Tag)
    requires n > 1 && forall i <- table :: n <= |table[i]| <= |pks|
    requires n <= |pks| && ReadPk(lib, pks[n - 1]) == Some(tag)
    requires FoldedTable(lib, pks, table, n - 1, Some(acc))
    ensures FoldedTable(lib, pks, table, n, FoldKeys(lib, acc, PartyKey(table, n - 1), tag))
  {
    var share := PartyKey(table, n - 1);
    forall i <- table
      ensures FoldElem(lib, pks, table[i], n) == lib.add(acc[i], share[i], tag)
    {
    }
  }

  lemma FoldSingle(lib: Lib, i: int, a: Elem, b: Elem, tag: Tag)
    ensures FoldKeys(lib, map[i := a], map[i := b], tag)
         == match lib.add(a, b, tag) case None => None case Some(e) => Some(map[i := e])
  {
    var k, l := map[i := a], map[i := b];
    assert forall j :: j in k && j in l <==> j == i;
    var sum := FoldKeys(lib, k, l, tag);
    assert sum.Some? <==> lib.add(k[i], l[i], tag).Some?;
    if sum.Some? {
      assert sum.value.Keys == {i};
      assert sum.value == map[i := lib.add(a, b, tag).value];
    }
  }

  /** One index on its own. */
  lemma {:induction false} ColumnFold(lib: Lib, pks: seq<Blob>, i: int, elems: seq<Elem>, shares: seq<Option<RotKey>>, n: nat)
    requires 0 < n <= |shares| == |elems| <= |pks|
    requires forall p :: 0 <= p < |shares| ==> shares[p] == Some(map[i := elems[p]])
    ensures FoldParties(lib, pks, shares, n)
         == match FoldElem(lib, pks, elems, n) case None => None case Some(e) => Some(map[i := e])
  {
    if n <= 1 {
    } else {
      ColumnFold(lib, pks, i, elems, shares, n - 1);
      var acc := FoldElem(lib, pks, elems, n - 1);
      var tag := ReadPk(lib, pks[n - 1]);
      if acc.Some? && tag.Some? {
        FoldSingle(lib, i, acc.value, elems[n - 1], tag.value);
      }
    }
  }

  ghost predicate SingleIndex(table: map<int, seq<Elem>>, shares: seq<Option<RotKey>>, i: int, parties: nat) {
    i in table && |shares| == |table[i]| == parties && forall p :: 0 <= p < parties ==> shares[p] == Some(map[i := table[i][p]])
  }

  /** Each share in the columns is a key for exactly its own index. */
  ghost predicate SingleIndexed(table: map<int, seq<Elem>>, column: int -> seq<Option<RotKey>>, indices: seq<int>, parties: nat)
  {
    forall i <- indices :: SingleIndex(table, column(i), i, parties)
  }

  lemma {:induction false} ColumnsMerge(lib: Lib, pks: seq<Blob>, table: map<int, seq<Elem>>,
                                        column: int -> seq<Option<RotKey>>, indices: seq<int>, parties: nat)
    requires Rectangular(table, parties) && parties <= |pks| && SingleIndexed(table, column, indices, parties)
    ensures match MergedColumns(lib, pks, column, indices)
            case Some(key) => (forall i :: i in key <==> i in indices)
                              && forall i <- indices :: FoldElem(lib, pks, table[i], parties) == Some(key[i])
            case None => exists i <- indices :: FoldElem(lib, pks, table[i], parties).None?
  {
    if indices == [] {
    } else {
      var front, last := indices[..|indices| - 1], indices[|indices| - 1];
      assert indices == front + [last];
      ColumnsMerge(lib, pks, table, column, front, parties);
      assert last in indices;
      ColumnFold(lib, pks, last, table[last], column(last), parties);
    }
  }

  /** For every number of parties and every non-empty set of indices: combining index by
      index gives the key, or the failure, of combining the parties' merged shares whole. */
  lemma PerIndexIsWhole(lib: Lib, pks: seq<Blob>, table: map<int, seq<Elem>>,
                        column: int -> seq<Option<RotKey>>, indices: seq<int>, whole: seq<Option<RotKey>>)
    requires Rectangular(table, |whole|) && |whole| <= |pks| && indices != []
    requires SingleIndexed(table, column, indices, |whole|) && forall i <- table :: i in indices
    requires forall p :: 0 <= p < |whole| ==> whole[p] == Some(PartyKey(table, p))
    ensures MergedColumns(lib, pks, column, indices) == Combined(lib, pks, whole)
  {
    assert SingleIndex(table, column(indices[0]), indices[0], |whole|);
    WholeFold(lib, pks, table, whole, |whole|, indices[0]);
    ColumnsMerge(lib, pks, table, column, indices, |whole|);
    forall i <- indices ensures i in table {
      assert SingleIndex(table, column(i), i, |whole|);
    }
    var merged := MergedColumns(lib, pks, column, indices);
    if merged.Some? {
      assert forall i :: i in merged.value <==> i in table;
    }
    FoldedTableUnique(lib, pks, table, |whole|, MergedColumns(lib, pks, column, indices), Combined(lib, pks, whole));
  }
}
