/** Extraction on well-formed objects: the scanner's loop over top-level members returns the
    bytes of the last value under the key
    (clients/swift/Sources/AresTransport/WSFrame.swift). */
module JsonExtract {
  import opened Wrappers
  import opened JsonText
  import opened JsonScanner
  import opened JsonExact

  /** An object's members as quoted names and value texts. */
  function Fields(ms: Members): (r: seq<(Bytes, Bytes)>)
    ensures |r| > 0
  {
    [MemberField(ms.first)] + if ms.OneMember? then [] else Fields(ms.rest)
  }

  /** Reading fields in order: a name that does not decode ends it without a result, the
      last field of that name wins, and null counts as absent. */
  function LastValue(fields: seq<(Bytes, Bytes)>, key: Bytes, decode: Bytes -> Option<Bytes>, found: Option<Bytes>): Option<Bytes> {
    if fields == [] then found else
    var name := decode(fields[0].0);
    if name.None? then None else
    LastValue(fields[1..], key, decode, if name.value == key then NonNull(fields[0].1) else found)
  }

  predicate Stopped(b: Bytes, f: (Bytes, Bytes), s: Stops) {
    Scanned(b, s) && Sliced(b, f, s)
  }

  predicate SliceIs(b: Bytes, from: nat, to: nat, t: Bytes) {
    from <= to <= |b| && b[from..to] == t
  }

  /** How a member's name and value are written, as a function of the member alone. */
  type Writing = Member -> (Bytes, Bytes)

  ghost predicate WritingIs(field: Writing) {
    forall m {:trigger MemberField(m)} :: field(m) == MemberField(m)
  }

  function MemberField(m: Member): (Bytes, Bytes) {
    (StringText(m.name), Text(m.v))
  }

  function FieldsBy(field: Writing, ms: Members): seq<(Bytes, Bytes)> {
    [field(ms.first)] + if ms.OneMember? then [] else FieldsBy(field, ms.rest)
  }

  lemma {:induction false} FieldsAre(field: Writing, ms: Members)
    requires WritingIs(field)
    ensures FieldsBy(field, ms) == Fields(ms)
    decreases ms
  {
    assert field(ms.first) == MemberField(ms.first);
    if ms.OneMember? {
    } else {
      FieldsAre(field, ms.rest);
    }
  }

  /** The name and the value start and end at the scanner's stops. */
  predicate Sliced(b: Bytes, f: (Bytes, Bytes), s: Stops) {
    SliceIs(b, s.name, s.nameEnd, f.0) && SliceIs(b, s.start, s.end, f.1)
  }

  lemma MemberSliced(b: Bytes, c: nat, m: Member, field: Writing)
    requires MemberAt(b, c, m) && WritingIs(field)
    ensures Sliced(b, field(m), StopsAt(c, m))
  {
    assert field(m) == MemberField(m);
    MemberSlices(b, c, m);
  }

  lemma MemberStopped(b: Bytes, c: nat, m: Member, field: Writing) returns (s: Stops)
    requires MemberOk(m) && MemberAt(b, c, m) && Structural(b, c + MemberLen(m)) && WritingIs(field)
    ensures Stopped(b, field(m), s)
    ensures SkipBlank(b, c) == s.name && s.next == c + MemberLen(m)
  {
    s := StopsAt(c, m);
    MemberExact(b, c, m);
    MemberSliced(b, c, m, field);
  }

  /** The extraction loop as two functions of the position alone: where whitespace ends, and
      what the loop returns from there with a value found so far. */
  datatype Loop = Loop(blank: nat -> nat, from: (nat, Option<Bytes>) -> Option<Bytes>)

  ghost predicate LoopOf(b: Bytes, key: Bytes, decode: Bytes -> Option<Bytes>, x: Loop) {
    && (forall c: nat {:trigger SkipBlank(b, c)} :: x.blank(c) == SkipBlank(b, c))
    && (forall c: nat, f {:trigger ExtractFrom(b, c, key, decode, f)} :: x.from(c, f) == ExtractFrom(b, c, key, decode, f))
  }

  /** The value found once a field is read. */
  function FoundAfter(f: (Bytes, Bytes), key: Bytes, decode: Bytes -> Option<Bytes>, found: Option<Bytes>): Option<Bytes> {
    if decode(f.0) == Some(key) then NonNull(f.1) else found
  }

  /** From position c the loop reads these fields and no others. */
  ghost predicate Reads(x: Loop, key: Bytes, decode: Bytes -> Option<Bytes>, c: nat, fields: seq<(Bytes, Bytes)>) {
    forall found :: x.from(x.blank(c), found) == LastValue(fields, key, decode, found)
  }

  /** From position c the loop reads field f and, if there is more, goes on at `next`. */
  ghost predicate ReadsFirst(x: Loop, key: Bytes, decode: Bytes -> Option<Bytes>, c: nat, f: (Bytes, Bytes), next: Option<nat>) {
    forall found :: x.from(x.blank(c), found)
      == (if decode(f.0).None? then None
          else if next.None? then FoundAfter(f, key, decode, found)
          else x.from(x.blank(next.value), FoundAfter(f, key, decode, found)))
  }

  lemma ReadsOne(x: Loop, key: Bytes, decode: Bytes -> Option<Bytes>, c: nat, f: (Bytes, Bytes))
    requires ReadsFirst(x, key, decode, c, f, None)
    ensures Reads(x, key, decode, c, [f])
  {
    forall found ensures LastValue([f], key, decode, found) == if decode(f.0).None? then None else FoundAfter(f, key, decode, found) {
      assert [f][1..] == [];
    }
  }

  lemma ReadsMore(x: Loop, key: Bytes, decode: Bytes -> Option<Bytes>, c: nat, f: (Bytes, Bytes), next: nat, rest: seq<(Bytes, Bytes)>)
    requires ReadsFirst(x, key, decode, c, f, Some(next)) && Reads(x, key, decode, next, rest)
    ensures Reads(x, key, decode, c, [f] + rest)
  {
    assert ([f] + rest)[1..] == rest;
    forall found
      ensures x.from(x.blank(c), found) == LastValue([f] + rest, key, decode, found)
    {
      assert x.from(x.blank(next), FoundAfter(f, key, decode, found)) == LastValue(rest, key, decode, FoundAfter(f, key, decode, found));
    }
  }

  lemma FirstMember(b: Bytes, c: nat, ms: Members)
    requires MembersOk(ms) && MembersAt(b, c, ms) && ByteAt(b, c + MembersLen(ms), CLOSE_OBJECT)
    ensures MemberOk(ms.first) && MemberAt(b, c, ms.first)
    ensures ByteAt(b, c + MemberLen(ms.first), if ms.OneMember? then CLOSE_OBJECT else COMMA)
    ensures ms.MoreMembers? ==>
              var next := c + MemberLen(ms.first) + 1;
              MembersOk(ms.rest) && MembersAt(b, next, ms.rest) && ByteAt(b, next + MembersLen(ms.rest), CLOSE_OBJECT)
  {
  }

  /** The loop at a field's stops, with the byte after it a comma or not. */
  lemma FieldExtracts(b: Bytes, c: nat, f: (Bytes, Bytes), s: Stops, next: Option<nat>, key: Bytes,
                      decode: Bytes -> Option<Bytes>, x: Loop)
    requires LoopOf(b, key, decode, x) && Stopped(b, f, s) && SkipBlank(b, c) == s.name
    requires next == if b[s.next] == COMMA then Some(s.next + 1) else None
    ensures ReadsFirst(x, key, decode, c, f, next)
  {
    forall found
      ensures x.from(x.blank(c), found)
           == (if decode(f.0).None? then None
               else if next.None? then FoundAfter(f, key, decode, found)
               else x.from(x.blank(next.value), FoundAfter(f, key, decode, found)))
    {
      StopsExtract(b, f, s, key, decode, x, found);
      BlankAfter(b, key, decode, x, c);
    }
  }

  /** The scanner's stops around each of the fields, the first of them at the whitespace c. */
  predicate StopsAlong(b: Bytes, c: nat, stops: seq<Stops>, fields: seq<(Bytes, Bytes)>)
    decreases |fields|
  {
    && |stops| == |fields| > 0
    && SkipBlank(b, c) == stops[0].name && Stopped(b, fields[0], stops[0])
    && (if |fields| == 1 then b[stops[0].next] != COMMA
        else b[stops[0].next] == COMMA && StopsAlong(b, stops[0].next + 1, stops[1..], fields[1..]))
  }

  lemma LastStops(b: Bytes, c: nat, s: Stops, f: (Bytes, Bytes))
    requires SkipBlank(b, c) == s.name && Stopped(b, f, s) && b[s.next] != COMMA
    ensures StopsAlong(b, c, [s], [f])
  {
  }

  lemma MoreStops(b: Bytes, c: nat, s: Stops, f: (Bytes, Bytes), stops: seq<Stops>, fields: seq<(Bytes, Bytes)>)
    requires SkipBlank(b, c) == s.name && Stopped(b, f, s) && b[s.next] == COMMA
    requires StopsAlong(b, s.next + 1, stops, fields)
    ensures StopsAlong(b, c, [s] + stops, [f] + fields)
  {
    assert ([s] + stops)[1..] == stops && ([f] + fields)[1..] == fields;
  }

  /** Where members stand, up to the closing brace, as a function of the position alone. */
  type Row = (nat, Members) -> bool

  predicate InRow(b: Bytes, c: nat, ms: Members) {
    MembersOk(ms) && MembersAt(b, c, ms) && ByteAt(b, c + MembersLen(ms), CLOSE_OBJECT)
  }

  ghost predicate RowIs(b: Bytes, row: Row) {
    forall c, ms {:trigger InRow(b, c, ms)} :: row(c, ms) <==> InRow(b, c, ms)
  }

  lemma FirstStops(b: Bytes, c: nat, ms: Members, row: Row, field: Writing) returns (s: Stops)
    requires RowIs(b, row) && row(c, ms) && WritingIs(field)
    ensures Stopped(b, field(ms.first), s) && SkipBlank(b, c) == s.name
    ensures b[s.next] == if ms.OneMember? then CLOSE_OBJECT else COMMA
    ensures ms.MoreMembers? ==> row(s.next + 1, ms.rest)
  {
    assert InRow(b, c, ms);
    FirstMember(b, c, ms);
    s := MemberStopped(b, c, ms.first, field);
    if ms.MoreMembers? {
      assert InRow(b, s.next + 1, ms.rest);
    }
  }

  lemma {:induction false} MembersStop(b: Bytes, c: nat, ms: Members, row: Row, field: Writing) returns (stops: seq<Stops>)
    requires RowIs(b, row) && row(c, ms) && WritingIs(field)
    ensures StopsAlong(b, c, stops, FieldsBy(field, ms))
    decreases ms
  {
    var f := field(ms.first);
    var s := FirstStops(b, c, ms, row, field);
    if ms.OneMember? {
      stops := [s];
      LastStops(b, c, s, f);
      assert [f] + [] == [f];
    } else {
      var more := MembersStop(b, s.next + 1, ms.rest, row, field);
      stops := [s] + more;
      MoreStops(b, c, s, f, more, FieldsBy(field, ms.rest));
    }
  }

  lemma {:induction false} StopsRead(b: Bytes, c: nat, stops: seq<Stops>, fields: seq<(Bytes, Bytes)>, key: Bytes,
                                     decode: Bytes -> Option<Bytes>, x: Loop)
    requires LoopOf(b, key, decode, x) && StopsAlong(b, c, stops, fields)
    ensures Reads(x, key, decode, c, fields)
    decreases |fields|
  {
    var f, s := fields[0], stops[0];
    if |fields| == 1 {
      FieldExtracts(b, c, f, s, None, key, decode, x);
      ReadsOne(x, key, decode, c, f);
      assert fields == [f];
    } else {
      FieldExtracts(b, c, f, s, Some(s.next + 1), key, decode, x);
      StopsRead(b, s.next + 1, stops[1..], fields[1..], key, decode, x);
      ReadsMore(x, key, decode, c, f, s.next + 1, fields[1..]);
      assert fields == [f] + fields[1..];
    }
  }

  /** All members, in order. */
  lemma MembersExtract(b: Bytes, c: nat, ms: Members, key: Bytes, decode: Bytes -> Option<Bytes>, x: Loop)
    requires LoopOf(b, key, decode, x) && MembersOk(ms) && MembersAt(b, c, ms) && ByteAt(b, c + MembersLen(ms), CLOSE_OBJECT)
    ensures Reads(x, key, decode, c, Fields(ms))
  {
    var field: Writing := m => MemberField(m);
    var row: Row := (c: nat, ms: Members) => InRow(b, c, ms);
    var stops := MembersStop(b, c, ms, row, field);
    FieldsAre(field, ms);
    StopsRead(b, c, stops, Fields(ms), key, decode, x);
  }

  lemma MemberSlices(b: Bytes, c: nat, m: Member)
    requires MemberAt(b, c, m)
    ensures var name, start := c + |m.pre|, c + NameLen(m) + |m.afterColon|;
            && SliceIs(b, name, name + StringLen(m.name), StringText(m.name))
            && SliceIs(b, start, start + Len(m.v), Text(m.v))
  {
    var name, start := c + |m.pre|, c + NameLen(m) + |m.afterColon|;
    StringSpells(b, name, m.name);
    AtSlice(b, name, StringText(m.name));
    Spells(b, start, m.v);
    AtSlice(b, start, Text(m.v));
  }

  /** One round of the extraction loop. */
  lemma ExtractRound(b: Bytes, c: nat, nameEnd: nat, start: nat, end: nat, next: nat, key: Bytes,
                     decode: Bytes -> Option<Bytes>, found: Option<Bytes>)
    requires c < |b| && b[c] == QUOTE && ScanMember(b, c) == Some((nameEnd, start, end))
    requires SkipBlank(b, end) == next < |b|
    ensures var name := decode(b[c..nameEnd]);
            var found' := if name == Some(key) then NonNull(b[start..end]) else found;
            ExtractFrom(b, c, key, decode, found)
            == (if name.None? then None
                else if b[next] == COMMA then ExtractFrom(b, SkipBlank(b, next + 1), key, decode, found')
                else found')
  {
  }

  /** The same in terms of the loop, at a field's stops. */
  lemma StopsExtract(b: Bytes, f: (Bytes, Bytes), s: Stops, key: Bytes, decode: Bytes -> Option<Bytes>, x: Loop, found: Option<Bytes>)
    requires LoopOf(b, key, decode, x) && Stopped(b, f, s)
    ensures x.from(s.name, found)
         == (if decode(f.0).None? then None
             else if b[s.next] == COMMA then x.from(x.blank(s.next + 1), FoundAfter(f, key, decode, found))
             else FoundAfter(f, key, decode, found))
  {
    ExtractRound(b, s.name, s.nameEnd, s.start, s.end, s.next, key, decode, found);
    LoopAt(b, key, decode, x, s.name, found);
    LoopAt(b, key, decode, x, SkipBlank(b, s.next + 1), FoundAfter(f, key, decode, found));
    BlankAfter(b, key, decode, x, s.next + 1);
  }

  lemma LoopAt(b: Bytes, key: Bytes, decode: Bytes -> Option<Bytes>, x: Loop, c: nat, f: Option<Bytes>)
    requires LoopOf(b, key, decode, x)
    ensures x.from(c, f) == ExtractFrom(b, c, key, decode, f)
  {
  }

  lemma BlankAfter(b: Bytes, key: Bytes, decode: Bytes -> Option<Bytes>, x: Loop, c: nat)
    requires LoopOf(b, key, decode, x)
    ensures x.blank(c) == SkipBlank(b, c)
  {
  }

  /** On every well-formed top-level object, whatever its values nest, whatever whitespace
      and escapes it holds and whatever follows it, extract returns the bytes of the last
      value under the key. */
  lemma ObjectExtract(b: Bytes, ws: Bytes, ms: Members, after: Bytes, key: Bytes, decode: Bytes -> Option<Bytes>)
    requires b == ws + Text(Object(ms)) + after && Blank(ws) && MembersOk(ms)
    ensures ExtractSpec(b, key, decode) == LastValue(Fields(ms), key, decode, None)
  {
    assert At(b, 0, ws) && At(b, |ws|, Text(Object(ms)));
    ReadsBack(b, |ws|, Object(ms));
    BlankAt(b, 0, ws);
    BlankExact(b, 0, |ws|);
    var x := Loop((c: nat) => SkipBlank(b, c), (c: nat, f: Option<Bytes>) => ExtractFrom(b, c, key, decode, f));
    MembersExtract(b, |ws| + 1, ms, key, decode, x);
    LoopAt(b, key, decode, x, SkipBlank(b, |ws| + 1), None);
    BlankAfter(b, key, decode, x, |ws| + 1);
  }

  lemma BareObjectExtract(b: Bytes, ms: Members, key: Bytes, decode: Bytes -> Option<Bytes>)
    requires b == [OPEN_OBJECT] + (MembersText(ms) + [CLOSE_OBJECT]) && MembersOk(ms)
    ensures ExtractSpec(b, key, decode) == LastValue(Fields(ms), key, decode, None)
  {
    BareText(b, ms);
    ObjectExtract(b, [], ms, [], key, decode);
  }

  lemma BareText(b: Bytes, ms: Members)
    requires b == [OPEN_OBJECT] + (MembersText(ms) + [CLOSE_OBJECT])
    ensures b == [] + Text(Object(ms)) + []
  {
  }

  lemma EmptyExtract(ws: Bytes, inner: Bytes, after: Bytes, key: Bytes, decode: Bytes -> Option<Bytes>)
    requires Blank(ws) && Blank(inner)
    ensures ExtractSpec(ws + Text(EmptyObject(inner)) + after, key, decode) == None
  {
    var b := ws + Text(EmptyObject(inner)) + after;
    assert At(b, |ws|, Text(EmptyObject(inner)));
    Bracketed(b, |ws|, OPEN_OBJECT, inner, CLOSE_OBJECT);
    assert At(b, 0, ws);
    BlankAt(b, 0, ws);
    BlankExact(b, 0, |ws|);
    EmptyExact(b, |ws|, inner);
  }
}
