/** Exactness of the scanner: on every well-formed text it stops at the end of the value it
    started on, and so it returns one top-level value byte for byte. */
module JsonExact {
  import opened Wrappers
  import opened JsonText
  import opened JsonScanner

  // ---------------------------------------------------------------- the leaves

  lemma {:induction false} BlankExact(b: Bytes, c: nat, n: nat)
    requires c + n <= |b| && forall i :: c <= i < c + n ==> IsWhitespace(b[i])
    requires c + n == |b| || !IsWhitespace(b[c + n])
    ensures SkipBlank(b, c) == c + n
    decreases n
  {
    if n == 0 {
    } else {
      BlankExact(b, c + 1, n - 1);
    }
  }

  lemma BlankAt(b: Bytes, c: nat, ws: Bytes)
    requires At(b, c, ws) && Blank(ws)
    ensures forall i :: c <= i < c + |ws| ==> IsWhitespace(b[i])
  {
    forall i | c <= i < c + |ws| ensures IsWhitespace(b[i]) {
      assert b[c + (i - c)] == ws[i - c];
    }
  }

  lemma {:induction false} ScalarExact(b: Bytes, c: nat, n: nat)
    requires c + n <= |b| && forall i :: c <= i < c + n ==> !IsDelimiter(b[i])
    requires Delimited(b, c + n)
    ensures ScalarEnd(b, c) == c + n
    decreases n
  {
    if n == 0 {
    } else {
      ScalarExact(b, c + 1, n - 1);
    }
  }

  lemma {:induction false} StringEndExact(b: Bytes, c: nat, items: seq<Item>)
    requires ItemsOk(items) && ItemsAt(b, c, items) && ByteAt(b, c + ItemsLen(items), QUOTE)
    ensures StringEnd(b, c) == Some(c + ItemsLen(items) + 1)
    decreases |items|
  {
    if items == [] {
    } else {
      StringEndExact(b, c + ItemLen(items[0]), items[1..]);
    }
  }

  lemma StringExact(b: Bytes, c: nat, items: seq<Item>)
    requires ItemsOk(items) && StringAt(b, c, items)
    ensures ScanString(b, c) == Some(c + StringLen(items))
  {
    StringEndExact(b, c + 1, items);
  }

  lemma NumberIsScalar(n: Number)
    requires NumberOk(n)
    ensures |NumberText(n)| > 0
    ensures forall i :: 0 <= i < |NumberText(n)| ==> !IsDelimiter(NumberText(n)[i])
    ensures NumberText(n)[0] == 0x2d || IsDigit(NumberText(n)[0])
  {
  }

  predicate Scalar(j: Json) {
    j.Null? || j.True? || j.False? || j.Num?
  }

  lemma ScalarText(j: Json)
    requires WellFormed(j) && Scalar(j)
    ensures |Text(j)| == Len(j) > 0
    ensures forall i :: 0 <= i < |Text(j)| ==> !IsDelimiter(Text(j)[i])
    ensures Text(j)[0] != QUOTE && Text(j)[0] != OPEN_OBJECT && Text(j)[0] != OPEN_ARRAY
  {
    match j
    case Num(n) => NumberIsScalar(n);
    case Null => assert Text(j)[0] == Code('n');
    case True => assert Text(j)[0] == Code('t');
    case False => assert Text(j)[0] == Code('f');
  }

  lemma ScalarAt(b: Bytes, c: nat, j: Json)
    requires WellFormed(j) && Scalar(j) && Spelled(b, c, j)
    ensures c + Len(j) <= |b| && forall i :: c <= i < c + Len(j) ==> !IsDelimiter(b[i])
    ensures Len(j) > 0 && b[c] != QUOTE && b[c] != OPEN_OBJECT && b[c] != OPEN_ARRAY
  {
    ScalarText(j);
    var t := Text(j);
    assert b[c + 0] == t[0];
    forall i | c <= i < c + |t| ensures !IsDelimiter(b[i]) {
      assert b[c + (i - c)] == t[i - c];
    }
  }

  /** No value starts with whitespace or a closing bracket. */
  lemma FirstByte(b: Bytes, c: nat, j: Json)
    requires WellFormed(j) && Spelled(b, c, j)
    ensures c < |b| && !IsDelimiter(b[c])
  {
    if Scalar(j) {
      ScalarAt(b, c, j);
    }
  }

  // ---------------------------------------------------------------- the whole grammar

  /** c is past the end of the buffer or at a byte that ends a number or literal. */
  predicate Delimited(b: Bytes, c: nat) {
    c == |b| || (c < |b| && IsDelimiter(b[c]))
  }

  /** A comma or a closing bracket. */
  predicate Structural(b: Bytes, c: nat) {
    c < |b| && b[c] in [COMMA, CLOSE_ARRAY, CLOSE_OBJECT]
  }

  lemma {:induction false} SpelledExact(b: Bytes, c: nat, j: Json)
    requires WellFormed(j) && Spelled(b, c, j) && Delimited(b, c + Len(j))
    ensures ScanValue(b, c) == Some(c + Len(j))
    decreases j, 0
  {
    if Scalar(j) {
      ScalarAt(b, c, j);
      ScalarExact(b, c, Len(j));
    } else {
      match j
      case Str(items) => StringExact(b, c, items);
      case EmptyArray(ws) => EmptyExact(b, c, ws);
      case EmptyObject(ws) => EmptyExact(b, c, ws);
      case Array(es) => ElementsExact(b, c + 1, es);
      case Object(ms) => MembersExact(b, c + 1, ms);
    }
  }

  lemma EmptyExact(b: Bytes, c: nat, ws: Bytes)
    requires Blank(ws) && At(b, c + 1, ws) && Structural(b, c + 1 + |ws|)
    ensures SkipBlank(b, c + 1) == c + 1 + |ws|
  {
    BlankAt(b, c + 1, ws);
    BlankExact(b, c + 1, |ws|);
  }

  /** A value with whitespace around it and a structural byte after: the scanner skips to
      the value, the value is delimited, and after it the scanner skips to that byte. */
  lemma ValueBetween(b: Bytes, c: nat, pre: Bytes, j: Json, post: Bytes)
    requires WellFormed(j) && Blank(pre) && Blank(post)
    requires At(b, c, pre) && Spelled(b, c + |pre|, j) && At(b, c + |pre| + Len(j), post)
    requires Structural(b, c + |pre| + Len(j) + |post|)
    ensures SkipBlank(b, c) == c + |pre| < |b| && !IsDelimiter(b[c + |pre|])
    ensures Delimited(b, c + |pre| + Len(j))
    ensures SkipBlank(b, c + |pre| + Len(j)) == c + |pre| + Len(j) + |post|
  {
    var end := c + |pre| + Len(j);
    FirstByte(b, c + |pre|, j);
    BlankAt(b, c, pre);
    BlankExact(b, c, |pre|);
    BlankAt(b, end, post);
    BlankExact(b, end, |post|);
    if post != [] {
      assert b[end + 0] == post[0];
    }
  }

  /** Elements and the closing bracket, from the whitespace before the first of them. */
  lemma {:induction false} ElementsExact(b: Bytes, c: nat, es: Elements)
    requires ElementsOk(es) && ElementsAt(b, c, es) && ByteAt(b, c + ElementsLen(es), CLOSE_ARRAY)
    ensures SkipBlank(b, c) == c + |es.first.pre| < |b| && b[c + |es.first.pre|] != CLOSE_ARRAY
    ensures ScanElements(b, SkipBlank(b, c)) == Some(c + ElementsLen(es) + 1)
    decreases es, 0
  {
    var next := ElementStops(b, c, es.first);
    if es.MoreElements? {
      ElementsExact(b, next + 1, es.rest);
    }
  }

  lemma ElementExact(b: Bytes, c: nat, e: Element)
    requires ElementOk(e) && ElementAt(b, c, e) && Structural(b, c + ElementLen(e))
    ensures SkipBlank(b, c) == c + |e.pre| < |b| && b[c + |e.pre|] != CLOSE_ARRAY
    ensures ScanValue(b, c + |e.pre|) == Some(c + |e.pre| + Len(e.v))
    ensures SkipBlank(b, c + |e.pre| + Len(e.v)) == c + ElementLen(e)
    decreases e, 1
  {
    ValueBetween(b, c, e.pre, e.v, e.post);
    SpelledExact(b, c + |e.pre|, e.v);
  }

  /** The stops of the scanner around one element. */
  lemma ElementStops(b: Bytes, c: nat, e: Element) returns (next: nat)
    requires ElementOk(e) && ElementAt(b, c, e) && Structural(b, c + ElementLen(e))
    ensures next == c + ElementLen(e) < |b|
    ensures SkipBlank(b, c) == c + |e.pre| < |b| && b[c + |e.pre|] != CLOSE_ARRAY
    ensures b[next] == COMMA ==> ScanElements(b, c + |e.pre|) == ScanElements(b, SkipBlank(b, next + 1))
    ensures b[next] == CLOSE_ARRAY ==> ScanElements(b, c + |e.pre|) == Some(next + 1)
    decreases e, 2
  {
    next := c + ElementLen(e);
    ElementExact(b, c, e);
    ElementsStep(b, c + |e.pre|, c + |e.pre| + Len(e.v), next);
  }

  lemma ElementsStep(b: Bytes, c: nat, end: nat, next: nat)
    requires ScanValue(b, c) == Some(end) && SkipBlank(b, end) == next < |b|
    ensures b[next] == COMMA ==> ScanElements(b, c) == ScanElements(b, SkipBlank(b, next + 1))
    ensures b[next] == CLOSE_ARRAY ==> ScanElements(b, c) == Some(next + 1)
  {
  }

  /** Where the scanner stops around one member: its name, its value, and the byte after. */
  datatype Stops = Stops(name: nat, nameEnd: nat, start: nat, end: nat, next: nat)

  predicate Scanned(b: Bytes, s: Stops) {
    && s.name < |b| && b[s.name] == QUOTE
    && ScanMember(b, s.name) == Some((s.nameEnd, s.start, s.end))
    && SkipBlank(b, s.end) == s.next < |b|
  }

  function StopsAt(c: nat, m: Member): Stops {
    var name, start := c + |m.pre|, c + NameLen(m) + |m.afterColon|;
    Stops(name, name + StringLen(m.name), start, start + Len(m.v), c + MemberLen(m))
  }

  /** The name and the colon, up to the whitespace before the value. */
  predicate NameScanned(b: Bytes, s: Stops, value: nat) {
    && s.name < |b| && b[s.name] == QUOTE
    && ScanString(b, s.name) == Some(s.nameEnd)
    && ByteAt(b, SkipBlank(b, s.nameEnd), COLON) && SkipBlank(b, s.nameEnd) + 1 == value
  }

  predicate ValueScanned(b: Bytes, s: Stops, value: nat) {
    SkipBlank(b, value) == s.start && ScanValue(b, s.start) == Some(s.end) && SkipBlank(b, s.end) == s.next < |b|
  }

  lemma BothScanned(b: Bytes, s: Stops, value: nat)
    requires NameScanned(b, s, value) && ValueScanned(b, s, value)
    ensures Scanned(b, s)
  {
  }

  lemma MembersStep(b: Bytes, s: Stops)
    requires Scanned(b, s)
    ensures StepsOver(b, s)
  {
  }

  /** A member's name and colon. */
  lemma NameExact(b: Bytes, c: nat, m: Member)
    requires MemberOk(m) && NameAt(b, c, m)
    ensures SkipBlank(b, c) == c + |m.pre| && NameScanned(b, StopsAt(c, m), c + NameLen(m))
  {
    var name := c + |m.pre|;
    var end := name + StringLen(m.name);
    BlankAt(b, c, m.pre);
    BlankExact(b, c, |m.pre|);
    StringExact(b, name, m.name);
    BlankAt(b, end, m.beforeColon);
    BlankExact(b, end, |m.beforeColon|);
  }

  lemma MemberValueExact(b: Bytes, c: nat, m: Member)
    requires MemberOk(m) && MemberAt(b, c, m) && Structural(b, c + MemberLen(m))
    ensures ValueScanned(b, StopsAt(c, m), c + NameLen(m))
    decreases m, 1
  {
    var value := c + NameLen(m);
    var start := value + |m.afterColon|;
    ValueBetween(b, value, m.afterColon, m.v, m.post);
    SpelledExact(b, start, m.v);
    ValueStops(b, StopsAt(c, m), value, start, start + Len(m.v), c + MemberLen(m));
  }

  lemma ValueStops(b: Bytes, s: Stops, value: nat, start: nat, end: nat, next: nat)
    requires s.start == start && s.end == end && s.next == next
    requires SkipBlank(b, value) == start && ScanValue(b, start) == Some(end) && SkipBlank(b, end) == next < |b|
    ensures ValueScanned(b, s, value)
  {
  }

  /** The stops of the scanner around one member. */
  lemma MemberExact(b: Bytes, c: nat, m: Member)
    requires MemberOk(m) && MemberAt(b, c, m) && Structural(b, c + MemberLen(m))
    ensures SkipBlank(b, c) == c + |m.pre| && Scanned(b, StopsAt(c, m))
    decreases m, 2
  {
    NameExact(b, c, m);
    MemberValueExact(b, c, m);
    BothScanned(b, StopsAt(c, m), c + NameLen(m));
  }

  lemma {:induction false} MembersExact(b: Bytes, c: nat, ms: Members)
    requires MembersOk(ms) && MembersAt(b, c, ms) && ByteAt(b, c + MembersLen(ms), CLOSE_OBJECT)
    ensures SkipBlank(b, c) == c + |ms.first.pre| < |b| && b[c + |ms.first.pre|] == QUOTE
    ensures ScanMembers(b, SkipBlank(b, c)) == Some(c + MembersLen(ms) + 1)
    decreases ms, 0
  {
    var s := MemberStops(b, c, ms.first);
    if ms.MoreMembers? {
      MembersExact(b, s.next + 1, ms.rest);
    }
  }

  /** What the scanner does after a member. */
  predicate StepsOver(b: Bytes, s: Stops) {
    && s.next < |b|
    && (b[s.next] == COMMA ==> ScanMembers(b, s.name) == ScanMembers(b, SkipBlank(b, s.next + 1)))
    && (b[s.next] == CLOSE_OBJECT ==> ScanMembers(b, s.name) == Some(s.next + 1))
  }

  lemma MemberStops(b: Bytes, c: nat, m: Member) returns (s: Stops)
    requires MemberOk(m) && MemberAt(b, c, m) && Structural(b, c + MemberLen(m))
    ensures StepsOver(b, s) && s.next == c + MemberLen(m)
    ensures SkipBlank(b, c) == s.name == c + |m.pre| < |b| && b[s.name] == QUOTE
    decreases m, 3
  {
    s := StopsAt(c, m);
    MemberExact(b, c, m);
    MembersStep(b, s);
  }

  lemma TextExact(b: Bytes, c: nat, j: Json)
    requires WellFormed(j) && At(b, c, Text(j)) && Delimited(b, c + |Text(j)|)
    ensures ScanValue(b, c) == Some(c + |Text(j)|)
  {
    ReadsBack(b, c, j);
    SpelledExact(b, c, j);
  }

  lemma Embedded(b: Bytes, before: Bytes, t: Bytes, after: Bytes)
    requires b == before + t + after && (after == [] || IsDelimiter(after[0]))
    ensures At(b, |before|, t) && Delimited(b, |before| + |t|)
  {
  }

  /** Scanner exactness: for every well-formed value text, wherever it stands in a buffer,
      followed by a delimiter or the end, skipValue stops exactly at its end. */
  lemma ValueExact(b: Bytes, before: Bytes, j: Json, after: Bytes)
    requires b == before + Text(j) + after
    requires WellFormed(j) && (after == [] || IsDelimiter(after[0]))
    ensures ScanValue(b, |before|) == Some(|before| + |Text(j)|)
  {
    Embedded(b, before, Text(j), after);
    TextExact(b, |before|, j);
  }
}
