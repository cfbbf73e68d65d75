/** JSON texts as concrete syntax trees (RFC 8259, sections 2 to 7): a tree keeps every
    byte of the text it stands for, whitespace and escapes included. */
module JsonText {
  import opened Wrappers

  type Bytes = seq<byte>

  const QUOTE: byte := 0x22
  const BACKSLASH: byte := 0x5c
  const COMMA: byte := 0x2c
  const COLON: byte := 0x3a
  const OPEN_OBJECT: byte := 0x7b
  const CLOSE_OBJECT: byte := 0x7d
  const OPEN_ARRAY: byte := 0x5b
  const CLOSE_ARRAY: byte := 0x5d
  const LETTER_U: byte := 0x75

  function Code(c: char): byte
    requires c < 128 as char
  {
    c as int
  }

  function Ascii(s: string): (r: Bytes)
    requires forall i :: 0 <= i < |s| ==> s[i] < 128 as char
    ensures |r| == |s| && forall i :: 0 <= i < |s| ==> r[i] == Code(s[i])
  {
    seq(|s|, i requires 0 <= i < |s| => Code(s[i]))
  }

  predicate IsWhitespace(b: byte) {
    b == 0x20 || b == 0x09 || b == 0x0a || b == 0x0d
  }

  predicate Blank(s: Bytes) {
    forall i :: 0 <= i < |s| ==> IsWhitespace(s[i])
  }

  /** The bytes that end a number or a literal in the scanner's eyes. */
  predicate IsDelimiter(b: byte) {
    IsWhitespace(b) || b == COMMA || b == CLOSE_ARRAY || b == CLOSE_OBJECT
  }

  predicate IsDigit(b: byte) {
    0x30 <= b <= 0x39
  }

  predicate AllDigits(s: Bytes) {
    |s| > 0 && forall i :: 0 <= i < |s| ==> IsDigit(s[i])
  }

  predicate IsHex(b: byte) {
    IsDigit(b) || 0x41 <= b <= 0x46 || 0x61 <= b <= 0x66
  }

  // ---------------------------------------------------------------- trees

  /** One character of a string: a byte standing for itself, a two-byte escape, or \u and
      four hex digits. RFC 8259 also keeps control bytes out of Raw; nothing below needs that. */
  datatype Item = Raw(b: byte) | Escape(c: byte) | Unicode(hex: Bytes)

  datatype Exponent = Exponent(capital: bool, sign: Bytes, digits: Bytes)

  datatype Number = Number(negative: bool, whole: Bytes, fraction: Option<Bytes>, exponent: Option<Exponent>)

  datatype Json =
    | Null
    | True
    | False
    | Num(number: Number)
    | Str(items: seq<Item>)
    | EmptyArray(ws: Bytes)
    | Array(elements: Elements)
    | EmptyObject(ws: Bytes)
    | Object(members: Members)

  datatype Element = Element(pre: Bytes, v: Json, post: Bytes)

  datatype Elements =
    | OneElement(first: Element)
    | MoreElements(first: Element, rest: Elements)

  datatype Member = Member(pre: Bytes, name: seq<Item>, beforeColon: Bytes, afterColon: Bytes, v: Json, post: Bytes)

  datatype Members =
    | OneMember(first: Member)
    | MoreMembers(first: Member, rest: Members)

  // ---------------------------------------------------------------- well-formedness

  predicate ItemOk(i: Item) {
    match i
    case Raw(b) => b != QUOTE && b != BACKSLASH
    case Escape(c) => c in [QUOTE, BACKSLASH, 0x2f, 0x62, 0x66, 0x6e, 0x72, 0x74]
    case Unicode(hex) => |hex| == 4 && forall k :: 0 <= k < 4 ==> IsHex(hex[k])
  }

  predicate ItemsOk(items: seq<Item>) {
    forall i :: 0 <= i < |items| ==> ItemOk(items[i])
  }

  predicate NumberOk(n: Number) {
    && AllDigits(n.whole)
    && (|n.whole| > 1 ==> n.whole[0] != 0x30)
    && (n.fraction.Some? ==> AllDigits(n.fraction.value))
    && (n.exponent.Some? ==>
          n.exponent.value.sign in [[], [0x2b], [0x2d]] && AllDigits(n.exponent.value.digits))
  }

  predicate WellFormed(j: Json) {
    match j
    case Num(n) => NumberOk(n)
    case Str(items) => ItemsOk(items)
    case EmptyArray(ws) => Blank(ws)
    case Array(es) => ElementsOk(es)
    case EmptyObject(ws) => Blank(ws)
    case Object(ms) => MembersOk(ms)
    case _ => true
  }

  predicate ElementOk(e: Element) {
    Blank(e.pre) && WellFormed(e.v) && Blank(e.post)
  }

  predicate ElementsOk(es: Elements) {
    ElementOk(es.first) && (es.MoreElements? ==> ElementsOk(es.rest))
  }

  predicate MemberOk(m: Member) {
    && Blank(m.pre) && ItemsOk(m.name) && Blank(m.beforeColon) && Blank(m.afterColon)
    && WellFormed(m.v) && Blank(m.post)
  }

  predicate MembersOk(ms: Members) {
    MemberOk(ms.first) && (ms.MoreMembers? ==> MembersOk(ms.rest))
  }

  // ---------------------------------------------------------------- texts

  function ItemText(i: Item): Bytes {
    match i
    case Raw(b) => [b]
    case Escape(c) => [BACKSLASH, c]
    case Unicode(hex) => [BACKSLASH, LETTER_U] + hex
  }

  function ItemsText(items: seq<Item>): Bytes {
    if items == [] then [] else ItemText(items[0]) + ItemsText(items[1..])
  }

  function StringText(items: seq<Item>): Bytes {
    [QUOTE] + (ItemsText(items) + [QUOTE])
  }

  function NumberText(n: Number): Bytes {
    (if n.negative then [0x2d] else []) + n.whole
    + (if n.fraction.Some? then [0x2e] + n.fraction.value else [])
    + (if n.exponent.Some? then
         var e := n.exponent.value;
         [if e.capital then 0x45 else 0x65] + e.sign + e.digits
       else [])
  }

  function Text(j: Json): Bytes {
    match j
    case Null => Ascii("null")
    case True => Ascii("true")
    case False => Ascii("false")
    case Num(n) => NumberText(n)
    case Str(items) => StringText(items)
    case EmptyArray(ws) => [OPEN_ARRAY] + (ws + [CLOSE_ARRAY])
    case Array(es) => [OPEN_ARRAY] + (ElementsText(es) + [CLOSE_ARRAY])
    case EmptyObject(ws) => [OPEN_OBJECT] + (ws + [CLOSE_OBJECT])
    case Object(ms) => [OPEN_OBJECT] + (MembersText(ms) + [CLOSE_OBJECT])
  }

  function ElementText(e: Element): Bytes {
    e.pre + (Text(e.v) + e.post)
  }

  function ElementsText(es: Elements): Bytes {
    ElementText(es.first) + (if es.OneElement? then [] else [COMMA] + ElementsText(es.rest))
  }

  function MemberText(m: Member): Bytes {
    m.pre + (StringText(m.name) + (m.beforeColon + ([COLON] + (m.afterColon + (Text(m.v) + m.post)))))
  }

  function MembersText(ms: Members): Bytes {
    MemberText(ms.first) + (if ms.OneMember? then [] else [COMMA] + MembersText(ms.rest))
  }

  // ---------------------------------------------------------------- texts inside a buffer

  /** The text t stands at position c of the buffer b. */
  predicate At(b: Bytes, c: nat, t: Bytes) {
    c + |t| <= |b| && forall i :: 0 <= i < |t| ==> b[c + i] == t[i]
  }

  predicate ByteAt(b: Bytes, c: nat, x: byte) {
    c < |b| && b[c] == x
  }

  lemma AtSplit(b: Bytes, c: nat, s: Bytes, t: Bytes)
    requires At(b, c, s + t)
    ensures At(b, c, s) && At(b, c + |s|, t)
  {
    forall i | 0 <= i < |s| ensures b[c + i] == s[i] {
      assert (s + t)[i] == s[i];
    }
    forall i | 0 <= i < |t| ensures b[c + |s| + i] == t[i] {
      assert b[c + (|s| + i)] == (s + t)[|s| + i];
    }
  }

  lemma AtSlice(b: Bytes, c: nat, t: Bytes)
    requires At(b, c, t)
    ensures b[c..c + |t|] == t
  {
  }

  // ---------------------------------------------------------------- reading a tree off a buffer

  function ItemLen(i: Item): nat {
    match i
    case Raw(_) => 1
    case Escape(_) => 2
    case Unicode(hex) => 2 + |hex|
  }

  function ItemsLen(items: seq<Item>): nat {
    if items == [] then 0 else ItemLen(items[0]) + ItemsLen(items[1..])
  }

  function StringLen(items: seq<Item>): nat {
    ItemsLen(items) + 2
  }

  function Len(j: Json): nat {
    match j
    case Null => 4
    case True => 4
    case False => 5
    case Num(n) => |NumberText(n)|
    case Str(items) => StringLen(items)
    case EmptyArray(ws) => |ws| + 2
    case Array(es) => ElementsLen(es) + 2
    case EmptyObject(ws) => |ws| + 2
    case Object(ms) => MembersLen(ms) + 2
  }

  function ElementLen(e: Element): nat {
    |e.pre| + Len(e.v) + |e.post|
  }

  function ElementsLen(es: Elements): nat {
    ElementLen(es.first) + (if es.OneElement? then 0 else 1 + ElementsLen(es.rest))
  }

  function NameLen(m: Member): nat {
    |m.pre| + StringLen(m.name) + |m.beforeColon| + 1
  }

  function MemberLen(m: Member): nat {
    NameLen(m) + |m.afterColon| + Len(m.v) + |m.post|
  }

  function MembersLen(ms: Members): nat {
    MemberLen(ms.first) + (if ms.OneMember? then 0 else 1 + MembersLen(ms.rest))
  }

  predicate ItemAt(b: Bytes, c: nat, i: Item) {
    match i
    case Raw(x) => ByteAt(b, c, x)
    case Escape(x) => ByteAt(b, c, BACKSLASH) && ByteAt(b, c + 1, x)
    case Unicode(hex) => ByteAt(b, c, BACKSLASH) && ByteAt(b, c + 1, LETTER_U) && At(b, c + 2, hex)
  }

  predicate ItemsAt(b: Bytes, c: nat, items: seq<Item>)
    decreases |items|
  {
    items != [] ==> ItemAt(b, c, items[0]) && ItemsAt(b, c + ItemLen(items[0]), items[1..])
  }

  predicate StringAt(b: Bytes, c: nat, items: seq<Item>) {
    ByteAt(b, c, QUOTE) && ItemsAt(b, c + 1, items) && ByteAt(b, c + 1 + ItemsLen(items), QUOTE)
  }

  /** The tree j can be read off the buffer at position c. */
  predicate Spelled(b: Bytes, c: nat, j: Json)
    decreases j
  {
    match j
    case Str(items) => StringAt(b, c, items)
    case EmptyArray(ws) => ByteAt(b, c, OPEN_ARRAY) && At(b, c + 1, ws) && ByteAt(b, c + 1 + |ws|, CLOSE_ARRAY)
    case EmptyObject(ws) => ByteAt(b, c, OPEN_OBJECT) && At(b, c + 1, ws) && ByteAt(b, c + 1 + |ws|, CLOSE_OBJECT)
    case Array(es) =>
      ByteAt(b, c, OPEN_ARRAY) && ElementsAt(b, c + 1, es) && ByteAt(b, c + 1 + ElementsLen(es), CLOSE_ARRAY)
    case Object(ms) =>
      ByteAt(b, c, OPEN_OBJECT) && MembersAt(b, c + 1, ms) && ByteAt(b, c + 1 + MembersLen(ms), CLOSE_OBJECT)
    case _ => At(b, c, Text(j))
  }

  predicate ElementAt(b: Bytes, c: nat, e: Element)
    decreases e
  {
    At(b, c, e.pre) && Spelled(b, c + |e.pre|, e.v) && At(b, c + |e.pre| + Len(e.v), e.post)
  }

  predicate ElementsAt(b: Bytes, c: nat, es: Elements)
    decreases es
  {
    var next := c + ElementLen(es.first);
    ElementAt(b, c, es.first) && (es.MoreElements? ==> ByteAt(b, next, COMMA) && ElementsAt(b, next + 1, es.rest))
  }

  predicate NameAt(b: Bytes, c: nat, m: Member) {
    var name := c + |m.pre|;
    var end := name + StringLen(m.name);
    At(b, c, m.pre) && StringAt(b, name, m.name) && At(b, end, m.beforeColon) && ByteAt(b, end + |m.beforeColon|, COLON)
  }

  predicate MemberAt(b: Bytes, c: nat, m: Member)
    decreases m
  {
    var value := c + NameLen(m);
    var start := value + |m.afterColon|;
    && NameAt(b, c, m)
    && At(b, value, m.afterColon)
    && Spelled(b, start, m.v)
    && At(b, start + Len(m.v), m.post)
  }

  predicate MembersAt(b: Bytes, c: nat, ms: Members)
    decreases ms
  {
    var next := c + MemberLen(ms.first);
    MemberAt(b, c, ms.first) && (ms.MoreMembers? ==> ByteAt(b, next, COMMA) && MembersAt(b, next + 1, ms.rest))
  }

  // ---------------------------------------------------------------- texts are read back

  lemma {:induction false} ItemsReadBack(b: Bytes, c: nat, items: seq<Item>)
    requires At(b, c, ItemsText(items))
    ensures ItemsAt(b, c, items) && |ItemsText(items)| == ItemsLen(items)
    decreases |items|
  {
    if items == [] {
    } else {
      AtSplit(b, c, ItemText(items[0]), ItemsText(items[1..]));
      ItemReadsBack(b, c, items[0]);
      ItemsReadBack(b, c + ItemLen(items[0]), items[1..]);
    }
  }

  lemma ItemReadsBack(b: Bytes, c: nat, i: Item)
    requires At(b, c, ItemText(i))
    ensures ItemAt(b, c, i) && |ItemText(i)| == ItemLen(i)
  {
    match i
    case Raw(x) => assert b[c + 0] == ItemText(i)[0];
    case Escape(x) =>
      assert b[c + 0] == ItemText(i)[0];
      assert b[c + 1] == ItemText(i)[1];
    case Unicode(hex) =>
      assert b[c + 0] == ItemText(i)[0];
      assert b[c + 1] == ItemText(i)[1];
      AtSplit(b, c, [BACKSLASH, LETTER_U], hex);
  }

  lemma StringReadsBack(b: Bytes, c: nat, items: seq<Item>)
    requires At(b, c, StringText(items))
    ensures StringAt(b, c, items) && |StringText(items)| == StringLen(items)
  {
    Bracketed(b, c, QUOTE, ItemsText(items), QUOTE);
    ItemsReadBack(b, c + 1, items);
  }

  lemma Bracketed(b: Bytes, c: nat, open: byte, t: Bytes, close: byte)
    requires At(b, c, [open] + (t + [close]))
    ensures ByteAt(b, c, open) && At(b, c + 1, t) && ByteAt(b, c + 1 + |t|, close)
  {
    AtSplit(b, c, [open], t + [close]);
    AtSplit(b, c + 1, t, [close]);
    assert b[c + 0] == [open][0];
    assert b[c + 1 + |t| + 0] == [close][0];
  }

  /** Wherever a tree's text stands, the tree can be read off. */
  lemma {:induction false} ReadsBack(b: Bytes, c: nat, j: Json)
    requires At(b, c, Text(j))
    ensures Spelled(b, c, j) && |Text(j)| == Len(j)
    decreases j, 0
  {
    match j
    case Str(items) => StringReadsBack(b, c, items);
    case EmptyArray(ws) => Bracketed(b, c, OPEN_ARRAY, ws, CLOSE_ARRAY);
    case EmptyObject(ws) => Bracketed(b, c, OPEN_OBJECT, ws, CLOSE_OBJECT);
    case Array(es) =>
      Bracketed(b, c, OPEN_ARRAY, ElementsText(es), CLOSE_ARRAY);
      ElementsReadBack(b, c + 1, es);
    case Object(ms) =>
      Bracketed(b, c, OPEN_OBJECT, MembersText(ms), CLOSE_OBJECT);
      MembersReadBack(b, c + 1, ms);
    case _ =>
  }

  lemma {:induction false} ElementReadsBack(b: Bytes, c: nat, e: Element)
    requires At(b, c, ElementText(e))
    ensures ElementAt(b, c, e) && |ElementText(e)| == ElementLen(e)
    decreases e, 0
  {
    AtSplit(b, c, e.pre, Text(e.v) + e.post);
    AtSplit(b, c + |e.pre|, Text(e.v), e.post);
    ReadsBack(b, c + |e.pre|, e.v);
  }

  lemma {:induction false} ElementsReadBack(b: Bytes, c: nat, es: Elements)
    requires At(b, c, ElementsText(es))
    ensures ElementsAt(b, c, es) && |ElementsText(es)| == ElementsLen(es)
    decreases es, 0
  {
    var rest := if es.OneElement? then [] else [COMMA] + ElementsText(es.rest);
    AtSplit(b, c, ElementText(es.first), rest);
    ElementReadsBack(b, c, es.first);
    if es.MoreElements? {
      var comma := c + ElementLen(es.first);
      AtSplit(b, comma, [COMMA], ElementsText(es.rest));
      assert b[comma + 0] == [COMMA][0];
      ElementsReadBack(b, comma + 1, es.rest);
    }
  }

  lemma {:induction false} MemberReadsBack(b: Bytes, c: nat, m: Member)
    requires At(b, c, MemberText(m))
    ensures MemberAt(b, c, m) && |MemberText(m)| == MemberLen(m)
    decreases m, 0
  {
    var value := m.afterColon + (Text(m.v) + m.post);
    var name := c + |m.pre|;
    AtSplit(b, c, m.pre, StringText(m.name) + (m.beforeColon + ([COLON] + value)));
    AtSplit(b, name, StringText(m.name), m.beforeColon + ([COLON] + value));
    StringReadsBack(b, name, m.name);
    var end := name + StringLen(m.name);
    AtSplit(b, end, m.beforeColon, [COLON] + value);
    var colon := end + |m.beforeColon|;
    AtSplit(b, colon, [COLON], value);
    assert b[colon + 0] == [COLON][0];
    AtSplit(b, colon + 1, m.afterColon, Text(m.v) + m.post);
    var start := colon + 1 + |m.afterColon|;
    AtSplit(b, start, Text(m.v), m.post);
    ReadsBack(b, start, m.v);
  }

  lemma {:induction false} MembersReadBack(b: Bytes, c: nat, ms: Members)
    requires At(b, c, MembersText(ms))
    ensures MembersAt(b, c, ms) && |MembersText(ms)| == MembersLen(ms)
    decreases ms, 0
  {
    var rest := if ms.OneMember? then [] else [COMMA] + MembersText(ms.rest);
    AtSplit(b, c, MemberText(ms.first), rest);
    MemberReadsBack(b, c, ms.first);
    if ms.MoreMembers? {
      var comma := c + MemberLen(ms.first);
      AtSplit(b, comma, [COMMA], MembersText(ms.rest));
      assert b[comma + 0] == [COMMA][0];
      MembersReadBack(b, comma + 1, ms.rest);
    }
  }

  // ---------------------------------------------------------------- and only those texts

  lemma AtJoin(b: Bytes, c: nat, s: Bytes, t: Bytes)
    requires At(b, c, s) && At(b, c + |s|, t)
    ensures At(b, c, s + t)
  {
    forall i | 0 <= i < |s + t| ensures b[c + i] == (s + t)[i] {
      if i >= |s| {
        assert b[c + |s| + (i - |s|)] == t[i - |s|];
      }
    }
  }

  lemma JoinBracketed(b: Bytes, c: nat, open: byte, t: Bytes, close: byte)
    requires ByteAt(b, c, open) && At(b, c + 1, t) && ByteAt(b, c + 1 + |t|, close)
    ensures At(b, c, [open] + (t + [close]))
  {
    AtJoin(b, c + 1, t, [close]);
    AtJoin(b, c, [open], t + [close]);
  }

  lemma ItemSpells(b: Bytes, c: nat, i: Item)
    requires ItemAt(b, c, i)
    ensures At(b, c, ItemText(i)) && |ItemText(i)| == ItemLen(i)
  {
    if i.Unicode? {
      AtJoin(b, c, [BACKSLASH, LETTER_U], i.hex);
    }
  }

  lemma {:induction false} ItemsSpell(b: Bytes, c: nat, items: seq<Item>)
    requires ItemsAt(b, c, items) && c + ItemsLen(items) <= |b|
    ensures At(b, c, ItemsText(items)) && |ItemsText(items)| == ItemsLen(items)
    decreases |items|
  {
    if items == [] {
    } else {
      ItemSpells(b, c, items[0]);
      ItemsSpell(b, c + ItemLen(items[0]), items[1..]);
      AtJoin(b, c, ItemText(items[0]), ItemsText(items[1..]));
    }
  }

  lemma StringSpells(b: Bytes, c: nat, items: seq<Item>)
    requires StringAt(b, c, items)
    ensures At(b, c, StringText(items)) && |StringText(items)| == StringLen(items)
  {
    ItemsSpell(b, c + 1, items);
    JoinBracketed(b, c, QUOTE, ItemsText(items), QUOTE);
  }

  /** Whatever tree is read off a buffer, its text is what stands there. */
  lemma {:induction false} Spells(b: Bytes, c: nat, j: Json)
    requires Spelled(b, c, j)
    ensures At(b, c, Text(j)) && |Text(j)| == Len(j)
    decreases j, 0
  {
    match j
    case Str(items) => StringSpells(b, c, items);
    case EmptyArray(ws) => JoinBracketed(b, c, OPEN_ARRAY, ws, CLOSE_ARRAY);
    case EmptyObject(ws) => JoinBracketed(b, c, OPEN_OBJECT, ws, CLOSE_OBJECT);
    case Array(es) =>
      ElementsSpell(b, c + 1, es);
      JoinBracketed(b, c, OPEN_ARRAY, ElementsText(es), CLOSE_ARRAY);
    case Object(ms) =>
      MembersSpell(b, c + 1, ms);
      JoinBracketed(b, c, OPEN_OBJECT, MembersText(ms), CLOSE_OBJECT);
    case _ =>
  }

  lemma {:induction false} ElementsSpell(b: Bytes, c: nat, es: Elements)
    requires ElementsAt(b, c, es)
    ensures At(b, c, ElementsText(es)) && |ElementsText(es)| == ElementsLen(es)
    decreases es, 0
  {
    var e := es.first;
    Spells(b, c + |e.pre|, e.v);
    AtJoin(b, c + |e.pre|, Text(e.v), e.post);
    AtJoin(b, c, e.pre, Text(e.v) + e.post);
    if es.MoreElements? {
      var next := c + ElementLen(e);
      ElementsSpell(b, next + 1, es.rest);
      AtJoin(b, next, [COMMA], ElementsText(es.rest));
      AtJoin(b, c, ElementText(e), [COMMA] + ElementsText(es.rest));
    } else {
      assert ElementText(e) + [] == ElementText(e);
    }
  }

  /** Seven adjacent pieces, as a member has them. */
  lemma JoinMember(b: Bytes, c: nat, pre: Bytes, name: Bytes, gap: Bytes, after: Bytes, value: Bytes, post: Bytes)
    requires At(b, c, pre) && At(b, c + |pre|, name) && At(b, c + |pre| + |name|, gap)
    requires ByteAt(b, c + |pre| + |name| + |gap|, COLON)
    requires var v := c + |pre| + |name| + |gap| + 1;
             At(b, v, after) && At(b, v + |after|, value) && At(b, v + |after| + |value|, post)
    ensures var t := pre + (name + (gap + ([COLON] + (after + (value + post)))));
            At(b, c, t) && |t| == |pre| + |name| + |gap| + 1 + |after| + |value| + |post|
  {
    var colon := c + |pre| + |name| + |gap|;
    AtJoin(b, colon + 1 + |after|, value, post);
    AtJoin(b, colon + 1, after, value + post);
    AtJoin(b, colon, [COLON], after + (value + post));
    AtJoin(b, colon - |gap|, gap, [COLON] + (after + (value + post)));
    AtJoin(b, c + |pre|, name, gap + ([COLON] + (after + (value + post))));
    AtJoin(b, c, pre, name + (gap + ([COLON] + (after + (value + post)))));
  }

  lemma MemberPieces(b: Bytes, c: nat, m: Member)
    requires MemberAt(b, c, m)
    ensures At(b, c + |m.pre|, StringText(m.name)) && |StringText(m.name)| == StringLen(m.name)
    ensures At(b, c + NameLen(m) + |m.afterColon|, Text(m.v)) && |Text(m.v)| == Len(m.v)
    decreases m, 0
  {
    StringSpells(b, c + |m.pre|, m.name);
    Spells(b, c + NameLen(m) + |m.afterColon|, m.v);
  }

  lemma MemberSpells(b: Bytes, c: nat, m: Member)
    requires MemberAt(b, c, m)
    ensures At(b, c, MemberText(m)) && |MemberText(m)| == MemberLen(m)
    decreases m, 1
  {
    MemberPieces(b, c, m);
    JoinNamed(b, c, m, StringText(m.name), Text(m.v));
  }

  lemma JoinNamed(b: Bytes, c: nat, m: Member, name: Bytes, value: Bytes)
    requires MemberAt(b, c, m)
    requires At(b, c + |m.pre|, name) && |name| == StringLen(m.name)
    requires At(b, c + NameLen(m) + |m.afterColon|, value) && |value| == Len(m.v)
    ensures var t := m.pre + (name + (m.beforeColon + ([COLON] + (m.afterColon + (value + m.post)))));
            At(b, c, t) && |t| == MemberLen(m)
  {
    JoinMember(b, c, m.pre, name, m.beforeColon, m.afterColon, value, m.post);
  }

  lemma {:induction false} MembersSpell(b: Bytes, c: nat, ms: Members)
    requires MembersAt(b, c, ms)
    ensures At(b, c, MembersText(ms)) && |MembersText(ms)| == MembersLen(ms)
    decreases ms, 0
  {
    MemberSpells(b, c, ms.first);
    if ms.MoreMembers? {
      MembersSpell(b, c + MemberLen(ms.first) + 1, ms.rest);
      JoinComma(b, c, MemberText(ms.first), MembersText(ms.rest));
    } else {
      assert MemberText(ms.first) + [] == MemberText(ms.first);
    }
  }

  lemma JoinComma(b: Bytes, c: nat, s: Bytes, t: Bytes)
    requires At(b, c, s) && ByteAt(b, c + |s|, COMMA) && At(b, c + |s| + 1, t)
    ensures At(b, c, s + ([COMMA] + t)) && |s + ([COMMA] + t)| == |s| + 1 + |t|
  {
    AtJoin(b, c + |s|, [COMMA], t);
    AtJoin(b, c, s, [COMMA] + t);
  }
}
