/** Outbound frames of the Swift client and the round trip through the scanner
    (clients/swift/Sources/AresTransport/WSFrame.swift, encodeOutbound and extract). Strings
    are their UTF-8 bytes. */
module WsFrame {
  import opened Wrappers
  import opened JsonText
  import opened JsonScanner
  import opened JsonExtract

  // ---------------------------------------------------------------- encoding

  /** Every occurrence of the byte x replaced. */
  function Replace(s: Bytes, x: byte, with: Bytes): Bytes {
    if s == [] then [] else (if s[0] == x then with else [s[0]]) + Replace(s[1..], x, with)
  }

  function Quoted(s: Bytes): Bytes {
    [QUOTE] + (s + [QUOTE])
  }

  /** Backslashes are doubled first, quotes escaped after. */
  function Esc(s: Bytes): Bytes {
    Quoted(Replace(Replace(s, BACKSLASH, [BACKSLASH, BACKSLASH]), QUOTE, [BACKSLASH, QUOTE]))
  }

  function Digits(n: nat): (d: Bytes)
    ensures AllDigits(d) && (|d| > 1 ==> d[0] != 0x30) && (n > 0 ==> d[0] != 0x30)
  {
    if n < 10 then [0x30 + n] else Digits(n / 10) + [0x30 + n % 10]
  }

  function Decimal(n: int): Bytes {
    if n < 0 then [0x2d] + Digits(-n) else Digits(n)
  }

  /** "name":value */
  function Pair(name: Bytes, value: Bytes): Bytes {
    Quoted(name) + ([COLON] + value)
  }

  function Joined(parts: seq<Bytes>): Bytes
    requires |parts| > 0
  {
    parts[0] + if |parts| == 1 then [] else [COMMA] + Joined(parts[1..])
  }

  function Parts(kind: Bytes, sid: Bytes, n: int, payload: Option<Bytes>, lineage: Option<Bytes>): (r: seq<Bytes>)
    ensures |r| > 0
  {
    [Pair(Ascii("type"), Esc(kind)), Pair(Ascii("session_id"), Esc(sid)), Pair(Ascii("seq"), Decimal(n))]
    + (if payload.Some? then [Pair(Ascii("payload"), payload.value)] else [])
    + (if lineage.Some? then [Pair(Ascii("version"), Quoted(Ascii("2"))), Pair(Ascii("lineage"), lineage.value)] else [])
  }

  function FrameText(kind: Bytes, sid: Bytes, n: int, payload: Option<Bytes>, lineage: Option<Bytes>): Bytes {
    [OPEN_OBJECT] + (Joined(Parts(kind, sid, n, payload, lineage)) + [CLOSE_OBJECT])
  }

  /** A frame inlines the payload bytes as they are; a lineage node sets version 2. */
  method EncodeOutbound(kind: Bytes, sid: Bytes, n: int, payload: Option<Bytes>, lineage: Option<Bytes>)
    returns (frame: Bytes)
    ensures frame == FrameText(kind, sid, n, payload, lineage)
  {
    var top := [Pair(Ascii("type"), Esc(kind)), Pair(Ascii("session_id"), Esc(sid)), Pair(Ascii("seq"), Decimal(n))];
    if payload.Some? {
      top := top + [Pair(Ascii("payload"), payload.value)];
    }
    if lineage.Some? {
      top := top + [Pair(Ascii("version"), Quoted(Ascii("2")))];
      top := top + [Pair(Ascii("lineage"), lineage.value)];
    }
    assert top == Parts(kind, sid, n, payload, lineage);
    frame := [OPEN_OBJECT] + (Joined(top) + [CLOSE_OBJECT]);
  }

  // ---------------------------------------------------------------- frames are JSON objects

  function RawItems(s: Bytes): seq<Item> {
    seq(|s|, i requires 0 <= i < |s| => Raw(s[i]))
  }

  function EscItem(b: byte): Item {
    if b == QUOTE || b == BACKSLASH then Escape(b) else Raw(b)
  }

  function EscItems(s: Bytes): (items: seq<Item>)
    ensures ItemsOk(items)
  {
    if s == [] then [] else [EscItem(s[0])] + EscItems(s[1..])
  }

  lemma {:induction false} ReplaceConcat(s: Bytes, t: Bytes, x: byte, with: Bytes)
    ensures Replace(s + t, x, with) == Replace(s, x, with) + Replace(t, x, with)
    decreases |s|
  {
    if s == [] {
      assert s + t == t;
    } else {
      assert (s + t)[0] == s[0] && (s + t)[1..] == s[1..] + t;
      ReplaceConcat(s[1..], t, x, with);
    }
  }

  /** The two replacements together escape each byte on its own. */
  lemma {:induction false} EscIsItems(s: Bytes)
    ensures Replace(Replace(s, BACKSLASH, [BACKSLASH, BACKSLASH]), QUOTE, [BACKSLASH, QUOTE]) == ItemsText(EscItems(s))
    decreases |s|
  {
    if s == [] {
    } else {
      var first := if s[0] == BACKSLASH then [BACKSLASH, BACKSLASH] else [s[0]];
      var rest := Replace(s[1..], BACKSLASH, [BACKSLASH, BACKSLASH]);
      ReplaceConcat(first, rest, QUOTE, [BACKSLASH, QUOTE]);
      EscIsItems(s[1..]);
      assert EscItems(s)[1..] == EscItems(s[1..]);
      if s[0] == BACKSLASH {
        assert Replace([BACKSLASH], QUOTE, [BACKSLASH, QUOTE]) == [BACKSLASH];
        assert first[1..] == [BACKSLASH];
      }
      assert Replace(first, QUOTE, [BACKSLASH, QUOTE]) == ItemText(EscItem(s[0]));
    }
  }

  lemma {:induction false} RawText(s: Bytes)
    ensures ItemsText(RawItems(s)) == s
    decreases |s|
  {
    if s == [] {
    } else {
      assert RawItems(s)[1..] == RawItems(s[1..]);
      RawText(s[1..]);
    }
  }

  /** Bytes that stand for themselves in a JSON string. */
  predicate Plain(s: Bytes) {
    forall i :: 0 <= i < |s| ==> 0x20 <= s[i] < 0x7f && s[i] != QUOTE && s[i] != BACKSLASH
  }

  /** One field of a frame: a plain name, and a value with the whitespace given around it. */
  datatype Entry = Entry(name: Bytes, pre: Bytes, v: Json, post: Bytes)

  predicate EntryOk(e: Entry) {
    Plain(e.name) && Blank(e.pre) && WellFormed(e.v) && Blank(e.post)
  }

  predicate EntriesOk(es: seq<Entry>) {
    forall i :: 0 <= i < |es| ==> EntryOk(es[i])
  }

  function EntryText(e: Entry): Bytes {
    Pair(e.name, e.pre + (Text(e.v) + e.post))
  }

  function EntryTexts(es: seq<Entry>): (r: seq<Bytes>)
    ensures |r| == |es| && forall i :: 0 <= i < |es| ==> r[i] == EntryText(es[i])
  {
    seq(|es|, i requires 0 <= i < |es| => EntryText(es[i]))
  }

  function ToMember(e: Entry): Member {
    Member([], RawItems(e.name), [], e.pre, e.v, e.post)
  }

  function ToMembers(es: seq<Entry>): Members
    requires |es| > 0
  {
    if |es| == 1 then OneMember(ToMember(es[0])) else MoreMembers(ToMember(es[0]), ToMembers(es[1..]))
  }

  lemma EntryIsMember(e: Entry)
    requires EntryOk(e)
    ensures MemberText(ToMember(e)) == EntryText(e) && MemberOk(ToMember(e))
    ensures StringText(ToMember(e).name) == Quoted(e.name)
  {
    RawText(e.name);
    var value := e.pre + (Text(e.v) + e.post);
    assert [] + ([COLON] + value) == [COLON] + value;
    assert MemberText(ToMember(e)) == [] + (Quoted(e.name) + ([] + ([COLON] + value)));
  }

  lemma {:induction false} EntriesAreMembers(es: seq<Entry>)
    requires |es| > 0 && EntriesOk(es)
    ensures Joined(EntryTexts(es)) == MembersText(ToMembers(es)) && MembersOk(ToMembers(es))
    decreases |es|
  {
    EntryIsMember(es[0]);
    if |es| <= 1 {
    } else {
      assert EntryTexts(es)[1..] == EntryTexts(es[1..]);
      EntriesAreMembers(es[1..]);
    }
  }

  // ---------------------------------------------------------------- what a frame of fields yields

  /** All that is asked of the platform's decoder: a quoted name without escapes is itself. */
  ghost predicate DecodesPlain(decode: Bytes -> Option<Bytes>) {
    forall s | Plain(s) :: decode(Quoted(s)) == Some(s)
  }

  /** The value under the last entry of that name, null counting as absent. */
  function LastEntry(es: seq<Entry>, key: Bytes, found: Option<Bytes>): Option<Bytes> {
    if es == [] then found
    else LastEntry(es[1..], key, if es[0].name == key then NonNull(Text(es[0].v)) else found)
  }

  lemma {:induction false} DecodedFields(es: seq<Entry>, key: Bytes, decode: Bytes -> Option<Bytes>, found: Option<Bytes>)
    requires |es| > 0 && EntriesOk(es) && DecodesPlain(decode)
    ensures LastValue(Fields(ToMembers(es)), key, decode, found) == LastEntry(es, key, found)
    decreases |es|
  {
    EntryIsMember(es[0]);
    var fs := Fields(ToMembers(es));
    assert fs[0] == (Quoted(es[0].name), Text(es[0].v));
    var found' := if es[0].name == key then NonNull(Text(es[0].v)) else found;
    assert LastValue(fs, key, decode, found) == LastValue(fs[1..], key, decode, found');
    if |es| <= 1 {
    } else {
      assert fs[1..] == Fields(ToMembers(es[1..]));
      DecodedFields(es[1..], key, decode, found');
    }
  }

  lemma EntriesExtract(es: seq<Entry>, key: Bytes, decode: Bytes -> Option<Bytes>)
    requires |es| > 0 && EntriesOk(es) && DecodesPlain(decode)
    ensures ExtractSpec([OPEN_OBJECT] + (Joined(EntryTexts(es)) + [CLOSE_OBJECT]), key, decode) == LastEntry(es, key, None)
  {
    EntriesAreMembers(es);
    BareObjectExtract([OPEN_OBJECT] + (Joined(EntryTexts(es)) + [CLOSE_OBJECT]), ToMembers(es), key, decode);
    DecodedFields(es, key, decode, None);
  }

  lemma {:induction false} LastEntryConcat(es: seq<Entry>, fs: seq<Entry>, key: Bytes, found: Option<Bytes>)
    ensures LastEntry(es + fs, key, found) == LastEntry(fs, key, LastEntry(es, key, found))
    decreases |es|
  {
    if es == [] {
      assert es + fs == fs;
    } else {
      assert (es + fs)[1..] == es[1..] + fs;
      LastEntryConcat(es[1..], fs, key, if es[0].name == key then NonNull(Text(es[0].v)) else found);
    }
  }

  lemma {:induction false} NoSuchEntry(es: seq<Entry>, key: Bytes, found: Option<Bytes>)
    requires forall i :: 0 <= i < |es| ==> es[i].name != key
    ensures LastEntry(es, key, found) == found
    decreases |es|
  {
    if es == [] {
    } else {
      NoSuchEntry(es[1..], key, found);
    }
  }

  // ---------------------------------------------------------------- the round trip

  /** A payload as its caller sees it: the text of one JSON value, maybe padded. */
  datatype Payload = Payload(pre: Bytes, v: Json, post: Bytes)

  predicate PayloadOk(p: Payload) {
    Blank(p.pre) && WellFormed(p.v) && Blank(p.post)
  }

  function PayloadBytes(payload: Option<Payload>): Option<Bytes> {
    if payload.Some? then Some(payload.value.pre + (Text(payload.value.v) + payload.value.post)) else None
  }

  function LineageBytes(lineage: Option<Json>): Option<Bytes> {
    if lineage.Some? then Some(Text(lineage.value)) else None
  }

  function SeqNumber(n: int): Number {
    Number(n < 0, Digits(if n < 0 then -n else n), None, None)
  }

  function Head(kind: Bytes, sid: Bytes, n: int): seq<Entry> {
    [Entry(Ascii("type"), [], Str(EscItems(kind)), []),
     Entry(Ascii("session_id"), [], Str(EscItems(sid)), []),
     Entry(Ascii("seq"), [], Num(SeqNumber(n)), [])]
  }

  function Middle(payload: Option<Payload>): seq<Entry> {
    if payload.Some? then [Entry(Ascii("payload"), payload.value.pre, payload.value.v, payload.value.post)] else []
  }

  function Tail(lineage: Option<Json>): seq<Entry> {
    if lineage.Some? then
      [Entry(Ascii("version"), [], Str(RawItems(Ascii("2"))), []), Entry(Ascii("lineage"), [], lineage.value, [])]
    else []
  }

  lemma Unpadded(name: Bytes, v: Json)
    ensures EntryText(Entry(name, [], v, [])) == Pair(name, Text(v))
  {
    assert [] + (Text(v) + []) == Text(v);
  }

  lemma StringEntry(name: Bytes, s: Bytes)
    ensures EntryText(Entry(name, [], Str(EscItems(s)), [])) == Pair(name, Esc(s))
  {
    Unpadded(name, Str(EscItems(s)));
    EscIsItems(s);
  }

  lemma SeqEntry(name: Bytes, n: int)
    ensures EntryText(Entry(name, [], Num(SeqNumber(n)), [])) == Pair(name, Decimal(n))
  {
    Unpadded(name, Num(SeqNumber(n)));
    assert NumberText(SeqNumber(n)) == Decimal(n);
  }

  lemma HeadOk(kind: Bytes, sid: Bytes, n: int)
    ensures EntriesOk(Head(kind, sid, n))
  {
  }

  lemma ThreeTexts(a: Entry, b: Entry, c: Entry)
    ensures EntryTexts([a, b, c]) == [EntryText(a), EntryText(b), EntryText(c)]
  {
  }

  lemma HeadTexts(kind: Bytes, sid: Bytes, n: int)
    ensures EntryTexts(Head(kind, sid, n))
            == [Pair(Ascii("type"), Esc(kind)), Pair(Ascii("session_id"), Esc(sid)), Pair(Ascii("seq"), Decimal(n))]
  {
    var h := Head(kind, sid, n);
    ThreeTexts(h[0], h[1], h[2]);
    StringEntry(Ascii("type"), kind);
    StringEntry(Ascii("session_id"), sid);
    SeqEntry(Ascii("seq"), n);
  }

  lemma TailTexts(lineage: Option<Json>)
    requires lineage.Some? ==> WellFormed(lineage.value)
    ensures EntriesOk(Tail(lineage))
    ensures EntryTexts(Tail(lineage))
            == if lineage.Some?
               then [Pair(Ascii("version"), Quoted(Ascii("2"))), Pair(Ascii("lineage"), Text(lineage.value))] else []
  {
    if lineage.Some? {
      RawText(Ascii("2"));
      Unpadded(Ascii("version"), Str(RawItems(Ascii("2"))));
      Unpadded(Ascii("lineage"), lineage.value);
    }
  }

  /** A frame is its entries, joined. */
  lemma FrameEntries(kind: Bytes, sid: Bytes, n: int, payload: Option<Payload>, lineage: Option<Json>)
    requires payload.Some? ==> PayloadOk(payload.value)
    requires lineage.Some? ==> WellFormed(lineage.value)
    ensures var es := Head(kind, sid, n) + Middle(payload) + Tail(lineage);
            EntriesOk(es) && EntryTexts(es) == Parts(kind, sid, n, PayloadBytes(payload), LineageBytes(lineage))
  {
    HeadOk(kind, sid, n);
    HeadTexts(kind, sid, n);
    TailTexts(lineage);
    var es := Head(kind, sid, n) + Middle(payload) + Tail(lineage);
    assert EntryTexts(es) == EntryTexts(Head(kind, sid, n)) + EntryTexts(Middle(payload)) + EntryTexts(Tail(lineage));
  }

  lemma NoOtherPayload(kind: Bytes, sid: Bytes, n: int, lineage: Option<Json>)
    ensures forall i :: 0 <= i < 3 ==> Head(kind, sid, n)[i].name != Ascii("payload")
    ensures forall i :: 0 <= i < |Tail(lineage)| ==> Tail(lineage)[i].name != Ascii("payload")
  {
    assert Ascii("version")[0] != Ascii("payload")[0] && Ascii("lineage")[0] != Ascii("payload")[0];
  }

  /** The payload comes back byte for byte, whatever the type, the session id and the lineage
      node hold and whatever "payload" keys are nested in it; padding around it is not part
      of the value, and a null payload reads as none. */
  lemma PayloadRoundTrip(kind: Bytes, sid: Bytes, n: int, payload: Option<Payload>, lineage: Option<Json>,
                         decode: Bytes -> Option<Bytes>)
    requires payload.Some? ==> PayloadOk(payload.value)
    requires lineage.Some? ==> WellFormed(lineage.value)
    requires DecodesPlain(decode)
    ensures ExtractSpec(FrameText(kind, sid, n, PayloadBytes(payload), LineageBytes(lineage)), Ascii("payload"), decode)
            == if payload.Some? then NonNull(Text(payload.value.v)) else None
  {
    var key, head, mid, tail := Ascii("payload"), Head(kind, sid, n), Middle(payload), Tail(lineage);
    FrameEntries(kind, sid, n, payload, lineage);
    EntriesExtract(head + mid + tail, key, decode);
    NoOtherPayload(kind, sid, n, lineage);
    LastEntryConcat(head + mid, tail, key, None);
    LastEntryConcat(head, mid, key, None);
    NoSuchEntry(head, key, None);
    NoSuchEntry(tail, key, LastEntry(head + mid, key, None));
  }
}
