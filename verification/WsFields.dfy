/** Every field of an outbound frame can be read back from its bytes
    (clients/swift/Sources/AresTransport/WSFrame.swift). */
module WsFields {
  import opened Wrappers
  import opened JsonText
  import opened JsonScanner
  import opened JsonExtract
  import opened WsFrame

  // ---------------------------------------------------------------- reading numbers

  /** The value of decimal digits: ten times the value so far plus the digit. */
  function ReadDigits(d: Bytes): int {
    if d == [] then 0 else 10 * ReadDigits(d[..|d| - 1]) + (d[|d| - 1] as int - 0x30)
  }

  function ReadDecimal(d: Bytes): int {
    if d != [] && d[0] == 0x2d then -ReadDigits(d[1..]) else ReadDigits(d)
  }

  lemma {:induction false} DigitsRead(n: nat)
    ensures ReadDigits(Digits(n)) == n
  {
    if n < 10 {
      var d := Digits(n);
      assert d[..|d| - 1] == [];
    } else {
      DigitsRead(n / 10);
      var front, d := Digits(n / 10), Digits(n);
      assert d[..|d| - 1] == front;
    }
  }

  /** The number written is the number given, sign included. */
  lemma DecimalReads(n: int)
    ensures ReadDecimal(Decimal(n)) == n
  {
    if n < 0 {
      DigitsRead(-n);
      assert Decimal(n)[1..] == Digits(-n);
    } else {
      DigitsRead(n);
    }
  }

  // ---------------------------------------------------------------- reading strings

  /** The bytes a quoted text stands for: a backslash gives the byte after it. */
  function Unescaped(t: Bytes): Bytes
    decreases |t|
  {
    if t == [] then []
    else if t[0] == BACKSLASH && |t| > 1 then [t[1]] + Unescaped(t[2..])
    else [t[0]] + Unescaped(t[1..])
  }

  predicate IsQuoted(t: Bytes) {
    |t| >= 2 && t[0] == QUOTE && t[|t| - 1] == QUOTE
  }

  function StringValue(t: Bytes): Bytes
    requires IsQuoted(t)
  {
    Unescaped(t[1..|t| - 1])
  }

  lemma {:induction false} EscapedReads(s: Bytes)
    ensures Unescaped(ItemsText(EscItems(s))) == s
    decreases |s|
  {
    if s == [] {
    } else {
      EscapedReads(s[1..]);
      assert EscItems(s)[1..] == EscItems(s[1..]);
      var rest := ItemsText(EscItems(s[1..]));
      var t := ItemsText(EscItems(s));
      assert t == ItemText(EscItem(s[0])) + rest;
      if s[0] == QUOTE || s[0] == BACKSLASH {
        assert t[0] == BACKSLASH && t[1] == s[0] && t[2..] == rest;
      } else {
        assert t[0] == s[0] && t[1..] == rest;
      }
    }
  }

  lemma StringReads(s: Bytes)
    ensures IsQuoted(Text(Str(EscItems(s)))) && StringValue(Text(Str(EscItems(s)))) == s
  {
    EscapedReads(s);
    var body := ItemsText(EscItems(s));
    var t := Text(Str(EscItems(s)));
    assert t == [QUOTE] + (body + [QUOTE]);
    assert t[1..|t| - 1] == body;
  }

  // ---------------------------------------------------------------- one of the fields

  predicate DistinctNames(es: seq<Entry>) {
    forall i, j :: 0 <= i < j < |es| ==> es[i].name != es[j].name
  }

  lemma FieldFound(es: seq<Entry>, i: nat)
    requires i < |es| && DistinctNames(es)
    ensures LastEntry(es, es[i].name, None) == NonNull(Text(es[i].v))
  {
    var key := es[i].name;
    var front, back := es[..i], es[i + 1..];
    assert es == front + ([es[i]] + back);
    LastEntryConcat(front, [es[i]] + back, key, None);
    LastEntryConcat([es[i]], back, key, LastEntry(front, key, None));
    assert [es[i]][1..] == [];
    NoSuchEntry(back, key, NonNull(Text(es[i].v)));
  }

  // ---------------------------------------------------------------- the fields of a frame

  function FrameFields(kind: Bytes, sid: Bytes, n: int, payload: Option<Payload>, lineage: Option<Json>): seq<Entry> {
    Head(kind, sid, n) + Middle(payload) + Tail(lineage)
  }

  lemma NamesApart()
    ensures |Ascii("type")| == 4 && |Ascii("session_id")| == 10 && |Ascii("seq")| == 3
    ensures |Ascii("payload")| == 7 && |Ascii("version")| == 7 && |Ascii("lineage")| == 7
    ensures Ascii("payload")[0] != Ascii("version")[0]
    ensures Ascii("payload")[0] != Ascii("lineage")[0]
    ensures Ascii("version")[0] != Ascii("lineage")[0]
  {
  }

  lemma FieldsDistinct(kind: Bytes, sid: Bytes, n: int, payload: Option<Payload>, lineage: Option<Json>)
    ensures DistinctNames(FrameFields(kind, sid, n, payload, lineage))
  {
    NamesApart();
  }

  /** What extraction reads under `key` in the frame. */
  function ReadField(kind: Bytes, sid: Bytes, n: int, payload: Option<Payload>, lineage: Option<Json>,
                     decode: Bytes -> Option<Bytes>, key: Bytes): Option<Bytes> {
    ExtractSpec(FrameText(kind, sid, n, PayloadBytes(payload), LineageBytes(lineage)), key, decode)
  }

  predicate FrameOk(payload: Option<Payload>, lineage: Option<Json>) {
    (payload.Some? ==> PayloadOk(payload.value)) && (lineage.Some? ==> WellFormed(lineage.value))
  }

  lemma FieldReads(kind: Bytes, sid: Bytes, n: int, payload: Option<Payload>, lineage: Option<Json>,
                   decode: Bytes -> Option<Bytes>, key: Bytes)
    requires FrameOk(payload, lineage) && DecodesPlain(decode)
    ensures ReadField(kind, sid, n, payload, lineage, decode, key)
         == LastEntry(FrameFields(kind, sid, n, payload, lineage), key, None)
  {
    FrameEntries(kind, sid, n, payload, lineage);
    EntriesExtract(FrameFields(kind, sid, n, payload, lineage), key, decode);
  }

  lemma EntryReads(kind: Bytes, sid: Bytes, n: int, payload: Option<Payload>, lineage: Option<Json>,
                   decode: Bytes -> Option<Bytes>, i: nat)
    requires FrameOk(payload, lineage) && DecodesPlain(decode)
    requires i < |FrameFields(kind, sid, n, payload, lineage)|
    ensures var e := FrameFields(kind, sid, n, payload, lineage)[i];
            ReadField(kind, sid, n, payload, lineage, decode, e.name) == NonNull(Text(e.v))
  {
    var es := FrameFields(kind, sid, n, payload, lineage);
    FieldReads(kind, sid, n, payload, lineage, decode, es[i].name);
    FieldsDistinct(kind, sid, n, payload, lineage);
    FieldFound(es, i);
  }

  // ---------------------------------------------------------------- round trips

  const TYPE: Bytes := Ascii("type")
  const SESSION_ID: Bytes := Ascii("session_id")
  const SEQ: Bytes := Ascii("seq")
  const VERSION: Bytes := Ascii("version")
  const LINEAGE: Bytes := Ascii("lineage")

  /** A quoted text that stands for s. */
  predicate Spells(t: Option<Bytes>, s: Bytes) {
    t.Some? && IsQuoted(t.value) && StringValue(t.value) == s
  }

  lemma StringFieldSpells(s: Bytes)
    ensures Spells(NonNull(Text(Str(EscItems(s)))), s)
  {
    StringReads(s);
    assert Text(Str(EscItems(s)))[0] == QUOTE;
  }

  /** The type and the session id that were given come back. */
  lemma NamesRoundTrip(kind: Bytes, sid: Bytes, n: int, payload: Option<Payload>, lineage: Option<Json>,
                       decode: Bytes -> Option<Bytes>)
    requires FrameOk(payload, lineage) && DecodesPlain(decode)
    ensures Spells(ReadField(kind, sid, n, payload, lineage, decode, TYPE), kind)
    ensures Spells(ReadField(kind, sid, n, payload, lineage, decode, SESSION_ID), sid)
  {
    HeadFields(kind, sid, n, payload, lineage);
    StringFieldReads(kind, sid, n, payload, lineage, decode, 0, TYPE, kind);
    StringFieldReads(kind, sid, n, payload, lineage, decode, 1, SESSION_ID, sid);
  }

  lemma HeadFields(kind: Bytes, sid: Bytes, n: int, payload: Option<Payload>, lineage: Option<Json>)
    ensures |FrameFields(kind, sid, n, payload, lineage)| > 2
    ensures FrameFields(kind, sid, n, payload, lineage)[0] == Entry(TYPE, [], Str(EscItems(kind)), [])
    ensures FrameFields(kind, sid, n, payload, lineage)[1] == Entry(SESSION_ID, [], Str(EscItems(sid)), [])
    ensures FrameFields(kind, sid, n, payload, lineage)[2] == Entry(SEQ, [], Num(SeqNumber(n)), [])
  {
  }

  lemma StringFieldReads(kind: Bytes, sid: Bytes, n: int, payload: Option<Payload>, lineage: Option<Json>,
                         decode: Bytes -> Option<Bytes>, i: nat, name: Bytes, s: Bytes)
    requires FrameOk(payload, lineage) && DecodesPlain(decode)
    requires i < |FrameFields(kind, sid, n, payload, lineage)|
    requires FrameFields(kind, sid, n, payload, lineage)[i] == Entry(name, [], Str(EscItems(s)), [])
    ensures Spells(ReadField(kind, sid, n, payload, lineage, decode, name), s)
  {
    EntryReads(kind, sid, n, payload, lineage, decode, i);
    StringFieldSpells(s);
  }

  lemma SeqFieldReads(n: int)
    ensures NonNull(Text(Num(SeqNumber(n)))) == Some(Decimal(n))
  {
    assert NumberText(SeqNumber(n)) == Decimal(n);
    assert Decimal(n)[0] != Ascii("null")[0];
  }

  /** The sequence number that was given comes back. */
  lemma SeqRoundTrip(kind: Bytes, sid: Bytes, n: int, payload: Option<Payload>, lineage: Option<Json>,
                     decode: Bytes -> Option<Bytes>)
    requires FrameOk(payload, lineage) && DecodesPlain(decode)
    ensures var t := ReadField(kind, sid, n, payload, lineage, decode, SEQ); t.Some? && ReadDecimal(t.value) == n
  {
    EntryReads(kind, sid, n, payload, lineage, decode, 2);
    SeqFieldReads(n);
    DecimalReads(n);
  }

  lemma VersionText()
    ensures NonNull(Text(Str(RawItems(Ascii("2"))))) == Some(Quoted(Ascii("2")))
  {
    RawText(Ascii("2"));
    assert Text(Str(RawItems(Ascii("2"))))[0] == QUOTE;
  }

  lemma NoTail(kind: Bytes, sid: Bytes, n: int, payload: Option<Payload>)
    ensures LastEntry(FrameFields(kind, sid, n, payload, None), VERSION, None) == None
    ensures LastEntry(FrameFields(kind, sid, n, payload, None), LINEAGE, None) == None
  {
    NamesApart();
    NoSuchEntry(FrameFields(kind, sid, n, payload, None), VERSION, None);
    NoSuchEntry(FrameFields(kind, sid, n, payload, None), LINEAGE, None);
  }

  /** A lineage node comes back byte for byte, with version 2; without one there is neither. */
  lemma LineageRoundTrip(kind: Bytes, sid: Bytes, n: int, payload: Option<Payload>, lineage: Option<Json>,
                         decode: Bytes -> Option<Bytes>)
    requires FrameOk(payload, lineage) && DecodesPlain(decode)
    ensures ReadField(kind, sid, n, payload, lineage, decode, VERSION)
         == if lineage.Some? then Some(Quoted(Ascii("2"))) else None
    ensures ReadField(kind, sid, n, payload, lineage, decode, LINEAGE)
         == if lineage.Some? then NonNull(Text(lineage.value)) else None
  {
    if lineage.Some? {
      var k := |FrameFields(kind, sid, n, payload, lineage)|;
      EntryReads(kind, sid, n, payload, lineage, decode, k - 2);
      EntryReads(kind, sid, n, payload, lineage, decode, k - 1);
      VersionText();
    } else {
      FieldReads(kind, sid, n, payload, lineage, decode, VERSION);
      FieldReads(kind, sid, n, payload, lineage, decode, LINEAGE);
      NoTail(kind, sid, n, payload);
    }
  }
}
