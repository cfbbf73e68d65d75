/** The raw top-level value scanner of the Swift client
    (clients/swift/Sources/AresTransport/WSFrame.swift): a cursor moved over a byte buffer
    by mutually recursive routines, each proved against the function that says where it stops. */
module JsonScanner {
  import opened Wrappers
  import opened JsonText

  // ---------------------------------------------------------------- where each routine stops

  function SkipBlank(b: Bytes, c: nat): (e: nat)
    ensures c <= e && (c <= |b| ==> e <= |b|)
    decreases |b| - c
  {
    if c < |b| && IsWhitespace(b[c]) then SkipBlank(b, c + 1) else c
  }

  /** The end of a string whose opening quote lies before c, if it ends. */
  function StringEnd(b: Bytes, c: nat): (e: Option<nat>)
    ensures e.Some? ==> c < e.value <= |b|
    decreases |b| - c
  {
    if c >= |b| then None
    else if b[c] == QUOTE then Some(c + 1)
    else if b[c] != BACKSLASH then StringEnd(b, c + 1)
    else if c + 1 >= |b| then None
    else StringEnd(b, if b[c + 1] == LETTER_U then c + 6 else c + 2)
  }

  function ScanString(b: Bytes, c: nat): (e: Option<nat>)
    ensures e.Some? ==> c < e.value <= |b|
  {
    if c < |b| && b[c] == QUOTE then StringEnd(b, c + 1) else None
  }

  function ScalarEnd(b: Bytes, c: nat): (e: nat)
    ensures c <= e && (c <= |b| ==> e <= |b|)
    decreases |b| - c
  {
    if c < |b| && !IsDelimiter(b[c]) then ScalarEnd(b, c + 1) else c
  }

  function ScanValue(b: Bytes, c: nat): (e: Option<nat>)
    ensures e.Some? ==> c < e.value <= |b|
    decreases |b| - c, 1
  {
    if c >= |b| then None
    else if b[c] == QUOTE then ScanString(b, c)
    else if b[c] == OPEN_OBJECT then ScanObject(b, c)
    else if b[c] == OPEN_ARRAY then ScanArray(b, c)
    else ScanScalar(b, c)
  }

  function ScanScalar(b: Bytes, c: nat): (e: Option<nat>)
    requires c <= |b|
    ensures e.Some? ==> c < e.value <= |b|
  {
    var e := ScalarEnd(b, c);
    if e > c then Some(e) else None
  }

  function ScanObject(b: Bytes, c: nat): (e: Option<nat>)
    requires c < |b|
    ensures e.Some? ==> c < e.value <= |b|
    decreases |b| - c, 0
  {
    var s := SkipBlank(b, c + 1);
    if s < |b| && b[s] == CLOSE_OBJECT then Some(s + 1) else ScanMembers(b, s)
  }

  function ScanArray(b: Bytes, c: nat): (e: Option<nat>)
    requires c < |b|
    ensures e.Some? ==> c < e.value <= |b|
    decreases |b| - c, 0
  {
    var s := SkipBlank(b, c + 1);
    if s < |b| && b[s] == CLOSE_ARRAY then Some(s + 1) else ScanElements(b, s)
  }

  /** After the opening bracket and its whitespace: elements up to the closing bracket. */
  function ScanElements(b: Bytes, c: nat): (e: Option<nat>)
    ensures e.Some? ==> c < e.value <= |b|
    decreases |b| - c, 2
  {
    var v := ScanValue(b, c);
    if v.None? then None else
    var s := SkipBlank(b, v.value);
    if s >= |b| then None
    else if b[s] == COMMA then ScanElements(b, SkipBlank(b, s + 1))
    else if b[s] == CLOSE_ARRAY then Some(s + 1)
    else None
  }

  /** After a name: the start and end of the value behind its colon. */
  function ColonValue(b: Bytes, c: nat): (r: Option<(nat, nat)>)
    ensures r.Some? ==> c < r.value.0 < r.value.1 <= |b|
    decreases |b| - c, 2
  {
    var s := SkipBlank(b, c);
    if s >= |b| || b[s] != COLON then None else
    var start := SkipBlank(b, s + 1);
    var v := ScanValue(b, start);
    if v.None? then None else Some((start, v.value))
  }

  /** The member whose name starts at c: the end of the name, the start and end of the value. */
  function ScanMember(b: Bytes, c: nat): (r: Option<(nat, nat, nat)>)
    ensures r.Some? ==> c < r.value.0 < r.value.1 < r.value.2 <= |b|
    decreases |b| - c, 2
  {
    var n := ScanString(b, c);
    if n.None? then None else
    var v := ColonValue(b, n.value);
    if v.None? then None else Some((n.value, v.value.0, v.value.1))
  }

  function ScanMembers(b: Bytes, c: nat): (e: Option<nat>)
    ensures e.Some? ==> c < e.value <= |b|
    decreases |b| - c, 3
  {
    var m := ScanMember(b, c);
    if m.None? then None else
    var s := SkipBlank(b, m.value.2);
    if s >= |b| then None
    else if b[s] == COMMA then ScanMembers(b, SkipBlank(b, s + 1))
    else if b[s] == CLOSE_OBJECT then Some(s + 1)
    else None
  }

  // ---------------------------------------------------------------- the routines

  method SkipWhitespace(b: Bytes, c: nat) returns (cursor: nat)
    ensures cursor == SkipBlank(b, c)
  {
    cursor := c;
    while cursor < |b| && IsWhitespace(b[cursor])
      invariant c <= cursor && SkipBlank(b, cursor) == SkipBlank(b, c)
    {
      cursor := cursor + 1;
    }
  }

  method Consume(x: byte, b: Bytes, c: nat) returns (ok: bool, cursor: nat)
    ensures ok <==> c < |b| && b[c] == x
    ensures cursor == if ok then c + 1 else c
  {
    if c < |b| && b[c] == x {
      return true, c + 1;
    }
    return false, c;
  }

  method SkipString(b: Bytes, c: nat) returns (ok: bool, cursor: nat)
    ensures ok == ScanString(b, c).Some? && (ok ==> cursor == ScanString(b, c).value)
  {
    ok, cursor := Consume(QUOTE, b, c);
    if !ok {
      return;
    }
    while cursor < |b|
      invariant StringEnd(b, cursor) == ScanString(b, c)
      decreases |b| - cursor
    {
      if b[cursor] == QUOTE {
        return true, cursor + 1;
      } else if b[cursor] == BACKSLASH {
        cursor := cursor + 1;
        if cursor >= |b| {
          return false, cursor;
        }
        cursor := if b[cursor] == LETTER_U then cursor + 5 else cursor + 1;
      } else {
        cursor := cursor + 1;
      }
    }
    ok := false;
  }

  method SkipValue(b: Bytes, c: nat) returns (ok: bool, cursor: nat)
    ensures ok == ScanValue(b, c).Some? && (ok ==> cursor == ScanValue(b, c).value)
    decreases |b| - c, 1
  {
    cursor := c;
    if cursor >= |b| {
      return false, cursor;
    }
    if b[cursor] == QUOTE {
      ok, cursor := SkipString(b, cursor);
    } else if b[cursor] == OPEN_OBJECT {
      ok, cursor := SkipObject(b, cursor);
    } else if b[cursor] == OPEN_ARRAY {
      ok, cursor := SkipArray(b, cursor);
    } else {
      while cursor < |b| && !IsWhitespace(b[cursor]) && b[cursor] != COMMA
            && b[cursor] != CLOSE_ARRAY && b[cursor] != CLOSE_OBJECT
        invariant c <= cursor && ScalarEnd(b, cursor) == ScalarEnd(b, c)
      {
        cursor := cursor + 1;
      }
      ok := cursor > c;
    }
  }

  method SkipObject(b: Bytes, c: nat) returns (ok: bool, cursor: nat)
    requires c < |b| && b[c] == OPEN_OBJECT
    ensures ok == ScanObject(b, c).Some? && (ok ==> cursor == ScanObject(b, c).value)
    decreases |b| - c, 0
  {
    ok, cursor := Consume(OPEN_OBJECT, b, c);
    cursor := SkipWhitespace(b, cursor);
    ok, cursor := Consume(CLOSE_OBJECT, b, cursor);
    if ok {
      return;
    }
    while true
      invariant c < cursor && ScanMembers(b, cursor) == ScanObject(b, c)
      decreases |b| - cursor
    {
      ok, cursor := SkipMember(b, cursor);
      if !ok {
        return;
      }
      cursor := SkipWhitespace(b, cursor);
      ok, cursor := Consume(COMMA, b, cursor);
      if ok {
        cursor := SkipWhitespace(b, cursor);
        continue;
      }
      ok, cursor := Consume(CLOSE_OBJECT, b, cursor);
      return;
    }
  }

  /** A name, a colon and a value, as the object loops read them. */
  method SkipMember(b: Bytes, c: nat) returns (ok: bool, cursor: nat)
    ensures ok == ScanMember(b, c).Some? && (ok ==> cursor == ScanMember(b, c).value.2)
    decreases |b| - c, 2
  {
    ok, cursor := SkipString(b, c);
    if ok {
      var start;
      ok, start, cursor := SkipColonValue(b, cursor);
    }
  }

  /** The colon after a name, and the value after that. */
  method SkipColonValue(b: Bytes, c: nat) returns (ok: bool, start: nat, cursor: nat)
    ensures ok == ColonValue(b, c).Some? && (ok ==> (start, cursor) == ColonValue(b, c).value)
    decreases |b| - c, 2
  {
    cursor := SkipWhitespace(b, c);
    start := cursor;
    ok, cursor := Consume(COLON, b, cursor);
    if ok {
      start := SkipWhitespace(b, cursor);
      ok, cursor := SkipValue(b, start);
    }
  }

  method SkipArray(b: Bytes, c: nat) returns (ok: bool, cursor: nat)
    requires c < |b| && b[c] == OPEN_ARRAY
    ensures ok == ScanArray(b, c).Some? && (ok ==> cursor == ScanArray(b, c).value)
    decreases |b| - c, 0
  {
    ok, cursor := Consume(OPEN_ARRAY, b, c);
    cursor := SkipWhitespace(b, cursor);
    ok, cursor := Consume(CLOSE_ARRAY, b, cursor);
    if ok {
      return;
    }
    while true
      invariant c < cursor && ScanElements(b, cursor) == ScanArray(b, c)
      decreases |b| - cursor
    {
      ok, cursor := SkipValue(b, cursor);
      if !ok {
        return;
      }
      cursor := SkipWhitespace(b, cursor);
      ok, cursor := Consume(COMMA, b, cursor);
      if ok {
        cursor := SkipWhitespace(b, cursor);
        continue;
      }
      ok, cursor := Consume(CLOSE_ARRAY, b, cursor);
      return;
    }
  }

  // ---------------------------------------------------------------- extraction

  function NonNull(value: Bytes): Option<Bytes> {
    if value == Ascii("null") then None else Some(value)
  }

  /** The extraction loop from position c, with the value found so far. `decode` is the
      platform's string decoder, applied to a quoted name. */
  function ExtractFrom(b: Bytes, c: nat, key: Bytes, decode: Bytes -> Option<Bytes>, found: Option<Bytes>): Option<Bytes>
    decreases |b| - c
  {
    if c >= |b| || b[c] == CLOSE_OBJECT then found else
    var n := ScanString(b, c);
    if n.None? then None else
    var name := decode(b[c..n.value]);
    if name.None? then None else
    var v := ColonValue(b, n.value);
    if v.None? then None else
    var (start, end) := v.value;
    var found' := if name.value == key then NonNull(b[start..end]) else found;
    var s := SkipBlank(b, end);
    if s < |b| && b[s] == COMMA then ExtractFrom(b, SkipBlank(b, s + 1), key, decode, found') else found'
  }

  function ExtractSpec(b: Bytes, key: Bytes, decode: Bytes -> Option<Bytes>): Option<Bytes> {
    var c := SkipBlank(b, 0);
    if c < |b| && b[c] == OPEN_OBJECT then ExtractFrom(b, SkipBlank(b, c + 1), key, decode, None) else None
  }

  method ParseString(b: Bytes, c: nat, decode: Bytes -> Option<Bytes>) returns (name: Option<Bytes>, cursor: nat)
    requires c <= |b|
    ensures name == if ScanString(b, c).None? then None else decode(b[c..ScanString(b, c).value])
    ensures name.Some? ==> ScanString(b, c) == Some(cursor)
  {
    var ok;
    ok, cursor := SkipString(b, c);
    name := if ok then decode(b[c..cursor]) else None;
  }

  /** On any bytes at all this terminates and reads only inside the buffer. */
  method Extract(key: Bytes, b: Bytes, decode: Bytes -> Option<Bytes>) returns (result: Option<Bytes>)
    ensures result == ExtractSpec(b, key, decode)
  {
    var cursor := SkipWhitespace(b, 0);
    var ok;
    ok, cursor := Consume(OPEN_OBJECT, b, cursor);
    if !ok {
      return None;
    }
    cursor := SkipWhitespace(b, cursor);
    result := None;
    ghost var goal := ExtractFrom(b, cursor, key, decode, None);
    while cursor < |b| && b[cursor] != CLOSE_OBJECT
      invariant ExtractFrom(b, cursor, key, decode, result) == goal
    {
      var name;
      name, cursor := ParseString(b, cursor, decode);
      if name.None? {
        return None;
      }
      var valueStart;
      ok, valueStart, cursor := SkipColonValue(b, cursor);
      if !ok {
        return None;
      }
      if name.value == key {
        result := NonNull(b[valueStart..cursor]);
      }
      cursor := SkipWhitespace(b, cursor);
      ok, cursor := Consume(COMMA, b, cursor);
      if !ok {
        break;
      }
      cursor := SkipWhitespace(b, cursor);
    }
  }
}
