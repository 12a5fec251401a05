/**
 Which texts cannot be JSON: a scan that follows only the quotes. It shows that a written value glued behind the letter
 S is never read, whatever comes before.
 */
module JsonScan {
  import opened Base
  import opened Json
  import opened JsonText

  /** A letter that no JSON token holds outside a string. */
  const LETTER_S: nat := 83

  /** Whether a text ends inside a string; nothing if it holds a backslash or an S outside one, or ends in an escape. */
  function Scan(t: Text, inside: bool): Option<bool>
  {
    if t == [] then Some(inside)
    else if t[0] == QUOTE then Scan(t[1..], !inside)
    else if inside then
      if t[0] != BACKSLASH then Scan(t[1..], true)
      else if |t| < 2 then None else Scan(t[2..], true)
    else if t[0] == BACKSLASH || t[0] == LETTER_S then None
    else Scan(t[1..], false)
  }

  /** Neither a quote nor a backslash; outside strings no S either. */
  predicate Passes(c: nat, inside: bool)
  {
    c != QUOTE && c != BACKSLASH && (inside || c != LETTER_S)
  }

  lemma {:induction false} ScanPast(s: Text, n: nat, inside: bool)
    requires n <= |s| && forall i | 0 <= i < n :: Passes(s[i], inside)
    ensures Scan(s, inside) == Scan(s[n..], inside)
  {
    if n == 0 {
      assert s[0..] == s;
    } else {
      ScanPast(s[1..], n - 1, inside);
      assert s[1..][n - 1..] == s[n..];
    }
  }

  // ---------- what can be read is balanced ----------

  lemma {:induction false} ScanSkip(s: Text)
    ensures Scan(Skip(s), false) == Scan(s, false)
  {
    if s != [] && White(s[0]) {
      ScanSkip(s[1..]);
    }
  }

  lemma ScanChar(s: Text)
    requires s != [] && s[0] != QUOTE && ReadChar(s).Got?
    ensures Scan(s, true) == Scan(ReadChar(s).rest, true)
  {
    if s[0] == BACKSLASH && SimpleEscape(s[1]).None? {
      ScanHex(s);
      if ReadChar(s).rest != s[6..] {
        ScanHex(s[6..]);
        assert s[6..][6..] == s[12..];
      }
    }
  }

  lemma ScanHex(s: Text)
    requires |s| >= 6 && s[0] == BACKSLASH && ReadHex(s[2..]).Some?
    ensures Scan(s, true) == Scan(s[6..], true)
  {
    var t := s[2..];
    assert t[..4] == [t[0], t[1], t[2], t[3]];
    ScanPast(t, 4, true);
    assert t[4..] == s[6..];
  }

  lemma {:induction false} ScanChars(s: Text)
    requires ReadChars(s).Got?
    ensures Scan(s, true) == Scan(ReadChars(s).rest, false)
    decreases |s|
  {
    if s[0] != QUOTE {
      ScanChar(s);
      ScanChars(ReadChar(s).rest);
    }
  }

  lemma ScanLiteral(s: Text, w: Text)
    requires Starts(s, w) && forall i | 0 <= i < |w| :: Passes(w[i], false)
    ensures Scan(s, false) == Scan(s[|w|..], false)
  {
    forall i | 0 <= i < |w| ensures Passes(s[i], false) {
      assert s[i] == s[..|w|][i] == w[i];
    }
    ScanPast(s, |w|, false);
  }

  lemma ScanNumber(s: Text)
    requires NumberLen(s).Some?
    ensures Scan(s, false) == Scan(s[NumberLen(s).value.0..], false)
  {
    forall i | 0 <= i < NumberLen(s).value.0 ensures Passes(s[i], false) {
      NumberChars(s, i);
    }
    ScanPast(s, NumberLen(s).value.0, false);
  }

  lemma ScanScalar(s: Text)
    requires ParseScalar(s).Got?
    ensures Scan(s, false) == Scan(ParseScalar(s).rest, false)
  {
    if Starts(s, NULL) {
      ScanLiteral(s, NULL);
    } else if Starts(s, TRUE) {
      ScanLiteral(s, TRUE);
    } else if Starts(s, FALSE) {
      ScanLiteral(s, FALSE);
    } else if Starts(s, NAN) {
      ScanLiteral(s, NAN);
    } else if Starts(s, INFINITY) {
      ScanLiteral(s, INFINITY);
    } else if Starts(s, [MINUS] + INFINITY) {
      ScanLiteral(s, [MINUS] + INFINITY);
    } else {
      ScanNumber(s);
    }
  }

  /** Reading a value leaves the scan where it was: outside any string. */
  lemma {:induction false} ScanValue(s: Text)
    requires ParseValue(s).Got?
    ensures Scan(s, false) == Scan(ParseValue(s).rest, false)
    decreases |s|, 0
  {
    if s[0] == QUOTE {
      ScanChars(s[1..]);
    } else if s[0] == OPEN_LIST || s[0] == OPEN_DICT {
      var r := Skip(s[1..]);
      ScanSkip(s[1..]);
      if s[0] == OPEN_LIST && r[0] != CLOSE_LIST {
        ScanItems(r);
      } else if s[0] == OPEN_DICT && r[0] != CLOSE_DICT {
        ScanMembers(r);
      }
    } else {
      ScanScalar(s);
    }
  }

  lemma {:induction false} ScanItems(s: Text)
    requires ReadItems(s).Got?
    ensures Scan(s, false) == Scan(ReadItems(s).rest, false)
    decreases |s|, 1
  {
    ScanValue(s);
    var after := ParseValue(s).rest;
    ScanSkip(after);
    var r := Skip(after);
    if r[0] == COMMA {
      ScanSkip(r[1..]);
      ScanItems(Skip(r[1..]));
    }
  }

  lemma {:induction false} ScanMember(s: Text)
    requires ReadMember(s).Got?
    ensures Scan(s, false) == Scan(ReadMember(s).rest, false)
    decreases |s|, 1
  {
    ScanChars(s[1..]);
    var after := ReadChars(s[1..]).rest;
    ScanSkip(after);
    var r := Skip(after);
    ScanSkip(r[1..]);
    ScanValue(Skip(r[1..]));
  }

  lemma {:induction false} ScanMembers(s: Text)
    requires ReadMembers(s).Got?
    ensures Scan(s, false) == Scan(ReadMembers(s).rest, false)
    decreases |s|, 2
  {
    ScanMember(s);
    var after := ReadMember(s).rest;
    ScanSkip(after);
    var r := Skip(after);
    if r[0] == COMMA {
      ScanSkip(r[1..]);
      ScanMembers(Skip(r[1..]));
    }
  }

  /** A text that can be read ends outside every string, and never leaves the alphabet outside one. */
  lemma ReadableIsBalanced(t: Text)
    requires Loads(t).Some?
    ensures Scan(t, false) == Some(false)
  {
    ScanSkip(t);
    ScanValue(Skip(t));
    ScanSkip(ParseValue(Skip(t)).rest);
  }

  // ---------- a written value, read from inside a string ----------

  /** The scan of a, begun inside a string, is stuck, or comes to b inside a string again. */
  predicate StaysInside(a: Text, b: Text)
  {
    Scan(a, true) == None || Scan(a, true) == Scan(b, true)
  }

  predicate StaysOutside(a: Text, b: Text)
  {
    Scan(a, false) == None || Scan(a, false) == Scan(b, false)
  }

  lemma EscapeOutside(c: nat, rest: Text)
    requires c < 0x110000
    ensures StaysOutside(Escape(c) + rest, rest)
  {
    var t := Escape(c) + rest;
    if c < 0x10000 {
      EscapeForms(c);
      assert t[0] == Escape(c)[0];
      assert t[1..] == Escape(c)[1..] + rest;
      if Short(c) && |Escape(c)| == 1 {
        assert t[1..] == rest;
      }
    } else {
      AstralParts(c);
      assert t[0] == BACKSLASH;
    }
  }

  lemma {:induction false} EscapedOutside(s: Text, rest: Text)
    requires Characters(s)
    ensures StaysOutside(EscapeAll(s) + rest, rest)
    decreases |s|
  {
    if s == [] {
      assert EscapeAll(s) + rest == rest;
    } else {
      var t := EscapeAll(s[1..]) + rest;
      assert EscapeAll(s) + rest == Escape(s[0]) + t;
      EscapeOutside(s[0], t);
      EscapedOutside(s[1..], rest);
    }
  }

  /** Seen from inside a string, a written string opens where it closes: its contents lie outside. */
  lemma QuotedInside(s: Text, rest: Text)
    requires Characters(s)
    ensures StaysInside(Quoted(s) + rest, rest)
  {
    var t := Quoted(s) + rest;
    assert t[1..] == EscapeAll(s) + ([QUOTE] + rest);
    EscapedOutside(s, [QUOTE] + rest);
    assert ([QUOTE] + rest)[1..] == rest;
  }

  lemma PlainInside(w: Text, rest: Text)
    requires forall i | 0 <= i < |w| :: Passes(w[i], true)
    ensures StaysInside(w + rest, rest)
  {
    ScanPast(w + rest, |w|, true);
    assert (w + rest)[|w|..] == rest;
  }

  lemma NumberInside(t: Text, rest: Text)
    requires NumberLen(t).Some? && NumberLen(t).value.0 == |t|
    ensures StaysInside(t + rest, rest)
  {
    forall i | 0 <= i < |t| ensures Passes(t[i], true) {
      NumberChars(t, i);
    }
    PlainInside(t, rest);
  }

  lemma {:induction false} EncodedInside(v: Value, rest: Text)
    requires Writable(v)
    ensures StaysInside(Encode(v) + rest, rest)
    decreases v, 0
  {
    match v
    case Null => PlainInside(NULL, rest);
    case Bool(b) => PlainInside(Encode(v), rest);
    case Int(i) =>
      IntReads(i);
      NumberInside(Encode(v), rest);
    case Float(t) =>
      if t == NAN || t == INFINITY || t == [MINUS] + INFINITY {
        PlainInside(t, rest);
      } else {
        NumberInside(t, rest);
      }
    case Str(s) => QuotedInside(s, rest);
    case List(items) =>
      if items == [] {
        PlainInside(Encode(v), rest);
      } else {
        Around(OPEN_LIST, EncodeItems(items), CLOSE_LIST, rest);
        ItemsInside(items, [CLOSE_LIST] + rest);
      }
    case Dict(entries) =>
      if entries == [] {
        PlainInside(Encode(v), rest);
      } else {
        Around(OPEN_DICT, EncodeEntries(entries), CLOSE_DICT, rest);
        EntriesInside(entries, [CLOSE_DICT] + rest);
      }
  }

  /** Brackets pass. */
  lemma Around(open: nat, t: Text, close: nat, rest: Text)
    requires Passes(open, true) && Passes(close, true)
    ensures Scan(([open] + t + [close]) + rest, true) == Scan(t + ([close] + rest), true)
    ensures Scan([close] + rest, true) == Scan(rest, true)
  {
    assert (([open] + t + [close]) + rest)[1..] == t + ([close] + rest);
    assert ([close] + rest)[1..] == rest;
  }

  /** Two parts with a separator of two characters between them. */
  lemma Between(a: Text, x: nat, y: nat, b: Text, rest: Text)
    requires Passes(x, true) && Passes(y, true)
    ensures (a + [x, y] + b) + rest == a + ([x, y] + (b + rest))
    ensures Scan([x, y] + (b + rest), true) == Scan(b + rest, true)
  {
    ScanPast([x, y] + (b + rest), 2, true);
  }

  lemma {:induction false} ItemsInside(items: seq<Value>, rest: Text)
    requires items != [] && WritableItems(items)
    ensures StaysInside(EncodeItems(items) + rest, rest)
    decreases items, 1
  {
    if |items| == 1 {
      EncodedInside(items[0], rest);
    } else {
      var more := EncodeItems(items[1..]);
      Between(Encode(items[0]), COMMA, SPACE, more, rest);
      EncodedInside(items[0], [COMMA, SPACE] + (more + rest));
      ItemsInside(items[1..], rest);
    }
  }

  lemma {:induction false} EntryInside(e: Entry, rest: Text)
    requires Characters(e.key) && Writable(e.value)
    ensures StaysInside(EncodeEntry(e) + rest, rest)
    decreases e, 1
  {
    Between(Quoted(e.key), COLON, SPACE, Encode(e.value), rest);
    QuotedInside(e.key, [COLON, SPACE] + (Encode(e.value) + rest));
    EncodedInside(e.value, rest);
  }

  lemma {:induction false} EntriesInside(entries: seq<Entry>, rest: Text)
    requires entries != [] && WritableEntries(entries)
    ensures StaysInside(EncodeEntries(entries) + rest, rest)
    decreases entries, 2
  {
    if |entries| == 1 {
      EntryInside(entries[0], rest);
    } else {
      var more := EncodeEntries(entries[1..]);
      Between(EncodeEntry(entries[0]), COMMA, SPACE, more, rest);
      EntryInside(entries[0], [COMMA, SPACE] + (more + rest));
      EntriesInside(entries[1..], rest);
    }
  }

  // ---------- glued text ----------

  /** Behind an S a written value leaves the scan stuck or inside a string. */
  lemma {:induction false} GluedIsOpen(a: Text, w: Text, e: Text, inside: bool)
    requires w != [] && w[0] == LETTER_S && forall i | 0 <= i < |w| :: Passes(w[i], true)
    requires StaysInside(e, [])
    ensures Scan(a + (w + e), inside) != Some(false)
    decreases |a|
  {
    var t := a + (w + e);
    assert forall i | 0 <= i < |w| :: (w + e)[i] == w[i];
    if a == [] {
      assert t == w + e;
      if inside {
        ScanPast(w + e, |w|, true);
        assert (w + e)[|w|..] == e;
      }
    } else if a == [BACKSLASH] && inside {
      ScanPast(w + e, |w|, true);
      assert (w + e)[|w|..] == e;
      ScanPast((w + e)[1..], |w| - 1, true);
      assert t[2..] == (w + e)[1..] && (w + e)[1..][|w| - 1..] == e;
    } else if a[0] == BACKSLASH && inside {
      assert t[2..] == a[2..] + (w + e);
      GluedIsOpen(a[2..], w, e, true);
    } else {
      assert t[1..] == a[1..] + (w + e);
      GluedIsOpen(a[1..], w, e, if a[0] == QUOTE then !inside else inside);
    }
  }

  /** Whatever stands in front: an S and what follows it, with a written value behind, is no JSON text. */
  lemma GluedIsUnreadable(a: Text, w: Text, v: Value)
    requires Writable(v) && w != [] && w[0] == LETTER_S && forall i | 0 <= i < |w| :: Passes(w[i], true)
    ensures Loads(a + (w + Encode(v))) == None
  {
    EncodedInside(v, []);
    assert Encode(v) + [] == Encode(v);
    GluedIsOpen(a, w, Encode(v), false);
    if Loads(a + (w + Encode(v))).Some? {
      ReadableIsBalanced(a + (w + Encode(v)));
      assert false;
    }
  }
}
