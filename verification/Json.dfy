/**
 JSON text as Python's json module writes it with default settings and reads it back (RFC 8259, with the NaN and
 Infinity literals the module also accepts). Characters are code points.
 */
module Json {
  import opened Base

  datatype Value =
    | Null
    | Bool(b: bool)
    | Int(i: int)
    | Float(repr: Text)
    | Str(s: Text)
    | List(items: seq<Value>)
    | Dict(entries: seq<Entry>)

  datatype Entry = Entry(key: Text, value: Value)

  datatype Parsed<+T> = Fail | Got(value: T, rest: Text)

  const QUOTE: nat := 34
  const PLUS: nat := 43
  const COMMA: nat := 44
  const MINUS: nat := 45
  const DOT: nat := 46
  const SLASH: nat := 47
  const ZERO: nat := 48
  const COLON: nat := 58
  const OPEN_LIST: nat := 91
  const BACKSLASH: nat := 92
  const CLOSE_LIST: nat := 93
  const LOWER_U: nat := 117
  const OPEN_DICT: nat := 123
  const CLOSE_DICT: nat := 125
  const SPACE: nat := 32

  const NULL: Text := [110, 117, 108, 108]
  const TRUE: Text := [116, 114, 117, 101]
  const FALSE: Text := [102, 97, 108, 115, 101]
  const NAN: Text := [78, 97, 78]
  const INFINITY: Text := [73, 110, 102, 105, 110, 105, 116, 121]

  // ---------- characters ----------

  predicate High(c: nat) { 0xD800 <= c <= 0xDBFF }

  predicate Low(c: nat) { 0xDC00 <= c <= 0xDFFF }

  predicate Digit(c: nat) { 48 <= c <= 57 }

  predicate White(c: nat) { c == 32 || c == 9 || c == 10 || c == 13 }

  predicate Printable(c: nat) { 32 <= c <= 126 }

  function Combine(hi: nat, lo: nat): nat
    requires High(hi) && Low(lo)
  {
    0x10000 + (hi - 0xD800) * 0x400 + (lo - 0xDC00)
  }

  function HexDigit(d: nat): nat
    requires d < 16
  {
    if d < 10 then 48 + d else 87 + d
  }

  function HexValue(c: nat): Option<nat>
  {
    if 48 <= c <= 57 then Some(c - 48)
    else if 97 <= c <= 102 then Some(c - 87)
    else if 65 <= c <= 70 then Some(c - 55)
    else None
  }

  // ---------- writing strings ----------

  function Unicode(n: nat): Text
    requires n < 0x10000
  {
    [BACKSLASH, LOWER_U,
     HexDigit(n / 16 / 16 / 16), HexDigit(n / 16 / 16 % 16), HexDigit(n / 16 % 16), HexDigit(n % 16)]
  }

  /** The ASCII form of one character: code points beyond 0xFFFF become two escapes. */
  function Escape(c: nat): Text
    requires c < 0x110000
  {
    if c == QUOTE then [BACKSLASH, QUOTE]
    else if c == BACKSLASH then [BACKSLASH, BACKSLASH]
    else if c == 10 then [BACKSLASH, 110]
    else if c == 13 then [BACKSLASH, 114]
    else if c == 9 then [BACKSLASH, 116]
    else if c == 12 then [BACKSLASH, 102]
    else if c == 8 then [BACKSLASH, 98]
    else if Printable(c) then [c]
    else if c < 0x10000 then Unicode(c)
    else Unicode(0xD800 + (c - 0x10000) / 0x400) + Unicode(0xDC00 + (c - 0x10000) % 0x400)
  }

  predicate Characters(s: Text)
  {
    forall i | 0 <= i < |s| :: s[i] < 0x110000
  }

  function EscapeAll(s: Text): Text
    requires Characters(s)
  {
    if s == [] then [] else Escape(s[0]) + EscapeAll(s[1..])
  }

  // ---------- reading strings ----------

  function ReadHex(s: Text): Option<nat>
  {
    if |s| < 4 || HexValue(s[0]).None? || HexValue(s[1]).None? || HexValue(s[2]).None? || HexValue(s[3]).None? then None
    else Some(((HexValue(s[0]).value * 16 + HexValue(s[1]).value) * 16 + HexValue(s[2]).value) * 16
      + HexValue(s[3]).value)
  }

  function SimpleEscape(c: nat): Option<nat>
  {
    if c == QUOTE || c == BACKSLASH || c == SLASH then Some(c)
    else if c == 98 then Some(8)
    else if c == 102 then Some(12)
    else if c == 110 then Some(10)
    else if c == 114 then Some(13)
    else if c == 116 then Some(9)
    else None
  }

  /** The low half that may follow a high one, if the text goes on with its escape. */
  function LowAhead(s: Text): Option<nat>
  {
    if |s| >= 6 && s[0] == BACKSLASH && s[1] == LOWER_U && ReadHex(s[2..]).Some? && Low(ReadHex(s[2..]).value)
    then ReadHex(s[2..]) else None
  }

  /** One character after the opening quote (never the closing quote). */
  function ReadChar(s: Text): (r: Parsed<nat>)
    ensures r.Got? ==> |r.rest| < |s|
  {
    if s == [] then Fail
    else if s[0] != BACKSLASH then
      if s[0] < 32 then Fail else Got(s[0], s[1..])
    else if |s| < 2 then Fail
    else if SimpleEscape(s[1]).Some? then Got(SimpleEscape(s[1]).value, s[2..])
    else if s[1] != LOWER_U || ReadHex(s[2..]).None? then Fail
    else
      var c := ReadHex(s[2..]).value;
      if High(c) && LowAhead(s[6..]).Some? then Got(Combine(c, LowAhead(s[6..]).value), s[12..])
      else Got(c, s[6..])
  }

  /** The characters up to the closing quote. */
  function ReadChars(s: Text): (r: Parsed<Text>)
    ensures r.Got? ==> |r.rest| < |s|
    decreases |s|
  {
    if s == [] then Fail
    else if s[0] == QUOTE then Got([], s[1..])
    else
      match ReadChar(s)
      case Fail => Fail
      case Got(c, rest) =>
        match ReadChars(rest)
        case Fail => Fail
        case Got(t, rest') => Got([c] + t, rest')
  }

  // ---------- strings: what comes back ----------

  /** Adjacent surrogate halves come back as the one character they name. */
  function Merge(s: Text): Text
  {
    if s == [] then []
    else if |s| >= 2 && High(s[0]) && Low(s[1]) then [Combine(s[0], s[1])] + Merge(s[2..])
    else [s[0]] + Merge(s[1..])
  }

  /** No high half directly before a low half: true of every string that is valid Unicode text. */
  predicate NoSplitPair(s: Text)
  {
    forall i | 0 <= i < |s| - 1 :: !(High(s[i]) && Low(s[i + 1]))
  }

  lemma {:induction false} MergeIsIdentityIff(s: Text)
    ensures |Merge(s)| <= |s|
    ensures Merge(s) == s <==> NoSplitPair(s)
    ensures NoSplitPair(s) || |Merge(s)| < |s|
    decreases |s|
  {
    if s == [] {
    } else if |s| >= 2 && High(s[0]) && Low(s[1]) {
      MergeIsIdentityIff(s[2..]);
    } else {
      MergeIsIdentityIff(s[1..]);
      if NoSplitPair(s[1..]) {
        forall i | 0 <= i < |s| - 1 ensures !(High(s[i]) && Low(s[i + 1])) {
          if i > 0 {
            assert !(High(s[1..][i - 1]) && Low(s[1..][i - 1 + 1]));
          }
        }
      } else {
        var i :| 0 <= i < |s[1..]| - 1 && High(s[1..][i]) && Low(s[1..][i + 1]);
        assert High(s[i + 1]) && Low(s[i + 1 + 1]);
      }
    }
  }

  lemma UnicodeReads(n: nat, t: Text)
    requires n < 0x10000
    ensures var u := Unicode(n) + t;
      && |u| == 6 + |t| && u[0] == BACKSLASH && u[1] == LOWER_U && u[6..] == t
      && ReadHex(u[2..]) == Some(n)
  {
  }

  lemma AstralParts(c: nat)
    requires 0x10000 <= c < 0x110000
    ensures var hi, lo := 0xD800 + (c - 0x10000) / 0x400, 0xDC00 + (c - 0x10000) % 0x400;
      High(hi) && Low(lo) && Combine(hi, lo) == c && Escape(c) == Unicode(hi) + Unicode(lo)
  {
  }

  /** The escapes of one or two characters: everything printable, and five control characters. */
  predicate Short(c: nat)
  {
    Printable(c) || c == 10 || c == 13 || c == 9 || c == 12 || c == 8
  }

  lemma EscapeForms(c: nat)
    requires c < 0x10000
    ensures if Short(c) then 1 <= |Escape(c)| <= 2 else Escape(c) == Unicode(c)
    ensures Short(c) ==> Escape(c)[0] != QUOTE && (Escape(c)[0] == BACKSLASH <==> |Escape(c)| == 2)
    ensures Short(c) && |Escape(c)| == 1 ==> Escape(c) == [c] && c >= 32
    ensures Short(c) && |Escape(c)| == 2 ==> Escape(c)[1] != LOWER_U && SimpleEscape(Escape(c)[1]) == Some(c)
  {
  }

  lemma AheadOfChar(c: nat, u: Text)
    requires c < 0x110000
    ensures LowAhead(Escape(c) + u) == if Low(c) then Some(c) else None
  {
    var t := Escape(c) + u;
    if c >= 0x10000 {
      var hi, lo := 0xD800 + (c - 0x10000) / 0x400, 0xDC00 + (c - 0x10000) % 0x400;
      AstralParts(c);
      assert t == Unicode(hi) + (Unicode(lo) + u);
      UnicodeReads(hi, Unicode(lo) + u);
    } else {
      EscapeForms(c);
      if !Short(c) {
        UnicodeReads(c, u);
      } else {
        assert t[0] == Escape(c)[0] && (|Escape(c)| == 2 ==> t[1] == Escape(c)[1]);
      }
    }
  }

  /** A low half is ahead exactly if the next character written was one. */
  lemma WhatIsAhead(s: Text, rest: Text)
    requires Characters(s)
    ensures LowAhead(EscapeAll(s) + [QUOTE] + rest) == if s != [] && Low(s[0]) then Some(s[0]) else None
  {
    if s != [] {
      var u := EscapeAll(s[1..]) + [QUOTE] + rest;
      assert EscapeAll(s) + [QUOTE] + rest == Escape(s[0]) + u;
      AheadOfChar(s[0], u);
    }
  }

  lemma PairReadsBack(hi: nat, lo: nat, t: Text)
    requires High(hi) && Low(lo)
    ensures ReadChar(Unicode(hi) + (Unicode(lo) + t)) == Got(Combine(hi, lo), t)
  {
    var text := Unicode(hi) + (Unicode(lo) + t);
    UnicodeReads(hi, Unicode(lo) + t);
    UnicodeReads(lo, t);
    assert text[12..] == text[6..][6..];
  }

  lemma UnicodeReadsBack(c: nat, t: Text)
    requires c < 0x10000 && !(High(c) && LowAhead(t).Some?)
    ensures ReadChar(Unicode(c) + t) == Got(c, t)
  {
    UnicodeReads(c, t);
  }

  /** Reading back one written character. */
  lemma CharReadsBack(c: nat, t: Text)
    requires c < 0x110000 && !(High(c) && LowAhead(t).Some?)
    ensures Escape(c) != [] && (Escape(c) + t)[0] != QUOTE
    ensures ReadChar(Escape(c) + t) == Got(c, t)
  {
    var text := Escape(c) + t;
    if c >= 0x10000 {
      var hi, lo := 0xD800 + (c - 0x10000) / 0x400, 0xDC00 + (c - 0x10000) % 0x400;
      AstralParts(c);
      assert text == Unicode(hi) + (Unicode(lo) + t);
      PairReadsBack(hi, lo, t);
    } else {
      EscapeForms(c);
      if !Short(c) {
        UnicodeReadsBack(c, t);
      } else {
        assert text[0] == Escape(c)[0] && (|Escape(c)| == 2 ==> text[1] == Escape(c)[1]);
        assert text[|Escape(c)|..] == t;
      }
    }
  }

  lemma ReadCharsStep(t: Text, c: nat, u: Text, rest: Parsed<Text>)
    requires t != [] && t[0] != QUOTE && ReadChar(t) == Got(c, u) && rest == ReadChars(u)
    ensures ReadChars(t) == if rest.Fail? then Fail else Got([c] + rest.value, rest.rest)
  {
  }

  lemma Regroup(a: Text, b: Text, c: Text, d: Text, e: Text)
    ensures (a + (b + c)) + d + e == a + (b + (c + d + e))
  {
  }

  lemma EscapeTwo(s: Text)
    requires Characters(s) && |s| >= 2
    ensures EscapeAll(s) == Escape(s[0]) + (Escape(s[1]) + EscapeAll(s[2..]))
  {
    assert s[1..][1..] == s[2..];
  }

  lemma SplitPairReads(s: Text, rest: Text)
    requires Characters(s) && |s| >= 2 && High(s[0]) && Low(s[1])
    ensures var t := EscapeAll(s) + [QUOTE] + rest;
      && t != [] && t[0] != QUOTE
      && ReadChar(t) == Got(Combine(s[0], s[1]), EscapeAll(s[2..]) + [QUOTE] + rest)
  {
    var v := EscapeAll(s[2..]) + [QUOTE] + rest;
    EscapeTwo(s);
    EscapeForms(s[0]);
    EscapeForms(s[1]);
    Regroup(Unicode(s[0]), Unicode(s[1]), EscapeAll(s[2..]), [QUOTE], rest);
    PairReadsBack(s[0], s[1], v);
    UnicodeReads(s[0], Unicode(s[1]) + v);
  }

  /** Every string reads back as its merged form: writing loses exactly the split of surrogate pairs. */
  lemma {:induction false} StringReadsBack(s: Text, rest: Text)
    requires Characters(s)
    ensures ReadChars(EscapeAll(s) + [QUOTE] + rest) == Got(Merge(s), rest)
    decreases |s|
  {
    var t := EscapeAll(s) + [QUOTE] + rest;
    if s == [] {
      assert t == [QUOTE] + rest;
    } else {
      var u := EscapeAll(s[1..]) + [QUOTE] + rest;
      assert t == Escape(s[0]) + u;
      WhatIsAhead(s[1..], rest);
      if |s| >= 2 && High(s[0]) && Low(s[1]) {
        SplitPairReads(s, rest);
        StringReadsBack(s[2..], rest);
        ReadCharsStep(t, Combine(s[0], s[1]), EscapeAll(s[2..]) + [QUOTE] + rest, Got(Merge(s[2..]), rest));
      } else {
        CharReadsBack(s[0], u);
        StringReadsBack(s[1..], rest);
        ReadCharsStep(t, s[0], u, Got(Merge(s[1..]), rest));
      }
    }
  }
}
