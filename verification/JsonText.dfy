/** Whole JSON values: writing, reading, and what survives the trip. */
module JsonText {
  import opened Base
  import opened Json

  // ---------- numbers ----------

  function CountDigits(s: Text): (n: nat)
    ensures n <= |s| && (n < |s| ==> !Digit(s[n])) && forall i | 0 <= i < n :: Digit(s[i])
  {
    if s == [] || !Digit(s[0]) then 0 else 1 + CountDigits(s[1..])
  }

  predicate Digits(s: Text)
  {
    forall i | 0 <= i < |s| :: Digit(s[i])
  }

  function Natural(n: nat): (t: Text)
    ensures t != [] && Digits(t) && (t[0] == ZERO ==> n == 0 && t == [ZERO])
  {
    if n < 10 then [ZERO + n] else Natural(n / 10) + [ZERO + n % 10]
  }

  function NumberValue(d: Text): nat
    requires Digits(d)
  {
    if d == [] then 0 else NumberValue(d[..|d| - 1]) * 10 + (d[|d| - 1] - ZERO)
  }

  lemma {:induction false} NaturalReads(n: nat)
    ensures NumberValue(Natural(n)) == n
  {
    if n >= 10 {
      NaturalReads(n / 10);
      assert Natural(n)[..|Natural(n)| - 1] == Natural(n / 10);
    } else {
      assert Natural(n)[..0] == [];
    }
  }

  function IntLen(s: Text): Option<nat>
  {
    if s == [] || !Digit(s[0]) then None else if s[0] == ZERO then Some(1) else Some(CountDigits(s))
  }

  function FracLen(s: Text): (n: nat)
    ensures n <= |s|
  {
    if |s| >= 2 && s[0] == DOT && Digit(s[1]) then 1 + CountDigits(s[1..]) else 0
  }

  function ExpLen(s: Text): (n: nat)
    ensures n <= |s|
  {
    if s == [] || (s[0] != 69 && s[0] != 101) then 0
    else
      var k := SignEnd(s);
      if k < |s| && Digit(s[k]) then k + CountDigits(s[k..]) else 0
  }

  /** Where the digits of an exponent begin. */
  function SignEnd(s: Text): nat
  {
    if |s| >= 2 && (s[1] == PLUS || s[1] == MINUS) then 2 else 1
  }

  /** Length of the optional fraction and exponent, and whether either is there. */
  function TailLen(s: Text): (r: (nat, bool))
    ensures r.0 <= |s|
  {
    var f := FracLen(s);
    var e := ExpLen(s[f..]);
    (f + e, f > 0 || e > 0)
  }

  function After(b: nat, tail: (nat, bool)): (nat, bool)
  {
    (b + tail.0, tail.1)
  }

  function UnsignedLen(s: Text): (r: Option<(nat, bool)>)
    ensures r.Some? ==> 0 < r.value.0 <= |s|
  {
    match IntLen(s)
    case None => None
    case Some(b) => Some(After(b, TailLen(s[b..])))
  }

  /** Length of the longest number at the front, and whether it has a fraction or an exponent. */
  function NumberLen(s: Text): (r: Option<(nat, bool)>)
    ensures r.Some? ==> 0 < r.value.0 <= |s|
  {
    if s != [] && s[0] == MINUS then
      match UnsignedLen(s[1..])
      case None => None
      case Some((n, isFloat)) => Some((n + 1, isFloat))
    else UnsignedLen(s)
  }

  /** What can follow a value inside the text of a larger one. */
  predicate NumberEnds(rest: Text)
  {
    rest == [] || rest[0] == COMMA || rest[0] == CLOSE_LIST || rest[0] == CLOSE_DICT
  }

  lemma {:induction false} CountDigitsExtends(s: Text, rest: Text)
    requires NumberEnds(rest)
    ensures CountDigits(s + rest) == CountDigits(s)
    decreases |s|
  {
    if s == [] {
      assert s + rest == rest;
    } else {
      assert (s + rest)[1..] == s[1..] + rest;
      CountDigitsExtends(s[1..], rest);
    }
  }

  lemma TailOfConcat(t: Text, rest: Text, k: nat)
    requires k <= |t|
    ensures (t + rest)[k..] == t[k..] + rest
  {
  }

  lemma IntLenExtends(s: Text, rest: Text)
    requires NumberEnds(rest)
    ensures IntLen(s + rest) == IntLen(s)
  {
    CountDigitsExtends(s, rest);
  }

  lemma FracLenExtends(s: Text, rest: Text)
    requires NumberEnds(rest)
    ensures FracLen(s + rest) == FracLen(s)
  {
    if s != [] {
      TailOfConcat(s, rest, 1);
      CountDigitsExtends(s[1..], rest);
    }
  }

  lemma DigitsAfter(s: Text, rest: Text, k: nat)
    requires NumberEnds(rest) && k <= |s|
    ensures CountDigits((s + rest)[k..]) == CountDigits(s[k..])
  {
    TailOfConcat(s, rest, k);
    CountDigitsExtends(s[k..], rest);
  }

  lemma ExpLenExtends(s: Text, rest: Text)
    requires NumberEnds(rest)
    ensures ExpLen(s + rest) == ExpLen(s)
  {
    if s == [] {
      assert s + rest == rest;
    } else {
      var k := SignEnd(s);
      assert SignEnd(s + rest) == k;
      if k <= |s| {
        DigitsAfter(s, rest, k);
      }
    }
  }

  lemma TailLenExtends(s: Text, rest: Text)
    requires NumberEnds(rest)
    ensures TailLen(s + rest) == TailLen(s)
  {
    FracLenExtends(s, rest);
    TailOfConcat(s, rest, FracLen(s));
    ExpLenExtends(s[FracLen(s)..], rest);
  }

  lemma TailLenAfter(s: Text, rest: Text, k: nat)
    requires NumberEnds(rest) && k <= |s|
    ensures TailLen((s + rest)[k..]) == TailLen(s[k..])
  {
    TailOfConcat(s, rest, k);
    TailLenExtends(s[k..], rest);
  }

  lemma SameUnsignedLen(s: Text, t: Text)
    requires IntLen(s) == IntLen(t)
    requires IntLen(s).Some? ==> TailLen(s[IntLen(s).value..]) == TailLen(t[IntLen(t).value..])
    ensures UnsignedLen(s) == UnsignedLen(t)
  {
  }

  lemma UnsignedLenExtends(s: Text, rest: Text)
    requires NumberEnds(rest)
    ensures UnsignedLen(s + rest) == UnsignedLen(s)
  {
    IntLenExtends(s, rest);
    if IntLen(s).Some? {
      TailLenAfter(s, rest, IntLen(s).value);
    }
    SameUnsignedLen(s, s + rest);
  }

  /** What follows a number inside a larger text does not change how far it is read. */
  lemma NumberExtends(t: Text, rest: Text)
    requires NumberEnds(rest)
    ensures NumberLen(t + rest) == NumberLen(t)
  {
    UnsignedLenExtends(t, rest);
    if t != [] {
      TailOfConcat(t, rest, 1);
      UnsignedLenExtends(t[1..], rest);
    }
  }

  function EncodeInt(i: int): Text
  {
    if i < 0 then [MINUS] + Natural(-i) else Natural(i)
  }

  function IntOf(t: Text): int
    requires t != [] && (if t[0] == MINUS then Digits(t[1..]) else Digits(t))
  {
    if t[0] == MINUS then 0 - NumberValue(t[1..]) else NumberValue(t)
  }

  lemma {:induction false} AllDigits(s: Text)
    requires Digits(s)
    ensures CountDigits(s) == |s|
    decreases |s|
  {
  }

  lemma IntReads(i: int)
    ensures var t := EncodeInt(i);
      && NumberLen(t) == Some((|t|, false))
      && (if t[0] == MINUS then Digits(t[1..]) else Digits(t))
      && IntOf(t) == i
  {
    var t := EncodeInt(i);
    var n: nat := if i < 0 then -i else i;
    NaturalReads(n);
    AllDigits(Natural(n));
    assert Natural(n)[|Natural(n)|..] == [];
    assert UnsignedLen(Natural(n)) == Some((|Natural(n)|, false));
    if i < 0 {
      assert t[1..] == Natural(n);
    }
  }

  /** The repr of a Python float: a number with a fraction or an exponent, or one of the special names. */
  predicate FloatText(t: Text)
  {
    t == NAN || t == INFINITY || t == [MINUS] + INFINITY || NumberLen(t) == Some((|t|, true))
  }

  predicate NumberChar(c: nat)
  {
    Digit(c) || c == MINUS || c == PLUS || c == DOT || c == 69 || c == 101
  }

  lemma TailChars(s: Text, i: nat)
    requires i < TailLen(s).0
    ensures NumberChar(s[i])
  {
  }

  lemma UnsignedChars(u: Text, i: nat)
    requires UnsignedLen(u).Some? && i < UnsignedLen(u).value.0
    ensures NumberChar(u[i])
  {
    var b := IntLen(u).value;
    if i >= b {
      TailChars(u[b..], i - b);
      assert u[i] == u[b..][i - b];
    }
  }

  lemma NumberChars(t: Text, i: nat)
    requires NumberLen(t).Some? && i < NumberLen(t).value.0
    ensures NumberChar(t[i])
  {
    if t[0] != MINUS {
      UnsignedChars(t, i);
    } else if i > 0 {
      UnsignedChars(t[1..], i - 1);
      assert t[i] == t[1..][i - 1];
    }
  }

  // ---------- values ----------

  function Find(d: seq<Entry>, key: Text): (i: nat)
    ensures i <= |d| && (i < |d| ==> d[i].key == key) && forall j | 0 <= j < i :: d[j].key != key
  {
    if d == [] || d[0].key == key then 0 else 1 + Find(d[1..], key)
  }

  /** Building a dict from pairs: a later value replaces an earlier one in its place. */
  function FromPairs(pairs: seq<Entry>): seq<Entry>
  {
    if pairs == [] then []
    else
      var d, e := FromPairs(pairs[..|pairs| - 1]), pairs[|pairs| - 1];
      if Find(d, e.key) < |d| then d[Find(d, e.key) := e] else d + [e]
  }

  predicate DistinctKeys(d: seq<Entry>)
  {
    forall i, j | 0 <= i < j < |d| :: d[i].key != d[j].key
  }

  /** Values json.dumps is given here: real strings and floats, dicts with distinct string keys. */
  predicate Writable(v: Value)
  {
    match v
    case Str(s) => Characters(s)
    case Float(t) => FloatText(t)
    case List(items) => WritableItems(items)
    case Dict(entries) => DistinctKeys(entries) && WritableEntries(entries)
    case _ => true
  }

  predicate WritableItems(items: seq<Value>)
  {
    items != [] ==> Writable(items[0]) && WritableItems(items[1..])
  }

  predicate WritableEntries(entries: seq<Entry>)
  {
    entries != [] ==>
      Characters(entries[0].key) && Writable(entries[0].value) && WritableEntries(entries[1..])
  }

  function Quoted(s: Text): Text
    requires Characters(s)
  {
    [QUOTE] + EscapeAll(s) + [QUOTE]
  }

  function Encode(v: Value): Text
    requires Writable(v)
  {
    match v
    case Null => NULL
    case Bool(b) => if b then TRUE else FALSE
    case Int(i) => EncodeInt(i)
    case Float(t) => t
    case Str(s) => Quoted(s)
    case List(items) => if items == [] then [OPEN_LIST, CLOSE_LIST] else [OPEN_LIST] + EncodeItems(items) + [CLOSE_LIST]
    case Dict(entries) =>
      if entries == [] then [OPEN_DICT, CLOSE_DICT] else [OPEN_DICT] + EncodeEntries(entries) + [CLOSE_DICT]
  }

  function EncodeItems(items: seq<Value>): Text
    requires items != [] && WritableItems(items)
  {
    if |items| == 1 then Encode(items[0]) else Encode(items[0]) + [COMMA, SPACE] + EncodeItems(items[1..])
  }

  function EncodeEntry(e: Entry): Text
    requires Characters(e.key) && Writable(e.value)
  {
    Quoted(e.key) + [COLON, SPACE] + Encode(e.value)
  }

  function EncodeEntries(entries: seq<Entry>): Text
    requires entries != [] && WritableEntries(entries)
  {
    if |entries| == 1 then EncodeEntry(entries[0])
    else EncodeEntry(entries[0]) + [COMMA, SPACE] + EncodeEntries(entries[1..])
  }

  function Skip(s: Text): (r: Text)
    ensures |r| <= |s|
  {
    if s != [] && White(s[0]) then Skip(s[1..]) else s
  }

  predicate Starts(s: Text, w: Text)
  {
    |w| <= |s| && s[..|w|] == w
  }

  function ParseValue(s: Text): (r: Parsed<Value>)
    ensures r.Got? ==> |r.rest| < |s|
    decreases |s|, 0
  {
    if s == [] then Fail
    else if s[0] == QUOTE then
      match ReadChars(s[1..])
      case Fail => Fail
      case Got(t, rest) => Got(Str(t), rest)
    else if s[0] == OPEN_LIST then
      var r := Skip(s[1..]);
      if r != [] && r[0] == CLOSE_LIST then Got(List([]), r[1..])
      else
        match ReadItems(r)
        case Fail => Fail
        case Got(items, rest) => Got(List(items), rest)
    else if s[0] == OPEN_DICT then
      var r := Skip(s[1..]);
      if r != [] && r[0] == CLOSE_DICT then Got(Dict([]), r[1..])
      else
        match ReadMembers(r)
        case Fail => Fail
        case Got(pairs, rest) => Got(Dict(FromPairs(pairs)), rest)
    else ParseScalar(s)
  }

  function ParseScalar(s: Text): (r: Parsed<Value>)
    ensures r.Got? ==> |r.rest| < |s|
  {
    if Starts(s, NULL) then Got(Null, s[4..])
    else if Starts(s, TRUE) then Got(Bool(true), s[4..])
    else if Starts(s, FALSE) then Got(Bool(false), s[5..])
    else if Starts(s, NAN) then Got(Float(NAN), s[3..])
    else if Starts(s, INFINITY) then Got(Float(INFINITY), s[8..])
    else if Starts(s, [MINUS] + INFINITY) then Got(Float([MINUS] + INFINITY), s[9..])
    else
      match NumberLen(s)
      case None => Fail
      case Some((n, isFloat)) =>
        var t := s[..n];
        if isFloat then Got(Float(t), s[n..])
        else if (if t[0] == MINUS then Digits(t[1..]) else Digits(t)) then Got(Int(IntOf(t)), s[n..])
        else Fail
  }

  function ReadItems(s: Text): (r: Parsed<seq<Value>>)
    ensures r.Got? ==> |r.rest| < |s|
    decreases |s|, 1
  {
    match ParseValue(s)
    case Fail => Fail
    case Got(v, after) =>
      var r := Skip(after);
      if r == [] then Fail
      else if r[0] == CLOSE_LIST then Got([v], r[1..])
      else if r[0] != COMMA then Fail
      else
        match ReadItems(Skip(r[1..]))
        case Fail => Fail
        case Got(vs, rest) => Got([v] + vs, rest)
  }

  function ReadMember(s: Text): (r: Parsed<Entry>)
    ensures r.Got? ==> |r.rest| < |s|
    decreases |s|, 1
  {
    if s == [] || s[0] != QUOTE then Fail
    else
      match ReadChars(s[1..])
      case Fail => Fail
      case Got(key, after) =>
        var r := Skip(after);
        if r == [] || r[0] != COLON then Fail
        else
          match ParseValue(Skip(r[1..]))
          case Fail => Fail
          case Got(v, rest) => Got(Entry(key, v), rest)
  }

  function ReadMembers(s: Text): (r: Parsed<seq<Entry>>)
    ensures r.Got? ==> |r.rest| < |s|
    decreases |s|, 2
  {
    match ReadMember(s)
    case Fail => Fail
    case Got(e, after) =>
      var r := Skip(after);
      if r == [] then Fail
      else if r[0] == CLOSE_DICT then Got([e], r[1..])
      else if r[0] != COMMA then Fail
      else
        match ReadMembers(Skip(r[1..]))
        case Fail => Fail
        case Got(es, rest) => Got([e] + es, rest)
  }

  /** json.loads: one value, white space around it, nothing else. */
  function Loads(s: Text): Option<Value>
  {
    match ParseValue(Skip(s))
    case Fail => None
    case Got(v, rest) => if Skip(rest) == [] then Some(v) else None
  }
}
