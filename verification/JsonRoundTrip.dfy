/** What json.loads makes of what json.dumps wrote. */
module JsonRoundTrip {
  import opened Base
  import opened Json
  import opened JsonText

  // ---------- what comes back ----------

  function Merged(v: Value): Value
  {
    match v
    case Str(s) => Str(Merge(s))
    case List(items) => List(MergedItems(items))
    case Dict(entries) => Dict(FromPairs(MergedEntries(entries)))
    case _ => v
  }

  function MergedItems(items: seq<Value>): (r: seq<Value>)
    ensures |r| == |items|
  {
    if items == [] then [] else [Merged(items[0])] + MergedItems(items[1..])
  }

  function MergedEntries(entries: seq<Entry>): (r: seq<Entry>)
    ensures |r| == |entries|
  {
    if entries == [] then []
    else [Entry(Merge(entries[0].key), Merged(entries[0].value))] + MergedEntries(entries[1..])
  }

  /** No string in the value, key or content, has a high surrogate directly before a low one. */
  predicate Safe(v: Value)
  {
    match v
    case Str(s) => NoSplitPair(s)
    case List(items) => SafeItems(items)
    case Dict(entries) => SafeEntries(entries)
    case _ => true
  }

  predicate SafeItems(items: seq<Value>)
  {
    items != [] ==> Safe(items[0]) && SafeItems(items[1..])
  }

  predicate SafeEntries(entries: seq<Entry>)
  {
    entries != [] ==> NoSplitPair(entries[0].key) && Safe(entries[0].value) && SafeEntries(entries[1..])
  }

  lemma {:induction false} FindIsFresh(d: seq<Entry>, key: Text)
    ensures Find(d, key) == |d| <==> forall i | 0 <= i < |d| :: d[i].key != key
  {
  }

  /** Pairs with distinct keys make a dict of themselves; repeated keys make it shorter. */
  lemma {:induction false} FromPairsShrinks(p: seq<Entry>)
    ensures |FromPairs(p)| <= |p|
    ensures |FromPairs(p)| == |p| ==> FromPairs(p) == p
    ensures DistinctKeys(p) ==> FromPairs(p) == p
    decreases |p|
  {
    if p != [] {
      var n := |p| - 1;
      FromPairsShrinks(p[..n]);
      FindIsFresh(FromPairs(p[..n]), p[n].key);
      assert p == p[..n] + [p[n]];
    }
  }

  lemma {:induction false} MergedIsIdentityIff(v: Value)
    requires Writable(v)
    ensures Merged(v) == v <==> Safe(v)
    decreases v
  {
    match v
    case Str(s) => MergeIsIdentityIff(s);
    case List(items) => MergedItemsIff(items);
    case Dict(entries) =>
      MergedEntriesIff(entries);
      FromPairsShrinks(MergedEntries(entries));
    case _ =>
  }

  lemma {:induction false} MergedItemsIff(items: seq<Value>)
    requires WritableItems(items)
    ensures MergedItems(items) == items <==> SafeItems(items)
    decreases items
  {
    if items != [] {
      MergedIsIdentityIff(items[0]);
      MergedItemsIff(items[1..]);
      assert items == [items[0]] + items[1..];
      assert MergedItems(items)[0] == Merged(items[0]) && MergedItems(items)[1..] == MergedItems(items[1..]);
    }
  }

  lemma {:induction false} MergedEntriesIff(entries: seq<Entry>)
    requires WritableEntries(entries)
    ensures MergedEntries(entries) == entries <==> SafeEntries(entries)
    decreases entries
  {
    if entries != [] {
      MergeIsIdentityIff(entries[0].key);
      MergedIsIdentityIff(entries[0].value);
      MergedEntriesIff(entries[1..]);
      var m := MergedEntries(entries);
      assert entries == [entries[0]] + entries[1..];
      assert m[0] == Entry(Merge(entries[0].key), Merged(entries[0].value)) && m[1..] == MergedEntries(entries[1..]);
    }
  }

  // ---------- reading back ----------

  /** The first character of a written value tells what it is, and is never white space or a closing bracket. */
  predicate ValueHead(c: nat)
  {
    c == QUOTE || c == OPEN_LIST || c == OPEN_DICT || c == MINUS || Digit(c)
    || c == 110 || c == 116 || c == 102 || c == 78 || c == 73
  }

  lemma HeadOf(v: Value)
    requires Writable(v)
    ensures Encode(v) != [] && ValueHead(Encode(v)[0])
    ensures v.Null? || v.Bool? || v.Int? || v.Float? ==>
      Encode(v)[0] != QUOTE && Encode(v)[0] != OPEN_LIST && Encode(v)[0] != OPEN_DICT
  {
  }

  lemma SkipsNothing(s: Text, rest: Text)
    requires s != [] && !White(s[0])
    ensures Skip(s + rest) == s + rest
  {
  }

  lemma StartsHead(s: Text, w: Text)
    requires w != []
    ensures Starts(s, w) ==> s != [] && s[0] == w[0]
    ensures Starts(s, w) && |w| >= 2 ==> |s| >= 2 && s[1] == w[1]
  {
  }

  /** A number is none of the literals. */
  lemma NumberIsNoLiteral(s: Text)
    requires NumberLen(s).Some?
    ensures !Starts(s, NULL) && !Starts(s, TRUE) && !Starts(s, FALSE) && !Starts(s, NAN) && !Starts(s, INFINITY)
    ensures !Starts(s, [MINUS] + INFINITY)
  {
    StartsHead(s, NULL);
    StartsHead(s, TRUE);
    StartsHead(s, FALSE);
    StartsHead(s, NAN);
    StartsHead(s, INFINITY);
    StartsHead(s, [MINUS] + INFINITY);
    assert s[0] == MINUS ==> s[1..] != [] && s[1..][0] == s[1];
  }

  lemma NumberReads(t: Text, isFloat: bool, rest: Text)
    requires NumberLen(t) == Some((|t|, isFloat)) && NumberEnds(rest)
    requires !isFloat ==> if t[0] == MINUS then Digits(t[1..]) else Digits(t)
    ensures ParseScalar(t + rest) == Got(if isFloat then Float(t) else Int(IntOf(t)), rest)
  {
    NumberExtends(t, rest);
    NumberIsNoLiteral(t + rest);
    assert (t + rest)[..|t|] == t && (t + rest)[|t|..] == rest;
  }

  lemma LiteralReads(t: Text, rest: Text)
    requires t == NULL || t == TRUE || t == FALSE || t == NAN || t == INFINITY || t == [MINUS] + INFINITY
    ensures ParseScalar(t + rest) == Got(
      if t == NULL then Null else if t == TRUE then Bool(true) else if t == FALSE then Bool(false) else Float(t), rest)
  {
    var s := t + rest;
    assert s[..|t|] == t && s[|t|..] == rest;
    StartsHead(s, NULL);
    StartsHead(s, TRUE);
    StartsHead(s, FALSE);
    StartsHead(s, NAN);
    StartsHead(s, INFINITY);
  }

  lemma ScalarReadsBack(v: Value, rest: Text)
    requires Writable(v) && NumberEnds(rest) && (v.Null? || v.Bool? || v.Int? || v.Float?)
    ensures ParseValue(Encode(v) + rest) == Got(v, rest)
  {
    HeadOf(v);
    match v
    case Null => LiteralReads(NULL, rest);
    case Bool(b) => LiteralReads(if b then TRUE else FALSE, rest);
    case Int(i) =>
      IntReads(i);
      NumberReads(EncodeInt(i), false, rest);
    case Float(t) =>
      if NumberLen(t) == Some((|t|, true)) {
        NumberReads(t, true, rest);
      } else {
        LiteralReads(t, rest);
      }
  }

  lemma QuotedReadsBack(s: Text, rest: Text)
    requires Characters(s)
    ensures var t := Quoted(s) + rest; t[0] == QUOTE && ReadChars(t[1..]) == Got(Merge(s), rest)
  {
    var t := Quoted(s) + rest;
    assert t[1..] == EscapeAll(s) + [QUOTE] + rest;
    StringReadsBack(s, rest);
  }

  // One step of each reading loop, on its last and on an earlier element.

  lemma LastItem(t: Text, v: Value, rest: Text)
    requires ParseValue(t) == Got(v, [CLOSE_LIST] + rest)
    ensures ReadItems(t) == Got([v], rest)
  {
    assert ([CLOSE_LIST] + rest)[1..] == rest;
  }

  lemma NextItem(t: Text, v: Value, more: Text, vs: seq<Value>, rest: Text)
    requires ParseValue(t) == Got(v, [COMMA, SPACE] + more) && Skip(more) == more && ReadItems(more) == Got(vs, rest)
    ensures ReadItems(t) == Got([v] + vs, rest)
  {
    SkipsSeparator(COMMA, more);
  }

  lemma LastMember(t: Text, e: Entry, rest: Text)
    requires ReadMember(t) == Got(e, [CLOSE_DICT] + rest)
    ensures ReadMembers(t) == Got([e], rest)
  {
    assert ([CLOSE_DICT] + rest)[1..] == rest;
  }

  lemma NextMember(t: Text, e: Entry, more: Text, es: seq<Entry>, rest: Text)
    requires ReadMember(t) == Got(e, [COMMA, SPACE] + more) && Skip(more) == more && ReadMembers(more) == Got(es, rest)
    ensures ReadMembers(t) == Got([e] + es, rest)
  {
    SkipsSeparator(COMMA, more);
  }

  lemma SkipsSeparator(c: nat, more: Text)
    requires !White(c) && Skip(more) == more
    ensures Skip([c, SPACE] + more) == [c, SPACE] + more
    ensures Skip(([c, SPACE] + more)[1..]) == more
  {
    assert ([c, SPACE] + more)[1..] == [SPACE] + more && ([SPACE] + more)[1..] == more;
  }

  lemma MemberReads(t: Text, key: Text, more: Text, v: Value, rest: Text)
    requires t != [] && t[0] == QUOTE && ReadChars(t[1..]) == Got(key, [COLON, SPACE] + more)
    requires Skip(more) == more && ParseValue(more) == Got(v, rest)
    ensures ReadMember(t) == Got(Entry(key, v), rest)
  {
    SkipsSeparator(COLON, more);
  }

  lemma ListReads(body: Text, items: seq<Value>, rest: Text)
    requires body != [] && !White(body[0]) && body[0] != CLOSE_LIST && ReadItems(body) == Got(items, rest)
    ensures ParseValue([OPEN_LIST] + body) == Got(List(items), rest)
  {
    assert ([OPEN_LIST] + body)[1..] == body;
  }

  lemma DictReads(body: Text, pairs: seq<Entry>, rest: Text)
    requires body != [] && body[0] == QUOTE && ReadMembers(body) == Got(pairs, rest)
    ensures ParseValue([OPEN_DICT] + body) == Got(Dict(FromPairs(pairs)), rest)
  {
    assert ([OPEN_DICT] + body)[1..] == body;
  }

  lemma EmptyReads(rest: Text)
    ensures ParseValue([OPEN_LIST, CLOSE_LIST] + rest) == Got(List([]), rest)
    ensures ParseValue([OPEN_DICT, CLOSE_DICT] + rest) == Got(Dict([]), rest)
  {
  }

  lemma {:induction false} ValueReadsBack(v: Value, rest: Text)
    requires Writable(v) && NumberEnds(rest)
    ensures ParseValue(Encode(v) + rest) == Got(Merged(v), rest)
    decreases v, 0
  {
    match v
    case Str(s) => QuotedReadsBack(s, rest);
    case List(items) =>
      if items == [] {
        EmptyReads(rest);
      } else {
        var body := EncodeItems(items) + ([CLOSE_LIST] + rest);
        assert Encode(v) + rest == [OPEN_LIST] + body;
        HeadOf(items[0]);
        ItemsReadBack(items, rest);
        ListReads(body, MergedItems(items), rest);
      }
    case Dict(entries) =>
      if entries == [] {
        EmptyReads(rest);
      } else {
        var body := EncodeEntries(entries) + ([CLOSE_DICT] + rest);
        assert Encode(v) + rest == [OPEN_DICT] + body;
        EntriesHead(entries);
        EntriesReadBack(entries, rest);
        DictReads(body, MergedEntries(entries), rest);
      }
    case _ => ScalarReadsBack(v, rest);
  }

  lemma EntriesHead(entries: seq<Entry>)
    requires entries != [] && WritableEntries(entries)
    ensures EncodeEntries(entries) != [] && EncodeEntries(entries)[0] == QUOTE
  {
    assert Quoted(entries[0].key)[0] == QUOTE;
    assert EncodeEntry(entries[0])[0] == QUOTE;
  }

  lemma {:induction false} ItemsReadBack(items: seq<Value>, rest: Text)
    requires items != [] && WritableItems(items)
    ensures ReadItems(EncodeItems(items) + ([CLOSE_LIST] + rest)) == Got(MergedItems(items), rest)
    decreases items, 1
  {
    var t := EncodeItems(items) + ([CLOSE_LIST] + rest);
    var v := Merged(items[0]);
    if |items| == 1 {
      ValueReadsBack(items[0], [CLOSE_LIST] + rest);
      LastItem(t, v, rest);
      assert MergedItems(items) == [v];
    } else {
      var more := EncodeItems(items[1..]) + ([CLOSE_LIST] + rest);
      assert t == Encode(items[0]) + ([COMMA, SPACE] + more);
      ValueReadsBack(items[0], [COMMA, SPACE] + more);
      HeadOf(items[1]);
      SkipsNothing(EncodeItems(items[1..]), [CLOSE_LIST] + rest);
      ItemsReadBack(items[1..], rest);
      NextItem(t, v, more, MergedItems(items[1..]), rest);
    }
  }

  lemma {:induction false} EntryReadsBack(e: Entry, rest: Text)
    requires Characters(e.key) && Writable(e.value) && NumberEnds(rest)
    ensures ReadMember(EncodeEntry(e) + rest) == Got(Entry(Merge(e.key), Merged(e.value)), rest)
    decreases e, 1
  {
    var more := Encode(e.value) + rest;
    Regrouped(Quoted(e.key), [COLON, SPACE], Encode(e.value), rest);
    QuotedReadsBack(e.key, [COLON, SPACE] + more);
    HeadOf(e.value);
    SkipsNothing(Encode(e.value), rest);
    ValueReadsBack(e.value, rest);
    MemberReads(EncodeEntry(e) + rest, Merge(e.key), more, Merged(e.value), rest);
  }

  lemma {:induction false} EntriesReadBack(entries: seq<Entry>, rest: Text)
    requires entries != [] && WritableEntries(entries)
    ensures ReadMembers(EncodeEntries(entries) + ([CLOSE_DICT] + rest)) == Got(MergedEntries(entries), rest)
    decreases entries, 1
  {
    var t := EncodeEntries(entries) + ([CLOSE_DICT] + rest);
    var e := Entry(Merge(entries[0].key), Merged(entries[0].value));
    if |entries| == 1 {
      EntryReadsBack(entries[0], [CLOSE_DICT] + rest);
      LastMember(t, e, rest);
      assert MergedEntries(entries) == [e];
    } else {
      var more := EncodeEntries(entries[1..]) + ([CLOSE_DICT] + rest);
      Regrouped(EncodeEntry(entries[0]), [COMMA, SPACE], EncodeEntries(entries[1..]), [CLOSE_DICT] + rest);
      EntryReadsBack(entries[0], [COMMA, SPACE] + more);
      EntriesHead(entries[1..]);
      SkipsNothing(EncodeEntries(entries[1..]), [CLOSE_DICT] + rest);
      EntriesReadBack(entries[1..], rest);
      NextMember(t, e, more, MergedEntries(entries[1..]), rest);
    }
  }

  lemma Regrouped(a: Text, b: Text, c: Text, d: Text)
    ensures (a + b + c) + d == a + (b + (c + d))
  {
  }

  /** Reading what was written gives the value with split surrogate pairs joined; it gives the value itself exactly
      when no string in it holds such a pair. */
  lemma RoundTrip(v: Value)
    requires Writable(v)
    ensures Loads(Encode(v)) == Some(Merged(v))
    ensures Loads(Encode(v)) == Some(v) <==> Safe(v)
  {
    HeadOf(v);
    SkipsNothing(Encode(v), []);
    assert Encode(v) + [] == Encode(v);
    ValueReadsBack(v, []);
    MergedIsIdentityIff(v);
  }
}
