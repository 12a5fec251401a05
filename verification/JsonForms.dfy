/** What json.dumps writes, literally (json.dumps with default settings, as sandbox/runner.py:130-131 calls it). */
module JsonForms {
  import opened Base
  import opened Json
  import opened JsonText

  lemma LiteralForms()
    ensures Encode(Null) == FromAscii("null")
    ensures Encode(Bool(true)) == FromAscii("true") && Encode(Bool(false)) == FromAscii("false")
    ensures Encode(Str([])) == FromAscii("\"\"")
    ensures Encode(List([])) == FromAscii("[]") && Encode(Dict([])) == FromAscii("{}")
  {
  }

  predicate LowerHex(d: nat)
  {
    48 <= d <= 57 || 97 <= d <= 102
  }

  lemma ShortEscapes()
    ensures Escape(34) == FromAscii("\\\"") && Escape(92) == FromAscii("\\\\")
    ensures Escape(8) == FromAscii("\\b") && Escape(9) == FromAscii("\\t") && Escape(10) == FromAscii("\\n")
    ensures Escape(12) == FromAscii("\\f") && Escape(13) == FromAscii("\\r")
  {
  }

  /** Besides the seven short escapes: any other printable character stands for itself, the rest is written in four
      lower-case hexadecimal digits, or beyond 0xFFFF as two such escapes. */
  lemma OtherCharacters(c: nat)
    requires c < 0x110000 && c !in {8, 9, 10, 12, 13, 34, 92}
    ensures 32 <= c <= 126 ==> Escape(c) == [c]
    ensures c < 32 || 126 < c < 0x10000 ==>
      |Escape(c)| == 6 && FromAscii("\\u") <= Escape(c) && ReadHex(Escape(c)[2..]) == Some(c)
    ensures c < 32 || 126 < c < 0x10000 ==> forall k | 2 <= k < |Escape(c)| :: LowerHex(Escape(c)[k])
    ensures 0x10000 <= c ==>
      exists hi: nat, lo: nat :: High(hi) && Low(lo) && c == 0x10000 + (hi - 0xD800) * 0x400 + (lo - 0xDC00)
        && Escape(c) == Escape(hi) + Escape(lo)
  {
    assert FromAscii("\\u") == [BACKSLASH, LOWER_U];
    if c >= 0x10000 {
      AstralParts(c);
      EscapeForms(0xD800 + (c - 0x10000) / 0x400);
      EscapeForms(0xDC00 + (c - 0x10000) % 0x400);
    } else if c < 32 || 126 < c {
      EscapeForms(c);
      UnicodeReads(c, []);
      assert Unicode(c) + [] == Unicode(c);
    }
  }

  /** Decimal digits without leading zeros, after a minus sign for negative numbers. */
  lemma IntegerForms(n: nat, d: nat)
    requires d < 10
    ensures EncodeInt(d) == [FromAscii("0123456789")[d]]
    ensures n > 0 ==> EncodeInt(10 * n + d) == EncodeInt(n) + EncodeInt(d)
    ensures n > 0 ==> EncodeInt(0 - n) == FromAscii("-") + EncodeInt(n)
  {
  }

  lemma Punctuation()
    ensures FromAscii("[") == [OPEN_LIST] && FromAscii("]") == [CLOSE_LIST]
    ensures FromAscii("{") == [OPEN_DICT] && FromAscii("}") == [CLOSE_DICT]
    ensures FromAscii(", ") == [COMMA, SPACE] && FromAscii(": ") == [COLON, SPACE]
  {
  }

  lemma MoreItems(x: Value, items: seq<Value>)
    requires items != [] && WritableItems([x] + items)
    ensures WritableItems(items)
    ensures EncodeItems([x] + items) == Encode(x) + [COMMA, SPACE] + EncodeItems(items)
  {
    assert ([x] + items)[1..] == items;
  }

  lemma Bracketed(a: nat, x: Text, y: Text, z: nat, rest: Text)
    requires rest == [a] + y + [z]
    ensures [a] + (x + [COMMA, SPACE] + y) + [z] == [a] + x + [COMMA, SPACE] + rest[1..]
  {
  }

  /** A list: its items in order, with ", " between them. */
  lemma ListForms(x: Value, items: seq<Value>)
    requires Writable(x) && WritableItems([x] + items)
    ensures Writable(List([x])) && Writable(List([x] + items)) && Writable(List(items))
    ensures Encode(List([x])) == FromAscii("[") + Encode(x) + FromAscii("]")
    ensures items != [] ==>
      Encode(List([x] + items)) == FromAscii("[") + Encode(x) + FromAscii(", ") + Encode(List(items))[1..]
  {
    Punctuation();
    if items == [] {
      assert [x] + items == [x];
    } else {
      MoreItems(x, items);
      Bracketed(OPEN_LIST, Encode(x), EncodeItems(items), CLOSE_LIST, Encode(List(items)));
    }
  }

  lemma MoreEntries(e: Entry, entries: seq<Entry>)
    requires entries != [] && WritableEntries([e] + entries)
    ensures WritableEntries(entries)
    ensures EncodeEntries([e] + entries) == EncodeEntry(e) + [COMMA, SPACE] + EncodeEntries(entries)
  {
    assert ([e] + entries)[1..] == entries;
  }

  lemma DistinctRest(e: Entry, entries: seq<Entry>)
    requires DistinctKeys([e] + entries)
    ensures DistinctKeys([e]) && DistinctKeys(entries)
  {
    forall i, j | 0 <= i < j < |entries| ensures entries[i].key != entries[j].key {
      assert ([e] + entries)[i + 1].key != ([e] + entries)[j + 1].key;
    }
  }

  /** A dict: its entries in order, each the key as a string, ": " and the value, with ", " between them. */
  lemma DictForms(e: Entry, entries: seq<Entry>)
    requires Writable(Dict([e] + entries))
    ensures Writable(Str(e.key)) && Writable(e.value) && Writable(Dict([e])) && Writable(Dict(entries))
    ensures Encode(Dict([e])) ==
      FromAscii("{") + (Encode(Str(e.key)) + FromAscii(": ") + Encode(e.value)) + FromAscii("}")
    ensures entries != [] ==>
      Encode(Dict([e] + entries)) ==
        FromAscii("{") + (Encode(Str(e.key)) + FromAscii(": ") + Encode(e.value)) + FromAscii(", ")
          + Encode(Dict(entries))[1..]
  {
    Punctuation();
    DistinctRest(e, entries);
    assert ([e] + entries)[0] == e && ([e] + entries)[1..] == entries;
    assert EncodeEntry(e) == Encode(Str(e.key)) + [COLON, SPACE] + Encode(e.value);
    if entries != [] {
      MoreEntries(e, entries);
      Bracketed(OPEN_DICT, EncodeEntry(e), EncodeEntries(entries), CLOSE_DICT, Encode(Dict(entries)));
    }
  }

  lemma MoreCharacters(c: nat, s: Text)
    requires Characters(s) && c < 0x110000
    ensures Characters([c] + s) && EscapeAll([c] + s) == Escape(c) + EscapeAll(s)
  {
    assert ([c] + s)[1..] == s;
  }

  /** A string: its characters in order, each in its form, between quotes. */
  lemma StringForms(c: nat, s: Text)
    requires Characters(s) && c < 0x110000
    ensures Characters([c] + s)
    ensures Encode(Str([c] + s)) == FromAscii("\"") + Escape(c) + Encode(Str(s))[1..]
  {
    MoreCharacters(c, s);
    assert FromAscii("\"") == [QUOTE];
    var rest := Encode(Str(s));
    assert rest[1..] == EscapeAll(s) + [QUOTE];
  }
}
