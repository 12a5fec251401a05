/**
 The result line in the sandbox log: written by the runner amid arbitrary user output, found again by the worker
 (sandbox/runner.py, sandbox/k8s_sandbox.py).
 */
module ResultWire {
  import opened Base
  import opened Json
  import opened JsonText
  import opened JsonRoundTrip
  import opened JsonScan
  import opened WorkerTransactions

  /** "SOPM_RESULT:" */
  const PREFIX: Text := [83, 79, 80, 77, 95, 82, 69, 83, 85, 76, 84, 58]
  const NEWLINE: nat := 10

  // ---------- str.splitlines ----------

  /** Characters at which str.splitlines breaks. */
  predicate Separator(c: nat)
  {
    10 <= c <= 13 || 28 <= c <= 30 || c == 0x85 || c == 0x2028 || c == 0x2029
  }

  function LineLen(s: Text): (n: nat)
    ensures n <= |s|
  {
    if s == [] || Separator(s[0]) then 0 else 1 + LineLen(s[1..])
  }

  /** A carriage return followed by a newline is one break. */
  function BreakLen(s: Text, n: nat): nat
    requires n < |s|
  {
    if s[n] == 13 && n + 1 < |s| && s[n + 1] == 10 then 2 else 1
  }

  function AfterLine(s: Text): (r: Text)
    requires s != []
    ensures |r| < |s|
  {
    var n := LineLen(s);
    if n == |s| then [] else s[n + BreakLen(s, n)..]
  }

  function SplitLines(s: Text): seq<Text>
    decreases |s|
  {
    if s == [] then [] else [s[..LineLen(s)]] + SplitLines(AfterLine(s))
  }

  // ---------- the worker's side ----------

  predicate IsResultLine(line: Text)
  {
    Starts(line, PREFIX)
  }

  function Decoded(line: Text): Option<Value>
  {
    if IsResultLine(line) then Loads(line[|PREFIX|..]) else None
  }

  /** The last line that carries a decodable result. */
  function LastResult(lines: seq<Text>): Option<Value>
  {
    if lines == [] then None
    else
      var n := |lines| - 1;
      if Decoded(lines[n]).Some? then Decoded(lines[n]) else LastResult(lines[..n])
  }

  function ParseLog(log: Text): Option<Value>
  {
    LastResult(SplitLines(log))
  }

  function UserLines(lines: seq<Text>): seq<Text>
  {
    if lines == [] then []
    else
      var n := |lines| - 1;
      UserLines(lines[..n]) + if IsResultLine(lines[n]) then [] else [lines[n]]
  }

  /** The user lines are the lines that do not begin with the marker, in order, each as often as it was printed. */
  lemma UserLinesAre(lines: seq<Text>) returns (at: seq<nat>)
    ensures Places(at, |lines|) && |at| == |UserLines(lines)|
    ensures forall k | 0 <= k < |at| :: UserLines(lines)[k] == lines[at[k]]
    ensures forall i | 0 <= i < |lines| :: i in at <==> !(FromAscii("SOPM_RESULT:") <= lines[i])
  {
    at := UserPlaces(lines);
    forall i | 0 <= i < |lines| ensures IsResultLine(lines[i]) <==> FromAscii("SOPM_RESULT:") <= lines[i] {
      MarkerStarts(lines[i]);
    }
  }

  lemma {:induction false} UserPlaces(lines: seq<Text>) returns (at: seq<nat>)
    ensures Places(at, |lines|) && |at| == |UserLines(lines)|
    ensures forall k | 0 <= k < |at| :: UserLines(lines)[k] == lines[at[k]]
    ensures forall i | 0 <= i < |lines| :: i in at <==> !IsResultLine(lines[i])
    decreases |lines|
  {
    at := [];
    if lines != [] {
      var n := |lines| - 1;
      at := UserPlaces(lines[..n]);
      PlacesExtend(at, lines[..n], UserLines(lines[..n]), lines[n]);
      assert lines == lines[..n] + [lines[n]];
      forall i | 0 <= i < n ensures i in at <==> !IsResultLine(lines[i]) {
        assert lines[..n][i] == lines[i];
      }
      if !IsResultLine(lines[n]) {
        at := at + [n];
      }
    }
  }

  lemma MarkerStarts(line: Text)
    ensures IsResultLine(line) <==> FromAscii("SOPM_RESULT:") <= line
  {
    assert PREFIX == FromAscii("SOPM_RESULT:");
  }

  /** The result is that of the last line that decodes; there is none exactly when no line does. */
  lemma {:induction false} LastResultIs(lines: seq<Text>) returns (i: int)
    ensures -1 <= i < |lines|
    ensures forall j | i < j < |lines| :: Decoded(lines[j]) == None
    ensures i < 0 ==> LastResult(lines) == None
    ensures i >= 0 ==> Decoded(lines[i]).Some? && LastResult(lines) == Decoded(lines[i])
    decreases |lines|
  {
    i := |lines| - 1;
    if lines != [] && Decoded(lines[i]) == None {
      var before := lines[..i];
      i := LastResultIs(before);
      assert forall j | 0 <= j < |before| :: lines[j] == before[j];
    }
  }

  /** A line decodes when it begins with the marker and goes on with readable JSON. */
  lemma DecodedIs(line: Text)
    ensures Decoded(line) == if FromAscii("SOPM_RESULT:") <= line then Loads(line[12..]) else None
  {
    MarkerStarts(line);
  }

  /** str.splitlines: the characters that end a line. */
  lemma SeparatorsAre(c: nat)
    ensures Separator(c) <==> c in {10, 11, 12, 13, 28, 29, 30, 0x85, 0x2028, 0x2029}
  {
  }

  /** No line holds a separator; every line ends at one or at CR LF, only the last may end without, and then it is not
      empty; a CR is an end of its own only if no LF follows it. */
  ghost predicate LinesEnd(lines: seq<Text>, ends: seq<Text>)
  {
    && |ends| == |lines|
    && (forall k, i | 0 <= k < |lines| && 0 <= i < |lines[k]| :: !Separator(lines[k][i]))
    && (forall k | 0 <= k < |ends| :: EndOfLine(ends[k]) || (ends[k] == [] && lines[k] != [] && k == |ends| - 1))
    && (forall k | 0 <= k < |ends| - 1 && ends[k] == [13] :: First(lines[k + 1] + ends[k + 1]) != Some(10))
  }

  predicate EndOfLine(end: Text)
  {
    end == [13, 10] || (|end| == 1 && Separator(end[0]))
  }

  function First(s: Text): Option<nat>
  {
    if s == [] then None else Some(s[0])
  }

  /** The lines in order, with what ended them, are the text. */
  lemma {:induction false} SplitLinesIs(s: Text) returns (ends: seq<Text>)
    ensures LinesEnd(SplitLines(s), ends) && Joined(SplitLines(s), ends) == s
    decreases |s|
  {
    ends := [];
    if s != [] {
      var end := FirstEnd(s);
      var rest := AfterLine(s);
      var before := SplitLinesIs(rest);
      var lines := SplitLines(rest);
      if lines != [] {
        JoinedStarts(lines, before);
      }
      LineBefore(s[..LineLen(s)], end, lines, before);
      ends := [end] + before;
      UnfoldSplit(s);
      assert ends[1..] == before && ([s[..LineLen(s)]] + lines)[1..] == lines;
      assert Joined(SplitLines(s), ends) == s[..LineLen(s)] + end + rest;
    }
  }

  lemma FirstEnd(s: Text) returns (end: Text)
    requires s != []
    ensures s == s[..LineLen(s)] + end + AfterLine(s)
    ensures forall i | 0 <= i < LineLen(s) :: !Separator(s[i])
    ensures EndOfLine(end) || (end == [] && LineLen(s) == |s|)
    ensures end == [13] ==> First(AfterLine(s)) != Some(10)
  {
    LineIsPlain(s);
    var n := LineLen(s);
    end := if n == |s| then [] else s[n..n + BreakLen(s, n)];
  }

  lemma JoinedStarts(lines: seq<Text>, ends: seq<Text>)
    requires LinesEnd(lines, ends) && lines != []
    ensures First(Joined(lines, ends)) == First(lines[0] + ends[0])
  {
  }

  lemma LineBefore(line: Text, end: Text, lines: seq<Text>, ends: seq<Text>)
    requires LinesEnd(lines, ends) && forall i | 0 <= i < |line| :: !Separator(line[i])
    requires EndOfLine(end) || (end == [] && line != [] && lines == [])
    requires end == [13] && lines != [] ==> First(lines[0] + ends[0]) != Some(10)
    ensures LinesEnd([line] + lines, [end] + ends)
  {
  }

  function Joined(lines: seq<Text>, ends: seq<Text>): Text
    requires |lines| == |ends|
  {
    if lines == [] then [] else lines[0] + ends[0] + Joined(lines[1..], ends[1..])
  }

  lemma {:induction false} LineIsPlain(s: Text)
    ensures forall i | 0 <= i < LineLen(s) :: !Separator(s[i])
    ensures LineLen(s) < |s| ==> Separator(s[LineLen(s)])
    ensures s != [] && !Separator(s[0]) ==> LineLen(s) > 0
  {
    if s != [] && !Separator(s[0]) {
      LineIsPlain(s[1..]);
    }
  }

  function Entries(lines: seq<Text>): (r: seq<LogEntry>)
    ensures |r| == |lines|
  {
    seq(|lines|, i requires 0 <= i < |lines| => LogEntry("INFO", "stdout", lines[i]))
  }

  /** Scan the lines backwards; a result line that does not decode is passed over. */
  method ParseResultFromLogs(log: Text) returns (r: Option<Value>)
    ensures r == ParseLog(log)
  {
    var lines := SplitLines(log);
    var i := |lines|;
    assert lines[..i] == lines;
    while i > 0
      invariant 0 <= i <= |lines|
      invariant ParseLog(log) == LastResult(lines[..i])
    {
      i := i - 1;
      assert lines[..i + 1][..i] == lines[..i];
      if IsResultLine(lines[i]) {
        var decoded := Loads(lines[i][|PREFIX|..]);
        if decoded.Some? {
          return decoded;
        }
      }
    }
    return None;
  }

  /** One entry for each line that does not begin with the marker; `at` tells which line each entry is. */
  method FormatLogs(raw: Text) returns (entries: seq<LogEntry>, ghost at: seq<nat>)
    ensures entries == Entries(UserLines(SplitLines(raw)))
    ensures |at| == |entries| && Places(at, |SplitLines(raw)|)
    ensures forall k | 0 <= k < |at| :: entries[k] == LogEntry("INFO", "stdout", SplitLines(raw)[at[k]])
    ensures forall i | 0 <= i < |SplitLines(raw)| :: i in at <==> !(FromAscii("SOPM_RESULT:") <= SplitLines(raw)[i])
  {
    entries := [];
    var lines := SplitLines(raw);
    for i := 0 to |lines|
      invariant entries == Entries(UserLines(lines[..i]))
    {
      assert lines[..i + 1][..i] == lines[..i];
      if IsResultLine(lines[i]) {
        continue;
      }
      entries := entries + [LogEntry("INFO", "stdout", lines[i])];
    }
    assert lines[..|lines|] == lines;
    at := UserLinesAre(lines);
  }

  // ---------- the encoded value is one line ----------

  ghost predicate Plain(s: Text)
  {
    forall i | 0 <= i < |s| :: Printable(s[i])
  }

  lemma UnicodeIsPlain(n: nat)
    requires n < 0x10000
    ensures Plain(Unicode(n))
  {
  }

  lemma EscapeIsPlain(c: nat)
    requires c < 0x110000
    ensures Plain(Escape(c))
  {
    if c >= 0x10000 {
      AstralParts(c);
      UnicodeIsPlain(0xD800 + (c - 0x10000) / 0x400);
      UnicodeIsPlain(0xDC00 + (c - 0x10000) % 0x400);
    } else {
      EscapeForms(c);
      if !Short(c) {
        UnicodeIsPlain(c);
      }
    }
  }

  lemma {:induction false} EscapeAllIsPlain(s: Text)
    requires Characters(s)
    ensures Plain(EscapeAll(s))
    decreases |s|
  {
    if s != [] {
      EscapeIsPlain(s[0]);
      EscapeAllIsPlain(s[1..]);
    }
  }

  lemma LiteralsArePlain()
    ensures Plain(NAN) && Plain(INFINITY) && Plain([MINUS] + INFINITY)
  {
  }

  lemma FloatIsPlain(t: Text)
    requires FloatText(t)
    ensures Plain(t)
  {
    LiteralsArePlain();
    if NumberLen(t) == Some((|t|, true)) {
      forall i | 0 <= i < |t| ensures Printable(t[i]) {
        NumberChars(t, i);
      }
    }
  }

  /** json.dumps writes printable ASCII only: no escape, string or number puts a line break into it. */
  lemma {:induction false} EncodedIsPlain(v: Value)
    requires Writable(v)
    ensures Plain(Encode(v))
    decreases v, 0
  {
    match v
    case Int(i) =>
    case Float(t) => FloatIsPlain(t);
    case Str(s) => EscapeAllIsPlain(s);
    case List(items) => if items != [] { ItemsArePlain(items); }
    case Dict(entries) => if entries != [] { EntriesArePlain(entries); }
    case _ =>
  }

  lemma {:induction false} ItemsArePlain(items: seq<Value>)
    requires items != [] && WritableItems(items)
    ensures Plain(EncodeItems(items))
    decreases items, 1
  {
    EncodedIsPlain(items[0]);
    if |items| > 1 {
      ItemsArePlain(items[1..]);
    }
  }

  lemma {:induction false} EntriesArePlain(entries: seq<Entry>)
    requires entries != [] && WritableEntries(entries)
    ensures Plain(EncodeEntries(entries))
    decreases entries, 1
  {
    EscapeAllIsPlain(entries[0].key);
    EncodedIsPlain(entries[0].value);
    assert Plain(EncodeEntry(entries[0]));
    if |entries| > 1 {
      EntriesArePlain(entries[1..]);
    }
  }

  // ---------- splitting around the result line ----------

  /** Nothing, or text that ends its last line. */
  predicate EndsLine(a: Text)
  {
    a == [] || Separator(a[|a| - 1])
  }

  lemma {:induction false} LineLenOfLine(w: Text, b: Text)
    requires forall i | 0 <= i < |w| :: !Separator(w[i])
    requires b == [] || Separator(b[0])
    ensures LineLen(w + b) == |w|
    decreases |w|
  {
    if w == [] {
      assert w + b == b;
    } else {
      assert (w + b)[1..] == w[1..] + b;
      LineLenOfLine(w[1..], b);
    }
  }

  lemma {:induction false} LineLenExtends(a: Text, b: Text)
    requires LineLen(a) < |a|
    ensures LineLen(a + b) == LineLen(a)
    decreases |a|
  {
    if !Separator(a[0]) {
      assert (a + b)[1..] == a[1..] + b;
      LineLenExtends(a[1..], b);
    }
  }

  /** A first line that is over stays the first line, whatever follows. */
  lemma FirstLineStays(a: Text, b: Text)
    requires LineLen(a) < |a|
    requires a[|a| - 1] == 13 && b != [] ==> b[0] != 10
    ensures (a + b)[..LineLen(a + b)] == a[..LineLen(a)] && AfterLine(a + b) == AfterLine(a) + b
  {
    LineLenExtends(a, b);
    var n := LineLen(a);
    assert BreakLen(a + b, n) == BreakLen(a, n);
    TailOfConcat(a, b, n + BreakLen(a, n));
  }

  lemma UnfoldSplit(s: Text)
    requires s != []
    ensures SplitLines(s) == [s[..LineLen(s)]] + SplitLines(AfterLine(s))
  {
  }

  /** Lines on both sides of a break are independent, unless the cut is inside a CR LF pair. */
  lemma {:induction false} SplitAtBreak(a: Text, b: Text)
    requires EndsLine(a)
    requires a != [] && b != [] && a[|a| - 1] == 13 ==> b[0] != 10
    ensures SplitLines(a + b) == SplitLines(a) + SplitLines(b)
    decreases |a|
  {
    if a == [] {
      assert a + b == b;
    } else {
      var c := AfterLine(a);
      RestEndsLine(a);
      FirstLineStays(a, b);
      SplitAtBreak(c, b);
      UnfoldSplit(a);
      UnfoldSplit(a + b);
      Prepended(a[..LineLen(a)], SplitLines(a), SplitLines(a + b), SplitLines(c), SplitLines(c + b), SplitLines(b));
    }
  }

  lemma RestEndsLine(a: Text)
    requires a != [] && Separator(a[|a| - 1])
    ensures LineLen(a) < |a|
    ensures var c := AfterLine(a); c != [] ==> c[|c| - 1] == a[|a| - 1]
  {
    LineLenBound(a, |a| - 1);
  }

  lemma {:induction false} LineLenBound(a: Text, i: nat)
    requires i < |a| && Separator(a[i])
    ensures LineLen(a) <= i
    decreases |a|
  {
    if i > 0 {
      LineLenBound(a[1..], i - 1);
    }
  }

  lemma Prepended<T>(x: T, a: seq<T>, ab: seq<T>, c: seq<T>, cb: seq<T>, b: seq<T>)
    requires a == [x] + c && ab == [x] + cb && cb == c + b
    ensures ab == a + b
  {
  }

  lemma LineThenNewline(w: Text, b: Text)
    requires forall i | 0 <= i < |w| :: !Separator(w[i])
    ensures SplitLines(w + ([NEWLINE] + b)) == [w] + SplitLines(b)
  {
    var s := w + ([NEWLINE] + b);
    LineLenOfLine(w, [NEWLINE] + b);
    assert s[..|w|] == w && s[|w| + 1..] == b;
    UnfoldSplit(s);
  }

  lemma {:induction false} LastResultOfConcat(a: seq<Text>, b: seq<Text>)
    ensures LastResult(a + b) == if LastResult(b).Some? then LastResult(b) else LastResult(a)
    decreases |b|
  {
    if b == [] {
      assert a + b == a;
    } else {
      var n := |b| - 1;
      assert (a + b)[..|a| + n] == a + b[..n];
      LastResultOfConcat(a, b[..n]);
    }
  }

  predicate EndsAtNewline(a: Text)
  {
    a == [] || a[|a| - 1] == NEWLINE
  }

  /** Cutting a log at a newline: the later part decides whenever it holds a decodable result. */
  lemma LaterPartWins(a: Text, b: Text)
    requires EndsAtNewline(a)
    ensures ParseLog(a + b) == if ParseLog(b).Some? then ParseLog(b) else ParseLog(a)
  {
    SplitAtBreak(a, b);
    LastResultOfConcat(SplitLines(a), SplitLines(b));
  }

  /** The line still open at the end of some output. */
  function OpenLine(a: Text): (u: Text)
    ensures |u| <= |a| && u == a[|a| - |u|..]
    ensures forall i | 0 <= i < |u| :: !Separator(u[i])
    ensures EndsLine(a[..|a| - |u|])
  {
    if EndsLine(a) then [] else OpenLine(a[..|a| - 1]) + [a[|a| - 1]]
  }

  lemma StartsAt(s: Text, w: Text, i: nat)
    requires i < |w|
    ensures Starts(s, w) ==> i < |s| && s[i] == w[i]
  {
    assert Starts(s, w) ==> s[i] == s[..|w|][i];
  }

  /** No proper shift of the prefix matches itself, so text glued in front of it hides it. */
  lemma GluedPrefix(u: Text, t: Text)
    requires u != [] && !Starts(u, PREFIX)
    ensures !Starts(u + (PREFIX + t), PREFIX)
  {
    var s := u + (PREFIX + t);
    if |u| >= 12 {
      assert s[..12] == u[..12];
    } else {
      assert s[|u|] == 83 && s[|u| + 1] == 79;
      StartsAt(s, PREFIX, |u|);
      StartsAt(s, PREFIX, 8);
    }
  }

  lemma Reassemble(p: Text, u: Text, a: Text, b: Text, c: Text, d: Text)
    ensures (p + u) + (a + b + c + d) == p + ((u + (a + b)) + (c + d))
  {
  }

  /** One whole line in the middle of a log. */
  lemma LineInTheMiddle(p: Text, line: Text, tail: Text)
    requires EndsLine(p) && line != [] && forall i | 0 <= i < |line| :: !Separator(line[i])
    ensures ParseLog(p + (line + ([NEWLINE] + tail))) ==
      if ParseLog(tail).Some? then ParseLog(tail)
      else if Decoded(line).Some? then Decoded(line)
      else ParseLog(p)
  {
    var after := line + ([NEWLINE] + tail);
    LineThenNewline(line, tail);
    assert after[0] == line[0];
    SplitAtBreak(p, after);
    LastResultOfConcat(SplitLines(p), SplitLines(after));
    LastResultOfConcat([line], SplitLines(tail));
    assert LastResult([line]) == Decoded(line);
  }

  /** The line a result ends up on decodes exactly if the result begins the line: behind other text the prefix is
      hidden, and behind an earlier prefix the whole is no JSON text. */
  lemma DecodedBehind(u: Text, v: Value)
    requires Writable(v)
    ensures Decoded(u + (PREFIX + Encode(v))) == if u == [] then Some(Merged(v)) else None
  {
    var line, e := u + (PREFIX + Encode(v)), Encode(v);
    if u == [] {
      assert line[..|PREFIX|] == PREFIX && line[|PREFIX|..] == e;
      RoundTrip(v);
    } else if !Starts(u, PREFIX) {
      GluedPrefix(u, e);
    } else {
      assert line[|PREFIX|..] == u[|PREFIX|..] + (PREFIX + e);
      GluedIsUnreadable(u[|PREFIX|..], PREFIX, v);
    }
  }

  /** A text e printed behind an open line u. */
  lemma PrintedBehind(p: Text, u: Text, e: Text, tail: Text)
    requires EndsLine(p)
    requires (forall i | 0 <= i < |u| :: !Separator(u[i])) && forall i | 0 <= i < |e| :: !Separator(e[i])
    ensures ParseLog((p + u) + (PREFIX + e + [NEWLINE] + tail)) ==
      if ParseLog(tail).Some? then ParseLog(tail)
      else if Decoded(u + (PREFIX + e)).Some? then Decoded(u + (PREFIX + e))
      else ParseLog(p)
  {
    Reassemble(p, u, PREFIX, e, [NEWLINE], tail);
    LineInTheMiddle(p, u + (PREFIX + e), tail);
  }

  lemma EncodedIsOneLine(v: Value)
    requires Writable(v)
    ensures forall i | 0 <= i < |Encode(v)| :: !Separator(Encode(v)[i])
  {
    EncodedIsPlain(v);
  }

  /**
   What the worker makes of a log in which, after some output `a`, the runner printed the result v, and `tail` came
   later: a decodable result in the tail wins; otherwise v comes back (split surrogate pairs joined) exactly when the
   output before it had ended its line; otherwise the result is lost and only what came before counts.
   */
  lemma EmittedResult(a: Text, v: Value, tail: Text)
    requires Writable(v)
    ensures Decoded(OpenLine(a) + (PREFIX + Encode(v))).Some? <==> OpenLine(a) == []
    ensures var log := a + (PREFIX + Encode(v) + [NEWLINE] + tail);
      ParseLog(log) ==
        if ParseLog(tail).Some? then ParseLog(tail)
        else if OpenLine(a) == [] then Some(Merged(v))
        else ParseLog(a[..|a| - |OpenLine(a)|])
  {
    var u := OpenLine(a);
    var p := a[..|a| - |u|];
    EncodedIsOneLine(v);
    assert a == p + u;
    DecodedBehind(u, v);
    PrintedBehind(p, u, Encode(v), tail);
  }

  lemma ResultLast(a: Text, v: Value)
    requires Writable(v) && a != [] && a[|a| - 1] == NEWLINE
    ensures ParseLog(a + (PREFIX + Encode(v) + [NEWLINE] + [])) == Some(Merged(v))
  {
    assert OpenLine(a) == [];
    EmittedResult(a, v, []);
  }

  /** The success path: whatever the handler printed, finished line or not, the runner's own "completed" line comes
      before the result, so the result comes back; exactly, if it holds no split surrogate pair. */
  lemma SuccessPathRoundTrip(output: Text, completed: Text, v: Value)
    requires Writable(v) && completed != [] && completed[|completed| - 1] == NEWLINE
    ensures var log := output + completed + (PREFIX + Encode(v) + [NEWLINE] + []);
      ParseLog(log) == Some(Merged(v)) && (ParseLog(log) == Some(v) <==> Safe(v))
  {
    ResultLast(output + completed, v);
    RoundTrip(v);
  }

  // ---------- log truncation ----------

  /** Position after the first newline, or the end. */
  function FirstLine(s: Text): (n: nat)
    requires s != []
    ensures 1 <= n <= |s| && (n < |s| ==> s[n - 1] == NEWLINE)
  {
    if s[0] == NEWLINE || |s| == 1 then 1 else 1 + FirstLine(s[1..])
  }

  function CountLines(s: Text): nat
    decreases |s|
  {
    if s == [] then 0 else 1 + CountLines(s[FirstLine(s)..])
  }

  /** The last k newline-terminated lines of a log, as the log API returns them. */
  function TailLines(s: Text, k: nat): Text
    decreases |s|
  {
    if CountLines(s) <= k then s else TailLines(s[FirstLine(s)..], k)
  }

  lemma {:induction false} NoBreakBefore(s: Text)
    requires s != []
    ensures forall i | 0 <= i < FirstLine(s) - 1 :: s[i] != 10
    ensures FirstLine(s) == |s| || s[FirstLine(s) - 1] == 10
    decreases |s|
  {
    if s[0] != 10 && |s| > 1 {
      NoBreakBefore(s[1..]);
    }
  }

  function OpenEnd(s: Text): nat
  {
    if s == [] || s[|s| - 1] == 10 then 0 else 1
  }

  /** The lines of a log: its newlines, and one more if something follows the last of them. */
  lemma {:induction false} LinesCounted(s: Text)
    ensures CountLines(s) == multiset(s)[10] + OpenEnd(s)
    decreases |s|
  {
    if s != [] {
      FirstLineCounts(s, s[FirstLine(s)..]);
      LinesCounted(s[FirstLine(s)..]);
    }
  }

  lemma FirstLineCounts(s: Text, rest: Text)
    requires s != [] && rest == s[FirstLine(s)..]
    ensures 1 + multiset(rest)[10] + OpenEnd(rest) == multiset(s)[10] + OpenEnd(s)
  {
    var n := FirstLine(s);
    NoBreakBefore(s);
    SameEnd(s, n);
    var a := s[..n - 1];
    CountAfter(a, s[n - 1], rest);
    PutTogether(s, n);
  }

  lemma SameEnd(s: Text, n: nat)
    requires 0 < n <= |s| && (n == |s| || s[n - 1] == 10)
    ensures 1 + OpenEnd(s[n..]) == (if s[n - 1] == 10 then 1 else 0) + OpenEnd(s)
  {
  }

  lemma PutTogether(s: Text, n: nat)
    requires 0 < n <= |s|
    ensures s == s[..n - 1] + ([s[n - 1]] + s[n..])
  {
  }

  lemma CountAfter(a: Text, c: nat, rest: Text)
    requires forall i | 0 <= i < |a| :: a[i] != 10
    ensures multiset(a + ([c] + rest))[10] == (if c == 10 then 1 else 0) + multiset(rest)[10]
  {
    assert 10 !in a;
    assert multiset(a)[10] == 0;
  }

  /** Of more than k lines, exactly k are fetched. */
  lemma {:induction false} TailCounts(s: Text, k: nat)
    ensures CountLines(TailLines(s, k)) == if CountLines(s) <= k then CountLines(s) else k
    ensures CountLines(s) <= k ==> TailLines(s, k) == s
    decreases |s|
  {
    if CountLines(s) > k {
      TailCounts(s[FirstLine(s)..], k);
    }
  }

  lemma {:induction false} TailIsACut(s: Text, k: nat) returns (a: Text)
    requires k >= 1
    ensures s == a + TailLines(s, k) && EndsAtNewline(a)
    decreases |s|
  {
    a := [];
    if CountLines(s) > k {
      var n := FirstLine(s);
      ManyLines(s);
      var rest := s[n..];
      a := TailIsACut(rest, k);
      Glue(s, n, a, TailLines(rest, k));
      a := s[..n] + a;
    }
  }

  lemma ManyLines(s: Text)
    requires CountLines(s) >= 2
    ensures FirstLine(s) < |s| && s[FirstLine(s) - 1] == NEWLINE
  {
    assert s[|s|..] == [];
  }

  lemma Glue(s: Text, n: nat, a: Text, b: Text)
    requires 0 < n <= |s| && s[n..] == a + b && s[n - 1] == NEWLINE && EndsAtNewline(a)
    ensures s == (s[..n] + a) + b && EndsAtNewline(s[..n] + a)
  {
    assert s == s[..n] + s[n..];
  }

  /** Fetching only the last k lines never changes the answer when one of them decodes. */
  lemma TruncationIsHarmless(s: Text, k: nat)
    requires k >= 1 && ParseLog(TailLines(s, k)).Some?
    ensures ParseLog(s) == ParseLog(TailLines(s, k))
  {
    var a := TailIsACut(s, k);
    LaterPartWins(a, TailLines(s, k));
  }
}
