/**
 PO catalogues as they are written: comments and flags, strings cut into continuation lines, blank
 lines. Reading what was written gives the entries without the fuzzy ones; lines of plural and
 context entries are refused wherever they stand.
 */
module RawCatalogs {
  import opened Wrappers
  import opened Strings
  import opened Utf8
  import opened PoCatalog
  import opened FuzzyFlags

  // One entry of a file: its comment lines, and the pieces its strings are cut into.
  datatype RawEntry = RawEntry(comments: seq<string>, key: seq<Text>, value: seq<Text>)

  // A comment begins with a number sign; one that begins "#," and says fuzzy is a mark.
  ghost predicate Marks(comment: string) {
    && 2 <= |comment| && comment[0] == '#' && comment[1] == ','
    && exists i: nat :: OccursAt(comment, "fuzzy", i)
  }

  predicate Written(e: RawEntry) {
    && e.key != [] && e.value != []
    && forall i :: 0 <= i < |e.comments| ==> e.comments[i] != "" && e.comments[i][0] == '#'
  }

  // "msgid " with the first piece, and a line for every other.
  function Pieces(escape: Text -> string, keyword: string, pieces: seq<Text>): seq<string>
    requires pieces != []
  {
    if |pieces| == 1 then [keyword + escape(pieces[0])]
    else Pieces(escape, keyword, pieces[..|pieces| - 1]) + [escape(pieces[|pieces| - 1])]
  }

  function PrintEntry(escape: Text -> string, e: RawEntry): seq<string>
    requires Written(e)
  {
    e.comments + Pieces(escape, "msgid ", e.key) + Pieces(escape, "msgstr ", e.value) + [""]
  }

  function PrintFile(escape: Text -> string, es: seq<RawEntry>): seq<string>
    requires forall i :: 0 <= i < |es| ==> Written(es[i])
  {
    if es == [] then [] else PrintEntry(escape, es[0]) + PrintFile(escape, es[1..])
  }

  ghost predicate IsFuzzy(e: RawEntry) { exists i :: 0 <= i < |e.comments| && Marks(e.comments[i]) }

  ghost function EntryOf(e: RawEntry): Entry { Entry(IsFuzzy(e), JoinParts(e.key), JoinParts(e.value)) }

  ghost function EntriesOf(es: seq<RawEntry>): seq<Entry> {
    if es == [] then [] else [EntryOf(es[0])] + EntriesOf(es[1..])
  }

  // ---------- Single lines ----------

  // Blanks at the end take nothing from a word.
  lemma OccursInStripped(s: string, end: string, part: string)
    requires Blanks(end) && part != "" && forall i :: 0 <= i < |part| ==> !IsSpace(part[i])
    ensures (exists i: nat :: OccursAt(s + end, part, i)) <==> exists i: nat :: OccursAt(s, part, i)
  {
    if i: nat :| OccursAt(s, part, i) {
      assert (s + end)[i..i + |part|] == s[i..i + |part|];
      assert OccursAt(s + end, part, i);
    }
    if i: nat :| OccursAt(s + end, part, i) {
      var k := |part| - 1;
      assert (s + end)[i + k] == (s + end)[i..i + |part|][k] == part[k];
      forall j | |s| <= j < |s + end| ensures IsSpace((s + end)[j]) { assert (s + end)[j] == end[j - |s|]; }
      assert i + k < |s|;
      assert (s + end)[i..i + |part|] == s[i..i + |part|];
      assert OccursAt(s, part, i);
    }
  }

  lemma CommentLine(comment: string)
    requires comment != "" && comment[0] == '#'
    ensures Classify(comment) == if Marks(comment) then FuzzyFlag else Other
  {
    var line := Strip(comment);
    var start, end := StripMeaning(comment);
    assert comment == line + end;
    forall j | |line| <= j < |comment| ensures IsSpace(comment[j]) { assert comment[j] == end[j - |line|]; }
    assert line[0] == '#';
    ContainsMeaning(line, "fuzzy");
    OccursInStripped(line, end, "fuzzy");
    MarkPrefix(comment, line, end);
    PrefixAt(line, "msgctxt ", 0);
    PrefixAt(line, "msgid_plural ", 0);
    PrefixAt(line, "msgid ", 0);
    PrefixAt(line, "msgstr ", 0);
    PrefixAt(line, "\"", 0);
  }

  lemma MarkPrefix(comment: string, line: string, end: string)
    requires comment == line + end && Blanks(end) && line != "" && line[0] == '#'
    ensures StartsWith(line, "#,") <==> 2 <= |comment| && comment[0] == '#' && comment[1] == ','
  {
    forall j | |line| <= j < |comment| ensures IsSpace(comment[j]) { assert comment[j] == end[j - |line|]; }
    if 2 <= |comment| && comment[1] == ',' {
      assert 2 <= |line|;
      assert line[..2] == "#,";
    }
    if StartsWith(line, "#,") { assert line[1] == line[..2][1]; }
  }

  lemma QuoteLine(literal: string)
    requires IsLiteral(literal)
    ensures Classify(literal) == Quote(literal)
  {
    Unstripped(literal);
    PrefixAt(literal, "#,", 0);
    PrefixAt(literal, "msgctxt ", 0);
    PrefixAt(literal, "msgid_plural ", 0);
    PrefixAt(literal, "msgid ", 0);
    PrefixAt(literal, "msgstr ", 0);
    assert literal[..1] == "\"";
  }

  /** Indentation and trailing blanks change no line. */
  lemma PaddingChangesNothing(start: string, raw: string, end: string)
    requires Blanks(start) && Blanks(end)
    ensures Classify(start + raw + end) == Classify(raw)
  {
    var a, b := StripMeaning(raw);
    if Strip(raw) != "" {
      assert start + raw + end == (start + a) + Strip(raw) + (b + end);
      StripOf(start + a, Strip(raw), b + end);
    } else {
      assert raw == a + b;
      StripBlanks(start + raw + end);
    }
  }

  // ---------- Reading what was written ----------

  // The body of an entry: continuation lines, the msgstr line, continuation lines.
  function Quotes(escape: Text -> string, pieces: seq<Text>): seq<Line> {
    seq(|pieces|, i requires 0 <= i < |pieces| => Quote(escape(pieces[i])))
  }

  function Body(escape: Text -> string, key: seq<Text>, value: seq<Text>): seq<Line>
    requires value != []
  {
    Quotes(escape, key) + [MsgStr(escape(value[0]))] + Quotes(escape, value[1..])
  }

  lemma {:induction false} PieceLines(
    x: Syntax, escape: Text -> string, keyword: string, first: Line, pieces: seq<Text>)
    requires Prints(x, escape) && pieces != [] && Classify(keyword + escape(pieces[0])) == first
    ensures ClassifyAll(Pieces(escape, keyword, pieces)) == [first] + Quotes(escape, pieces[1..])
  {
    if |pieces| > 1 {
      var n := |pieces| - 1;
      PieceLines(x, escape, keyword, first, pieces[..n]);
      QuoteLine(escape(pieces[n]));
      ClassifyJoins(Pieces(escape, keyword, pieces[..n]), [escape(pieces[n])]);
      QuotesPush(escape, pieces[1..]);
      WithoutEnds(pieces);
    }
  }

  lemma QuotesPush(escape: Text -> string, pieces: seq<Text>)
    requires pieces != []
    ensures var n := |pieces| - 1;
            Quotes(escape, pieces) == Quotes(escape, pieces[..n]) + [Quote(escape(pieces[n]))]
  {
  }

  lemma EntryLines(x: Syntax, escape: Text -> string, e: RawEntry)
    requires Prints(x, escape) && Written(e)
    ensures ClassifyAll(PrintEntry(escape, e)) ==
            ClassifyAll(e.comments) + ([MsgId(escape(e.key[0]))] + Body(escape, e.key[1..], e.value) + [Blank])
  {
    ClassifyPrintedId(escape(e.key[0]));
    ClassifyPrintedStr(escape(e.value[0]));
    ClassifyEmpty();
    PieceLines(x, escape, "msgid ", MsgId(escape(e.key[0])), e.key);
    PieceLines(x, escape, "msgstr ", MsgStr(escape(e.value[0])), e.value);
    var ids, strs := Pieces(escape, "msgid ", e.key), Pieces(escape, "msgstr ", e.value);
    ClassifyFour(e.comments, ids, strs, [""]);
    assert ClassifyAll([""]) == [Blank];
    BodyAround([MsgId(escape(e.key[0]))], Quotes(escape, e.key[1..]), [MsgStr(escape(e.value[0]))],
               Quotes(escape, e.value[1..]));
  }

  lemma ClassifyFour(a: seq<string>, b: seq<string>, c: seq<string>, d: seq<string>)
    ensures ClassifyAll(a + b + c + d) == ClassifyAll(a) + (ClassifyAll(b) + ClassifyAll(c) + ClassifyAll(d))
  {
    ClassifyJoins(a, b);
    ClassifyJoins(a + b, c);
    ClassifyJoins(a + b + c, d);
    BodyAround(ClassifyAll(a), ClassifyAll(b), ClassifyAll(c), ClassifyAll(d));
    assert ClassifyAll(a) + ClassifyAll(b) + ClassifyAll(c) + ClassifyAll(d)
           == ClassifyAll(a) + (ClassifyAll(b) + ClassifyAll(c) + ClassifyAll(d));
  }

  lemma BodyAround(a: seq<Line>, b: seq<Line>, c: seq<Line>, d: seq<Line>)
    ensures (a + b) + (c + d) == a + (b + c + d)
  {
  }

  lemma WithoutEnds<T>(s: seq<T>)
    requires 2 <= |s|
    ensures var n := |s| - 1; |s[1..]| == n && s[1..][..n - 1] == s[..n][1..] && s[1..][n - 1] == s[n]
  {
  }

  lemma {:induction false} JoinFront(pieces: seq<Text>)
    requires pieces != []
    ensures JoinParts(pieces) == pieces[0] + JoinParts(pieces[1..])
  {
    var n := |pieces| - 1;
    if n == 0 {
      JoinOne(pieces[0]);
      assert pieces == [pieces[0]];
    } else {
      JoinFront(pieces[..n]);
      WithoutEnds(pieces);
    }
  }

  // Quoted lines before the msgstr line belong to the key.
  lemma {:induction false} KeyQuotes(x: Syntax, escape: Text -> string, pieces: seq<Text>)
    requires Prints(x, escape)
    ensures var lines := Quotes(escape, pieces);
            !HasStr(lines) && !HasFlag(lines) && KeyRest(x, lines) == JoinParts(pieces)
  {
    if pieces != [] {
      var n := |pieces| - 1;
      KeyQuotes(x, escape, pieces[..n]);
      QuotesPush(escape, pieces);
      OneMoreLine(x, Quotes(escape, pieces[..n]), Quote(escape(pieces[n])));
    }
  }

  lemma OneMoreQuote(x: Syntax, escape: Text -> string, lines: seq<Line>, piece: Text)
    requires Prints(x, escape) && HasStr(lines)
    ensures var more := lines + [Quote(escape(piece))];
            && HasStr(more) && HasFlag(more) == HasFlag(lines) && KeyRest(x, more) == KeyRest(x, lines)
            && Value(x, more) == Value(x, lines) + piece
  {
    OneMoreLine(x, lines, Quote(escape(piece)));
  }

  // And those after it to the value.
  lemma {:induction false} ValueQuotes(x: Syntax, escape: Text -> string, before: seq<Line>, value: seq<Text>)
    requires Prints(x, escape) && value != [] && !HasFlag(before)
    ensures var lines := before + [MsgStr(escape(value[0]))] + Quotes(escape, value[1..]);
            && HasStr(lines) && !HasFlag(lines) && KeyRest(x, lines) == KeyRest(x, before)
            && Value(x, lines) == JoinParts(value)
  {
    var first := before + [MsgStr(escape(value[0]))];
    OneMoreLine(x, before, MsgStr(escape(value[0])));
    if |value| == 1 {
      assert first + Quotes(escape, value[1..]) == first;
      JoinOne(value[0]);
      assert value == [value[0]];
    } else {
      var n := |value| - 1;
      ValueQuotes(x, escape, before, value[..n]);
      var front, last := Quotes(escape, value[..n][1..]), Quote(escape(value[n]));
      QuotesPush(escape, value[1..]);
      WithoutEnds(value);
      Regroup(first, front, [last]);
      OneMoreQuote(x, escape, first + front, value[n]);
    }
  }

  lemma BodyMeaning(x: Syntax, escape: Text -> string, key: seq<Text>, value: seq<Text>)
    requires Prints(x, escape) && value != []
    ensures var body := Body(escape, key, value);
            && IsBody(body) && GoodBody(x, body) && !HasFlag(body)
            && KeyRest(x, body) == JoinParts(key) && Value(x, body) == JoinParts(value)
  {
    KeyQuotes(x, escape, key);
    ValueQuotes(x, escape, Quotes(escape, key), value);
    GoodQuotes(x, escape, key);
    GoodQuotes(x, escape, value[1..]);
    GoodJoins(x, Quotes(escape, key), [MsgStr(escape(value[0]))]);
    GoodJoins(x, Quotes(escape, key) + [MsgStr(escape(value[0]))], Quotes(escape, value[1..]));
  }

  lemma GoodQuotes(x: Syntax, escape: Text -> string, pieces: seq<Text>)
    requires Prints(x, escape)
    ensures IsBody(Quotes(escape, pieces)) && GoodBody(x, Quotes(escape, pieces))
  {
  }

  lemma GoodJoins(x: Syntax, a: seq<Line>, b: seq<Line>)
    requires IsBody(a) && IsBody(b) && GoodBody(x, a) && GoodBody(x, b)
    ensures IsBody(a + b) && GoodBody(x, a + b)
  {
  }

  // Comments set the flag if one of them is a mark.
  lemma {:induction false} ReadComments(x: Syntax, comments: seq<string>, rest: seq<Line>, pending: bool)
    requires forall i :: 0 <= i < |comments| ==> comments[i] != "" && comments[i][0] == '#'
    ensures var fuzzy := pending || exists i :: 0 <= i < |comments| && Marks(comments[i]);
            Entries(x, ClassifyAll(comments) + rest, pending) == Entries(x, rest, fuzzy)
    decreases |comments|
  {
    if comments == [] {
      assert ClassifyAll(comments) + rest == rest;
    } else {
      var line := Classify(comments[0]);
      CommentLine(comments[0]);
      assert ClassifyAll(comments) + rest == [line] + (ClassifyAll(comments[1..]) + rest);
      EntriesSkip(x, line, ClassifyAll(comments[1..]) + rest, pending);
      ReadComments(x, comments[1..], rest, pending || line == FuzzyFlag);
      SomeMarks(comments);
    }
  }

  lemma SomeMarks(comments: seq<string>)
    requires comments != []
    ensures (exists i :: 0 <= i < |comments| && Marks(comments[i]))
            <==> Marks(comments[0]) || exists i :: 0 <= i < |comments[1..]| && Marks(comments[1..][i])
  {
    if i :| 0 <= i < |comments| && Marks(comments[i]) {
      if i > 0 { assert Marks(comments[1..][i - 1]); }
    }
    if i :| 0 <= i < |comments[1..]| && Marks(comments[1..][i]) { assert Marks(comments[i + 1]); }
  }

  lemma ReadEntry(x: Syntax, escape: Text -> string, e: RawEntry, rest: seq<Line>)
    requires Prints(x, escape) && Written(e)
    ensures Entries(x, ClassifyAll(PrintEntry(escape, e)) + rest, false)
            == Before(Some(EntryOf(e)), Entries(x, rest, false))
  {
    var id, body := escape(e.key[0]), Body(escape, e.key[1..], e.value);
    EntryLines(x, escape, e);
    var tail := [MsgId(id)] + body + ([Blank] + rest);
    Regroup(ClassifyAll(e.comments), [MsgId(id)] + body + [Blank], rest);
    Regroup([MsgId(id)] + body, [Blank], rest);
    ReadComments(x, e.comments, tail, false);
    BodyMeaning(x, escape, e.key[1..], e.value);
    EntryThen(x, id, body, [Blank] + rest, IsFuzzy(e));
    EntriesSkip(x, Blank, rest, false);
    JoinFront(e.key);
  }

  // The entries of a written file in front of whatever comes after it.
  lemma {:induction false} ReadFile(x: Syntax, escape: Text -> string, es: seq<RawEntry>, rest: seq<Line>)
    requires Prints(x, escape) && forall i :: 0 <= i < |es| ==> Written(es[i])
    ensures var after := Entries(x, rest, false);
            Entries(x, ClassifyAll(PrintFile(escape, es)) + rest, false)
            == if after.None? then None else Some(EntriesOf(es) + after.value)
  {
    if es == [] {
      assert ClassifyAll(PrintFile(escape, es)) + rest == rest;
      var after := Entries(x, rest, false);
      if after.Some? { assert [] + after.value == after.value; }
    } else {
      var tail := ClassifyAll(PrintFile(escape, es[1..]));
      ReadFile(x, escape, es[1..], rest);
      ReadEntry(x, escape, es[0], tail + rest);
      ClassifyJoins(PrintEntry(escape, es[0]), PrintFile(escape, es[1..]));
      Regroup(ClassifyAll(PrintEntry(escape, es[0])), tail, rest);
      BeforeJoins(EntryOf(es[0]), EntriesOf(es[1..]), Entries(x, rest, false));
    }
  }

  lemma BeforeJoins(e: Entry, es: seq<Entry>, after: Option<seq<Entry>>)
    ensures Before(Some(e), if after.None? then None else Some(es + after.value))
            == if after.None? then None else Some([e] + es + after.value)
  {
    if after.Some? { assert [e] + (es + after.value) == [e] + es + after.value; }
  }

  // The pairs of the entries that are not fuzzy.
  ghost function Pairs(es: seq<RawEntry>): seq<(Text, Text)> {
    if es == [] then []
    else (if IsFuzzy(es[0]) then [] else [(JoinParts(es[0].key), JoinParts(es[0].value))]) + Pairs(es[1..])
  }

  function Updated(m: map<Text, Text>, pairs: seq<(Text, Text)>): map<Text, Text>
    decreases |pairs|
  {
    if pairs == [] then m else Updated(m[pairs[0].0 := pairs[0].1], pairs[1..])
  }

  lemma {:induction false} GatherPairs(x: Syntax, m: map<Text, Text>, es: seq<RawEntry>)
    requires Printable(x, Pairs(es))
    ensures Gather(x, m, EntriesOf(es)) == Some(Updated(m, Pairs(es)))
    decreases |es|
  {
    if es != [] {
      var first, rest := EntryOf(es[0]), EntriesOf(es[1..]);
      GatherOne(x, m, first, rest);
      if IsFuzzy(es[0]) {
        assert Pairs(es) == Pairs(es[1..]);
        GatherPairs(x, m, es[1..]);
      } else {
        var pair := (first.key, first.value);
        assert Pairs(es) == [pair] + Pairs(es[1..]);
        assert Pairs(es)[0] == pair && Pairs(es)[1..] == Pairs(es[1..]);
        forall i | 0 <= i < |Pairs(es[1..])|
          ensures Pairs(es[1..])[i].0 == []
                  || (Pairs(es[1..])[i].1 != [] && x.holders(Pairs(es[1..])[i].0) == x.holders(Pairs(es[1..])[i].1))
        {
          assert Pairs(es)[i + 1] == Pairs(es[1..])[i];
        }
        GatherPairs(x, m[first.key := first.value], es[1..]);
      }
    }
  }

  lemma {:induction false} UpdatedIsMap(m: map<Text, Text>, pairs: seq<(Text, Text)>)
    ensures Updated(m, pairs) == m + AsMap(pairs)
    decreases |pairs|
  {
    if pairs == [] {
      assert m + map[] == m;
    } else {
      UpdatedIsMap(m[pairs[0].0 := pairs[0].1], pairs[1..]);
      MapFront(pairs);
    }
  }

  lemma {:induction false} MapFront(pairs: seq<(Text, Text)>)
    requires pairs != []
    ensures AsMap(pairs) == map[pairs[0].0 := pairs[0].1] + AsMap(pairs[1..])
  {
    var n := |pairs| - 1;
    if n == 0 {
      assert pairs[..0] == [];
    } else {
      MapFront(pairs[..n]);
      WithoutEnds(pairs);
    }
  }

  lemma WrittenEntries(x: Syntax, escape: Text -> string, es: seq<RawEntry>)
    requires Prints(x, escape) && forall i :: 0 <= i < |es| ==> Written(es[i])
    ensures Entries(x, ClassifyAll(PrintFile(escape, es)), false) == Some(EntriesOf(es))
  {
    ReadFile(x, escape, es, []);
    assert ClassifyAll(PrintFile(escape, es)) + [] == ClassifyAll(PrintFile(escape, es));
    assert EntriesOf(es) + [] == EntriesOf(es);
  }

  /** Every line of flags with fuzzy among them is a mark. */
  lemma FlagLineMarks(before: string, after: string)
    ensures Marks("#, " + before + "fuzzy" + after)
  {
    var comment := "#, " + before + "fuzzy" + after;
    var i := 3 + |before|;
    assert comment[i..i + 5] == "fuzzy";
    assert OccursAt(comment, "fuzzy", i);
  }

  /** Writing a file, with any comments and flags and with every string cut into any number of lines,
      and reading it back gives the entries without the fuzzy ones; and without translations, and
      refused for different placeholders, exactly as adding those entries in order says. */
  lemma {:induction false} WriteThenRead(x: Syntax, escape: Text -> string, es: seq<RawEntry>)
    requires Prints(x, escape) && forall i :: 0 <= i < |es| ==> Written(es[i])
    ensures Finish(x, START, ClassifyAll(PrintFile(escape, es))) == Gather(x, map[], EntriesOf(es))
    ensures Printable(x, Pairs(es)) ==>
              Finish(x, START, ClassifyAll(PrintFile(escape, es))) == Some(AsMap(Pairs(es)))
  {
    WrittenEntries(x, escape, es);
    MachineMeansEntries(x, START, ClassifyAll(PrintFile(escape, es)));
    if Printable(x, Pairs(es)) {
      GatherPairs(x, map[], es);
      UpdatedIsMap(map[], Pairs(es));
      assert map[] + AsMap(Pairs(es)) == AsMap(Pairs(es));
    }
  }

  // ---------- Lines that are refused ----------

  // A line of a context or plural entry, however it is indented.
  ghost predicate Refused(raw: string) {
    exists start, rest, end ::
      && Blanks(start) && Blanks(end) && rest != "" && !IsSpace(rest[|rest| - 1])
      && (raw == start + ("msgctxt " + rest) + end || raw == start + ("msgid_plural " + rest) + end)
  }

  lemma RefusedLine(raw: string)
    requires Refused(raw)
    ensures Classify(raw) == Unsupported
  {
    var start, rest, end :|
      && Blanks(start) && Blanks(end) && rest != "" && !IsSpace(rest[|rest| - 1])
      && (raw == start + ("msgctxt " + rest) + end || raw == start + ("msgid_plural " + rest) + end);
    if raw == start + ("msgctxt " + rest) + end {
      KeywordLine("msgctxt ", rest);
      PaddingChangesNothing(start, "msgctxt " + rest, end);
    } else {
      KeywordLine("msgid_plural ", rest);
      PaddingChangesNothing(start, "msgid_plural " + rest, end);
    }
  }

  lemma KeywordLine(keyword: string, rest: string)
    requires keyword == "msgctxt " || keyword == "msgid_plural "
    requires rest != "" && !IsSpace(rest[|rest| - 1])
    ensures Classify(keyword + rest) == Unsupported
  {
    var line := keyword + rest;
    assert line[|line| - 1] == rest[|rest| - 1];
    Unstripped(line);
    PrefixAt(line, "#,", 0);
    assert line[..|keyword|] == keyword;
  }

  /** Any such line, wherever it stands, makes the file no catalogue. */
  lemma RefusedAnywhere(x: Syntax, raw: seq<string>, i: nat)
    requires i < |raw| && Refused(raw[i])
    ensures Finish(x, START, ClassifyAll(raw)) == None
  {
    RefusedLine(raw[i]);
    UnsupportedStops(x, ClassifyAll(raw), i);
  }

  lemma UnsupportedStops(x: Syntax, lines: seq<Line>, i: nat)
    requires i < |lines| && lines[i] == Unsupported
    ensures Finish(x, START, lines) == None
  {
    var before, after := lines[..i], lines[i + 1..];
    assert lines == before + ([Unsupported] + after);
    RunAppend(x, START, before, [Unsupported] + after);
    if RunLines(x, START, before).Some? { StopsHere(x, RunLines(x, START, before).value, after); }
  }

  lemma StopsHere(x: Syntax, r: Reader, after: seq<Line>)
    ensures RunLines(x, r, [Unsupported] + after) == None
  {
    RunAppend(x, r, [Unsupported], after);
    RunOne(x, r, Unsupported);
  }

  /** So does a msgstr line without a msgid line before it: behind any written entries and any comments
      and blank lines. */
  lemma StrayValue(
    x: Syntax, escape: Text -> string, es: seq<RawEntry>, comments: seq<string>, literal: string, after: seq<string>)
    requires Prints(x, escape) && IsLiteral(literal) && forall i :: 0 <= i < |es| ==> Written(es[i])
    requires forall i :: 0 <= i < |comments| ==> comments[i] != "" && comments[i][0] == '#'
    ensures var raw := PrintFile(escape, es) + (comments + (["msgstr " + literal] + after));
            Finish(x, START, ClassifyAll(raw)) == None
  {
    ClassifyPrintedStr(literal);
    var stray := [MsgStr(literal)] + ClassifyAll(after);
    ClassifyJoins(["msgstr " + literal], after);
    ClassifyJoins(comments, ["msgstr " + literal] + after);
    ClassifyJoins(PrintFile(escape, es), comments + (["msgstr " + literal] + after));
    assert ClassifyAll(["msgstr " + literal]) == [MsgStr(literal)];
    ReadFile(x, escape, es, ClassifyAll(comments) + stray);
    ReadComments(x, comments, stray, false);
    EntriesSkip(x, MsgStr(literal), ClassifyAll(after), IsFuzzy(RawEntry(comments, [], [])));
    MachineMeansEntries(x, START, ClassifyAll(PrintFile(escape, es)) + (ClassifyAll(comments) + stray));
  }
}
