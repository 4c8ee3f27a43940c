/**
 Reading a PO catalogue: the line machine of read_catalog, and what it means in terms of
 whole entries. The literal parser and the placeholder pattern are parameters.
 */
module PoCatalog {
  import opened Wrappers
  import opened Strings
  import opened Utf8

  // `quoted` is ast.literal_eval on a string literal (None: it raises); `holders` is the set of
  // placeholders a string contains.
  datatype Syntax = Syntax(quoted: string -> Option<Text>, holders: Text -> set<Text>)

  datatype Line =
    | FuzzyFlag | Unsupported | MsgId(arg: string) | MsgStr(arg: string) | Quote(arg: string) | Blank | Other

  // The tests of the loop body, in its order.
  function Classify(raw: string): Line {
    var line := Strip(raw);
    if StartsWith(line, "#,") && Contains(line, "fuzzy") then FuzzyFlag
    else if StartsWith(line, "msgctxt ") || StartsWith(line, "msgid_plural ") then Unsupported
    else if StartsWith(line, "msgid ") then MsgId(line[6..])
    else if StartsWith(line, "msgstr ") then MsgStr(line[7..])
    else if StartsWith(line, "\"") then Quote(line)
    else if line == "" then Blank
    else Other
  }

  // ---------- The line machine ----------

  datatype Section = NoSection | InId | InStr

  datatype Reader = Reader(
    messages: map<Text, Text>, msgid: Option<Text>, msgstr: Option<Text>, section: Section,
    fuzzy: bool, pendingFuzzy: bool)

  const START := Reader(map[], None, None, NoSection, false, false)

  // Add one finished entry; None: the placeholders differ.
  function AddEntry(x: Syntax, messages: map<Text, Text>, key: Text, value: Text): Option<map<Text, Text>> {
    if key != [] && value != [] && x.holders(key) != x.holders(value) then None
    else if key == [] || value != [] then Some(messages[key := value])
    else Some(messages)
  }

  function Commit(x: Syntax, r: Reader): Option<Reader> {
    var closed := r.(msgid := None, msgstr := None, section := NoSection, fuzzy := false);
    if r.msgid.None? || r.msgstr.None? || r.fuzzy then Some(closed)
    else
      match AddEntry(x, r.messages, r.msgid.value, r.msgstr.value)
      case None => None
      case Some(m) => Some(closed.(messages := m))
  }

  function StepLine(x: Syntax, r: Reader, line: Line): Option<Reader> {
    match line
    case FuzzyFlag => Some(r.(pendingFuzzy := true))
    case Unsupported => None
    case MsgId(arg) =>
      var c := Commit(x, r);
      if c.None? || x.quoted(arg).None? then None
      else Some(c.value.(fuzzy := r.pendingFuzzy, pendingFuzzy := false,
                         msgid := x.quoted(arg), msgstr := Some([]), section := InId))
    case MsgStr(arg) =>
      if r.msgid.None? || x.quoted(arg).None? then None
      else Some(r.(msgstr := x.quoted(arg), section := InStr))
    case Quote(arg) =>
      if r.section.InId? && r.msgid.Some? then
        if x.quoted(arg).None? then None else Some(r.(msgid := Some(r.msgid.value + x.quoted(arg).value)))
      else if r.section.InStr? && r.msgstr.Some? then
        if x.quoted(arg).None? then None else Some(r.(msgstr := Some(r.msgstr.value + x.quoted(arg).value)))
      else Some(r)
    case Blank => Commit(x, r)
    case Other => Some(r)
  }

  function RunLines(x: Syntax, r: Reader, lines: seq<Line>): Option<Reader>
    decreases |lines|
  {
    if lines == [] then Some(r)
    else
      match StepLine(x, r, lines[0])
      case None => None
      case Some(next) => RunLines(x, next, lines[1..])
  }

  // All lines, then the last commit.
  function Finish(x: Syntax, r: Reader, lines: seq<Line>): Option<map<Text, Text>> {
    match RunLines(x, r, lines)
    case None => None
    case Some(last) =>
      match Commit(x, last)
      case None => None
      case Some(done) => Some(done.messages)
  }

  // ---------- Whole entries ----------

  datatype Entry = Entry(fuzzy: bool, key: Text, value: Text)

  // The lines of an entry after its msgid line: up to the next msgid line or blank line.
  function BodyLength(lines: seq<Line>): (n: nat)
    ensures n <= |lines|
    ensures n < |lines| ==> lines[n].MsgId? || lines[n].Blank?
    ensures forall i :: 0 <= i < n ==> !lines[i].MsgId? && !lines[i].Blank?
  {
    if lines == [] || lines[0].MsgId? || lines[0].Blank? then 0 else 1 + BodyLength(lines[1..])
  }

  // Lines that neither begin an entry nor end one.
  predicate IsBody(lines: seq<Line>) { forall i :: 0 <= i < |lines| ==> !lines[i].MsgId? && !lines[i].Blank? }

  predicate GoodBody(x: Syntax, body: seq<Line>) {
    forall i :: 0 <= i < |body| ==>
      !body[i].Unsupported? && (body[i].MsgStr? || body[i].Quote? ==> x.quoted(body[i].arg).Some?)
  }

  function TextOf(x: Syntax, line: Line): Text {
    if (line.MsgStr? || line.Quote?) && x.quoted(line.arg).Some? then x.quoted(line.arg).value else []
  }

  predicate HasStr(body: seq<Line>) {
    body != [] && (body[|body| - 1].MsgStr? || HasStr(body[..|body| - 1]))
  }

  predicate HasFlag(body: seq<Line>) {
    body != [] && (body[|body| - 1].FuzzyFlag? || HasFlag(body[..|body| - 1]))
  }

  // What the quoted lines before the first msgstr line add to the key.
  function KeyRest(x: Syntax, body: seq<Line>): Text {
    if body == [] then []
    else
      var before := KeyRest(x, body[..|body| - 1]);
      if HasStr(body) then before else before + TextOf(x, body[|body| - 1])
  }

  // The text of the last msgstr line and of the quoted lines after it.
  function Value(x: Syntax, body: seq<Line>): Text {
    if !HasStr(body) then []
    else if body[|body| - 1].MsgStr? then TextOf(x, body[|body| - 1])
    else Value(x, body[..|body| - 1]) + TextOf(x, body[|body| - 1])
  }

  // The entries of a file, in order; a flag applies to the next msgid line, wherever that is.
  function Entries(x: Syntax, lines: seq<Line>, pending: bool): Option<seq<Entry>>
    decreases |lines|
  {
    if lines == [] then Some([])
    else if lines[0].FuzzyFlag? then Entries(x, lines[1..], true)
    else if lines[0].Unsupported? || lines[0].MsgStr? then None
    else if lines[0].MsgId? then
      var n := BodyLength(lines[1..]);
      var body, rest := lines[1..][..n], lines[1..][n..];
      if x.quoted(lines[0].arg).None? || !GoodBody(x, body) then None
      else
        match Entries(x, rest, HasFlag(body))
        case None => None
        case Some(es) => Some([Entry(pending, x.quoted(lines[0].arg).value + KeyRest(x, body), Value(x, body))] + es)
    else Entries(x, lines[1..], pending)
  }

  // Entries are added in order; fuzzy ones are dropped.
  function Gather(x: Syntax, messages: map<Text, Text>, es: seq<Entry>): Option<map<Text, Text>>
    decreases |es|
  {
    if es == [] then Some(messages)
    else if es[0].fuzzy then Gather(x, messages, es[1..])
    else
      match AddEntry(x, messages, es[0].key, es[0].value)
      case None => None
      case Some(m) => Gather(x, m, es[1..])
  }

  function Meaning(
    x: Syntax, messages: map<Text, Text>, lines: seq<Line>, pending: bool): Option<map<Text, Text>>
  {
    match Entries(x, lines, pending)
    case None => None
    case Some(es) => Gather(x, messages, es)
  }

  // ---------- The machine means the entries ----------

  predicate Closed(r: Reader) { r.msgid.None? && r.msgstr.None? && r.section.NoSection? && !r.fuzzy }

  // The open entry after some of its body.
  function Opened(x: Syntax, r: Reader, key: Text, fuzzy: bool, body: seq<Line>): Reader {
    r.(msgid := Some(key + KeyRest(x, body)), msgstr := Some(Value(x, body)), fuzzy := fuzzy,
       section := if HasStr(body) then InStr else InId, pendingFuzzy := HasFlag(body))
  }

  lemma {:induction false} RunAppend(x: Syntax, r: Reader, a: seq<Line>, b: seq<Line>)
    ensures RunLines(x, r, a + b) ==
            match RunLines(x, r, a) { case None => None case Some(m) => RunLines(x, m, b) }
    decreases |a|
  {
    if a == [] {
      assert a + b == b;
    } else {
      assert (a + b)[1..] == a[1..] + b;
      if StepLine(x, r, a[0]).Some? { RunAppend(x, StepLine(x, r, a[0]).value, a[1..], b); }
    }
  }

  lemma RunOne(x: Syntax, r: Reader, line: Line)
    ensures RunLines(x, r, [line]) == StepLine(x, r, line)
  {
    assert [line][1..] == [];
  }

  // The lines of a body build exactly its key, its value and its flag.
  lemma {:induction false} RunBody(x: Syntax, r: Reader, key: Text, fuzzy: bool, body: seq<Line>)
    requires IsBody(body)
    ensures RunLines(x, Opened(x, r, key, fuzzy, []), body) ==
            if GoodBody(x, body) then Some(Opened(x, r, key, fuzzy, body)) else None
    decreases |body|
  {
    if body != [] {
      var n := |body| - 1;
      var init, line := body[..n], body[n];
      assert body == init + [line];
      RunBody(x, r, key, fuzzy, init);
      RunAppend(x, Opened(x, r, key, fuzzy, []), init, [line]);
      if GoodBody(x, init) {
        RunOne(x, Opened(x, r, key, fuzzy, init), line);
        StepInBody(x, r, key, fuzzy, init, line);
      }
    }
  }

  lemma StepInBody(x: Syntax, r: Reader, key: Text, fuzzy: bool, init: seq<Line>, line: Line)
    requires !line.MsgId? && !line.Blank?
    ensures StepLine(x, Opened(x, r, key, fuzzy, init), line) ==
            if GoodBody(x, [line]) then Some(Opened(x, r, key, fuzzy, init + [line])) else None
  {
    var body := init + [line];
    assert body[..|body| - 1] == init && body[|body| - 1] == line;
    assert [line][0] == line;
    if line.Quote? && x.quoted(line.arg).Some? && !HasStr(init) {
      assert (key + KeyRest(x, init)) + TextOf(x, line) == key + (KeyRest(x, init) + TextOf(x, line));
    }
    if line.FuzzyFlag? || line.Other? {
      assert KeyRest(x, init) + [] == KeyRest(x, init) && Value(x, init) + [] == Value(x, init);
    }
  }

  // At the end of a body the entry is committed, whatever comes next.
  lemma CommitBetween(x: Syntax, r: Reader, rest: seq<Line>)
    requires rest == [] || rest[0].MsgId? || rest[0].Blank?
    ensures Finish(x, r, rest) == match Commit(x, r) { case None => None case Some(c) => Finish(x, c, rest) }
  {
  }

  /** The line machine is: group lines into entries, drop the fuzzy ones, add the rest in order. */
  lemma {:induction false} MachineMeansEntries(x: Syntax, r: Reader, lines: seq<Line>)
    requires Closed(r)
    ensures Finish(x, r, lines) == Meaning(x, r.messages, lines, r.pendingFuzzy)
    decreases |lines|
  {
    if lines == [] {
    } else if lines[0].MsgId? {
      EntryMeans(x, r, lines);
    } else if StepLine(x, r, lines[0]).Some? {
      MachineMeansEntries(x, StepLine(x, r, lines[0]).value, lines[1..]);
    }
  }

  // The machine over one entry's lines.
  lemma FinishEntry(x: Syntax, r: Reader, arg: string, body: seq<Line>, rest: seq<Line>)
    requires Closed(r) && x.quoted(arg).Some?
    requires IsBody(body)
    ensures Finish(x, r, [MsgId(arg)] + body + rest) ==
            if GoodBody(x, body) then Finish(x, Opened(x, r, x.quoted(arg).value, r.pendingFuzzy, body), rest) else None
  {
    var key := x.quoted(arg).value;
    var first := Opened(x, r, key, r.pendingFuzzy, []);
    assert key + [] == key;
    assert [MsgId(arg)] + body + rest == [MsgId(arg)] + (body + rest);
    RunAppend(x, r, [MsgId(arg)], body + rest);
    RunOne(x, r, MsgId(arg));
    assert StepLine(x, r, MsgId(arg)) == Some(first);
    RunBody(x, r, key, r.pendingFuzzy, body);
    RunAppend(x, first, body, rest);
  }

  lemma CommitOpened(x: Syntax, r: Reader, key: Text, fuzzy: bool, body: seq<Line>)
    requires Closed(r)
    ensures var e := Entry(fuzzy, key + KeyRest(x, body), Value(x, body));
            Commit(x, Opened(x, r, key, fuzzy, body)) ==
            if fuzzy then Some(r.(pendingFuzzy := HasFlag(body)))
            else match AddEntry(x, r.messages, e.key, e.value) {
              case None => None
              case Some(m) => Some(r.(messages := m, pendingFuzzy := HasFlag(body)))
            }
  {
  }

  lemma GatherOne(x: Syntax, messages: map<Text, Text>, e: Entry, es: seq<Entry>)
    ensures Gather(x, messages, [e] + es) ==
            if e.fuzzy then Gather(x, messages, es)
            else match AddEntry(x, messages, e.key, e.value) { case None => None case Some(m) => Gather(x, m, es) }
  {
    assert ([e] + es)[1..] == es;
  }

  lemma {:induction false} EntryMeans(x: Syntax, r: Reader, lines: seq<Line>)
    requires Closed(r) && lines != [] && lines[0].MsgId?
    ensures Finish(x, r, lines) == Meaning(x, r.messages, lines, r.pendingFuzzy)
    decreases |lines|, 0
  {
    var n := BodyLength(lines[1..]);
    var body, rest := lines[1..][..n], lines[1..][n..];
    assert lines == [MsgId(lines[0].arg)] + body + rest;
    if x.quoted(lines[0].arg).Some? {
      var key := x.quoted(lines[0].arg).value;
      FinishEntry(x, r, lines[0].arg, body, rest);
      if GoodBody(x, body) {
        var last := Opened(x, r, key, r.pendingFuzzy, body);
        CommitBetween(x, last, rest);
        CommitOpened(x, r, key, r.pendingFuzzy, body);
        if Commit(x, last).Some? {
          MachineMeansEntries(x, Commit(x, last).value, rest);
        }
        EntryGathers(x, r.messages, lines, body, rest, r.pendingFuzzy);
      }
    }
  }

  lemma EntriesOne(x: Syntax, lines: seq<Line>, pending: bool)
    requires lines != [] && lines[0].MsgId? && x.quoted(lines[0].arg).Some?
    requires GoodBody(x, lines[1..][..BodyLength(lines[1..])])
    ensures var n := BodyLength(lines[1..]);
            var body, es := lines[1..][..n], Entries(x, lines[1..][n..], HasFlag(lines[1..][..n]));
            Entries(x, lines, pending) ==
            if es.None? then None
            else Some([Entry(pending, x.quoted(lines[0].arg).value + KeyRest(x, body), Value(x, body))] + es.value)
  {
  }

  // One entry's part of the meaning.
  lemma EntryGathers(
    x: Syntax, messages: map<Text, Text>, lines: seq<Line>, body: seq<Line>, rest: seq<Line>, pending: bool)
    requires lines != [] && lines[0].MsgId? && x.quoted(lines[0].arg).Some? && GoodBody(x, body)
    requires body == lines[1..][..BodyLength(lines[1..])] && rest == lines[1..][BodyLength(lines[1..])..]
    ensures var e := Entry(pending, x.quoted(lines[0].arg).value + KeyRest(x, body), Value(x, body));
            Meaning(x, messages, lines, pending) ==
            if e.fuzzy then Meaning(x, messages, rest, HasFlag(body))
            else match AddEntry(x, messages, e.key, e.value) {
              case None => None
              case Some(m) => Meaning(x, m, rest, HasFlag(body))
            }
  {
    var e := Entry(pending, x.quoted(lines[0].arg).value + KeyRest(x, body), Value(x, body));
    var es := Entries(x, rest, HasFlag(body));
    EntriesOne(x, lines, pending);
    if es.Some? {
      GatherOne(x, messages, e, es.value);
    }
  }

  // ---------- What a catalogue holds ----------

  predicate Kept(e: Entry) { !e.fuzzy && (e.key == [] || e.value != []) }

  predicate Consistent(x: Syntax, e: Entry) {
    e.fuzzy || e.key == [] || e.value == [] || x.holders(e.key) == x.holders(e.value)
  }

  // The value of the last entry that counts for this key.
  function LastValue(es: seq<Entry>, key: Text): Option<Text> {
    if es == [] then None
    else
      var last := es[|es| - 1];
      if Kept(last) && last.key == key then Some(last.value) else LastValue(es[..|es| - 1], key)
  }

  lemma {:induction false} LastValueFront(e: Entry, es: seq<Entry>, key: Text)
    ensures LastValue([e] + es, key) ==
            if LastValue(es, key).Some? then LastValue(es, key)
            else if Kept(e) && e.key == key then Some(e.value) else None
  {
    if es == [] {
      assert ([e] + es)[..0] == [];
    } else {
      assert ([e] + es)[..|es|] == [e] + es[..|es| - 1];
      LastValueFront(e, es[..|es| - 1], key);
    }
  }

  /** Gathering fails exactly on an inconsistent entry, and otherwise the last non-empty value
      of a key that is not fuzzy wins; keys without one keep what they had. */
  lemma {:induction false} LastNonEmptyWins(x: Syntax, messages: map<Text, Text>, es: seq<Entry>, key: Text)
    ensures var m := Gather(x, messages, es);
            && (m.Some? <==> forall i :: 0 <= i < |es| ==> Consistent(x, es[i]))
            && (m.Some? ==>
                  && (key in m.value <==> key in messages || LastValue(es, key).Some?)
                  && (LastValue(es, key).Some? ==> m.value[key] == LastValue(es, key).value)
                  && (LastValue(es, key).None? && key in messages ==> m.value[key] == messages[key]))
    decreases |es|
  {
    if es != [] {
      assert es == [es[0]] + es[1..];
      LastValueFront(es[0], es[1..], key);
      if es[0].fuzzy {
        LastNonEmptyWins(x, messages, es[1..], key);
      } else if AddEntry(x, messages, es[0].key, es[0].value).Some? {
        LastNonEmptyWins(x, AddEntry(x, messages, es[0].key, es[0].value).value, es[1..], key);
      }
    }
  }

  ghost predicate Translations(x: Syntax, messages: map<Text, Text>) {
    forall k :: k in messages && k != [] ==> messages[k] != [] && x.holders(k) == x.holders(messages[k])
  }

  lemma {:induction false} GatherKeepsTranslations(x: Syntax, messages: map<Text, Text>, es: seq<Entry>)
    requires Translations(x, messages) && Gather(x, messages, es).Some?
    ensures Translations(x, Gather(x, messages, es).value)
    decreases |es|
  {
    if es != [] {
      if es[0].fuzzy {
        GatherKeepsTranslations(x, messages, es[1..]);
      } else {
        GatherKeepsTranslations(x, AddEntry(x, messages, es[0].key, es[0].value).value, es[1..]);
      }
    }
  }

  /** Every translation that is kept is non-empty and has its key's placeholders. */
  lemma KeptTranslationsMatch(x: Syntax, lines: seq<Line>)
    requires Finish(x, START, lines).Some?
    ensures Translations(x, Finish(x, START, lines).value)
  {
    MachineMeansEntries(x, START, lines);
    GatherKeepsTranslations(x, map[], Entries(x, lines, false).value);
  }

  // ---------- Continuation lines ----------

  // The first line says the same as the first part followed by a continuation line.
  predicate SplitOf(x: Syntax, whole: Line, first: Line, more: string) {
    && x.quoted(more).Some?
    && (match whole
        case MsgId(a) => first.MsgId? && Joins(x, a, first.arg, more)
        case MsgStr(a) => first.MsgStr? && Joins(x, a, first.arg, more)
        case Quote(a) => first.Quote? && Joins(x, a, first.arg, more)
        case _ => false)
  }

  predicate Joins(x: Syntax, whole: string, first: string, more: string)
    requires x.quoted(more).Some?
  {
    && x.quoted(whole).Some? && x.quoted(first).Some?
    && x.quoted(whole).value == x.quoted(first).value + x.quoted(more).value
  }

  /** Splitting any string of a catalogue over one more line never changes what is read. */
  lemma SplittingChangesNothing(x: Syntax, before: seq<Line>, whole: Line, first: Line, more: string, after: seq<Line>)
    requires SplitOf(x, whole, first, more)
    ensures Finish(x, START, before + [whole] + after) == Finish(x, START, before + [first, Quote(more)] + after)
  {
    RunAppend(x, START, before + [whole], after);
    RunAppend(x, START, before, [whole]);
    RunAppend(x, START, before + [first, Quote(more)], after);
    RunAppend(x, START, before, [first, Quote(more)]);
    if RunLines(x, START, before).Some? {
      SplitStep(x, RunLines(x, START, before).value, whole, first, more);
    }
  }

  lemma SplitStep(x: Syntax, r: Reader, whole: Line, first: Line, more: string)
    requires SplitOf(x, whole, first, more)
    ensures RunLines(x, r, [whole]) == RunLines(x, r, [first, Quote(more)])
  {
    assert [first, Quote(more)][1..] == [Quote(more)];
    RunOne(x, r, whole);
    if StepLine(x, r, first).Some? { RunOne(x, StepLine(x, r, first).value, Quote(more)); }
    if whole.Quote? {
      var w, f, m := x.quoted(whole.arg).value, x.quoted(first.arg).value, x.quoted(more).value;
      if r.section.InId? && r.msgid.Some? { assert r.msgid.value + w == r.msgid.value + f + m; }
      if r.section.InStr? && r.msgstr.Some? { assert r.msgstr.value + w == r.msgstr.value + f + m; }
    }
  }

  // ---------- Printing ----------

  // A printer of string literals that the literal parser inverts.
  ghost predicate Prints(x: Syntax, escape: Text -> string) {
    forall s :: x.quoted(escape(s)) == Some(s) && IsLiteral(escape(s))
  }

  predicate IsLiteral(s: string) { 2 <= |s| && s[0] == '"' && s[|s| - 1] == '"' }

  function PrintPair(escape: Text -> string, k: Text, v: Text): seq<string> {
    ["msgid " + escape(k), "msgstr " + escape(v), ""]
  }

  function Print(escape: Text -> string, pairs: seq<(Text, Text)>): seq<string> {
    if pairs == [] then []
    else Print(escape, pairs[..|pairs| - 1]) + PrintPair(escape, pairs[|pairs| - 1].0, pairs[|pairs| - 1].1)
  }

  function ClassifyAll(raw: seq<string>): (lines: seq<Line>)
    ensures |lines| == |raw| && forall i :: 0 <= i < |raw| ==> lines[i] == Classify(raw[i])
  {
    seq(|raw|, i requires 0 <= i < |raw| => Classify(raw[i]))
  }

  lemma Unstripped(line: string)
    requires line != "" && !IsSpace(line[0]) && !IsSpace(line[|line| - 1])
    ensures Strip(line) == line
  {
  }

  lemma ClassifyPrintedId(literal: string)
    requires IsLiteral(literal)
    ensures Classify("msgid " + literal) == MsgId(literal)
  {
    var id := "msgid " + literal;
    Unstripped(id);
    PrefixAt(id, "#,", 0);
    PrefixAt(id, "msgctxt ", 3);
    PrefixAt(id, "msgid_plural ", 5);
    assert id[..6] == "msgid " && id[6..] == literal;
  }

  lemma ClassifyPrintedStr(literal: string)
    requires IsLiteral(literal)
    ensures Classify("msgstr " + literal) == MsgStr(literal)
  {
    var st := "msgstr " + literal;
    Unstripped(st);
    PrefixAt(st, "#,", 0);
    PrefixAt(st, "msgctxt ", 3);
    PrefixAt(st, "msgid_plural ", 3);
    PrefixAt(st, "msgid ", 3);
    assert st[..7] == "msgstr " && st[7..] == literal;
  }

  lemma PrefixAt(s: string, prefix: string, i: nat)
    requires i < |prefix|
    ensures StartsWith(s, prefix) ==> s[i] == prefix[i]
  {
    if StartsWith(s, prefix) { assert s[i] == s[..|prefix|][i]; }
  }

  function AsMap(pairs: seq<(Text, Text)>): map<Text, Text> {
    if pairs == [] then map[] else AsMap(pairs[..|pairs| - 1])[pairs[|pairs| - 1].0 := pairs[|pairs| - 1].1]
  }

  // What a catalogue can hold: the header, and consistent non-empty translations.
  ghost predicate Printable(x: Syntax, pairs: seq<(Text, Text)>) {
    forall i :: 0 <= i < |pairs| ==>
      pairs[i].0 == [] || (pairs[i].1 != [] && x.holders(pairs[i].0) == x.holders(pairs[i].1))
  }

  lemma ClassifyJoins(a: seq<string>, b: seq<string>)
    ensures ClassifyAll(a + b) == ClassifyAll(a) + ClassifyAll(b)
  {
  }

  lemma ClassifyEmpty()
    ensures Classify("") == Blank
  {
  }

  lemma PairLines(x: Syntax, escape: Text -> string, k: Text, v: Text)
    requires Prints(x, escape)
    ensures ClassifyAll(PrintPair(escape, k, v)) == [MsgId(escape(k)), MsgStr(escape(v)), Blank]
  {
    ClassifyPrintedId(escape(k));
    ClassifyPrintedStr(escape(v));
    ClassifyEmpty();
    var raw := PrintPair(escape, k, v);
    assert ClassifyAll(raw) == [Classify(raw[0]), Classify(raw[1]), Classify(raw[2])];
  }

  lemma {:induction false} RunPrinted(x: Syntax, escape: Text -> string, pairs: seq<(Text, Text)>)
    requires Prints(x, escape) && Printable(x, pairs)
    ensures RunLines(x, START, ClassifyAll(Print(escape, pairs))) == Some(START.(messages := AsMap(pairs)))
  {
    if pairs != [] {
      var n := |pairs| - 1;
      var (k, v) := pairs[n];
      RunPrinted(x, escape, pairs[..n]);
      ClassifyJoins(Print(escape, pairs[..n]), PrintPair(escape, k, v));
      PairLines(x, escape, k, v);
      RunAppend(x, START, ClassifyAll(Print(escape, pairs[..n])), [MsgId(escape(k)), MsgStr(escape(v)), Blank]);
      RunEntry(x, START.(messages := AsMap(pairs[..n])), escape, k, v);
    }
  }

  lemma RunEntry(x: Syntax, r: Reader, escape: Text -> string, k: Text, v: Text)
    requires Prints(x, escape) && Closed(r) && !r.pendingFuzzy
    requires k == [] || (v != [] && x.holders(k) == x.holders(v))
    ensures RunLines(x, r, [MsgId(escape(k)), MsgStr(escape(v)), Blank]) == Some(r.(messages := r.messages[k := v]))
  {
    var three := [MsgId(escape(k)), MsgStr(escape(v)), Blank];
    assert three[1..] == [MsgStr(escape(v)), Blank] && three[1..][1..] == [Blank];
    var r1 := r.(msgid := Some(k), msgstr := Some([]), section := InId);
    assert StepLine(x, r, three[0]) == Some(r1);
    var r2 := r1.(msgstr := Some(v), section := InStr);
    assert StepLine(x, r1, three[1]) == Some(r2);
    RunOne(x, r2, Blank);
  }

  /** Printing a catalogue and reading it back gives the same catalogue. */
  lemma PrintThenRead(x: Syntax, escape: Text -> string, pairs: seq<(Text, Text)>)
    requires Prints(x, escape) && Printable(x, pairs)
    ensures Finish(x, START, ClassifyAll(Print(escape, pairs))) == Some(AsMap(pairs))
  {
    RunPrinted(x, escape, pairs);
  }

  // ---------- read_catalog ----------

  // "".join
  function JoinParts(parts: seq<Text>): Text {
    if parts == [] then [] else JoinParts(parts[..|parts| - 1]) + parts[|parts| - 1]
  }

  function JoinOption(parts: Option<seq<Text>>): Option<Text> {
    if parts.None? then None else Some(JoinParts(parts.value))
  }

  lemma JoinOne(s: Text)
    ensures JoinParts([s]) == s
  {
    assert [s][..0] == [];
    assert [] + s == s;
  }

  // Its local variables and their nested function.
  class CatalogReader {
    var messages: map<Text, Text>
    var msgid: Option<seq<Text>>
    var msgstr: Option<seq<Text>>
    var section: Section
    var fuzzy: bool
    var pendingFuzzy: bool

    constructor ()
      ensures Abs() == START
    {
      messages, msgid, msgstr, section, fuzzy, pendingFuzzy := map[], None, None, NoSection, false, false;
    }

    function Abs(): Reader
      reads this
    {
      Reader(messages, JoinOption(msgid), JoinOption(msgstr), section, fuzzy, pendingFuzzy)
    }

    method CommitEntry(x: Syntax) returns (ok: bool)
      modifies this
      ensures ok <==> Commit(x, old(Abs())).Some?
      ensures ok ==> Abs() == Commit(x, old(Abs())).value
    {
      if msgid.Some? && msgstr.Some? && !fuzzy {
        var key, value := JoinParts(msgid.value), JoinParts(msgstr.value);
        if key != [] && value != [] && x.holders(key) != x.holders(value) { return false; }
        if key == [] || value != [] { messages := messages[key := value]; }
      }
      msgid, msgstr, section, fuzzy := None, None, NoSection, false;
      return true;
    }

    method ReadLine(x: Syntax, line: Line) returns (ok: bool)
      modifies this
      ensures ok <==> StepLine(x, old(Abs()), line).Some?
      ensures ok ==> Abs() == StepLine(x, old(Abs()), line).value
    {
      match line {
        case FuzzyFlag => pendingFuzzy := true;
        case Unsupported => return false;
        case MsgId(arg) =>
          ok := CommitEntry(x);
          if !ok || x.quoted(arg).None? { return false; }
          fuzzy, pendingFuzzy := pendingFuzzy, false;
          msgid, msgstr, section := Some([x.quoted(arg).value]), Some([]), InId;
          JoinOne(x.quoted(arg).value);
        case MsgStr(arg) =>
          if msgid.None? || x.quoted(arg).None? { return false; }
          msgstr, section := Some([x.quoted(arg).value]), InStr;
          JoinOne(x.quoted(arg).value);
        case Quote(arg) =>
          if section.InId? && msgid.Some? {
            if x.quoted(arg).None? { return false; }
            msgid := Some(msgid.value + [x.quoted(arg).value]);
            assert msgid.value[..|msgid.value| - 1] == old(msgid.value);
          } else if section.InStr? && msgstr.Some? {
            if x.quoted(arg).None? { return false; }
            msgstr := Some(msgstr.value + [x.quoted(arg).value]);
            assert msgstr.value[..|msgstr.value| - 1] == old(msgstr.value);
          }
        case Blank =>
          ok := CommitEntry(x);
          if !ok { return false; }
        case Other =>
      }
      return true;
    }
  }

  /** read_catalog on the lines of a file: None for every way it raises. */
  method ReadCatalog(x: Syntax, raw: seq<string>) returns (result: Option<map<Text, Text>>)
    ensures result == Finish(x, START, ClassifyAll(raw))
  {
    var reader := new CatalogReader();
    ghost var lines := ClassifyAll(raw);
    for i := 0 to |raw|
      invariant fresh(reader)
      invariant RunLines(x, reader.Abs(), lines[i..]) == RunLines(x, START, lines)
    {
      var ok := reader.ReadLine(x, Classify(raw[i]));
      assert lines[i..][1..] == lines[i + 1..];
      if !ok { return None; }
    }
    assert lines[|raw|..] == [];
    var ok := reader.CommitEntry(x);
    return if ok then Some(reader.messages) else None;
  }
}
