/**
 Fuzzy flags in a PO catalogue: what one more flag, put anywhere into a file, changes in the
 entries that are read from it.
 */
module FuzzyFlags {
  import opened Wrappers
  import opened PoCatalog

  predicate NoMsgId(lines: seq<Line>) { forall i :: 0 <= i < |lines| ==> !lines[i].MsgId? }

  function CountMsgIds(lines: seq<Line>): nat {
    if lines == [] then 0 else (if lines[0].MsgId? then 1 else 0) + CountMsgIds(lines[1..])
  }

  // The entries with number k fuzzy.
  function Marked(es: Option<seq<Entry>>, k: nat): Option<seq<Entry>> {
    if es.None? || |es.value| <= k then None else Some(es.value[k := es.value[k].(fuzzy := true)])
  }

  predicate Reaches(es: Option<seq<Entry>>, k: nat) { es.Some? ==> k < |es.value| }

  // The same entries, but that number k is fuzzy; or no entries at all in both cases.
  predicate FuzzyAt(plain: Option<seq<Entry>>, flagged: Option<seq<Entry>>, k: nat) {
    Reaches(plain, k) && flagged == Marked(plain, k)
  }

  // The file ends, or the lines of an entry do.
  predicate AtEnd(rest: seq<Line>) { rest == [] || rest[0].MsgId? || rest[0].Blank? }

  lemma {:induction false} BodyLengthOf(body: seq<Line>, rest: seq<Line>)
    requires IsBody(body)
    requires AtEnd(rest)
    ensures BodyLength(body + rest) == |body|
    decreases |body|
  {
    if body == [] {
      assert body + rest == rest;
    } else {
      assert (body + rest)[1..] == body[1..] + rest;
      BodyLengthOf(body[1..], rest);
    }
  }

  // The entry a msgid line opens, from the lines of its body; None: something raises.
  function FirstEntry(x: Syntax, arg: string, body: seq<Line>, pending: bool): Option<Entry> {
    if x.quoted(arg).None? || !GoodBody(x, body) then None
    else Some(Entry(pending, x.quoted(arg).value + KeyRest(x, body), Value(x, body)))
  }

  function Before(e: Option<Entry>, es: Option<seq<Entry>>): Option<seq<Entry>> {
    if e.None? || es.None? then None else Some([e.value] + es.value)
  }

  lemma FuzzyBehind(e: Option<Entry>, plain: Option<seq<Entry>>, flagged: Option<seq<Entry>>, k: nat)
    requires FuzzyAt(plain, flagged, k)
    ensures FuzzyAt(Before(e, plain), Before(e, flagged), k + 1)
  {
    if e.Some? && plain.Some? {
      var es, marked := plain.value, plain.value[k].(fuzzy := true);
      assert ([e.value] + es)[k + 1 := marked] == [e.value] + es[k := marked];
    }
  }

  lemma FuzzyInFront(e: Option<Entry>, es: Option<seq<Entry>>)
    ensures FuzzyAt(Before(e, es), Before(if e.None? then None else Some(e.value.(fuzzy := true)), es), 0)
  {
    if e.Some? && es.Some? {
      assert ([e.value] + es.value)[0 := e.value.(fuzzy := true)] == [e.value.(fuzzy := true)] + es.value;
    }
  }

  lemma EntryThen(x: Syntax, arg: string, body: seq<Line>, rest: seq<Line>, pending: bool)
    requires IsBody(body) && AtEnd(rest)
    ensures Entries(x, [MsgId(arg)] + body + rest, pending)
            == Before(FirstEntry(x, arg, body, pending), Entries(x, rest, HasFlag(body)))
  {
    var lines := [MsgId(arg)] + body + rest;
    assert lines[0] == MsgId(arg) && lines[1..] == body + rest;
    BodyLengthOf(body, rest);
    assert lines[1..][..|body|] == body && lines[1..][|body|..] == rest;
    if x.quoted(arg).Some? && GoodBody(x, body) { EntriesOne(x, lines, pending); }
  }

  lemma EntriesSkip(x: Syntax, line: Line, rest: seq<Line>, pending: bool)
    requires !line.MsgId?
    ensures Entries(x, [line] + rest, pending) ==
            if line.Unsupported? || line.MsgStr? then None
            else Entries(x, rest, if line.FuzzyFlag? then true else pending)
  {
    assert ([line] + rest)[0] == line && ([line] + rest)[1..] == rest;
  }

  // The two laws by which a file is read. The flag theorem needs nothing else of Entries.
  type Reading = (seq<Line>, bool) -> Option<seq<Entry>>

  ghost predicate LineLaw(f: Reading) {
    forall line: Line, rest, pending :: !line.MsgId? ==>
      f([line] + rest, pending) ==
        if line.Unsupported? || line.MsgStr? then None else f(rest, if line.FuzzyFlag? then true else pending)
  }

  ghost predicate EntryLaw(x: Syntax, f: Reading) {
    forall arg, body, rest, pending :: IsBody(body) && AtEnd(rest) ==>
      f([MsgId(arg)] + body + rest, pending) == Before(FirstEntry(x, arg, body, pending), f(rest, HasFlag(body)))
  }

  function ReadingOf(x: Syntax): Reading { (lines: seq<Line>, pending: bool) => Entries(x, lines, pending) }

  lemma EntriesObey(x: Syntax)
    ensures LineLaw(ReadingOf(x)) && EntryLaw(x, ReadingOf(x))
  {
    forall line: Line, rest, pending | !line.MsgId? { EntriesSkip(x, line, rest, pending); }
    forall arg, body, rest, pending | IsBody(body) && AtEnd(rest) { EntryThen(x, arg, body, rest, pending); }
  }

  // The lines of a file from a msgid line on: its body, and the rest.
  lemma CutBody(lines: seq<Line>) returns (body: seq<Line>, rest: seq<Line>)
    ensures lines == body + rest && body == lines[..|body|] && rest == lines[|body|..]
    ensures IsBody(body) && AtEnd(rest)
  {
    var n := BodyLength(lines);
    body, rest := lines[..n], lines[n..];
  }

  // A pending flag does nothing but mark the first entry.
  lemma {:induction false} PendingMarksFirst(
    x: Syntax, f: Reading, gap: seq<Line>, arg: string, rest: seq<Line>, pending: bool)
    requires LineLaw(f) && EntryLaw(x, f) && NoMsgId(gap)
    ensures FuzzyAt(f(gap + [MsgId(arg)] + rest, pending), f(gap + [MsgId(arg)] + rest, true), 0)
    decreases |gap|
  {
    if gap == [] {
      var body, after := CutBody(rest);
      assert gap + [MsgId(arg)] + rest == [MsgId(arg)] + body + after;
      FuzzyInFront(FirstEntry(x, arg, body, pending), f(after, HasFlag(body)));
    } else {
      var lines := gap[1..] + [MsgId(arg)] + rest;
      PendingMarksFirst(x, f, gap[1..], arg, rest, if gap[0].FuzzyFlag? then true else pending);
      assert gap + [MsgId(arg)] + rest == [gap[0]] + lines;
    }
  }

  // In a body a flag changes neither the key nor the value.
  lemma {:induction false} FlagInBody(x: Syntax, a: seq<Line>, b: seq<Line>)
    ensures HasFlag(a + [FuzzyFlag] + b) && HasStr(a + [FuzzyFlag] + b) == HasStr(a + b)
    ensures KeyRest(x, a + [FuzzyFlag] + b) == KeyRest(x, a + b)
    ensures Value(x, a + [FuzzyFlag] + b) == Value(x, a + b)
    decreases |b|
  {
    if b == [] {
      assert a + b == a && a + [FuzzyFlag] + b == a + [FuzzyFlag];
      OneMoreLine(x, a, FuzzyFlag);
      assert KeyRest(x, a) + [] == KeyRest(x, a) && Value(x, a) + [] == Value(x, a);
    } else {
      var n := |b| - 1;
      assert a + b == (a + b[..n]) + [b[n]] && a + [FuzzyFlag] + b == (a + [FuzzyFlag] + b[..n]) + [b[n]];
      OneMoreLine(x, a + b[..n], b[n]);
      OneMoreLine(x, a + [FuzzyFlag] + b[..n], b[n]);
      FlagInBody(x, a, b[..n]);
    }
  }

  lemma OneMoreLine(x: Syntax, body: seq<Line>, line: Line)
    ensures HasFlag(body + [line]) == (line.FuzzyFlag? || HasFlag(body))
    ensures HasStr(body + [line]) == (line.MsgStr? || HasStr(body))
    ensures KeyRest(x, body + [line]) ==
            if line.MsgStr? || HasStr(body) then KeyRest(x, body) else KeyRest(x, body) + TextOf(x, line)
    ensures Value(x, body + [line]) ==
            if line.MsgStr? then TextOf(x, line) else if HasStr(body) then Value(x, body) + TextOf(x, line) else []
  {
    assert (body + [line])[..|body|] == body && (body + [line])[|body|] == line;
  }

  lemma SameBody(x: Syntax, a: seq<Line>, b: seq<Line>)
    ensures GoodBody(x, a + [FuzzyFlag] + b) == GoodBody(x, a + b)
  {
    var plain, flagged := a + b, a + [FuzzyFlag] + b;
    forall i | 0 <= i < |plain| ensures plain[i] == flagged[if i < |a| then i else i + 1] {}
    forall i | 0 <= i < |flagged| && i != |a| ensures flagged[i] == plain[if i < |a| then i else i - 1] {}
  }

  lemma {:induction false} CountBody(body: seq<Line>, rest: seq<Line>)
    requires NoMsgId(body)
    ensures CountMsgIds(body + rest) == CountMsgIds(rest)
    decreases |body|
  {
    if body == [] {
      assert body + rest == rest;
    } else {
      assert (body + rest)[1..] == body[1..] + rest;
      CountBody(body[1..], rest);
    }
  }

  lemma Regroup(a: seq<Line>, b: seq<Line>, c: seq<Line>)
    ensures (a + b) + c == a + (b + c)
  {
  }

  // A body ends within the gap, or with it.
  lemma MsgIdEnds(gap: seq<Line>, arg: string, rest: seq<Line>, more: seq<Line>, left: seq<Line>)
    requires gap + [MsgId(arg)] + rest == more + left
    requires IsBody(more)
    ensures |more| <= |gap| && left == gap[|more|..] + [MsgId(arg)] + rest
  {
    var tail := gap + [MsgId(arg)] + rest;
    assert tail[|gap|] == MsgId(arg);
    assert forall i :: 0 <= i < |more| ==> tail[i] == more[i];
    assert left == tail[|more|..];
  }

  // The flag stands behind a line that is of no entry.
  lemma FlagBehindLine(f: Reading, line: Line, plain: seq<Line>, flagged: seq<Line>, k: nat, pending: bool)
    requires LineLaw(f) && !line.MsgId?
    requires var p := if line.FuzzyFlag? then true else pending; FuzzyAt(f(plain, p), f(flagged, p), k)
    ensures FuzzyAt(f([line] + plain, pending), f([line] + flagged, pending), k)
  {
  }

  // The flag stands behind a whole entry.
  lemma FlagBehindEntry(
    x: Syntax, f: Reading, id: string, body: seq<Line>, plain: seq<Line>, flagged: seq<Line>, k: nat, pending: bool)
    requires EntryLaw(x, f) && IsBody(body) && AtEnd(plain) && AtEnd(flagged)
    requires FuzzyAt(f(plain, HasFlag(body)), f(flagged, HasFlag(body)), k)
    ensures FuzzyAt(f([MsgId(id)] + body + plain, pending), f([MsgId(id)] + body + flagged, pending), k + 1)
  {
    FuzzyBehind(FirstEntry(x, id, body, pending), f(plain, HasFlag(body)), f(flagged, HasFlag(body)), k);
  }

  // The flag stands in the body of the entry before the next, which ends with the lines `more`.
  lemma FlagInEntry(
    x: Syntax, f: Reading, id: string, body: seq<Line>, more: seq<Line>, left: seq<Line>, pending: bool)
    requires EntryLaw(x, f) && IsBody(body) && IsBody(more) && AtEnd(left)
    requires FuzzyAt(f(left, HasFlag(body + more)), f(left, true), 0)
    ensures FuzzyAt(f([MsgId(id)] + (body + more) + left, pending),
                    f([MsgId(id)] + (body + [FuzzyFlag] + more) + left, pending), 1)
  {
    var plain, flagged := body + more, body + [FuzzyFlag] + more;
    FlagInBody(x, body, more);
    SameBody(x, body, more);
    assert FirstEntry(x, id, flagged, pending) == FirstEntry(x, id, plain, pending);
    FuzzyBehind(FirstEntry(x, id, plain, pending), f(left, HasFlag(plain)), f(left, true), 0);
  }

  lemma RegroupEntry(front: seq<Line>, body: seq<Line>, more: seq<Line>, left: seq<Line>)
    ensures front + (body + more) + left == front + body + (more + left)
    ensures front + (body + [FuzzyFlag] + more) + left == front + body + ([FuzzyFlag] + (more + left))
  {
  }

  lemma FlagInLastEntry(
    x: Syntax, f: Reading, id: string, body: seq<Line>, gap: seq<Line>, arg: string, rest: seq<Line>, pending: bool)
    requires LineLaw(f) && EntryLaw(x, f) && IsBody(body) && NoMsgId(gap)
    ensures var front, tail := [MsgId(id)] + body, gap + [MsgId(arg)] + rest;
            FuzzyAt(f(front + tail, pending), f(front + ([FuzzyFlag] + tail), pending), 1)
  {
    var more, left := CutBody(gap + [MsgId(arg)] + rest);
    MsgIdEnds(gap, arg, rest, more, left);
    PendingMarksFirst(x, f, gap[|more|..], arg, rest, HasFlag(body + more));
    FlagInEntry(x, f, id, body, more, left, pending);
    RegroupEntry([MsgId(id)], body, more, left);
  }

  // The first entry of a file and the lines after it.
  lemma CutEntry(lines: seq<Line>) returns (body: seq<Line>, after: seq<Line>)
    requires lines != [] && lines[0].MsgId?
    ensures lines == [MsgId(lines[0].arg)] + body + after && IsBody(body) && AtEnd(after)
    ensures |after| < |lines| && CountMsgIds(lines) == CountMsgIds(after) + 1
  {
    body, after := CutBody(lines[1..]);
    CountBody(body, after);
  }

  lemma {:induction false} FlagMarks(
    x: Syntax, f: Reading, before: seq<Line>, gap: seq<Line>, arg: string, rest: seq<Line>, pending: bool)
    requires LineLaw(f) && EntryLaw(x, f) && NoMsgId(gap)
    ensures var tail := gap + [MsgId(arg)] + rest;
            FuzzyAt(f(before + tail, pending), f(before + ([FuzzyFlag] + tail), pending), CountMsgIds(before))
    decreases |before|
  {
    var tail := gap + [MsgId(arg)] + rest;
    if before == [] {
      PendingMarksFirst(x, f, gap, arg, rest, pending);
      assert before + tail == tail && before + ([FuzzyFlag] + tail) == [FuzzyFlag] + tail;
    } else if !before[0].MsgId? {
      var line, after := before[0], before[1..];
      FlagMarks(x, f, after, gap, arg, rest, if line.FuzzyFlag? then true else pending);
      FlagBehindLine(f, line, after + tail, after + ([FuzzyFlag] + tail), CountMsgIds(after), pending);
      assert before == [line] + after;
      Regroup([line], after, tail);
      Regroup([line], after, [FuzzyFlag] + tail);
    } else {
      var body, after := CutEntry(before);
      var id, front := before[0].arg, [MsgId(before[0].arg)] + body;
      if after == [] {
        FlagInLastEntry(x, f, id, body, gap, arg, rest, pending);
        assert before == front;
      } else {
        FlagMarks(x, f, after, gap, arg, rest, HasFlag(body));
        FlagBehindEntry(x, f, id, body, after + tail, after + ([FuzzyFlag] + tail), CountMsgIds(after), pending);
        Regroup(front, after, tail);
        Regroup(front, after, [FuzzyFlag] + tail);
      }
    }
  }

  /** A flag put anywhere into a file, even into the middle of an entry, changes nothing but that the
      entry of the next msgid line is fuzzy, whatever other lines are between. */
  lemma {:induction false} FlagMarksTheNextEntry(
    x: Syntax, before: seq<Line>, gap: seq<Line>, arg: string, rest: seq<Line>, pending: bool)
    requires NoMsgId(gap)
    ensures var tail := gap + [MsgId(arg)] + rest;
            FuzzyAt(Entries(x, before + tail, pending), Entries(x, before + ([FuzzyFlag] + tail), pending),
                    CountMsgIds(before))
  {
    EntriesObey(x);
    FlagMarks(x, ReadingOf(x), before, gap, arg, rest, pending);
  }
}
