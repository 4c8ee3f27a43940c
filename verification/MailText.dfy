/**
 Turning a message into inert text: the streaming HTML skipper against a tree, the escaping of
 invisible characters, and the collection of links. The HTML tokenizer, Unicode's tables and URL
 normalisation are parameters.
 */
module MailText {
  import opened Wrappers
  import opened Strings

  // ---------- HTML ----------

  datatype Event = Start(tag: string) | End(tag: string) | Data(text: string)

  // A newline between blocks, or a piece of the document's text.
  datatype Part = Break | Chunk(text: string)

  const FORBIDDEN: set<string> := {"script", "style", "template", "svg", "form", "object", "iframe"}
  const OPENS_BLOCK: set<string> := {"p", "br", "div", "li", "tr", "h1", "h2", "h3", "h4"}
  const CLOSES_BLOCK: set<string> := {"p", "div", "li", "tr"}

  datatype State = State(skip: nat, parts: seq<Part>)

  function Handle(s: State, e: Event): State {
    match e
    case Start(tag) =>
      if tag in FORBIDDEN then s.(skip := s.skip + 1)
      else if tag in OPENS_BLOCK then s.(parts := s.parts + [Break])
      else s
    case End(tag) =>
      if tag in FORBIDDEN && s.skip > 0 then s.(skip := s.skip - 1)
      else if tag in CLOSES_BLOCK then s.(parts := s.parts + [Break])
      else s
    case Data(text) => if s.skip == 0 then s.(parts := s.parts + [Chunk(text)]) else s
  }

  function Run(s: State, events: seq<Event>): State {
    if events == [] then s else Handle(Run(s, events[..|events| - 1]), events[|events| - 1])
  }

  class TextExtractor {
    var skip: nat
    var parts: seq<Part>

    constructor ()
      ensures State(skip, parts) == State(0, [])
    {
      skip, parts := 0, [];
    }

    method HandleStartTag(tag: string)
      modifies this
      ensures State(skip, parts) == Handle(old(State(skip, parts)), Start(tag))
    {
      if tag in FORBIDDEN {
        skip := skip + 1;
      } else if tag in OPENS_BLOCK {
        parts := parts + [Break];
      }
    }

    method HandleEndTag(tag: string)
      modifies this
      ensures State(skip, parts) == Handle(old(State(skip, parts)), End(tag))
    {
      if tag in FORBIDDEN && skip > 0 {
        skip := skip - 1;
      } else if tag in CLOSES_BLOCK {
        parts := parts + [Break];
      }
    }

    method HandleData(data: string)
      modifies this
      ensures State(skip, parts) == Handle(old(State(skip, parts)), Data(data))
    {
      if skip == 0 { parts := parts + [Chunk(data)]; }
    }

    method Feed(events: seq<Event>)
      modifies this
      ensures State(skip, parts) == Run(old(State(skip, parts)), events)
    {
      for i := 0 to |events|
        invariant State(skip, parts) == Run(old(State(skip, parts)), events[..i])
      {
        assert events[..i + 1][..i] == events[..i];
        match events[i] {
          case Start(tag) => HandleStartTag(tag);
          case End(tag) => HandleEndTag(tag);
          case Data(text) => HandleData(text);
        }
      }
      assert events[..|events|] == events;
    }
  }

  // A document as a tree. A void element has a start tag alone.
  datatype Node = Text(text: string) | Void(tag: string) | Element(tag: string, children: Forest)
  datatype Forest = Nil | Cons(head: Node, tail: Forest)

  // No forbidden element is void: each has an end tag.
  predicate WellNested(f: Forest) {
    match f
    case Nil => true
    case Cons(Text(_), tail) => WellNested(tail)
    case Cons(Void(tag), tail) => tag !in FORBIDDEN && WellNested(tail)
    case Cons(Element(_, children), tail) => WellNested(children) && WellNested(tail)
  }

  function Events(f: Forest): seq<Event> {
    match f
    case Nil => []
    case Cons(Text(text), tail) => [Data(text)] + Events(tail)
    case Cons(Void(tag), tail) => [Start(tag)] + Events(tail)
    case Cons(Element(tag, children), tail) => [Start(tag)] + Events(children) + [End(tag)] + Events(tail)
  }

  // Every text node, in document order, with the tags above it.
  datatype Leaf = Leaf(text: string, path: seq<string>)

  function Leaves(f: Forest, path: seq<string>): seq<Leaf> {
    match f
    case Nil => []
    case Cons(Text(text), tail) => [Leaf(text, path)] + Leaves(tail, path)
    case Cons(Void(_), tail) => Leaves(tail, path)
    case Cons(Element(tag, children), tail) => Leaves(children, path + [tag]) + Leaves(tail, path)
  }

  predicate Hides(tag: string) { tag in {"script", "style", "template", "svg", "form", "object", "iframe"} }

  predicate Shown(path: seq<string>) { forall i :: 0 <= i < |path| ==> !Hides(path[i]) }

  function ShownTexts(leaves: seq<Leaf>): seq<string> {
    if leaves == [] then []
    else (if Shown(leaves[0].path) then [leaves[0].text] else []) + ShownTexts(leaves[1..])
  }

  function Chunks(parts: seq<Part>): seq<string> {
    if parts == [] then [] else (if parts[0].Chunk? then [parts[0].text] else []) + Chunks(parts[1..])
  }

  lemma {:induction false} RunJoins(s: State, a: seq<Event>, b: seq<Event>)
    ensures Run(s, a + b) == Run(Run(s, a), b)
  {
    if b == [] {
      assert a + b == a;
    } else {
      assert (a + b)[..|a + b| - 1] == a + b[..|b| - 1];
      RunJoins(s, a, b[..|b| - 1]);
    }
  }

  lemma RunOne(s: State, e: Event)
    ensures Run(s, [e]) == Handle(s, e)
  {
    assert Run(s, [e][..0]) == s;
  }

  lemma {:induction false} ChunksJoin(a: seq<Part>, b: seq<Part>)
    ensures Chunks(a + b) == Chunks(a) + Chunks(b)
  {
    if a == [] {
      assert a + b == b;
    } else {
      assert (a + b)[1..] == a[1..] + b;
      ChunksJoin(a[1..], b);
    }
  }

  lemma {:induction false} ShownJoin(a: seq<Leaf>, b: seq<Leaf>)
    ensures ShownTexts(a + b) == ShownTexts(a) + ShownTexts(b)
  {
    if a == [] {
      assert a + b == b;
    } else {
      assert (a + b)[1..] == a[1..] + b;
      ShownJoin(a[1..], b);
    }
  }

  // The forbidden tags on a path.
  function Depth(path: seq<string>): nat {
    if path == [] then 0 else Depth(path[..|path| - 1]) + (if path[|path| - 1] in FORBIDDEN then 1 else 0)
  }

  lemma {:induction false} DepthIsShown(path: seq<string>)
    ensures Depth(path) == 0 <==> Shown(path)
  {
    if path != [] {
      var front := path[..|path| - 1];
      DepthIsShown(front);
      assert Shown(path) <==> Shown(front) && path[|path| - 1] !in FORBIDDEN by {
        assert forall i :: 0 <= i < |front| ==> front[i] == path[i];
      }
    }
  }

  // One handled event: what it does to the counter and to the text.
  lemma Handled(s: State, e: Event)
    ensures Chunks(Handle(s, e).parts) == Chunks(s.parts) + (if e.Data? && s.skip == 0 then [e.text] else [])
  {
    ChunksJoin(s.parts, [Break]);
    if e.Data? { ChunksJoin(s.parts, [Chunk(e.text)]); }
  }

  lemma RunElement(s: State, tag: string, children: seq<Event>, tail: seq<Event>)
    ensures Run(s, [Start(tag)] + children + [End(tag)] + tail)
            == Run(Handle(Run(Handle(s, Start(tag)), children), End(tag)), tail)
  {
    RunOne(s, Start(tag));
    RunJoins(s, [Start(tag)], children);
    RunOne(Run(s, [Start(tag)] + children), End(tag));
    RunJoins(s, [Start(tag)] + children, [End(tag)]);
    RunJoins(s, [Start(tag)] + children + [End(tag)], tail);
  }

  // A state reached from another by a well-nested stretch that shows these leaves.
  ghost predicate Extracted(s: State, s': State, leaves: seq<Leaf>) {
    s'.skip == s.skip && Chunks(s'.parts) == Chunks(s.parts) + ShownTexts(leaves)
  }

  lemma ExtractedJoins(s0: State, s1: State, s2: State, a: seq<Leaf>, b: seq<Leaf>)
    requires Extracted(s0, s1, a) && Extracted(s1, s2, b)
    ensures Extracted(s0, s2, a + b)
  {
    ShownJoin(a, b);
  }

  lemma ExtractsText(s: State, text: string, path: seq<string>)
    requires s.skip == Depth(path)
    ensures Extracted(s, Handle(s, Data(text)), [Leaf(text, path)])
  {
    Handled(s, Data(text));
    DepthIsShown(path);
    assert [Leaf(text, path)][1..] == [];
  }

  // An element around a stretch that has been extracted.
  lemma ExtractsElement(s: State, tag: string, path: seq<string>, inside: State, leaves: seq<Leaf>)
    requires s.skip == Depth(path)
    requires Extracted(Handle(s, Start(tag)), inside, leaves)
    ensures Handle(s, Start(tag)).skip == Depth(path + [tag])
    ensures Extracted(s, Handle(inside, End(tag)), leaves)
  {
    assert (path + [tag])[..|path|] == path;
    Handled(s, Start(tag));
    Handled(inside, End(tag));
  }

  /** On a well-nested document the skipper emits exactly the text nodes without a forbidden
      ancestor, in document order, and leaves the counter where it was. */
  lemma {:induction false} ExtractsShownText(f: Forest, path: seq<string>, s: State)
    requires WellNested(f) && s.skip == Depth(path)
    ensures Extracted(s, Run(s, Events(f)), Leaves(f, path))
    decreases f
  {
    match f
    case Nil =>
    case Cons(Text(text), tail) =>
      var next := Handle(s, Data(text));
      ExtractsText(s, text, path);
      ExtractsShownText(tail, path, next);
      RunOne(s, Data(text));
      RunJoins(s, [Data(text)], Events(tail));
      ExtractedJoins(s, next, Run(next, Events(tail)), [Leaf(text, path)], Leaves(tail, path));
    case Cons(Void(tag), tail) =>
      var next := Handle(s, Start(tag));
      Handled(s, Start(tag));
      ExtractsShownText(tail, path, next);
      RunOne(s, Start(tag));
      RunJoins(s, [Start(tag)], Events(tail));
    case Cons(Element(tag, children), tail) =>
      var entered := Handle(s, Start(tag));
      assert entered.skip == Depth(path + [tag]) by { assert (path + [tag])[..|path|] == path; }
      ExtractsShownText(children, path + [tag], entered);
      var inside := Run(entered, Events(children));
      var left := Handle(inside, End(tag));
      ExtractsElement(s, tag, path, inside, Leaves(children, path + [tag]));
      ExtractsShownText(tail, path, left);
      RunElement(s, tag, Events(children), Events(tail));
      ExtractedJoins(s, left, Run(left, Events(tail)), Leaves(children, path + [tag]), Leaves(tail, path));
  }

  /** The document as a whole. */
  lemma HtmlToText(f: Forest)
    requires WellNested(f)
    ensures Run(State(0, []), Events(f)).skip == 0
    ensures Chunks(Run(State(0, []), Events(f)).parts) == ShownTexts(Leaves(f, []))
  {
    ExtractsShownText(f, [], State(0, []));
  }

  // ---------- Where the breaks are ----------

  predicate BreaksBefore(tag: string) { tag in {"p", "br", "div", "li", "tr", "h1", "h2", "h3", "h4"} }

  predicate BreaksAfter(tag: string) { tag in {"p", "div", "li", "tr"} }

  // The parts of a document: its shown text, and a break where a block begins or ends, shown or not.
  function Layout(f: Forest, path: seq<string>): seq<Part> {
    match f
    case Nil => []
    case Cons(Text(text), tail) => (if Shown(path) then [Chunk(text)] else []) + Layout(tail, path)
    case Cons(Void(tag), tail) => (if BreaksBefore(tag) then [Break] else []) + Layout(tail, path)
    case Cons(Element(tag, children), tail) =>
      Around(tag, Layout(children, path + [tag])) + Layout(tail, path)
  }

  // A state reached from another by a stretch that emits these parts.
  predicate Emits(s: State, s': State, parts: seq<Part>) { s'.skip == s.skip && s'.parts == s.parts + parts }

  lemma EmitsJoins(s0: State, s1: State, s2: State, a: seq<Part>, b: seq<Part>)
    requires Emits(s0, s1, a) && Emits(s1, s2, b)
    ensures Emits(s0, s2, a + b)
  {
  }

  function Around(tag: string, parts: seq<Part>): seq<Part> {
    (if BreaksBefore(tag) then [Break] else []) + parts + (if BreaksAfter(tag) then [Break] else [])
  }

  // An element around a stretch.
  lemma EmitsElement(s: State, tag: string, inside: State, parts: seq<Part>)
    requires Emits(Handle(s, Start(tag)), inside, parts)
    ensures Emits(s, Handle(inside, End(tag)), Around(tag, parts))
  {
    var before, after := if BreaksBefore(tag) then [Break] else [], if BreaksAfter(tag) then [Break] else [];
    assert Handle(s, Start(tag)).parts == s.parts + before;
    assert Handle(inside, End(tag)).parts == inside.parts + after;
    assert s.parts + before + parts + after == s.parts + (before + parts + after);
  }

  lemma EmitsOne(s: State, e: Event, path: seq<string>)
    requires s.skip == Depth(path)
    ensures e.Data? ==> Emits(s, Handle(s, e), if Shown(path) then [Chunk(e.text)] else [])
    ensures e.Start? && e.tag !in FORBIDDEN ==> Emits(s, Handle(s, e), if BreaksBefore(e.tag) then [Break] else [])
  {
    DepthIsShown(path);
  }

  /** On a well-nested document everything that is emitted, breaks included, is its layout. */
  lemma {:induction false} EmitsLayout(f: Forest, path: seq<string>, s: State)
    requires WellNested(f) && s.skip == Depth(path)
    ensures Emits(s, Run(s, Events(f)), Layout(f, path))
    decreases f, 0
  {
    match f
    case Nil =>
    case Cons(Text(text), tail) => EmitsFirst(s, Data(text), path, tail);
    case Cons(Void(tag), tail) => EmitsFirst(s, Start(tag), path, tail);
    case Cons(Element(tag, children), tail) =>
      var entered := Handle(s, Start(tag));
      assert entered.skip == Depth(path + [tag]) by { assert (path + [tag])[..|path|] == path; }
      EmitsLayout(children, path + [tag], entered);
      var inside := Run(entered, Events(children));
      var left := Handle(inside, End(tag));
      EmitsElement(s, tag, inside, Layout(children, path + [tag]));
      EmitsLayout(tail, path, left);
      RunElement(s, tag, Events(children), Events(tail));
      EmitsJoins(s, left, Run(left, Events(tail)), Around(tag, Layout(children, path + [tag])), Layout(tail, path));
  }

  // A single event in front of the rest.
  lemma {:induction false} EmitsFirst(s: State, e: Event, path: seq<string>, tail: Forest)
    requires WellNested(tail) && s.skip == Depth(path) && (e.Data? || (e.Start? && e.tag !in FORBIDDEN))
    ensures var parts := if e.Data? then (if Shown(path) then [Chunk(e.text)] else [])
                         else if BreaksBefore(e.tag) then [Break] else [];
            Emits(s, Run(s, [e] + Events(tail)), parts + Layout(tail, path))
    decreases tail, 1
  {
    var next := Handle(s, e);
    EmitsOne(s, e, path);
    EmitsLayout(tail, path, next);
    RunOne(s, e);
    RunJoins(s, [e], Events(tail));
    var parts := if e.Data? then (if Shown(path) then [Chunk(e.text)] else [])
                 else if BreaksBefore(e.tag) then [Break] else [];
    EmitsJoins(s, next, Run(next, Events(tail)), parts, Layout(tail, path));
  }

  // ---------- Any stream ----------

  function Weight(e: Event): int {
    if e.Start? && e.tag in FORBIDDEN then 1 else if e.End? && e.tag in FORBIDDEN then -1 else 0
  }

  // Forbidden start tags less forbidden end tags.
  function Balance(events: seq<Event>): int {
    if events == [] then 0 else Balance(events[..|events| - 1]) + Weight(events[|events| - 1])
  }

  function Skip(events: seq<Event>): nat { Run(State(0, []), events).skip }

  lemma SkipPush(events: seq<Event>)
    requires events != []
    ensures var before := Skip(events[..|events| - 1]) + Weight(events[|events| - 1]);
            Skip(events) == if before < 0 then 0 else before
  {
  }

  lemma BalancePush(events: seq<Event>, k: nat)
    requires k < |events|
    ensures Balance(events[k..]) == Balance(events[..|events| - 1][k..]) + Weight(events[|events| - 1])
  {
    assert events[k..][..|events| - 1 - k] == events[..|events| - 1][k..];
  }

  lemma {:induction false} LargestBalance(events: seq<Event>) returns (k: nat)
    ensures forall i :: 0 <= i <= |events| ==> Balance(events[i..]) <= Skip(events)
    ensures k <= |events| && Balance(events[k..]) == Skip(events)
  {
    k := |events|;
    assert events[k..] == [];
    if events != [] {
      var front := events[..|events| - 1];
      var k' := LargestBalance(front);
      SkipPush(events);
      BalancePush(events, k');
      forall i | 0 <= i < |events| ensures Balance(events[i..]) <= Skip(events) { BalancePush(events, i); }
      if Skip(events) == Skip(front) + Weight(events[|events| - 1]) { k := k'; }
    }
  }

  /** On any stream at all the counter is the largest balance of a stretch that ends now: text is
      emitted exactly when no stretch before it has more forbidden starts than ends. */
  lemma CounterIsLargestBalance(events: seq<Event>)
    ensures forall k :: 0 <= k <= |events| ==> Balance(events[k..]) <= Skip(events)
    ensures exists k :: 0 <= k <= |events| && Balance(events[k..]) == Skip(events)
    ensures Skip(events) == 0 <==> Uncovered(events)
  {
    var k := LargestBalance(events);
    assert events[|events|..] == [];
  }

  /** And what a stream emits is the data events at which the counter was zero. */
  lemma {:induction false} EmitsWhereZero(events: seq<Event>)
    ensures Chunks(Run(State(0, []), events).parts) == ZeroTexts(events)
  {
    if events != [] {
      EmitsWhereZero(events[..|events| - 1]);
      CounterIsLargestBalance(events[..|events| - 1]);
      Handled(Run(State(0, []), events[..|events| - 1]), events[|events| - 1]);
    }
  }

  ghost predicate Uncovered(events: seq<Event>) { forall k :: 0 <= k <= |events| ==> Balance(events[k..]) <= 0 }

  // The texts before which no stretch has more forbidden starts than ends.
  ghost function ZeroTexts(events: seq<Event>): seq<string> {
    if events == [] then []
    else
      var front, e := events[..|events| - 1], events[|events| - 1];
      ZeroTexts(front) + (if e.Data? && Uncovered(front) then [e.text] else [])
  }

  // ---------- Invisible characters ----------

  datatype Category = Format | Control | Visible

  // unicodedata: the name of a character, empty when it has none, and its category.
  datatype Table = Table(name: char -> string, category: char -> Category)

  const CONTROL_NAMES: seq<string> := ["RIGHT-TO-LEFT", "LEFT-TO-RIGHT", "ISOLATE", "OVERRIDE", "EMBEDDING"]

  predicate Directional(t: Table, c: char) {
    exists i :: 0 <= i < |CONTROL_NAMES| && Contains(t.name(c), CONTROL_NAMES[i])
  }

  predicate Kept(c: char) { c == '\n' || c == '\t' }

  // Invisible: escaped by name.
  predicate Invisible(t: Table, c: char) { !Kept(c) && (t.category(c).Format? || Directional(t, c)) }

  predicate Plain(t: Table, c: char) { Kept(c) || (!Invisible(t, c) && !t.category(c).Control?) }

  function Label(t: Table, c: char): string { if t.name(c) == "" then "CONTROL" else t.name(c) }

  function Escape(t: Table, c: char): string {
    if Kept(c) then [c]
    else if Invisible(t, c) then "[UNICODE " + Label(t, c) + "]"
    else if t.category(c).Control? then " "
    else [c]
  }

  function Escaped(t: Table, value: string): string {
    if value == "" then "" else Escaped(t, value[..|value| - 1]) + Escape(t, value[|value| - 1])
  }

  // What stands in the output for one character.
  predicate Rendered(t: Table, c: char, out: string) {
    var name := t.name(c);
    var named := Contains(name, "RIGHT-TO-LEFT") || Contains(name, "LEFT-TO-RIGHT") || Contains(name, "ISOLATE")
                 || Contains(name, "OVERRIDE") || Contains(name, "EMBEDDING");
    if c == '\n' || c == '\t' then out == [c]
    else if t.category(c) == Format || named then
      out == "[UNICODE " + (if t.name(c) == "" then "CONTROL" else t.name(c)) + "]"
    else out == [if t.category(c) == Control then ' ' else c]
  }

  function Joined(pieces: seq<string>): string {
    if pieces == [] then "" else Joined(pieces[..|pieces| - 1]) + pieces[|pieces| - 1]
  }

  predicate RenderedAs(t: Table, value: string, out: string, pieces: seq<string>) {
    && |pieces| == |value| && out == Joined(pieces)
    && forall i :: 0 <= i < |value| ==> Rendered(t, value[i], pieces[i])
  }

  ghost predicate IsRendered(t: Table, value: string, out: string) {
    exists pieces :: RenderedAs(t, value, out, pieces)
  }

  lemma FiveNames(t: Table, c: char)
    ensures var name := t.name(c);
            Directional(t, c) <==>
              || Contains(name, "RIGHT-TO-LEFT") || Contains(name, "LEFT-TO-RIGHT") || Contains(name, "ISOLATE")
              || Contains(name, "OVERRIDE") || Contains(name, "EMBEDDING")
  {
    var names := CONTROL_NAMES;
    assert names[0] == "RIGHT-TO-LEFT" && names[1] == "LEFT-TO-RIGHT" && names[2] == "ISOLATE"
           && names[3] == "OVERRIDE" && names[4] == "EMBEDDING" && |names| == 5;
  }

  lemma EscapeRenders(t: Table, c: char)
    ensures Rendered(t, c, Escape(t, c))
  {
    FiveNames(t, c);
  }

  /** The output is one piece for every character, in order: a visible character as it is, a control
      character as a blank, an invisible one as its name in brackets. */
  lemma {:induction false} EscapedIsRendered(t: Table, value: string)
    ensures IsRendered(t, value, Escaped(t, value))
  {
    if value == "" {
      assert RenderedAs(t, value, "", []);
    } else {
      var n := |value| - 1;
      EscapedIsRendered(t, value[..n]);
      var pieces :| RenderedAs(t, value[..n], Escaped(t, value[..n]), pieces);
      var more := pieces + [Escape(t, value[n])];
      EscapeRenders(t, value[n]);
      assert more[..n] == pieces;
      assert RenderedAs(t, value, Escaped(t, value), more);
    }
  }

  /** _visible_controls: the text with every invisible character named, and whether there was one. */
  method VisibleControls(t: Table, value: string) returns (out: string, found: bool)
    ensures out == Escaped(t, value)
    ensures found <==> exists i :: 0 <= i < |value| && Invisible(t, value[i])
    ensures IsRendered(t, value, out)
  {
    out, found := "", false;
    for i := 0 to |value|
      invariant out == Escaped(t, value[..i])
      invariant found <==> exists k :: 0 <= k < i && Invisible(t, value[k])
    {
      assert value[..i + 1][..i] == value[..i];
      var c := value[i];
      if Kept(c) {
        out := out + [c];
      } else if t.category(c).Format? || Directional(t, c) {
        found := true;
        out := out + "[UNICODE " + Label(t, c) + "]";
      } else if t.category(c).Control? {
        out := out + " ";
      } else {
        out := out + [c];
      }
    }
    assert value[..|value|] == value;
    EscapedIsRendered(t, value);
  }

  // The escapes are made of plain characters: capitals, digits, hyphens, spaces and brackets.
  ghost predicate TableOk(t: Table) {
    && (forall c, i :: 0 <= i < |t.name(c)| ==> Plain(t, t.name(c)[i]))
    && forall i :: 0 <= i < |"[UNICODE CONTROL]"| ==> Plain(t, "[UNICODE CONTROL]"[i])
  }

  predicate AllPlain(t: Table, s: string) { forall i :: 0 <= i < |s| ==> Plain(t, s[i]) }

  lemma EscapePlain(t: Table, c: char)
    requires TableOk(t)
    ensures AllPlain(t, Escape(t, c))
  {
    var all := "[UNICODE CONTROL]";
    assert "[UNICODE " == all[..9] && "CONTROL" == all[9..16] && "]" == all[16..17] && " " == all[8..9];
    assert forall i :: 0 <= i < 17 ==> Plain(t, all[i]);
    assert AllPlain(t, all[..9]) && AllPlain(t, all[9..16]) && AllPlain(t, all[16..17]) && AllPlain(t, all[8..9]);
    assert AllPlain(t, Label(t, c));
  }

  /** No format or control character but newline and tab is left in the output. */
  lemma {:induction false} NothingInvisibleLeft(t: Table, value: string)
    requires TableOk(t)
    ensures AllPlain(t, Escaped(t, value))
  {
    if value != "" {
      NothingInvisibleLeft(t, value[..|value| - 1]);
      EscapePlain(t, value[|value| - 1]);
    }
  }

  /** A plain text is left alone. */
  lemma {:induction false} PlainIsUnchanged(t: Table, value: string)
    requires AllPlain(t, value)
    ensures Escaped(t, value) == value
  {
    if value != "" {
      PlainIsUnchanged(t, value[..|value| - 1]);
      assert value == value[..|value| - 1] + [value[|value| - 1]];
    }
  }

  /** A second pass changes nothing and reports nothing. */
  lemma {:induction false} SecondPass(t: Table, value: string)
    requires TableOk(t)
    ensures Escaped(t, Escaped(t, value)) == Escaped(t, value)
    ensures forall i :: 0 <= i < |Escaped(t, value)| ==> !Invisible(t, Escaped(t, value)[i])
  {
    NothingInvisibleLeft(t, value);
    PlainIsUnchanged(t, Escaped(t, value));
  }

  // ---------- Lengths ----------

  // How much longer the escapes make a text.
  function Growth(t: Table, value: string): nat {
    if value == "" then 0
    else
      var c := value[|value| - 1];
      Growth(t, value[..|value| - 1]) + (if Invisible(t, c) then 9 + |Label(t, c)| else 0)
  }

  lemma {:induction false} ExactLength(t: Table, value: string)
    ensures |Escaped(t, value)| == |value| + Growth(t, value)
    ensures Growth(t, value) == 0 <==> forall i :: 0 <= i < |value| ==> !Invisible(t, value[i])
  {
    if value != "" {
      ExactLength(t, value[..|value| - 1]);
      assert value == value[..|value| - 1] + [value[|value| - 1]];
    }
  }

  lemma {:induction false} LengthBound(t: Table, value: string, longest: nat)
    requires forall c :: Invisible(t, c) ==> |Label(t, c)| <= longest
    ensures |Escaped(t, value)| <= |value| * (10 + longest)
  {
    if value != "" {
      LengthBound(t, value[..|value| - 1], longest);
      assert |Escape(t, value[|value| - 1])| <= 10 + longest;
      assert |value| * (10 + longest) == (|value| - 1) * (10 + longest) + (10 + longest);
    }
  }

  /** Texts and headers are cut before they are escaped: what comes out is within the limit if and
      only if the escapes fit into what the cut left free. */
  lemma LimitCondition(t: Table, value: string, limit: nat)
    ensures var kept := Cut(value, limit);
            |Escaped(t, kept)| <= limit <==> |kept| + Growth(t, kept) <= limit
    ensures |value| >= limit ==>
              (|Escaped(t, Cut(value, limit))| <= limit <==> forall i :: 0 <= i < limit ==> !Invisible(t, value[i]))
  {
    ExactLength(t, Cut(value, limit));
    if |value| >= limit {
      assert Cut(value, limit) == value[..limit];
      assert forall i :: 0 <= i < limit ==> value[..limit][i] == value[i];
    }
  }

  function Repeated(c: char, n: nat): string { seq(n, _ => c) }

  lemma {:induction false} GrowthRepeated(t: Table, c: char, n: nat, k: nat)
    requires Invisible(t, c) && k == 9 + |Label(t, c)|
    ensures Growth(t, Repeated(c, n)) == n * k
  {
    if n > 0 {
      var all := Repeated(c, n);
      GrowthRepeated(t, c, n - 1, k);
      assert all[..n - 1] == Repeated(c, n - 1) && all[n - 1] == c;
      OneFewer(n, k);
    }
  }

  lemma OneFewer(n: nat, k: nat)
    requires n > 0
    ensures n * k == (n - 1) * k + k
  {
  }

  lemma OneMoreEach(n: nat, k: nat)
    ensures n + n * k == n * (1 + k)
  {
  }

  /** The bound is reached: a text of one such character grows by its whole escape each time. */
  lemma WorstCase(t: Table, c: char, n: nat)
    requires Invisible(t, c)
    ensures |Escaped(t, Repeated(c, n))| == n * (10 + |Label(t, c)|)
  {
    var k := 9 + |Label(t, c)|;
    assert 10 + |Label(t, c)| == 1 + k;
    GrowthRepeated(t, c, n, k);
    ExactLength(t, Repeated(c, n));
    OneMoreEach(n, k);
  }

  // Every text of at most n characters comes out within the limit.
  ghost predicate WithinLimit(t: Table, n: nat, limit: nat) {
    forall value: string :: |value| <= n ==> |Escaped(t, Cut(value, limit))| <= limit
  }

  lemma TimesGrows(m: nat, n: nat, k: nat)
    requires m <= n
    ensures m * k <= n * k
  {
    assert n * k == m * k + (n - m) * k;
  }

  /** On length alone: all texts of at most n characters stay within the limit exactly when n escapes
      of the longest name, or as many as the cut lets through, fit into it. */
  lemma LengthCondition(t: Table, c: char, n: nat, limit: nat)
    requires Invisible(t, c) && forall d :: Invisible(t, d) ==> |Label(t, d)| <= |Label(t, c)|
    ensures var most := if n <= limit then n else limit;
            WithinLimit(t, n, limit) <==> most * (10 + |Label(t, c)|) <= limit
  {
    var most := if n <= limit then n else limit;
    var longest := |Label(t, c)|;
    if most * (10 + longest) <= limit {
      forall value: string | |value| <= n ensures |Escaped(t, Cut(value, limit))| <= limit {
        LengthBound(t, Cut(value, limit), longest);
        TimesGrows(|Cut(value, limit)|, most, 10 + longest);
      }
    }
    if WithinLimit(t, n, limit) {
      var worst := Repeated(c, most);
      WorstCase(t, c, most);
      assert Cut(worst, limit) == worst;
    }
  }

  const MAX_TEXT := 200_000

  /** A text of 8192 characters with a name of 24 letters, two bytes each, is a payload of 16384
      bytes that comes out longer than 200000 characters. */
  lemma FuzzBoundFails(t: Table, c: char)
    requires Invisible(t, c) && |Label(t, c)| == 24
    ensures |Escaped(t, Cut(Repeated(c, 8192), MAX_TEXT))| == 278_528 > MAX_TEXT == 200_000
  {
    WorstCase(t, c, 8192);
  }

  // ---------- Links ----------

  const MAX_LINKS := 100

  // The normalised links, each the first time it occurs.
  function Distinct(normalise: string -> Option<string>, matches: seq<string>): seq<string> {
    if matches == [] then []
    else
      var front := Distinct(normalise, matches[..|matches| - 1]);
      var link := normalise(matches[|matches| - 1]);
      if link.Some? && link.value != "" && link.value !in front then front + [link.value] else front
  }

  lemma {:induction false} DistinctGrows(normalise: string -> Option<string>, matches: seq<string>, n: nat)
    requires n <= |matches|
    ensures Distinct(normalise, matches[..n]) <= Distinct(normalise, matches)
  {
    if n == |matches| {
      assert matches[..n] == matches;
    } else {
      DistinctGrows(normalise, matches[..|matches| - 1], n);
      assert matches[..|matches| - 1][..n] == matches[..n];
    }
  }

  lemma {:induction false} DistinctMeaning(normalise: string -> Option<string>, matches: seq<string>)
    ensures var links := Distinct(normalise, matches);
            && (forall i, j :: 0 <= i < j < |links| ==> links[i] != links[j])
            && (forall l :: l in links <==>
                  l != "" && exists i :: 0 <= i < |matches| && normalise(matches[i]) == Some(l))
  {
    if matches != [] {
      var n := |matches| - 1;
      DistinctMeaning(normalise, matches[..n]);
      forall l ensures l in Distinct(normalise, matches) <==>
                       l != "" && exists i :: 0 <= i < |matches| && normalise(matches[i]) == Some(l) {
        if l in Distinct(normalise, matches[..n]) {
          var i :| 0 <= i < n && normalise(matches[..n][i]) == Some(l);
          assert normalise(matches[i]) == Some(l);
        } else if exists i :: 0 <= i < |matches| && normalise(matches[i]) == Some(l) {
          var i :| 0 <= i < |matches| && normalise(matches[i]) == Some(l);
          assert i < n ==> normalise(matches[..n][i]) == Some(l);
        }
      }
    }
  }

  // Where a link first occurs.
  predicate FirstAt(normalise: string -> Option<string>, matches: seq<string>, link: string, k: nat) {
    && k < |matches| && normalise(matches[k]) == Some(link)
    && forall i :: 0 <= i < k ==> normalise(matches[i]) != Some(link)
  }

  /** The links stand in the order in which they first occur. */
  lemma {:induction false} DistinctOrder(normalise: string -> Option<string>, matches: seq<string>)
    ensures var links := Distinct(normalise, matches);
            forall i, j, a: nat, b: nat ::
              && 0 <= i < j < |links|
              && FirstAt(normalise, matches, links[i], a) && FirstAt(normalise, matches, links[j], b)
              ==> a < b
  {
    if matches != [] {
      var n := |matches| - 1;
      var front, links := Distinct(normalise, matches[..n]), Distinct(normalise, matches);
      DistinctOrder(normalise, matches[..n]);
      DistinctMeaning(normalise, matches[..n]);
      forall i, j, a: nat, b: nat |
        0 <= i < j < |links| && FirstAt(normalise, matches, links[i], a) && FirstAt(normalise, matches, links[j], b)
        ensures a < b
      {
        InFront(normalise, matches, links[i], a);
        InFront(normalise, matches, links[j], b);
      }
    }
  }

  // A link of the front is first there.
  lemma InFront(normalise: string -> Option<string>, matches: seq<string>, link: string, k: nat)
    requires matches != [] && FirstAt(normalise, matches, link, k)
    ensures k < |matches| - 1 ==> FirstAt(normalise, matches[..|matches| - 1], link, k)
    ensures link in Distinct(normalise, matches[..|matches| - 1]) ==> k < |matches| - 1
  {
    var n := |matches| - 1;
    DistinctMeaning(normalise, matches[..n]);
    if link in Distinct(normalise, matches[..n]) {
      var i :| 0 <= i < n && normalise(matches[..n][i]) == Some(link);
      assert normalise(matches[i]) == Some(link);
    }
  }

  /** The link loop stops at a hundred different links: it reports too many exactly when there
      are a hundred or more, and keeps the first of them in order. */
  method CollectLinks(normalise: string -> Option<string>, matches: seq<string>)
    returns (urls: seq<string>, tooMany: bool)
    ensures tooMany <==> |Distinct(normalise, matches)| >= 100
    ensures urls == if tooMany then Distinct(normalise, matches)[..100] else Distinct(normalise, matches)
  {
    urls, tooMany := [], false;
    for i := 0 to |matches|
      invariant urls == Distinct(normalise, matches[..i]) && |urls| < MAX_LINKS && !tooMany
    {
      assert matches[..i + 1][..i] == matches[..i];
      var normalised := normalise(matches[i]);
      if normalised.Some? && normalised.value != "" && normalised.value !in urls {
        urls := urls + [normalised.value];
      }
      if |urls| >= MAX_LINKS {
        DistinctGrows(normalise, matches, i + 1);
        return urls, true;
      }
    }
    assert matches[..|matches|] == matches;
  }
}
