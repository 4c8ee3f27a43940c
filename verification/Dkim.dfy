/**
 Independent DKIM verification: the DNS budget all signatures of a message share, the tag lists of
 its DKIM-Signature headers, and the overall verdict. The signature check itself and the shape
 of an allowed name are parameters.
 */
module Dkim {
  import opened Wrappers
  import opened Strings

  type ByteString = seq<int>

  const MAX_SIGNATURES := 5
  const MAX_QUERIES := 5
  const MAX_TXT_BYTES := 8192
  const TIMEOUT: real := 5.0
  const TOTAL: real := 8.0
  const SHORTEST: real := 0.1

  datatype Error = Temporary | Permanent
  datatype Answer = Text(value: ByteString) | Absent | NotBytes | Raised(error: Error)

  // One lookup: the clock when the budget was read, when the resolver was called, when it was done.
  datatype Query = Query(name: ByteString, timeout: int, readAt: real, calledAt: real, doneAt: real, answer: Answer)

  function Min(a: real, b: real): real { if a <= b then a else b }
  function Max(a: real, b: real): real { if a <= b then b else a }

  // ---------- The budget ----------

  // The message's budget: when it started, which names may be asked for, and how long after
  // reading the clock the resolver may be called.
  datatype Budget = Budget(started: real, allowed: ByteString -> bool, lag: real) {
    function Remaining(q: Query): real { TOTAL - (q.readAt - started) }

    // Whether the n-th lookup, counted from zero, reaches the resolver.
    predicate Asks(n: nat, q: Query) { n < MAX_QUERIES && Remaining(q) > 0.0 && allowed(q.name) }

    // The lifetime of the call, after the resolver's own clamping.
    function Lifetime(q: Query): real {
      Min(Max(Min(Min(q.timeout as real, TIMEOUT), Remaining(q)), SHORTEST), TIMEOUT)
    }

    function ErrorOf(n: nat, q: Query): Option<Error> {
      if n >= MAX_QUERIES then Some(Permanent)
      else if Remaining(q) <= 0.0 then Some(Temporary)
      else if !allowed(q.name) then Some(Permanent)
      else
        match q.answer
        case Raised(e) => Some(e)
        case NotBytes => Some(Permanent)
        case Text(v) => if |v| > MAX_TXT_BYTES then Some(Permanent) else None
        case Absent => None
    }

    function ValueOf(n: nat, q: Query): Option<ByteString> {
      if ErrorOf(n, q).None? && q.answer.Text? then Some(q.answer.value) else None
    }

    // The resolver honours its timeout.
    predicate Honoured(n: nat, q: Query) {
      if Asks(n, q) then q.readAt <= q.calledAt <= q.readAt + lag && q.calledAt <= q.doneAt <= q.calledAt + Lifetime(q)
      else q.calledAt == q.readAt == q.doneAt
    }

    ghost predicate Lawful(log: seq<Query>) {
      && (forall n :: 0 <= n < |log| ==> Honoured(n, log[n]) && started <= log[n].readAt)
      && (forall n :: 0 <= n < |log| - 1 ==> log[n].doneAt <= log[n + 1].readAt)
    }

    function Calls(log: seq<Query>): nat {
      if log == [] then 0
      else Calls(log[..|log| - 1]) + (if Asks(|log| - 1, log[|log| - 1]) then 1 else 0)
    }

    // The last error among the lookups from number `from` on.
    function LastError(log: seq<Query>, from: nat): Option<Error> {
      if |log| <= from then None
      else
        var e := ErrorOf(|log| - 1, log[|log| - 1]);
        if e.Some? then e else LastError(log[..|log| - 1], from)
    }

    /** A lookup has a value exactly if it is one of the first five, in time, for an allowed name, and
        answered with a text of at most 8192 bytes; it is a temporary failure exactly if it is out
        of time or the resolver said so; and it is no failure exactly if it has a value or the name
        has no record. */
    lemma LookupMeaning(n: nat, q: Query)
      ensures var inTime := q.readAt - started < 8.0;
              && (forall v :: ValueOf(n, q) == Some(v) <==>
                    n < 5 && inTime && allowed(q.name) && q.answer == Text(v) && |v| <= 8192)
              && (ErrorOf(n, q) == Some(Temporary) <==>
                    n < 5 && (!inTime || (allowed(q.name) && q.answer == Raised(Temporary))))
              && (ErrorOf(n, q) == None <==>
                    ValueOf(n, q).Some? || (n < 5 && inTime && allowed(q.name) && q.answer == Absent))
    {
    }

    lemma {:induction false} NoErrorMeaning(log: seq<Query>, from: nat)
      ensures LastError(log, from) == None <==> forall n :: from <= n < |log| ==> ErrorOf(n, log[n]) == None
    {
      if from < |log| {
        var front := log[..|log| - 1];
        NoErrorMeaning(front, from);
        assert forall n :: 0 <= n < |front| ==> front[n] == log[n];
      }
    }

    /** However many lookups, at most five reach the resolver, and no wait outlasts the budget
        by a tenth of a second. */
    lemma {:induction false} WithinBudget(log: seq<Query>)
      requires Lawful(log) && lag >= 0.0
      ensures Calls(log) <= MAX_QUERIES && Calls(log) <= |log|
      ensures forall n :: 0 <= n < |log| && Asks(n, log[n]) ==> log[n].doneAt < started + TOTAL + SHORTEST + lag
      ensures forall n :: 0 <= n < |log| && Asks(n, log[n]) ==>
                log[n].doneAt - log[n].calledAt <= 5.0 && log[n].doneAt < started + 8.1 + lag
    {
      if log != [] {
        var front := log[..|log| - 1];
        assert Lawful(front) by {
          forall n | 0 <= n < |front| - 1 ensures front[n].doneAt <= front[n + 1].readAt {
            assert log[n].doneAt <= log[n + 1].readAt;
          }
        }
        WithinBudget(front);
        var q := log[|log| - 1];
        assert Asks(|log| - 1, q) ==> q.doneAt < started + TOTAL + SHORTEST + lag by {
          assert Honoured(|log| - 1, q);
        }
        assert forall n :: 0 <= n < |log| - 1 ==> log[n] == front[n];
      }
    }

    // Whatever the resolver does within its lifetime, this wait ends within the eight seconds.
    ghost predicate InTime(n: nat, q: Query) {
      forall done: real :: Honoured(n, q.(doneAt := done)) ==> done <= started + TOTAL
    }

    /** The eight seconds themselves are safe exactly when the call starts no later than its lifetime
        before their end; a call made at once is safe exactly when the shortest lifetime is left. */
    lemma OverrunCondition(n: nat, q: Query)
      requires Asks(n, q) && q.readAt <= q.calledAt <= q.readAt + lag
      ensures InTime(n, q) <==> q.calledAt + Lifetime(q) <= started + TOTAL
      ensures q.calledAt == q.readAt ==> (InTime(n, q) <==> SHORTEST <= Remaining(q))
    {
      var last := q.calledAt + Lifetime(q);
      assert Honoured(n, q.(doneAt := last));
      if last <= started + TOTAL {
        forall done: real | Honoured(n, q.(doneAt := done)) ensures done <= started + TOTAL {}
      }
    }

    // The budget's time was over, or the resolver said so.
    predicate Temporarily(q: Query) {
      Remaining(q) <= 0.0 || (allowed(q.name) && q.answer == Raised(Temporary))
    }

    ghost predicate TemporaryLast(log: seq<Query>, from: nat, n: nat) {
      from <= n < |log| && Temporarily(log[n]) && forall k :: n < k < |log| ==> ErrorOf(k, log[k]).None?
    }

    /** A check that comes to nothing is a temporary failure exactly when no message-wide sixth lookup
        has been made and its last failing lookup ran out of time or was told so by the resolver. */
    lemma {:induction false} TemporaryCondition(log: seq<Query>, from: nat)
      ensures LastError(log, from) == Some(Temporary) <==>
                |log| <= MAX_QUERIES && exists n: nat :: TemporaryLast(log, from, n)
    {
      if from < |log| {
        var n := |log| - 1;
        var front := log[..n];
        TemporaryCondition(front, from);
        if |log| > MAX_QUERIES {
          assert ErrorOf(n, log[n]) == Some(Permanent);
        } else if ErrorOf(n, log[n]).Some? {
          if Temporarily(log[n]) { assert TemporaryLast(log, from, n); }
          forall k: nat ensures TemporaryLast(log, from, k) ==> k == n { OnlyTheLast(log, from, k); }
        } else {
          forall k: nat ensures TemporaryLast(log, from, k) <==> k < n && TemporaryLast(front, from, k) {
            TemporaryStays(log, from, k);
          }
        }
      }
    }

    lemma OnlyTheLast(log: seq<Query>, from: nat, k: nat)
      requires log != [] && ErrorOf(|log| - 1, log[|log| - 1]).Some?
      ensures TemporaryLast(log, from, k) ==> k == |log| - 1
    {
    }

    // A lookup without an error leaves the last temporary one where it was.
    lemma TemporaryStays(log: seq<Query>, from: nat, k: nat)
      requires log != [] && |log| <= MAX_QUERIES && ErrorOf(|log| - 1, log[|log| - 1]).None?
      ensures TemporaryLast(log, from, k) <==> k < |log| - 1 && TemporaryLast(log[..|log| - 1], from, k)
    {
      var n, front := |log| - 1, log[..|log| - 1];
      assert forall i :: 0 <= i < n ==> front[i] == log[i];
    }
  }

  /** Eight seconds are not always enough: a call with 0.05 seconds left that takes 0.09. */
  lemma OverrunExample(allowed: ByteString -> bool, name: ByteString)
    requires allowed(name)
    ensures var b := Budget(0.0, allowed, 0.0);
            var q := Query(name, 5, 7.95, 7.95, 8.04, Absent);
            b.Lawful([q]) && b.Asks(0, q) && q.doneAt > b.started + TOTAL
  {
    var b := Budget(0.0, allowed, 0.0);
    assert b.Lifetime(Query(name, 5, 7.95, 7.95, 8.04, Absent)) == SHORTEST;
  }

  lemma Logged(b: Budget, log: seq<Query>, q: Query)
    requires b.Lawful(log) && b.Honoured(|log|, q) && b.started <= q.readAt
    requires log == [] || log[|log| - 1].doneAt <= q.readAt
    ensures b.Lawful(log + [q])
  {
  }

  lemma LastErrorGrows(b: Budget, before: seq<Query>, log: seq<Query>, from: nat)
    requires from <= |before| && |log| == |before| + 1 && log[..|before|] == before
    ensures var e := b.ErrorOf(|before|, log[|before|]);
            b.LastError(log, from) == if e.Some? then e else b.LastError(before, from)
  {
  }

  class DnsBudget {
    const budget: Budget
    // What the resolver answers to the n-th lookup.
    const resolver: nat -> Answer
    var queries: nat
    var lastError: Option<Error>
    var now: real
    ghost var log: seq<Query>

    constructor (budget: Budget, resolver: nat -> Answer)
      requires budget.lag >= 0.0
      ensures this.budget == budget && this.resolver == resolver && Valid() && log == [] && lastError == None
    {
      this.resolver := resolver;
      this.budget, queries, lastError, now, log := budget, 0, None, budget.started, [];
    }

    ghost predicate Valid()
      reads this
    {
      && budget.lag >= 0.0 && queries == |log| && budget.Lawful(log) && budget.started <= now
      && (log == [] || log[|log| - 1].doneAt <= now)
      && forall n :: 0 <= n < |log| && budget.Asks(n, log[n]) ==> log[n].answer == resolver(n)
    }

    method Tick(most: real)
      requires most >= 0.0
      modifies this`now
      ensures old(now) <= now <= old(now) + most
    {
      var d: real := *;
      if 0.0 <= d <= most { now := now + d; }
    }

    method Clock()
      modifies this`now
      ensures old(now) <= now
    {
      var d: real := *;
      if 0.0 <= d { now := now + d; }
    }

    /** lookup: adds one lawful query to the log, returns its value, remembers its error. */
    method Lookup(name: ByteString, timeout: int) returns (value: Option<ByteString>)
      requires Valid()
      modifies this
      ensures Valid() && |log| == |old(log)| + 1 && log[..|old(log)|] == old(log)
      ensures log[|old(log)|].name == name && log[|old(log)|].timeout == timeout
      ensures value == budget.ValueOf(|old(log)|, log[|old(log)|])
      ensures var error := budget.ErrorOf(|old(log)|, log[|old(log)|]);
              lastError == if error.Some? then error else old(lastError)
    {
      ghost var q: Query;
      value, q := Resolve(name, timeout, |log|);
      Logged(budget, log, q);
      log := log + [q];
    }

    method Resolve(name: ByteString, timeout: int, ghost n: nat) returns (value: Option<ByteString>, ghost q: Query)
      requires budget.lag >= 0.0 && queries == n
      modifies this`queries, this`lastError, this`now
      ensures queries == n + 1 && old(now) <= q.readAt && q.doneAt <= now && q.name == name && q.timeout == timeout
      ensures budget.Honoured(n, q) && value == budget.ValueOf(n, q)
      ensures budget.Asks(n, q) ==> q.answer == resolver(n)
      ensures lastError == if budget.ErrorOf(n, q).Some? then budget.ErrorOf(n, q) else old(lastError)
    {
      Clock();
      q := Query(name, timeout, now, now, now, Absent);
      queries := queries + 1;
      value := None;
      var remaining := TOTAL - (now - budget.started);
      if queries > MAX_QUERIES {
        lastError := Some(Permanent);
      } else if remaining <= 0.0 {
        lastError := Some(Temporary);
      } else if !budget.allowed(name) {
        lastError := Some(Permanent);
      } else {
        var answer: Answer;
        answer, q := Ask(q, timeout, remaining, queries - 1);
        if answer.Raised? {
          lastError := Some(answer.error);
        } else if answer.NotBytes? {
          lastError := Some(Permanent);
        } else if answer.Text? && |answer.value| > MAX_TXT_BYTES {
          lastError := Some(Permanent);
        } else if answer.Text? {
          value := Some(answer.value);
        }
      }
    }

    method Ask(ghost q: Query, timeout: int, remaining: real, n: nat) returns (answer: Answer, ghost q': Query)
      requires budget.lag >= 0.0 && q.timeout == timeout && q.readAt == now && remaining == budget.Remaining(q)
      modifies this`now
      ensures q' == q.(calledAt := q'.calledAt, doneAt := now, answer := answer) && answer == resolver(n)
      ensures q.readAt <= q'.calledAt <= q.readAt + budget.lag
      ensures q'.calledAt <= now <= q'.calledAt + budget.Lifetime(q)
    {
      var limit := Min(Min(timeout as real, TIMEOUT), remaining);
      Tick(budget.lag);
      q' := q.(calledAt := now);
      answer := ResolveTxt(limit, n);
      q' := q'.(doneAt := now, answer := answer);
    }

    // Its answer, within the lifetime both resolvers derive from the timeout.
    method ResolveTxt(timeout: real, n: nat) returns (answer: Answer)
      modifies this`now
      ensures answer == resolver(n)
      ensures old(now) <= now <= old(now) + Min(Max(timeout, SHORTEST), TIMEOUT)
    {
      answer := resolver(n);
      Tick(Min(Max(timeout, SHORTEST), TIMEOUT));
    }

    // The library's check of one signature: any lookups.
    method Verify(ghost from: nat)
      requires Valid() && from <= |log| && lastError == budget.LastError(log, from)
      modifies this
      ensures Valid() && |old(log)| <= |log| && log[..|old(log)|] == old(log)
      ensures lastError == budget.LastError(log, from)
    {
      var n: int := *;
      while n > 0
        invariant Valid() && from <= |old(log)| <= |log| && log[..|old(log)|] == old(log)
        invariant lastError == budget.LastError(log, from)
      {
        var name: ByteString, timeout: int := *, *;
        ghost var before := log;
        var _ := Lookup(name, timeout);
        LastErrorGrows(budget, before, log, from);
        assert log[..|old(log)|] == before[..|old(log)|];
        n := n - 1;
      }
    }
  }

  // ---------- Tag lists ----------

  // str.strip and str.lower.
  datatype Casing = Casing(strip: string -> string, lower: string -> string)

  type Tag = (string, string)

  function Index(s: string, c: char): (r: nat)
    ensures r <= |s| && (r < |s| ==> s[r] == c) && forall i :: 0 <= i < r ==> s[i] != c
  {
    if s == "" || s[0] == c then 0 else 1 + Index(s[1..], c)
  }

  // value.split(";")
  function Split(value: string): seq<string>
    decreases |value|
  {
    var k := Index(value, ';');
    if k == |value| then [value] else [value[..k]] + Split(value[k + 1..])
  }

  // The tags of the items that have an equals sign, names as the code compares them.
  function Tags(t: Casing, items: seq<string>): seq<Tag> {
    if items == [] then []
    else
      var item := items[|items| - 1];
      var k := Index(item, '=');
      Tags(t, items[..|items| - 1])
      + (if k == |item| then [] else [(t.lower(t.strip(item[..k])), t.strip(item[k + 1..]))])
  }

  predicate HasDuplicate(tags: seq<Tag>) { exists i, j :: 0 <= i < j < |tags| && tags[i].0 == tags[j].0 }

  // The last value given to a tag, or nothing.
  function Value(tags: seq<Tag>, name: string): string {
    if tags == [] then ""
    else if tags[|tags| - 1].0 == name then tags[|tags| - 1].1
    else Value(tags[..|tags| - 1], name)
  }

  predicate Malformed(tags: seq<Tag>) { HasDuplicate(tags) || Value(tags, "d") == "" || Value(tags, "s") == "" }

  datatype Verdict = Unset | Fail | PermError | TempError | Pass | NoSignature

  datatype Signature = Signature(domain: string, selector: string, result: Verdict)

  function Metadata(t: Casing, value: string): Signature {
    var tags := Tags(t, Split(value));
    Signature(Cut(Value(tags, "d"), 253), Cut(Value(tags, "s"), 63), if Malformed(tags) then PermError else Unset)
  }

  // The dictionary after the tags, and whether a name came twice.
  ghost predicate Filled(tags: seq<Tag>, m: map<string, string>, duplicate: bool) {
    && (forall n :: n in m <==> exists i :: 0 <= i < |tags| && tags[i].0 == n)
    && (forall n :: n in m ==> m[n] == Value(tags, n))
    && (duplicate <==> HasDuplicate(tags))
  }

  lemma {:induction false} NoValue(tags: seq<Tag>, n: string)
    requires forall i :: 0 <= i < |tags| ==> tags[i].0 != n
    ensures Value(tags, n) == ""
  {
    if tags != [] { NoValue(tags[..|tags| - 1], n); }
  }

  lemma FillOne(tags: seq<Tag>, m: map<string, string>, duplicate: bool, tag: Tag)
    requires Filled(tags, m, duplicate)
    ensures Filled(tags + [tag], m[tag.0 := tag.1], duplicate || tag.0 in m)
  {
    var all := tags + [tag];
    var m' := m[tag.0 := tag.1];
    assert all[..|tags|] == tags && all[|tags|] == tag;
    forall n ensures n in m' <==> exists i :: 0 <= i < |all| && all[i].0 == n {
      if n in m {
        var i :| 0 <= i < |tags| && tags[i].0 == n;
        assert all[i].0 == n;
      }
    }
    if duplicate {
      var i, j :| 0 <= i < j < |tags| && tags[i].0 == tags[j].0;
      assert all[i].0 == all[j].0;
    } else if tag.0 in m {
      var i :| 0 <= i < |tags| && tags[i].0 == tag.0;
      assert all[i].0 == all[|tags|].0;
    }
  }

  lemma TagsNext(t: Casing, items: seq<string>, i: nat)
    requires i < |items|
    ensures var k := Index(items[i], '=');
            Tags(t, items[..i + 1]) ==
              if k == |items[i]| then Tags(t, items[..i])
              else Tags(t, items[..i]) + [(t.lower(t.strip(items[i][..k])), t.strip(items[i][k + 1..]))]
  {
    assert items[..i + 1][..i] == items[..i];
  }

  /** The loop over one header's items: the dictionary and the flag say what the tag list means. */
  method ReadTags(t: Casing, items: seq<string>) returns (tags: map<string, string>, duplicate: bool)
    ensures Filled(Tags(t, items), tags, duplicate)
  {
    tags, duplicate := map[], false;
    for i := 0 to |items|
      invariant Filled(Tags(t, items[..i]), tags, duplicate)
    {
      TagsNext(t, items, i);
      var item := items[i];
      var k := Index(item, '=');
      if k == |item| { continue; }
      var key, tagValue := t.lower(t.strip(item[..k])), t.strip(item[k + 1..]);
      FillOne(Tags(t, items[..i]), tags, duplicate, (key, tagValue));
      if key in tags { duplicate := true; }
      tags := tags[key := tagValue];
    }
    assert items[..|items|] == items;
  }

  // tags.get(name, "")
  method Get(tags: map<string, string>, name: string, ghost all: seq<Tag>, ghost duplicate: bool)
    returns (value: string)
    requires Filled(all, tags, duplicate)
    ensures value == Value(all, name)
  {
    if name !in tags {
      NoValue(all, name);
      return "";
    }
    return tags[name];
  }

  /** One header's entry in the report. */
  method ReadSignature(t: Casing, value: string) returns (signature: Signature)
    ensures signature == Metadata(t, value)
  {
    var items := Split(value);
    var tags, duplicate := ReadTags(t, items);
    var d := Get(tags, "d", Tags(t, items), duplicate);
    var s := Get(tags, "s", Tags(t, items), duplicate);
    return Signature(Cut(d, 253), Cut(s, 63), if duplicate || d == "" || s == "" then PermError else Unset);
  }

  // The names as section 3.2 of RFC 6376 compares them, case included.
  function ExactTags(t: Casing, items: seq<string>): seq<Tag> {
    if items == [] then []
    else
      var item := items[|items| - 1];
      var k := Index(item, '=');
      ExactTags(t, items[..|items| - 1]) + (if k == |item| then [] else [(t.strip(item[..k]), t.strip(item[k + 1..]))])
  }

  // No two names of the list differ in case alone.
  predicate CaseDistinct(t: Casing, tags: seq<Tag>) {
    forall i, j :: 0 <= i < j < |tags| && t.lower(tags[i].0) == t.lower(tags[j].0) ==> tags[i].0 == tags[j].0
  }

  lemma {:induction false} LoweredTags(t: Casing, items: seq<string>)
    ensures |Tags(t, items)| == |ExactTags(t, items)|
    ensures forall i :: 0 <= i < |Tags(t, items)| ==>
              && Tags(t, items)[i].0 == t.lower(ExactTags(t, items)[i].0)
              && Tags(t, items)[i].1 == ExactTags(t, items)[i].1
  {
    if items != [] { LoweredTags(t, items[..|items| - 1]); }
  }

  /** The RFC refuses a list with a repeated name; the code refuses those and no other for
      duplication, exactly when no two names differ in case alone. */
  lemma DuplicateCondition(t: Casing, items: seq<string>)
    ensures HasDuplicate(ExactTags(t, items)) ==> HasDuplicate(Tags(t, items))
    ensures (HasDuplicate(Tags(t, items)) ==> HasDuplicate(ExactTags(t, items)))
            <==> CaseDistinct(t, ExactTags(t, items)) || HasDuplicate(ExactTags(t, items))
  {
    LoweredTags(t, items);
    var exact, folded := ExactTags(t, items), Tags(t, items);
    if HasDuplicate(exact) {
      var i, j :| 0 <= i < j < |exact| && exact[i].0 == exact[j].0;
      assert folded[i].0 == folded[j].0;
    }
    if HasDuplicate(folded) {
      var i, j :| 0 <= i < j < |folded| && folded[i].0 == folded[j].0;
      assert t.lower(exact[i].0) == t.lower(exact[j].0);
    }
    if !CaseDistinct(t, exact) {
      var i, j :| 0 <= i < j < |exact| && t.lower(exact[i].0) == t.lower(exact[j].0) && exact[i].0 != exact[j].0;
      assert folded[i].0 == folded[j].0;
    }
  }

  /** A header with both required tags, whose names are all different as the RFC compares them, is a
      permanent error to the code, because two of them differ in case alone. */
  lemma FoldedNamesClash(t: Casing)
    requires t.strip("d") == "d" && t.strip("s") == "s" && t.strip("D") == "D"
    requires t.strip("a") == "a" && t.strip("b") == "b" && t.strip("c") == "c"
    requires t.lower("d") == t.lower("D") == "d" && t.lower("s") == "s"
    ensures !Malformed(ExactTags(t, Split("d=a;s=b;D=c")))
    ensures Metadata(t, "d=a;s=b;D=c").result == PermError
  {
    ThreeTags(t, "d=a;s=b;D=c", "d", "a", "s", "b", "D", "c");
  }

  // Its parts, for any values and any third name that is lowered to d.
  lemma ThreeTags(
    t: Casing, value: string, x: string, a: string, y: string, b: string, z: string, c: string)
    requires value == x + "=" + a + ";" + (y + "=" + b + ";" + (z + "=" + c))
    requires x == "d" && y == "s" && |z| == 1 && z != x && z != y && '=' !in z && ';' !in z
    requires ';' !in a && ';' !in b && ';' !in c && a != "" && b != "" && c != ""
    requires t.strip(x) == x && t.strip(y) == y && t.strip(z) == z
    requires t.strip(a) == a && t.strip(b) == b && t.strip(c) == c
    requires t.lower(x) == t.lower(z) == x && t.lower(y) == y
    ensures !Malformed(ExactTags(t, Split(value))) && Metadata(t, value).result == PermError
  {
    SplitThree(x + "=" + a, y + "=" + b, z + "=" + c);
    ThreeItems(t, x, a, y, b, z, c);
    ThreeNames(x, a, y, b, z, c);
    ThreeNames(x, a, y, b, x, c);
  }

  // A list of three tags is well formed exactly if the names differ, when d and s are there.
  lemma ThreeNames(x: string, a: string, y: string, b: string, z: string, c: string)
    requires x == "d" && y == "s" && z != "s" && a != "" && b != "" && c != ""
    ensures Malformed([(x, a), (y, b), (z, c)]) <==> z == x
  {
    var tags := [(x, a), (y, b), (z, c)];
    assert tags[..2] == [(x, a), (y, b)] && tags[..2][..1] == [(x, a)];
    assert Value(tags[..2][..1], "d") == a && Value(tags[..2], "d") == a && Value(tags[..2], "s") == b;
    assert tags[0].0 == x && tags[1].0 == y && tags[2].0 == z && x != y;
  }

  lemma ThreeItems(t: Casing, x: string, a: string, y: string, b: string, z: string, c: string)
    requires |x| == |y| == |z| == 1 && '=' !in x && '=' !in y && '=' !in z
    ensures var items := [x + "=" + a, y + "=" + b, z + "=" + c];
            && ExactTags(t, items) == [(t.strip(x), t.strip(a)), (t.strip(y), t.strip(b)), (t.strip(z), t.strip(c))]
            && Tags(t, items) ==
                 [(t.lower(t.strip(x)), t.strip(a)), (t.lower(t.strip(y)), t.strip(b)),
                  (t.lower(t.strip(z)), t.strip(c))]
  {
    OneMore(t, [], x, a);
    OneMore(t, [x + "=" + a], y, b);
    OneMore(t, [x + "=" + a, y + "=" + b], z, c);
    assert [] + [x + "=" + a] == [x + "=" + a];
    assert [x + "=" + a] + [y + "=" + b] == [x + "=" + a, y + "=" + b];
    assert [x + "=" + a, y + "=" + b] + [z + "=" + c] == [x + "=" + a, y + "=" + b, z + "=" + c];
  }

  lemma OneMore(t: Casing, items: seq<string>, name: string, value: string)
    requires |name| == 1 && '=' !in name
    ensures ExactTags(t, items + [name + "=" + value]) == ExactTags(t, items) + [(t.strip(name), t.strip(value))]
    ensures Tags(t, items + [name + "=" + value]) == Tags(t, items) + [(t.lower(t.strip(name)), t.strip(value))]
  {
    var item := name + "=" + value;
    assert item[0] == name[0] && item[1] == '=' && item[..1] == name && item[2..] == value;
    assert Index(item, '=') == 1;
    assert (items + [item])[..|items|] == items;
  }

  lemma SplitThree(a: string, b: string, c: string)
    requires ';' !in a && ';' !in b && ';' !in c
    ensures Split(a + ";" + (b + ";" + c)) == [a, b, c]
  {
    SplitFirst(a, b + ";" + c);
    SplitFirst(b, c);
    assert Split(c) == [c];
  }

  lemma SplitFirst(a: string, rest: string)
    requires ';' !in a
    ensures Split(a + ";" + rest) == [a] + Split(rest)
  {
    var value := a + ";" + rest;
    assert value[|a|] == ';' && forall i :: 0 <= i < |a| ==> value[i] == a[i];
    assert Index(value, ';') == |a| && value[..|a|] == a && value[|a| + 1..] == rest;
  }

  // ---------- Printed tag lists ----------

  // A header value as a sender writes it.
  function PrintTags(tags: seq<Tag>): string {
    if tags == [] then ""
    else if |tags| == 1 then tags[0].0 + "=" + tags[0].1
    else tags[0].0 + "=" + tags[0].1 + ";" + PrintTags(tags[1..])
  }

  predicate Writable(tags: seq<Tag>) {
    tags != [] && forall i :: 0 <= i < |tags| ==> '=' !in tags[i].0 && ';' !in tags[i].0 && ';' !in tags[i].1
  }

  lemma {:induction false} SplitPrinted(tags: seq<Tag>)
    requires Writable(tags)
    ensures var items := Split(PrintTags(tags));
            |items| == |tags| && forall i :: 0 <= i < |tags| ==> items[i] == tags[i].0 + "=" + tags[i].1
    decreases |tags|
  {
    var first := tags[0].0 + "=" + tags[0].1;
    if |tags| == 1 {
      assert Split(first) == [first];
    } else {
      assert Writable(tags[1..]);
      SplitPrinted(tags[1..]);
      assert PrintTags(tags) == first + ";" + PrintTags(tags[1..]);
      SplitFirst(first, PrintTags(tags[1..]));
    }
  }

  lemma IndexAfter(name: string, value: string)
    requires '=' !in name
    ensures var item := name + "=" + value;
            Index(item, '=') == |name| && item[..|name|] == name && item[|name| + 1..] == value
  {
    var item := name + "=" + value;
    assert item[|name|] == '=' && forall i :: 0 <= i < |name| ==> item[i] == name[i];
    assert Index(item, '=') == |name|;
  }

  lemma {:induction false} TagsOfItems(t: Casing, items: seq<string>, tags: seq<Tag>)
    requires |items| == |tags|
    requires forall i :: 0 <= i < |tags| ==> '=' !in tags[i].0 && items[i] == tags[i].0 + "=" + tags[i].1
    ensures |Tags(t, items)| == |tags|
    ensures forall i :: 0 <= i < |tags| ==> Tags(t, items)[i] == (t.lower(t.strip(tags[i].0)), t.strip(tags[i].1))
  {
    if items != [] {
      var n := |items| - 1;
      TagsOfItems(t, items[..n], tags[..n]);
      IndexAfter(tags[n].0, tags[n].1);
    }
  }

  predicate SameName(t: Casing, name: string, other: string) { t.lower(t.strip(name)) == other }

  // The last tag of this name.
  predicate IsLast(t: Casing, tags: seq<Tag>, name: string, k: nat) {
    k < |tags| && SameName(t, tags[k].0, name) && forall i :: k < i < |tags| ==> !SameName(t, tags[i].0, name)
  }

  lemma {:induction false} ValueIsLast(tags: seq<Tag>, name: string, k: nat)
    requires k < |tags| && tags[k].0 == name && forall i :: k < i < |tags| ==> tags[i].0 != name
    ensures Value(tags, name) == tags[k].1
  {
    if k < |tags| - 1 { ValueIsLast(tags[..|tags| - 1], name, k); }
  }

  /** Reading what a sender wrote: the domain and the selector are the first 253 and 63 characters of
      the last d and s tag, and the signature is malformed exactly if two names are the same once
      stripped and lowered, or one of these tags is absent or empty. */
  lemma MetadataOfPrinted(t: Casing, tags: seq<Tag>, d: nat, s: nat)
    requires Writable(tags) && IsLast(t, tags, "d", d) && IsLast(t, tags, "s", s)
    ensures var m, domain, selector := Metadata(t, PrintTags(tags)), t.strip(tags[d].1), t.strip(tags[s].1);
            && m.domain == (if |domain| <= 253 then domain else domain[..253])
            && m.selector == (if |selector| <= 63 then selector else selector[..63])
            && (m.result == PermError <==>
                  || domain == "" || selector == ""
                  || exists i, j :: 0 <= i < j < |tags| && SameName(t, tags[i].0, t.lower(t.strip(tags[j].0))))
            && m.result in {PermError, Unset}
  {
    SplitPrinted(tags);
    var all := Tags(t, Split(PrintTags(tags)));
    TagsOfItems(t, Split(PrintTags(tags)), tags);
    ValueIsLast(all, "d", d);
    ValueIsLast(all, "s", s);
    SameDuplicates(t, tags, all);
  }

  lemma SameDuplicates(t: Casing, tags: seq<Tag>, all: seq<Tag>)
    requires |all| == |tags| && forall i :: 0 <= i < |tags| ==> all[i].0 == t.lower(t.strip(tags[i].0))
    ensures HasDuplicate(all) <==>
              exists i, j :: 0 <= i < j < |tags| && SameName(t, tags[i].0, t.lower(t.strip(tags[j].0)))
  {
    if HasDuplicate(all) {
      var i, j :| 0 <= i < j < |all| && all[i].0 == all[j].0;
      assert SameName(t, tags[i].0, t.lower(t.strip(tags[j].0)));
    }
    if i, j :| 0 <= i < j < |tags| && SameName(t, tags[i].0, t.lower(t.strip(tags[j].0))) {
      assert all[i].0 == all[j].0;
    }
  }

  /** Without a d tag, or without an s tag, it is malformed whatever else it holds. */
  lemma MissingTag(t: Casing, tags: seq<Tag>, name: string)
    requires Writable(tags) && name in {"d", "s"}
    requires forall i :: 0 <= i < |tags| ==> !SameName(t, tags[i].0, name)
    ensures Metadata(t, PrintTags(tags)).result == PermError
  {
    SplitPrinted(tags);
    TagsOfItems(t, Split(PrintTags(tags)), tags);
    NoValue(Tags(t, Split(PrintTags(tags))), name);
  }

  // ---------- The verdict ----------

  // The last is any exception that is not caught.
  datatype Outcome = Valid | Invalid | ValidationError | LibraryError | OtherException

  // One signature's result, from the library's outcome and the last DNS error during the check.
  function Judge(outcome: Outcome, error: Option<Error>): Verdict
    requires !outcome.OtherException?
  {
    match outcome
    case ValidationError => Fail
    case LibraryError => PermError
    case Valid => Pass
    case Invalid => if error.None? then Fail else if error.value.Temporary? then TempError else PermError
  }

  // What a result says about the library's outcome and the check's own lookups.
  ghost predicate Tells(b: Budget, log: seq<Query>, result: Verdict, check: Check)
    requires check.Checked?
  {
    && check.from <= check.to <= |log|
    && var own := log[..check.to];
       && (result == Pass <==> check.outcome == Valid)
       && (check.outcome == ValidationError ==> result == Fail)
       && (check.outcome == LibraryError ==> result == PermError)
       && (check.outcome == Invalid ==>
             && (result == TempError <==> check.to <= 5 && exists n: nat :: b.TemporaryLast(own, check.from, n))
             && (result == Fail <==> forall n :: check.from <= n < check.to ==> b.ErrorOf(n, log[n]) == None)
             && result in {Fail, TempError, PermError})
  }

  /** A signature passes if and only if the library found it valid; one it found invalid fails, unless a
      lookup of its check had an error, which makes it temporary or permanent as the last one was. */
  lemma JudgeTells(b: Budget, log: seq<Query>, before: Signature, after: Signature, check: Check)
    requires Accounted(b, log, before, after, check) && check.Checked?
    ensures Tells(b, log, after.result, check)
  {
    var own := log[..check.to];
    b.TemporaryCondition(own, check.from);
    b.NoErrorMeaning(own, check.from);
    assert forall n :: 0 <= n < check.to ==> own[n] == log[n];
  }

  // Malformed signatures keep their permanent error, the others tell what their check found.
  ghost predicate AllTell(b: Budget, log: seq<Query>, after: seq<Signature>, checks: seq<Check>) {
    && |after| == |checks|
    && forall i :: 0 <= i < |checks| ==>
         if checks[i].Preset? then after[i].result == PermError else Tells(b, log, after[i].result, checks[i])
  }

  lemma JudgedTell(
    b: Budget, log: seq<Query>, before: seq<Signature>, after: seq<Signature>, checks: seq<Check>)
    requires Judged(b, log, before, after, checks)
    requires forall i :: 0 <= i < |before| ==> before[i].result in {Unset, PermError}
    ensures AllTell(b, log, after, checks)
  {
    forall i | 0 <= i < |checks|
      ensures if checks[i].Preset? then after[i].result == PermError else Tells(b, log, after[i].result, checks[i])
    {
      if checks[i].Checked? { JudgeTells(b, log, before[i], after[i], checks[i]); }
    }
  }

  lemma LibraryPasses(before: seq<Signature>, checks: seq<Check>, outcomes: nat -> Outcome)
    requires FromLibrary(before, checks, outcomes) && |checks| == |before|
    ensures (exists i :: 0 <= i < |checks| && checks[i].Checked? && checks[i].outcome == Valid)
            <==> exists i :: 0 <= i < |before| && before[i].result == Unset && outcomes(i) == Valid
  {
    if i :| 0 <= i < |checks| && checks[i].Checked? && checks[i].outcome == Valid {
      assert before[i].result == Unset && outcomes(i) == Valid;
    }
  }

  lemma PassIff(b: Budget, log: seq<Query>, after: seq<Signature>, checks: seq<Check>)
    requires AllTell(b, log, after, checks)
    ensures (exists i :: 0 <= i < |after| && after[i].result == Pass)
            <==> exists i :: 0 <= i < |checks| && checks[i].Checked? && checks[i].outcome == Valid
  {
    forall i | 0 <= i < |after|
      ensures after[i].result == Pass <==> checks[i].Checked? && checks[i].outcome == Valid
    {
      if checks[i].Checked? { assert Tells(b, log, after[i].result, checks[i]); }
    }
  }

  function Rank(v: Verdict): nat {
    match v case Pass => 4 case TempError => 3 case PermError => 2 case Fail => 1 case Unset => 0 case NoSignature => 0
  }

  predicate Maximum(v: Verdict, results: seq<Verdict>) {
    v in results && forall r :: r in results ==> Rank(r) <= Rank(v)
  }

  function Results(signatures: seq<Signature>): (r: seq<Verdict>)
    ensures |r| == |signatures| && forall i :: 0 <= i < |r| ==> r[i] == signatures[i].result
  {
    seq(|signatures|, i requires 0 <= i < |signatures| => signatures[i].result)
  }

  datatype Report = Report(result: Verdict, signatures: seq<Signature>, tooMany: bool)

  // What one signature's check saw: nothing, or an outcome and the lookups from..to.
  datatype Check = Preset | Checked(outcome: Outcome, from: nat, to: nat)

  // The check's part of the log follows the previous checks', and its result is judged on it alone.
  predicate Accounted(b: Budget, log: seq<Query>, before: Signature, after: Signature, check: Check) {
    && after.domain == before.domain && after.selector == before.selector
    && match check
       case Preset => before.result != Unset && after.result == before.result
       case Checked(outcome, from, to) =>
         && before.result == Unset && from <= to <= |log| && !outcome.OtherException?
         && after.result == Judge(outcome, b.LastError(log[..to], from))
  }

  function MetadataOf(t: Casing, values: seq<string>): (r: seq<Signature>)
    ensures |r| == |values| && forall i :: 0 <= i < |r| ==> r[i] == Metadata(t, values[i])
  {
    seq(|values|, i requires 0 <= i < |values| => Metadata(t, values[i]))
  }

  lemma AccountedGrows(b: Budget, log: seq<Query>, log': seq<Query>, before: Signature, after: Signature, check: Check)
    requires Accounted(b, log, before, after, check) && |log| <= |log'| && log'[..|log|] == log
    ensures Accounted(b, log', before, after, check)
  {
    if check.Checked? { assert log'[..check.to] == log[..check.to]; }
  }

  // The checks' lookups follow one another and are all of the log.
  predicate Consecutive(checks: seq<Check>, lookups: nat) {
    if checks == [] then lookups == 0
    else
      var front, last := checks[..|checks| - 1], checks[|checks| - 1];
      match last
      case Preset => Consecutive(front, lookups)
      case Checked(_, from, to) => to == lookups && Consecutive(front, from)
  }

  // Every signature has a result of its own, judged on its own lookups.
  predicate Judged(
    b: Budget, log: seq<Query>, before: seq<Signature>, after: seq<Signature>, checks: seq<Check>)
  {
    && |after| == |checks| == |before| && Consecutive(checks, |log|)
    && forall i :: 0 <= i < |before| ==>
         && Accounted(b, log, before[i], after[i], checks[i])
         && after[i].result in {Fail, PermError, TempError, Pass}
  }

  // The checks before this one are as above; this one ended with an exception, and no verdict.
  ghost predicate Escaped(
    b: Budget, log: seq<Query>, before: seq<Signature>, after: seq<Signature>, checks: seq<Check>)
  {
    && 0 < |checks| <= |before|
    && var n := |checks| - 1;
       && checks[n].Checked? && checks[n].outcome.OtherException? && before[n].result == Unset
       && checks[n].from <= checks[n].to == |log|
       && Judged(b, log[..checks[n].from], before[..n], after, checks[..n])
  }

  lemma ConsecutivePush(checks: seq<Check>, check: Check, lookups: nat)
    requires if check.Preset? then Consecutive(checks, lookups)
             else check.to == lookups && Consecutive(checks, check.from)
    ensures Consecutive(checks + [check], lookups)
  {
    assert (checks + [check])[..|checks|] == checks;
  }

  lemma JudgedPush(
    b: Budget, log: seq<Query>, log': seq<Query>, before: seq<Signature>, after: seq<Signature>, checks: seq<Check>,
    was: Signature, now: Signature, check: Check)
    requires Judged(b, log, before, after, checks) && |log| <= |log'| && log'[..|log|] == log
    requires Accounted(b, log', was, now, check) && now.result in {Fail, PermError, TempError, Pass}
    requires if check.Preset? then log' == log else check.from == |log| && check.to == |log'|
    ensures Judged(b, log', before + [was], after + [now], checks + [check])
  {
    ConsecutivePush(checks, check, |log'|);
    forall i | 0 <= i < |before| ensures Accounted(b, log', before[i], after[i], checks[i]) {
      AccountedGrows(b, log, log', before[i], after[i], checks[i]);
    }
  }

  // The outcomes are the library's: outcomes(i) is the one of the i-th signature, if it is checked.
  predicate FromLibrary(before: seq<Signature>, checks: seq<Check>, outcomes: nat -> Outcome) {
    && |checks| <= |before|
    && forall i :: 0 <= i < |checks| ==>
         if before[i].result == Unset then checks[i].Checked? && checks[i].outcome == outcomes(i) else checks[i].Preset?
  }

  lemma LibraryPush(before: seq<Signature>, checks: seq<Check>, check: Check, outcomes: nat -> Outcome)
    requires FromLibrary(before, checks, outcomes) && |checks| < |before|
    requires var i := |checks|;
             if before[i].result == Unset then check.Checked? && check.outcome == outcomes(i) else check.Preset?
    ensures FromLibrary(before, checks + [check], outcomes)
  {
  }

  lemma EscapedAt(
    b: Budget, log: seq<Query>, log': seq<Query>, before: seq<Signature>, after: seq<Signature>, checks: seq<Check>,
    check: Check)
    requires |checks| < |before| && Judged(b, log, before[..|checks|], after, checks)
    requires |log| <= |log'| && log'[..|log|] == log && before[|checks|].result == Unset
    requires check.Checked? && check.outcome.OtherException? && check.from == |log| && check.to == |log'|
    ensures Escaped(b, log', before, after, checks + [check])
  {
    assert (checks + [check])[..|checks|] == checks;
  }

  predicate Escapes(was: Signature, outcome: Outcome) { was.result == Unset && outcome.OtherException? }

  // One iteration: nothing for a malformed signature, otherwise a check with the error slate clean.
  method CheckOne(budget: DnsBudget, was: Signature, outcome: Outcome)
    returns (now: Option<Signature>, ghost check: Check)
    requires budget.Valid() && was.result in {Unset, PermError}
    modifies budget
    ensures budget.Valid() && |old(budget.log)| <= |budget.log| && budget.log[..|old(budget.log)|] == old(budget.log)
    ensures now.Some? ==> Accounted(budget.budget, budget.log, was, now.value, check)
    ensures now.Some? ==> now.value.result in {Fail, PermError, TempError, Pass}
    ensures now.None? <==> was.result == Unset && outcome.OtherException?
    ensures if was.result == Unset then check.Checked? && check.outcome == outcome else check.Preset?
    ensures if check.Preset? then budget.log == old(budget.log)
            else check.from == |old(budget.log)| && check.to == |budget.log|
  {
    if was.result != Unset { return Some(was), Preset; }
    budget.lastError := None;
    ghost var from := |budget.log|;
    budget.Verify(from);
    assert budget.log[..|budget.log|] == budget.log;
    check := Checked(outcome, from, |budget.log|);
    if outcome.OtherException? { return None, check; }
    return Some(was.(result := Judge(outcome, budget.lastError))), check;
  }

  /** The loop over the signatures: every one ends with a result, judged on its own lookups, unless
      the check of one ends with an exception that is not caught. */
  method CheckSignatures(budget: DnsBudget, signatures: seq<Signature>, outcomes: nat -> Outcome)
    returns (done: bool, checked: seq<Signature>, ghost checks: seq<Check>)
    requires budget.Valid() && budget.log == []
    requires forall i :: 0 <= i < |signatures| ==> signatures[i].result in {Unset, PermError}
    modifies budget
    ensures budget.Valid()
    ensures done ==> Judged(budget.budget, budget.log, signatures, checked, checks)
    ensures done ==> AllTell(budget.budget, budget.log, checked, checks)
    ensures !done ==> Escaped(budget.budget, budget.log, signatures, checked, checks)
    ensures FromLibrary(signatures, checks, outcomes) && (done <==> forall i :: 0 <= i < |signatures| ==>
                                                            !Escapes(signatures[i], outcomes(i)))
  {
    checked, checks := [], [];
    for i := 0 to |signatures|
      invariant budget.Valid() && Judged(budget.budget, budget.log, signatures[..i], checked, checks)
      invariant FromLibrary(signatures, checks, outcomes)
      invariant forall k :: 0 <= k < i ==> !Escapes(signatures[k], outcomes(k))
    {
      ghost var log := budget.log;
      var now, check := CheckOne(budget, signatures[i], outcomes(i));
      LibraryPush(signatures, checks, check, outcomes);
      if now.None? {
        assert Escapes(signatures[i], outcomes(i));
        EscapedAt(budget.budget, log, budget.log, signatures, checked, checks, check);
        return false, checked, checks + [check];
      }
      JudgedPush(budget.budget, log, budget.log, signatures[..i], checked, checks, signatures[i], now.value, check);
      assert signatures[..i + 1] == signatures[..i] + [signatures[i]];
      checked, checks := checked + [now.value], checks + [check];
    }
    assert signatures[..|signatures|] == signatures;
    JudgedTell(budget.budget, budget.log, signatures, checked, checks);
    done := true;
  }

  /** The verdict of a message is the best of its signatures' verdicts. */
  method Overall(signatures: seq<Signature>) returns (result: Verdict)
    requires signatures != []
    requires forall i :: 0 <= i < |signatures| ==> signatures[i].result in {Fail, PermError, TempError, Pass}
    ensures Maximum(result, Results(signatures))
    ensures result == Pass <==> exists i :: 0 <= i < |signatures| && signatures[i].result == Pass
    ensures result == Fail <==> forall i :: 0 <= i < |signatures| ==> signatures[i].result == Fail
    ensures result == TempError <==> (
              && (forall i :: 0 <= i < |signatures| ==> signatures[i].result != Pass)
              && exists i :: 0 <= i < |signatures| && signatures[i].result == TempError)
  {
    var results := Results(signatures);
    assert results[0] in results;
    result :=
      if Pass in results then Pass
      else if TempError in results then TempError
      else if PermError in results then PermError
      else Fail;
  }

  // _signature_metadata on the values of the headers.
  method ReadAll(t: Casing, headers: seq<string>) returns (signatures: seq<Signature>)
    ensures signatures == MetadataOf(t, headers)
  {
    signatures := [];
    for i := 0 to |headers|
      invariant |signatures| == i && forall k :: 0 <= k < i ==> signatures[k] == Metadata(t, headers[k])
    {
      var signature := ReadSignature(t, headers[i]);
      signatures := signatures + [signature];
    }
  }

  // The loop and the overall verdict.
  method CheckMessage(read: seq<Signature>, setup: Budget, resolver: nat -> Answer, outcomes: nat -> Outcome)
    returns (report: Option<Report>, ghost log: seq<Query>, ghost checked: seq<Signature>, ghost checks: seq<Check>)
    requires setup.lag >= 0.0 && read != [] && forall i :: 0 <= i < |read| ==> read[i].result in {Unset, PermError}
    ensures report.Some? ==> (
              && !report.value.tooMany && Maximum(report.value.result, Results(report.value.signatures))
              && Judged(setup, log, read, report.value.signatures, checks)
              && AllTell(setup, log, report.value.signatures, checks)
              && (report.value.result == Pass <==>
                    exists i :: 0 <= i < |read| && read[i].result == Unset && outcomes(i) == Valid))
    ensures report.None? ==> Escaped(setup, log, read, checked, checks)
    ensures report.None? <==> exists i :: 0 <= i < |read| && Escapes(read[i], outcomes(i))
    ensures FromLibrary(read, checks, outcomes)
    ensures forall n :: 0 <= n < |log| && setup.Asks(n, log[n]) ==> log[n].answer == resolver(n)
    ensures setup.Lawful(log)
  {
    var budget := new DnsBudget(setup, resolver);
    var done, signatures;
    done, signatures, checks := CheckSignatures(budget, read, outcomes);
    log, checked := budget.log, signatures;
    if !done { return None, log, checked, checks; }
    var result := Overall(signatures);
    PassIff(setup, log, signatures, checks);
    LibraryPasses(read, checks, outcomes);
    report := Some(Report(result, signatures, false));
  }

  /** verify_dkim: none without signatures, permerror for more than five, otherwise the best
      verdict of the signatures, each of which has one; or no report at all, when a check ends with
      an exception that is not caught. The message passes if and only if the library found some well
      formed signature valid. The budget is kept whatever they ask. */
  method VerifyDkim(
    t: Casing, headers: seq<string>, setup: Budget, resolver: nat -> Answer, outcomes: nat -> Outcome)
    returns (report: Option<Report>, ghost log: seq<Query>, ghost checked: seq<Signature>, ghost checks: seq<Check>)
    requires setup.lag >= 0.0
    ensures |headers| == 0 ==> report == Some(Report(NoSignature, [], false))
    ensures |headers| > 5 ==> report == Some(Report(PermError, MetadataOf(t, headers[..5]), true))
    ensures |headers| == 0 || |headers| > 5 ==> log == []
    ensures 1 <= |headers| <= 5 && report.Some? ==> (
              && !report.value.tooMany && Maximum(report.value.result, Results(report.value.signatures))
              && Judged(setup, log, MetadataOf(t, headers), report.value.signatures, checks)
              && AllTell(setup, log, report.value.signatures, checks)
              && (report.value.result == Pass <==>
                    exists i :: 0 <= i < |headers| && Metadata(t, headers[i]).result == Unset && outcomes(i) == Valid))
    ensures FromLibrary(MetadataOf(t, headers), checks, outcomes)
    ensures report.None? <==> 1 <= |headers| <= 5 && exists i ::
              0 <= i < |headers| && Escapes(Metadata(t, headers[i]), outcomes(i))
    ensures forall n :: 0 <= n < |log| && setup.Asks(n, log[n]) ==> log[n].answer == resolver(n)
    ensures report.None? ==> Escaped(setup, log, MetadataOf(t, headers), checked, checks)
    ensures setup.Lawful(log) && setup.Calls(log) <= 5
    ensures forall n :: 0 <= n < |log| && setup.Asks(n, log[n]) ==>
              log[n].doneAt < setup.started + TOTAL + SHORTEST + setup.lag
  {
    log, checked, checks := [], [], [];
    var signatures := ReadAll(t, headers);
    if signatures == [] { return Some(Report(NoSignature, [], false)), log, checked, checks; }
    if |signatures| > MAX_SIGNATURES {
      assert signatures[..MAX_SIGNATURES] == MetadataOf(t, headers[..MAX_SIGNATURES]);
      return Some(Report(PermError, signatures[..MAX_SIGNATURES], true)), log, checked, checks;
    }
    report, log, checked, checks := CheckMessage(signatures, setup, resolver, outcomes);
    setup.WithinBudget(log);
  }
}
