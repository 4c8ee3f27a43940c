/**
 The compiled catalogue: the layout compile_catalog writes, and a reader made from the MO
 file description in section 10.3 of the GNU gettext manual. Looking a string up by binary
 search in the bytes gives exactly the compiled map.
 */
module MoCatalog {
  import opened Wrappers
  import opened Bytes
  import opened Utf8

  const MAGIC := 0x950412DE
  const HEADER := 28

  // ---------- Layout ----------

  // Strings one after another, each followed by a zero byte.
  function JoinFirst(ss: seq<ByteString>, n: nat): ByteString
    requires n <= |ss|
  {
    if n == 0 then [] else JoinFirst(ss, n - 1) + (ss[n - 1] + [0])
  }

  function Join(ss: seq<ByteString>): ByteString { JoinFirst(ss, |ss|) }

  function Offset(ss: seq<ByteString>, base: nat, i: nat): nat
    requires i <= |ss|
  {
    base + |JoinFirst(ss, i)|
  }

  // struct.pack raises for anything that does not fit four bytes.
  predicate FitsAt(ss: seq<ByteString>, base: nat, i: nat)
    requires i < |ss|
  {
    |ss[i]| < TWO32 && Offset(ss, base, i) < TWO32
  }

  predicate FitsFirst(ss: seq<ByteString>, base: nat, n: nat)
    requires n <= |ss|
  {
    forall i :: 0 <= i < n ==> FitsAt(ss, base, i)
  }

  predicate Fits(ss: seq<ByteString>, base: nat) { FitsFirst(ss, base, |ss|) }

  function Descriptor(length: nat, offset: nat): (d: ByteString)
    requires length < TWO32 && offset < TWO32
    ensures |d| == 8
  {
    LE32(length) + LE32(offset)
  }

  // The first n descriptors.
  function Table(ss: seq<ByteString>, base: nat, n: nat): (t: ByteString)
    requires n <= |ss| && FitsFirst(ss, base, n)
    ensures |t| == 8 * n
  {
    if n == 0 then [] else
      assert FitsAt(ss, base, n - 1);
      Table(ss, base, n - 1) + Descriptor(|ss[n - 1]|, Offset(ss, base, n - 1))
  }

  function KeyBase(n: nat): nat { HEADER + 16 * n }

  function ValueBase(ks: seq<ByteString>): nat { KeyBase(|ks|) + |Join(ks)| }

  predicate Packable(ks: seq<ByteString>, vs: seq<ByteString>) {
    && |ks| == |vs| && HEADER + 8 * |ks| < TWO32
    && Fits(ks, KeyBase(|ks|)) && Fits(vs, ValueBase(ks))
  }

  function Header(n: nat): (h: ByteString)
    requires HEADER + 8 * n < TWO32
    ensures |h| == HEADER
  {
    LE32(MAGIC) + LE32(0) + LE32(n) + LE32(HEADER) + LE32(HEADER + 8 * n) + LE32(0) + LE32(0)
  }

  function Image(ks: seq<ByteString>, vs: seq<ByteString>): ByteString
    requires Packable(ks, vs)
  {
    Header(|ks|) + Table(ks, KeyBase(|ks|), |ks|) + Table(vs, ValueBase(ks), |vs|) + Join(ks) + Join(vs)
  }

  // ---------- Reader ----------

  function U32(b: ByteString, at: nat): nat {
    if at + 4 <= |b| then FromLE32(b[at..at + 4]) else 0
  }

  // The i-th string of the table at `table`, with its terminating zero byte checked.
  function StringAt(b: ByteString, table: nat, i: nat): Option<ByteString> {
    var length, offset := U32(b, table + 8 * i), U32(b, table + 8 * i + 4);
    if table + 8 * i + 8 <= |b| && offset + length < |b| && b[offset + length] == 0
    then Some(b[offset..offset + length]) else None
  }

  function Middle(lo: nat, hi: nat): (mid: nat)
    requires lo < hi
    ensures lo <= mid < hi
  {
    (lo + hi) / 2
  }

  // The n strings of a table, as far as they can be read.
  function Strings(b: ByteString, table: nat, n: nat): (ss: seq<Option<ByteString>>)
    ensures |ss| == n && forall i :: 0 <= i < n ==> ss[i] == StringAt(b, table, i)
  {
    seq(n, i requires 0 <= i < n => StringAt(b, table, i))
  }

  function Search(ss: seq<Option<ByteString>>, lo: nat, hi: nat, key: ByteString): (r: Option<nat>)
    requires hi <= |ss|
    ensures r.Some? ==> r.value < |ss|
    decreases hi - lo
  {
    if lo >= hi then None
    else
      var mid := Middle(lo, hi);
      if ss[mid].None? then None
      else if ss[mid].value == key then Some(mid)
      else if Less(key, ss[mid].value) then Search(ss, lo, mid, key)
      else Search(ss, mid + 1, hi, key)
  }

  function Lookup(b: ByteString, key: ByteString): Option<ByteString> {
    if U32(b, 0) != MAGIC then None
    else
      match Search(Strings(b, U32(b, 12), U32(b, 8)), 0, U32(b, 8), key)
      case None => None
      case Some(i) => StringAt(b, U32(b, 16), i)
  }

  // ---------- Reading what was written ----------

  predicate At(b: ByteString, at: nat, part: ByteString) {
    at + |part| <= |b| && b[at..at + |part|] == part
  }

  lemma SliceOfSlice(b: ByteString, i: nat, j: nat, k: nat, l: nat)
    requires i <= j <= |b| && k <= l <= j - i
    ensures b[i..j][k..l] == b[i + k..i + l]
  {
    var x, y := b[i..j][k..l], b[i + k..i + l];
    assert |x| == |y|;
    forall n | 0 <= n < |x| ensures x[n] == y[n] {}
  }

  lemma AtInside(b: ByteString, at: nat, part: ByteString, k: nat, inner: ByteString)
    requires At(b, at, part) && At(part, k, inner)
    ensures At(b, at + k, inner)
  {
    SliceOfSlice(b, at, at + |part|, k, k + |inner|);
  }

  lemma AtAppend(b: ByteString, c: ByteString, at: nat, part: ByteString)
    ensures At(b, at, part) ==> At(b + c, at, part)
    ensures At(b + c, |b|, c)
  {
    if At(b, at, part) { assert (b + c)[at..at + |part|] == b[at..at + |part|]; }
  }

  lemma U32At(b: ByteString, at: nat, n: nat)
    requires n < TWO32 && At(b, at, LE32(n))
    ensures U32(b, at) == n
  {
    LE32RoundTrip(n);
  }

  lemma {:induction false} TableEntry(ss: seq<ByteString>, base: nat, n: nat, i: nat)
    requires i < n <= |ss| && FitsFirst(ss, base, n)
    ensures FitsAt(ss, base, i) && At(Table(ss, base, n), 8 * i, Descriptor(|ss[i]|, Offset(ss, base, i)))
  {
    assert FitsAt(ss, base, n - 1) && FitsAt(ss, base, i);
    var before, last := Table(ss, base, n - 1), Descriptor(|ss[n - 1]|, Offset(ss, base, n - 1));
    if i < n - 1 {
      TableEntry(ss, base, n - 1, i);
      AtAppend(before, last, 8 * i, Descriptor(|ss[i]|, Offset(ss, base, i)));
    } else {
      AtAppend(before, last, 0, []);
    }
  }

  lemma {:induction false} JoinEntry(ss: seq<ByteString>, n: nat, i: nat)
    requires i < n <= |ss|
    ensures At(JoinFirst(ss, n), |JoinFirst(ss, i)|, ss[i] + [0])
  {
    if i < n - 1 { JoinEntry(ss, n - 1, i); }
    AtAppend(JoinFirst(ss, n - 1), ss[n - 1] + [0], |JoinFirst(ss, i)|, ss[i] + [0]);
  }

  lemma ReadsDescriptor(b: ByteString, at: nat, length: nat, offset: nat)
    requires length < TWO32 && offset < TWO32 && At(b, at, Descriptor(length, offset))
    ensures U32(b, at) == length && U32(b, at + 4) == offset
  {
    var d := Descriptor(length, offset);
    assert At(d, 0, LE32(length)) && At(d, 4, LE32(offset));
    AtInside(b, at, d, 0, LE32(length));
    AtInside(b, at, d, 4, LE32(offset));
    U32At(b, at, length);
    U32At(b, at + 4, offset);
  }

  lemma ReadsTerminated(b: ByteString, offset: nat, s: ByteString)
    requires At(b, offset, s + [0])
    ensures offset + |s| < |b| && b[offset + |s|] == 0 && b[offset..offset + |s|] == s
  {
    var entry := b[offset..offset + |s| + 1];
    assert b[offset + |s|] == entry[|s|];
    SliceOfSlice(b, offset, offset + |s| + 1, 0, |s|);
    assert entry[..|s|] == s;
  }

  lemma DescriptorInPlace(b: ByteString, table: nat, base: nat, ss: seq<ByteString>, i: nat)
    requires i < |ss| && Fits(ss, base) && At(b, table, Table(ss, base, |ss|))
    ensures U32(b, table + 8 * i) == |ss[i]| && U32(b, table + 8 * i + 4) == Offset(ss, base, i)
    ensures table + 8 * i + 8 <= |b|
  {
    assert FitsAt(ss, base, i);
    TableEntry(ss, base, |ss|, i);
    AtInside(b, table, Table(ss, base, |ss|), 8 * i, Descriptor(|ss[i]|, Offset(ss, base, i)));
    ReadsDescriptor(b, table + 8 * i, |ss[i]|, Offset(ss, base, i));
  }

  lemma DataInPlace(b: ByteString, base: nat, ss: seq<ByteString>, i: nat)
    requires i < |ss| && At(b, base, Join(ss))
    ensures At(b, Offset(ss, base, i), ss[i] + [0])
  {
    JoinEntry(ss, |ss|, i);
    AtInside(b, base, Join(ss), |JoinFirst(ss, i)|, ss[i] + [0]);
  }

  // A string whose table and data sit where they should is read back.
  lemma ReadsEntry(b: ByteString, table: nat, base: nat, ss: seq<ByteString>, i: nat)
    requires i < |ss| && Fits(ss, base)
    requires At(b, table, Table(ss, base, |ss|)) && At(b, base, Join(ss))
    ensures StringAt(b, table, i) == Some(ss[i])
  {
    DescriptorInPlace(b, table, base, ss, i);
    DataInPlace(b, base, ss, i);
    ReadsTerminated(b, Offset(ss, base, i), ss[i]);
  }

  // Where the five parts of the file are.
  ghost predicate Laid(b: ByteString, ks: seq<ByteString>, vs: seq<ByteString>)
    requires Packable(ks, vs)
  {
    && At(b, 0, Header(|ks|))
    && At(b, HEADER, Table(ks, KeyBase(|ks|), |ks|))
    && At(b, HEADER + 8 * |ks|, Table(vs, ValueBase(ks), |vs|))
    && At(b, KeyBase(|ks|), Join(ks)) && At(b, ValueBase(ks), Join(vs))
    && |b| == ValueBase(ks) + |Join(vs)|
  }

  lemma ImageIsLaid(ks: seq<ByteString>, vs: seq<ByteString>)
    requires Packable(ks, vs)
    ensures Laid(Image(ks, vs), ks, vs)
  {
    var n := |ks|;
    var h, kt, vt, kd, vd := Header(n), Table(ks, KeyBase(n), n), Table(vs, ValueBase(ks), |vs|), Join(ks), Join(vs);
    FivePieces(h, kt, vt, kd, vd, HEADER, HEADER + 8 * n, KeyBase(n), ValueBase(ks));
  }

  lemma FivePieces(
    h: ByteString, kt: ByteString, vt: ByteString, kd: ByteString, vd: ByteString, a: nat, b: nat, c: nat, d: nat)
    requires a == |h| && b == a + |kt| && c == b + |vt| && d == c + |kd|
    ensures var f := h + kt + vt + kd + vd;
            At(f, 0, h) && At(f, a, kt) && At(f, b, vt) && At(f, c, kd) && At(f, d, vd) && |f| == d + |vd|
  {
    AtAppend(h, kt, 0, h);
    AtAppend(h + kt, vt, 0, h);
    AtAppend(h + kt, vt, a, kt);
    AtAppend(h + kt + vt, kd, 0, h);
    AtAppend(h + kt + vt, kd, a, kt);
    AtAppend(h + kt + vt, kd, b, vt);
    AtAppend(h + kt + vt + kd, vd, 0, h);
    AtAppend(h + kt + vt + kd, vd, a, kt);
    AtAppend(h + kt + vt + kd, vd, b, vt);
    AtAppend(h + kt + vt + kd, vd, c, kd);
  }

  lemma HeaderFields(b: ByteString, n: nat)
    requires HEADER + 8 * n < TWO32 && At(b, 0, Header(n))
    ensures U32(b, 0) == MAGIC && U32(b, 8) == n && U32(b, 12) == HEADER && U32(b, 16) == HEADER + 8 * n
  {
    var h := Header(n);
    assert At(h, 0, LE32(MAGIC)) && At(h, 8, LE32(n)) && At(h, 12, LE32(HEADER)) && At(h, 16, LE32(HEADER + 8 * n));
    AtInside(b, 0, h, 0, LE32(MAGIC));
    AtInside(b, 0, h, 8, LE32(n));
    AtInside(b, 0, h, 12, LE32(HEADER));
    AtInside(b, 0, h, 16, LE32(HEADER + 8 * n));
    U32At(b, 0, MAGIC);
    U32At(b, 8, n);
    U32At(b, 12, HEADER);
    U32At(b, 16, HEADER + 8 * n);
  }

  // The little-endian word at an offset.
  predicate WordAt(b: ByteString, at: nat, n: nat) {
    at + 4 <= |b| && n == Number(b[at + 3], b[at + 2], b[at + 1], b[at])
  }

  lemma LittleEndian(b: ByteString, at: nat, n: nat)
    requires n < TWO32 && At(b, at, LE32(n))
    ensures WordAt(b, at, n)
  {
    LE32RoundTrip(n);
    var w := b[at..at + 4];
    assert b[at] == w[0] && b[at + 1] == w[1] && b[at + 2] == w[2] && b[at + 3] == w[3];
  }

  lemma HeaderParts(n: nat)
    requires HEADER + 8 * n < TWO32
    ensures var h := Header(n);
            && At(h, 0, LE32(MAGIC)) && At(h, 4, LE32(0)) && At(h, 8, LE32(n)) && At(h, 12, LE32(HEADER))
            && At(h, 16, LE32(HEADER + 8 * n)) && At(h, 20, LE32(0)) && At(h, 24, LE32(0))
  {
  }

  /** The file begins with the seven words of the description: the magic number, revision 0, the number
      of strings, where the two tables are, and no hash table. */
  lemma HeaderWords(ks: seq<ByteString>, vs: seq<ByteString>)
    requires Packable(ks, vs)
    ensures var b, n := Image(ks, vs), |ks|;
            && WordAt(b, 0, 0x950412DE) && WordAt(b, 4, 0) && WordAt(b, 8, n) && WordAt(b, 12, 28)
            && WordAt(b, 16, 28 + 8 * n) && WordAt(b, 20, 0) && WordAt(b, 24, 0)
  {
    var b, h := Image(ks, vs), Header(|ks|);
    HeaderParts(|ks|);
    assert At(b, 0, h);
    forall at, n: nat | n < TWO32 && At(h, at, LE32(n)) ensures WordAt(b, at, n) {
      AtInside(b, 0, h, at, LE32(n));
      LittleEndian(b, at, n);
    }
  }

  /** Every original and translated string is read back from the place its descriptor names. */
  lemma {:induction false} StringsReadBack(ks: seq<ByteString>, vs: seq<ByteString>, i: nat)
    requires Packable(ks, vs) && i < |ks|
    ensures StringAt(Image(ks, vs), HEADER, i) == Some(ks[i])
    ensures StringAt(Image(ks, vs), HEADER + 8 * |ks|, i) == Some(vs[i])
  {
    ImageIsLaid(ks, vs);
    KeyReadsBack(Image(ks, vs), ks, vs, i);
    ValueReadsBack(Image(ks, vs), ks, vs, i);
  }

  lemma KeyReadsBack(b: ByteString, ks: seq<ByteString>, vs: seq<ByteString>, i: nat)
    requires Packable(ks, vs) && i < |ks| && Laid(b, ks, vs)
    ensures StringAt(b, HEADER, i) == Some(ks[i])
  {
    ReadsEntry(b, HEADER, KeyBase(|ks|), ks, i);
  }

  lemma ValueReadsBack(b: ByteString, ks: seq<ByteString>, vs: seq<ByteString>, i: nat)
    requires Packable(ks, vs) && i < |ks| && Laid(b, ks, vs)
    ensures StringAt(b, HEADER + 8 * |ks|, i) == Some(vs[i])
  {
    ReadsEntry(b, HEADER + 8 * |ks|, ValueBase(ks), vs, i);
  }

  lemma {:induction false} JoinGrows(ss: seq<ByteString>, i: nat, j: nat)
    requires i < j <= |ss|
    ensures |JoinFirst(ss, i)| + |ss[i]| + 1 <= |JoinFirst(ss, j)|
  {
    if i < j - 1 { JoinGrows(ss, i, j - 1); }
  }

  /** Entries are in range and do not overlap: each ends, zero byte included, before the next
      begins, originals before translations, translations before the end of the file. */
  lemma EntriesDoNotOverlap(ks: seq<ByteString>, vs: seq<ByteString>, i: nat, j: nat)
    requires Packable(ks, vs) && i < j <= |ks|
    ensures HEADER + 16 * |ks| <= Offset(ks, KeyBase(|ks|), i)
    ensures Offset(ks, KeyBase(|ks|), i) + |ks[i]| + 1 <= Offset(ks, KeyBase(|ks|), j) <= Offset(vs, ValueBase(ks), 0)
    ensures Offset(vs, ValueBase(ks), i) + |vs[i]| + 1 <= Offset(vs, ValueBase(ks), j) <= |Image(ks, vs)|
  {
    ImageIsLaid(ks, vs);
    JoinPrefix(ks, i, j);
    JoinPrefix(vs, i, j);
  }

  lemma JoinPrefix(ss: seq<ByteString>, i: nat, j: nat)
    requires i < j <= |ss|
    ensures |JoinFirst(ss, i)| + |ss[i]| + 1 <= |JoinFirst(ss, j)| <= |Join(ss)|
  {
    JoinGrows(ss, i, j);
    if j < |ss| { JoinGrows(ss, j, |ss|); }
  }

  // ---------- Binary search ----------

  ghost predicate StrictlySorted(ss: seq<seq<nat>>) {
    forall i, j :: 0 <= i < j < |ss| ==> Less(ss[i], ss[j])
  }

  ghost predicate Are(ss: seq<Option<ByteString>>, ks: seq<ByteString>) {
    |ss| == |ks| && forall i :: 0 <= i < |ks| ==> ss[i] == Some(ks[i])
  }

  lemma SortedPair(ks: seq<ByteString>, i: nat, j: nat)
    requires StrictlySorted(ks) && i < j < |ks|
    ensures Less(ks[i], ks[j]) && !Less(ks[j], ks[i]) && ks[i] != ks[j]
  {
    LessAsymmetric(ks[i], ks[j]);
  }

  lemma {:induction false} SearchFinds(ss: seq<Option<ByteString>>, ks: seq<ByteString>, lo: nat, hi: nat, j: nat)
    requires StrictlySorted(ks) && Are(ss, ks) && lo <= j < hi <= |ks|
    ensures Search(ss, lo, hi, ks[j]) == Some(j)
    decreases hi - lo
  {
    var mid := Middle(lo, hi);
    if j < mid {
      SortedPair(ks, j, mid);
      SearchFinds(ss, ks, lo, mid, j);
    } else if mid < j {
      SortedPair(ks, mid, j);
      SearchFinds(ss, ks, mid + 1, hi, j);
    }
  }

  lemma {:induction false} SearchMisses(
    ss: seq<Option<ByteString>>, ks: seq<ByteString>, lo: nat, hi: nat, key: ByteString)
    requires Are(ss, ks) && key !in ks && hi <= |ks|
    ensures Search(ss, lo, hi, key) == None
    decreases hi - lo
  {
    if lo < hi {
      var mid := Middle(lo, hi);
      SearchMisses(ss, ks, lo, mid, key);
      SearchMisses(ss, ks, mid + 1, hi, key);
    }
  }

  lemma LaidStrings(b: ByteString, ks: seq<ByteString>, vs: seq<ByteString>)
    requires Packable(ks, vs) && Laid(b, ks, vs)
    ensures Are(Strings(b, HEADER, |ks|), ks)
  {
    forall i | 0 <= i < |ks| ensures StringAt(b, HEADER, i) == Some(ks[i]) { KeyReadsBack(b, ks, vs, i); }
  }

  lemma LookupIs(b: ByteString, key: ByteString, n: nat)
    requires U32(b, 0) == MAGIC && U32(b, 8) == n && U32(b, 12) == HEADER && U32(b, 16) == HEADER + 8 * n
    ensures var found := Search(Strings(b, HEADER, n), 0, n, key);
            Lookup(b, key) == if found.None? then None else StringAt(b, HEADER + 8 * n, found.value)
  {
  }

  lemma LookupFinds(b: ByteString, ks: seq<ByteString>, vs: seq<ByteString>, j: nat)
    requires Packable(ks, vs) && StrictlySorted(ks) && Laid(b, ks, vs) && j < |ks|
    ensures Lookup(b, ks[j]) == Some(vs[j])
  {
    HeaderFields(b, |ks|);
    LaidStrings(b, ks, vs);
    SearchFinds(Strings(b, HEADER, |ks|), ks, 0, |ks|, j);
    ValueReadsBack(b, ks, vs, j);
    LookupIs(b, ks[j], |ks|);
  }

  lemma LookupMisses(b: ByteString, ks: seq<ByteString>, vs: seq<ByteString>, key: ByteString)
    requires Packable(ks, vs) && Laid(b, ks, vs) && key !in ks
    ensures Lookup(b, key) == None
  {
    HeaderFields(b, |ks|);
    LaidStrings(b, ks, vs);
    SearchMisses(Strings(b, HEADER, |ks|), ks, 0, |ks|, key);
    LookupIs(b, key, |ks|);
  }

  // ---------- From texts to the file ----------

  function EncodeAll(ts: seq<Text>): (bs: seq<ByteString>)
    requires forall i :: 0 <= i < |ts| ==> Encodable(ts[i])
    ensures |bs| == |ts| && forall i :: 0 <= i < |ts| ==> bs[i] == Encode(ts[i])
  {
    seq(|ts|, i requires 0 <= i < |ts| => Encode(ts[i]))
  }

  function Values(messages: map<Text, Text>, keys: seq<Text>): (vs: seq<Text>)
    requires forall i :: 0 <= i < |keys| ==> keys[i] in messages
    ensures |vs| == |keys| && forall i :: 0 <= i < |keys| ==> vs[i] == messages[keys[i]]
  {
    seq(|keys|, i requires 0 <= i < |keys| => messages[keys[i]])
  }

  predicate AllEncodable(messages: map<Text, Text>) {
    forall k :: k in messages ==> Encodable(k) && Encodable(messages[k])
  }

  // The keys in code point order, each once: what sorted(messages) is.
  ghost predicate IsSortedKeys(keys: seq<Text>, messages: map<Text, Text>) {
    StrictlySorted(keys) && forall k :: k in keys <==> k in messages
  }

  // The file for these messages.
  ghost predicate IsCatalog(b: ByteString, keys: seq<Text>, messages: map<Text, Text>) {
    && IsSortedKeys(keys, messages) && AllEncodable(messages)
    && var ks, vs := EncodeAll(keys), EncodeAll(Values(messages, keys));
       Packable(ks, vs) && b == Image(ks, vs)
  }

  lemma LastOfSorted(a: seq<Text>, b: seq<Text>)
    requires StrictlySorted(a) && StrictlySorted(b) && a != [] && b != [] && forall k :: k in a <==> k in b
    ensures a[|a| - 1] == b[|b| - 1]
  {
    var x, y := a[|a| - 1], b[|b| - 1];
    assert x in a && y in b;
    var j :| 0 <= j < |b| && b[j] == x;
    var i :| 0 <= i < |a| && a[i] == y;
    if x != y {
      LessAsymmetric(x, y);
    }
  }

  lemma FrontOfSorted(a: seq<Text>, k: Text)
    requires StrictlySorted(a) && a != []
    ensures k in a[..|a| - 1] <==> k in a && k != a[|a| - 1]
  {
    var n := |a| - 1;
    assert a == a[..n] + [a[n]];
    LessIrreflexive(a[n]);
    assert forall i :: 0 <= i < n ==> Less(a[i], a[n]) && a[..n][i] == a[i];
  }

  /** There is one order of the keys, so the file depends on nothing but the messages. */
  lemma {:induction false} OneOrder(a: seq<Text>, b: seq<Text>)
    requires StrictlySorted(a) && StrictlySorted(b) && forall k :: k in a <==> k in b
    ensures a == b
    decreases |a|
  {
    assert (a != [] ==> a[0] in a) && (b != [] ==> b[0] in b);
    if a != [] {
      LastOfSorted(a, b);
      var n, m := |a| - 1, |b| - 1;
      forall k ensures k in a[..n] <==> k in b[..m] {
        FrontOfSorted(a, k);
        FrontOfSorted(b, k);
      }
      OneOrder(a[..n], b[..m]);
      assert a == a[..n] + [a[n]] && b == b[..m] + [b[m]];
    }
  }

  // Whether every length and offset of these messages' file has a 32-bit form.
  ghost predicate OffsetsFit(messages: map<Text, Text>)
    requires AllEncodable(messages)
  {
    exists keys :: IsSortedKeys(keys, messages) && Packable(EncodeAll(keys), EncodeAll(Values(messages, keys)))
  }

  lemma FitOfKeys(keys: seq<Text>, messages: map<Text, Text>)
    requires AllEncodable(messages) && IsSortedKeys(keys, messages)
    ensures OffsetsFit(messages) <==> Packable(EncodeAll(keys), EncodeAll(Values(messages, keys)))
  {
    forall other | IsSortedKeys(other, messages) ensures other == keys { OneOrder(other, keys); }
  }

  lemma EncodedKeysSorted(keys: seq<Text>)
    requires StrictlySorted(keys) && forall i :: 0 <= i < |keys| ==> Encodable(keys[i])
    ensures StrictlySorted(EncodeAll(keys))
  {
    var ks := EncodeAll(keys);
    forall i, j | 0 <= i < j < |ks| ensures Less(ks[i], ks[j]) { EncodeOrder(keys[i], keys[j]); }
  }

  lemma EncodedKey(keys: seq<Text>, key: Text)
    requires Encodable(key) && forall i :: 0 <= i < |keys| ==> Encodable(keys[i])
    ensures Encode(key) in EncodeAll(keys) <==> key in keys
  {
    var ks := EncodeAll(keys);
    if key in keys {
      var j :| 0 <= j < |keys| && keys[j] == key;
      assert ks[j] == Encode(key);
    }
    if Encode(key) in ks {
      var j :| 0 <= j < |ks| && ks[j] == Encode(key);
      EncodeOrder(keys[j], key);
    }
  }

  // What the reader makes of a file: exactly these strings, with these translations.
  ghost predicate Answers(b: ByteString, ks: seq<ByteString>, vs: seq<ByteString>)
    requires |ks| == |vs|
  {
    && (forall j :: 0 <= j < |ks| ==> Lookup(b, ks[j]) == Some(vs[j]))
    && (forall key :: key !in ks ==> Lookup(b, key) == None)
  }

  lemma LaidAnswers(b: ByteString, ks: seq<ByteString>, vs: seq<ByteString>)
    requires Packable(ks, vs) && StrictlySorted(ks) && Laid(b, ks, vs)
    ensures Answers(b, ks, vs)
  {
    forall j | 0 <= j < |ks| ensures Lookup(b, ks[j]) == Some(vs[j]) { LookupFinds(b, ks, vs, j); }
    forall key | key !in ks ensures Lookup(b, key) == None { LookupMisses(b, ks, vs, key); }
  }

  /** The reader finds every original string of a compiled file with its translation, and no other. */
  lemma ImageAnswers(ks: seq<ByteString>, vs: seq<ByteString>)
    requires Packable(ks, vs) && StrictlySorted(ks)
    ensures Answers(Image(ks, vs), ks, vs)
  {
    ImageIsLaid(ks, vs);
    LaidAnswers(Image(ks, vs), ks, vs);
  }

  lemma AnswersTexts(
    b: ByteString, ks: seq<ByteString>, vs: seq<ByteString>, keys: seq<Text>, messages: map<Text, Text>, key: Text)
    requires AllEncodable(messages) && Encodable(key) && forall k :: k in keys <==> k in messages
    requires |ks| == |vs| == |keys| && Answers(b, ks, vs)
    requires forall j :: 0 <= j < |keys| ==> ks[j] == Encode(keys[j]) && vs[j] == Encode(messages[keys[j]])
    ensures Lookup(b, Encode(key)) == if key in messages then Some(Encode(messages[key])) else None
  {
    if key in messages {
      var j :| 0 <= j < |keys| && keys[j] == key;
      assert Lookup(b, ks[j]) == Some(vs[j]);
    } else {
      assert ks == EncodeAll(keys);
      EncodedKey(keys, key);
    }
  }

  /** Looking up any text in the compiled file gives exactly what the map has for it. */
  lemma {:induction false} CatalogRoundTrip(b: ByteString, keys: seq<Text>, messages: map<Text, Text>, key: Text)
    requires IsCatalog(b, keys, messages) && Encodable(key)
    ensures Lookup(b, Encode(key)) == if key in messages then Some(Encode(messages[key])) else None
  {
    var ks, vs := EncodeAll(keys), EncodeAll(Values(messages, keys));
    EncodedKeysSorted(keys);
    ImageAnswers(ks, vs);
    AnswersTexts(b, ks, vs, keys, messages, key);
  }

  // ---------- compile_catalog ----------

  datatype CompileError = NotEncodable | TooLarge

  // sorted(messages), by insertion.
  method SortedKeys(messages: map<Text, Text>) returns (keys: seq<Text>)
    ensures IsSortedKeys(keys, messages)
  {
    keys := [];
    var left := messages.Keys;
    while left != {}
      invariant left <= messages.Keys && StrictlySorted(keys)
      invariant forall k :: k in keys <==> k in messages.Keys - left
      decreases left
    {
      var k :| k in left;
      left := left - {k};
      keys := Insert(keys, k);
    }
  }

  method Insert(keys: seq<Text>, k: Text) returns (longer: seq<Text>)
    requires StrictlySorted(keys) && k !in keys
    ensures StrictlySorted(longer) && forall x :: x in longer <==> x in keys || x == k
  {
    var i := 0;
    while i < |keys| && Less(keys[i], k)
      invariant i <= |keys| && forall j :: 0 <= j < i ==> Less(keys[j], k)
    {
      i := i + 1;
    }
    longer := keys[..i] + [k] + keys[i..];
    forall j | i <= j < |keys| ensures Less(k, keys[j]) {
      LessTotal(keys[i], k);
      if i < j { LessTransitive(k, keys[i], keys[j]); }
    }
    assert forall x :: x in keys <==> x in keys[..i] || x in keys[i..];
  }

  /** compile_catalog: it fails exactly when a string has no UTF-8 form or a length or offset
      has no 32-bit form, and otherwise writes the catalogue of the messages. */
  method CompileCatalog(messages: map<Text, Text>)
    returns (result: Result<ByteString, CompileError>, ghost keys: seq<Text>)
    ensures IsSortedKeys(keys, messages)
    ensures result == Err(NotEncodable) <==> !AllEncodable(messages)
    ensures AllEncodable(messages) ==>
              var ks, vs := EncodeAll(keys), EncodeAll(Values(messages, keys));
              if Packable(ks, vs) then result == Ok(Image(ks, vs)) else result == Err(TooLarge)
  {
    var sorted := SortedKeys(messages);
    keys := sorted;
    if !AllEncodable(messages) { return Err(NotEncodable), keys; }
    var output := WriteFile(EncodeAll(sorted), EncodeAll(Values(messages, sorted)));
    return if output.None? then Err(TooLarge) else Ok(output.value), keys;
  }

  // The offsets and the parts of the file, from the encoded strings.
  method WriteFile(encodedKeys: seq<ByteString>, encodedValues: seq<ByteString>) returns (file: Option<ByteString>)
    requires |encodedKeys| == |encodedValues|
    ensures if Packable(encodedKeys, encodedValues) then file == Some(Image(encodedKeys, encodedValues)) else file.None?
  {
    var count := |encodedKeys|;
    var keyTableOffset := 7 * 4;
    var valueTableOffset := keyTableOffset + count * 8;
    var keyDataOffset := valueTableOffset + count * 8;
    var keyData := JoinTerminated(encodedKeys);
    var valueDataOffset := keyDataOffset + |keyData|;
    var valueData := JoinTerminated(encodedValues);
    assert keyDataOffset == KeyBase(count) && valueDataOffset == ValueBase(encodedKeys);
    var output := PackHeader(count, keyTableOffset, valueTableOffset);
    if output.None? { return None; }
    var keyTable := PackTable(encodedKeys, keyDataOffset);
    if keyTable.None? { return None; }
    var valueTable := PackTable(encodedValues, valueDataOffset);
    if valueTable.None? { return None; }
    return Some(output.value + keyTable.value + valueTable.value + keyData + valueData);
  }

  method PackHeader(count: nat, keyTableOffset: nat, valueTableOffset: nat) returns (header: Option<ByteString>)
    requires keyTableOffset == HEADER && valueTableOffset == keyTableOffset + 8 * count
    ensures header == if HEADER + 8 * count < TWO32 then Some(Header(count)) else None
  {
    if valueTableOffset >= TWO32 { return None; }
    return Some(
      LE32(MAGIC) + LE32(0) + LE32(count) + LE32(keyTableOffset) + LE32(valueTableOffset) + LE32(0) + LE32(0));
  }

  /** Everything whose file is at most 4 GiB compiles. */
  lemma SmallCatalogsFit(ks: seq<ByteString>, vs: seq<ByteString>)
    requires |ks| == |vs| && ValueBase(ks) + |Join(vs)| <= TWO32
    ensures Packable(ks, vs)
  {
    forall i | 0 <= i < |ks|
      ensures FitsAt(ks, KeyBase(|ks|), i) && FitsAt(vs, ValueBase(ks), i)
    {
      JoinPrefix(ks, i, i + 1);
      JoinPrefix(vs, i, i + 1);
    }
  }

  method JoinTerminated(ss: seq<ByteString>) returns (data: ByteString)
    ensures data == Join(ss)
  {
    data := [];
    for i := 0 to |ss|
      invariant data == JoinFirst(ss, i)
    {
      data := data + (ss[i] + [0]);
    }
  }

  // struct.pack("<2I", ...)
  method Pack(length: nat, offset: nat) returns (descriptor: Option<ByteString>)
    ensures descriptor == if length < TWO32 && offset < TWO32 then Some(Descriptor(length, offset)) else None
  {
    if length >= TWO32 || offset >= TWO32 { return None; }
    return Some(LE32(length) + LE32(offset));
  }

  // The loop that appends one descriptor per string while advancing the offset.
  method PackTable(ss: seq<ByteString>, base: nat) returns (table: Option<ByteString>)
    ensures if Fits(ss, base) then table == Some(Table(ss, base, |ss|)) else table.None?
  {
    var output: ByteString := [];
    var offset := base;
    for i := 0 to |ss|
      invariant offset == Offset(ss, base, i) && FitsFirst(ss, base, i)
      invariant output == Table(ss, base, i)
    {
      var descriptor := Pack(|ss[i]|, offset);
      if descriptor.None? {
        assert !FitsAt(ss, base, i);
        return None;
      }
      output := output + descriptor.value;
      offset := offset + |ss[i]| + 1;
    }
    return Some(output);
  }
}
