/** Byte strings, 32-bit integers in both byte orders, and byte-wise order. */
module Bytes {
  type Byte = b: nat | b < 256
  type ByteString = seq<Byte>

  const TWO32 := 0x1_0000_0000

  function LE32(n: nat): (r: ByteString)
    requires n < TWO32
    ensures |r| == 4
  {
    [n % 256, n / 256 % 256, n / 256 / 256 % 256, n / 256 / 256 / 256]
  }

  function FromLE32(b: ByteString): (n: nat)
    requires |b| == 4
    ensures n < TWO32
  {
    var x0: int, x1: int, x2: int, x3: int := b[0], b[1], b[2], b[3];
    x0 + 256 * (x1 + 256 * (x2 + 256 * x3))
  }

  lemma LE32RoundTrip(n: nat)
    requires n < TWO32
    ensures FromLE32(LE32(n)) == n
  {
  }

  function Reversed4(b: ByteString): (r: ByteString)
    requires |b| == 4
    ensures |r| == 4
  {
    [b[3], b[2], b[1], b[0]]
  }

  function BE32(n: nat): (r: ByteString)
    requires n < TWO32
    ensures |r| == 4
  {
    Reversed4(LE32(n))
  }

  function FromBE32(b: ByteString): (n: nat)
    requires |b| == 4
    ensures n < TWO32
  {
    FromLE32(Reversed4(b))
  }

  lemma BE32RoundTrip(n: nat)
    requires n < TWO32
    ensures FromBE32(BE32(n)) == n
  {
    LE32RoundTrip(n);
    assert Reversed4(Reversed4(LE32(n))) == LE32(n);
  }

  // The number with these four digits to the base 256, the most significant first.
  function Number(a: int, b: int, c: int, d: int): int { 0x100_0000 * a + 0x1_0000 * b + 0x100 * c + d }

  lemma Digit(q: nat, r: nat)
    requires r < 256
    ensures (r + 256 * q) % 256 == r && (r + 256 * q) / 256 == q
  {
  }

  lemma LE32Inverse(b: ByteString)
    requires |b| == 4
    ensures LE32(FromLE32(b)) == b
  {
    var x0: int, x1: int, x2: int, x3: int := b[0], b[1], b[2], b[3];
    Digit(x1 + 256 * (x2 + 256 * x3), x0);
    Digit(x2 + 256 * x3, x1);
    Digit(x3, x2);
    assert FromLE32(b) == x0 + 256 * (x1 + 256 * (x2 + 256 * x3));
    assert LE32(FromLE32(b)) == [b[0], b[1], b[2], b[3]];
  }

  lemma BE32Inverse(b: ByteString)
    requires |b| == 4
    ensures BE32(FromBE32(b)) == b
  {
    LE32Inverse(Reversed4(b));
    assert Reversed4(Reversed4(b)) == b;
  }

  // Lexicographic order, as str and bytes compare in the source and as strcmp does.
  predicate Less(a: seq<nat>, b: seq<nat>) {
    b != [] && (a == [] || a[0] < b[0] || (a[0] == b[0] && Less(a[1..], b[1..])))
  }

  lemma {:induction false} LessIrreflexive(a: seq<nat>)
    ensures !Less(a, a)
  {
    if a != [] { LessIrreflexive(a[1..]); }
  }

  lemma {:induction false} LessTotal(a: seq<nat>, b: seq<nat>)
    ensures Less(a, b) || a == b || Less(b, a)
  {
    if a != [] && b != [] && a[0] == b[0] {
      LessTotal(a[1..], b[1..]);
      assert a == [a[0]] + a[1..] && b == [b[0]] + b[1..];
    }
  }

  lemma {:induction false} LessTransitive(a: seq<nat>, b: seq<nat>, c: seq<nat>)
    requires Less(a, b) && Less(b, c)
    ensures Less(a, c)
  {
    if a != [] && a[0] == b[0] && b[0] == c[0] { LessTransitive(a[1..], b[1..], c[1..]); }
  }

  lemma LessAsymmetric(a: seq<nat>, b: seq<nat>)
    requires Less(a, b)
    ensures !Less(b, a) && a != b
  {
    LessIrreflexive(a);
    if Less(b, a) { LessTransitive(a, b, a); }
  }

  // A common prefix does not matter.
  lemma {:induction false} LessAfterPrefix(p: seq<nat>, a: seq<nat>, b: seq<nat>)
    ensures Less(p + a, p + b) <==> Less(a, b)
  {
    if p == [] {
      assert p + a == a && p + b == b;
    } else {
      assert (p + a)[1..] == p[1..] + a && (p + b)[1..] == p[1..] + b;
      LessAfterPrefix(p[1..], a, b);
    }
  }
}
