/**
 UTF-8 (section 3 of RFC 3629) on strings of code points, and the fact the catalogue
 compiler relies on: sorting by code point is sorting by encoded bytes.
 */
module Utf8 {
  import opened Bytes

  type Text = seq<nat>

  // The code points str.encode accepts: no surrogates.
  predicate Scalar(c: nat) { c < 0xD800 || 0xE000 <= c < 0x110000 }

  predicate Encodable(t: Text) { forall i :: 0 <= i < |t| ==> Scalar(t[i]) }

  function EncodeChar(c: nat): (r: ByteString)
    requires Scalar(c)
    ensures 1 <= |r| <= 4
  {
    if c < 0x80 then [c]
    else if c < 0x800 then [0xC0 + c / 64, 0x80 + c % 64]
    else if c < 0x10000 then [0xE0 + c / 64 / 64, 0x80 + c / 64 % 64, 0x80 + c % 64]
    else [0xF0 + c / 64 / 64 / 64, 0x80 + c / 64 / 64 % 64, 0x80 + c / 64 % 64, 0x80 + c % 64]
  }

  function Encode(t: Text): ByteString
    requires Encodable(t)
  {
    if t == [] then [] else EncodeChar(t[0]) + Encode(t[1..])
  }

  lemma Digits(a: nat, b: nat)
    requires a < b
    ensures a / 64 < b / 64 || (a / 64 == b / 64 && a % 64 < b % 64)
  {
    assert a == 64 * (a / 64) + a % 64 && b == 64 * (b / 64) + b % 64;
  }

  // x and y agree before i and x is smaller there.
  predicate Differ(x: ByteString, y: ByteString, i: nat) {
    i < |x| && i < |y| && x[..i] == y[..i] && x[i] < y[i]
  }

  lemma LeadByteOrder(a: nat, b: nat)
    requires Scalar(a) && Scalar(b) && a < b && |EncodeChar(a)| != |EncodeChar(b)|
    ensures Differ(EncodeChar(a), EncodeChar(b), 0)
  {
  }

  lemma TwoByteOrder(a: nat, b: nat) returns (i: nat)
    requires Scalar(a) && Scalar(b) && a < b && |EncodeChar(a)| == |EncodeChar(b)| == 2
    ensures Differ(EncodeChar(a), EncodeChar(b), i)
  {
    Digits(a, b);
    i := if a / 64 < b / 64 then 0 else 1;
  }

  lemma ThreeByteOrder(a: nat, b: nat) returns (i: nat)
    requires Scalar(a) && Scalar(b) && a < b && |EncodeChar(a)| == |EncodeChar(b)| == 3
    ensures Differ(EncodeChar(a), EncodeChar(b), i)
  {
    Digits(a, b);
    if a / 64 < b / 64 {
      Digits(a / 64, b / 64);
      i := if a / 64 / 64 < b / 64 / 64 then 0 else 1;
    } else {
      i := 2;
    }
  }

  lemma FourByteOrder(a: nat, b: nat) returns (i: nat)
    requires Scalar(a) && Scalar(b) && a < b && |EncodeChar(a)| == |EncodeChar(b)| == 4
    ensures Differ(EncodeChar(a), EncodeChar(b), i)
  {
    Digits(a, b);
    if a / 64 < b / 64 {
      Digits(a / 64, b / 64);
      if a / 64 / 64 < b / 64 / 64 {
        Digits(a / 64 / 64, b / 64 / 64);
        i := if a / 64 / 64 / 64 < b / 64 / 64 / 64 then 0 else 1;
      } else {
        i := 2;
      }
    } else {
      i := 3;
    }
  }

  // Encodings of different characters differ within both, in the order of the characters.
  lemma CharOrder(a: nat, b: nat) returns (i: nat)
    requires Scalar(a) && Scalar(b) && a < b
    ensures Differ(EncodeChar(a), EncodeChar(b), i)
  {
    if |EncodeChar(a)| != |EncodeChar(b)| {
      LeadByteOrder(a, b);
      i := 0;
    } else if b < 0x80 {
      i := 0;
    } else if b < 0x800 {
      i := TwoByteOrder(a, b);
    } else if b < 0x10000 {
      i := ThreeByteOrder(a, b);
    } else {
      i := FourByteOrder(a, b);
    }
  }

  lemma LessAtDifference(x: ByteString, y: ByteString, i: nat)
    requires i < |x| && i < |y| && x[..i] == y[..i] && x[i] < y[i]
    ensures Less(x, y)
  {
    assert x == x[..i] + x[i..] && y == x[..i] + y[i..];
    assert Less(x[i..], y[i..]);
    LessAfterPrefix(x[..i], x[i..], y[i..]);
  }

  lemma {:induction false} EncodeKeepsLess(s: Text, t: Text)
    requires Encodable(s) && Encodable(t) && Less(s, t)
    ensures Less(Encode(s), Encode(t))
  {
    if s == [] {
    } else if s[0] < t[0] {
      var i := CharOrder(s[0], t[0]);
      LessAtDifference(Encode(s), Encode(t), i);
    } else {
      EncodeKeepsLess(s[1..], t[1..]);
      LessAfterPrefix(EncodeChar(s[0]), Encode(s[1..]), Encode(t[1..]));
    }
  }

  /** Byte order after encoding is code point order before it; so encoding is injective. */
  lemma EncodeOrder(s: Text, t: Text)
    requires Encodable(s) && Encodable(t)
    ensures Less(Encode(s), Encode(t)) <==> Less(s, t)
    ensures Encode(s) == Encode(t) <==> s == t
  {
    LessTotal(s, t);
    LessIrreflexive(Encode(s));
    LessIrreflexive(s);
    if Less(s, t) { EncodeKeepsLess(s, t); LessAsymmetric(s, t); }
    if Less(t, s) { EncodeKeepsLess(t, s); LessAsymmetric(t, s); LessAsymmetric(Encode(t), Encode(s)); }
  }
}
