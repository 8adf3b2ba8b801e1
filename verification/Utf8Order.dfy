/** UTF-8, and that its byte order is the order of scalar values. */
module Utf8Order {
  import opened Common
  import opened LabelOrder

  /** The digits of a scalar value in base 64, lowest first. */
  function D0(n: nat): (d: nat)
    ensures d < 64
  { n % 64 }

  function D1(n: nat): (d: nat)
    ensures d < 64 && (n < 0x800 ==> d < 32)
  { n / 64 % 64 }

  function D2(n: nat): (d: nat)
    ensures d < 64 && (n < 0x1_0000 ==> d < 16)
  { n / 4096 % 64 }

  function D3(n: nat): (d: nat)
    ensures n < 0x11_0000 ==> d < 5
  { n / 262144 }

  /** The encoding of one scalar value (Unicode Standard, section 3.9, table 3-6). */
  function Encoded(c: char): (s: seq<byte>)
    ensures 1 <= |s| <= 4
  {
    var n := c as int;
    if n < 0x80 then [n]
    else if n < 0x800 then [0xC0 + D1(n), 0x80 + D0(n)]
    else if n < 0x1_0000 then [0xE0 + D2(n), 0x80 + D1(n), 0x80 + D0(n)]
    else [0xF0 + D3(n), 0x80 + D2(n), 0x80 + D1(n), 0x80 + D0(n)]
  }

  function Utf8(s: string): seq<byte> { if s == [] then [] else Encoded(s[0]) + Utf8(s[1..]) }

  /** Byte strings in the order of `Ord` on slices: a proper prefix first, else the smaller
      byte at the first difference. */
  ghost predicate BytesBefore(a: seq<byte>, b: seq<byte>) {
    exists i :: PartsAt(a, b, i)
  }

  predicate PartsAt(a: seq<byte>, b: seq<byte>, i: int) {
    0 <= i <= |a| && i < |b| && (forall j :: 0 <= j < i ==> a[j] == b[j]) && (i == |a| || a[i] < b[i])
  }

  lemma Asymmetric(a: seq<byte>, b: seq<byte>)
    requires BytesBefore(a, b)
    ensures !BytesBefore(b, a) && a != b
  {
    var i :| PartsAt(a, b, i);
  }

  lemma SamePrefix(p: seq<byte>, a: seq<byte>, b: seq<byte>)
    requires BytesBefore(a, b)
    ensures BytesBefore(p + a, p + b)
  {
    var i :| PartsAt(a, b, i);
    assert PartsAt(p + a, p + b, |p| + i);
  }

  lemma DigitsAre(n: nat)
    ensures n == 64 * (64 * (64 * D3(n) + D2(n)) + D1(n)) + D0(n)
    ensures (n < 0x800 ==> D2(n) == 0) && (n < 0x1_0000 ==> D3(n) == 0)
  {
    assert n / 64 / 64 == n / 4096 && n / 4096 / 64 == n / 262144;
  }

  /** The first different digit, from the highest on, decides the order. */
  lemma DigitOrder(m: nat, n: nat)
    requires m < n
    ensures || D3(m) < D3(n)
            || (D3(m) == D3(n) && D2(m) < D2(n))
            || (D3(m) == D3(n) && D2(m) == D2(n) && D1(m) < D1(n))
            || (D3(m) == D3(n) && D2(m) == D2(n) && D1(m) == D1(n) && D0(m) < D0(n))
  {
    hide D0, D1, D2, D3;
    DigitsAre(m);
    DigitsAre(n);
  }

  /** The place where the encodings of two scalar values part. */
  lemma CharsPart(c: char, d: char) returns (i: nat)
    requires c < d
    ensures i < |Encoded(c)| && i < |Encoded(d)| && Encoded(c)[i] < Encoded(d)[i]
    ensures forall j :: 0 <= j < i ==> Encoded(c)[j] == Encoded(d)[j]
  {
    hide D0, D1, D2, D3;
    var m, n := c as int, d as int;
    DigitOrder(m, n);
    DigitsAre(m);
    DigitsAre(n);
    i := 0;
    if |Encoded(c)| == |Encoded(d)| == 2 {
      i := if D1(m) < D1(n) then 0 else 1;
    } else if |Encoded(c)| == |Encoded(d)| == 3 {
      i := if D2(m) < D2(n) then 0 else if D1(m) < D1(n) then 1 else 2;
    } else if |Encoded(c)| == |Encoded(d)| == 4 {
      i := if D3(m) < D3(n) then 0 else if D2(m) < D2(n) then 1 else if D1(m) < D1(n) then 2 else 3;
    }
  }

  lemma {:induction false} LessBytes(a: string, b: string)
    requires Less(a, b)
    ensures BytesBefore(Utf8(a), Utf8(b))
  {
    hide Encoded;
    if a == [] {
      assert PartsAt(Utf8(a), Utf8(b), 0);
    } else if a[0] == b[0] {
      LessBytes(a[1..], b[1..]);
      SamePrefix(Encoded(a[0]), Utf8(a[1..]), Utf8(b[1..]));
    } else {
      var i := CharsPart(a[0], b[0]);
      var x, y := Encoded(a[0]), Encoded(b[0]);
      assert Utf8(a)[..i] == x[..i] && Utf8(b)[..i] == y[..i];
      assert PartsAt(Utf8(a), Utf8(b), i);
    }
  }

  /** Label names are ordered as their UTF-8 encodings are ordered byte by byte. */
  lemma LessIsByteOrder(a: string, b: string)
    ensures Less(a, b) <==> BytesBefore(Utf8(a), Utf8(b))
  {
    hide Less, Utf8, BytesBefore;
    LessTotal(a, b);
    if Less(a, b) {
      LessBytes(a, b);
    } else if Less(b, a) {
      LessBytes(b, a);
      Asymmetric(Utf8(b), Utf8(a));
    } else if BytesBefore(Utf8(a), Utf8(b)) {
      Asymmetric(Utf8(a), Utf8(b));
    }
  }
}
