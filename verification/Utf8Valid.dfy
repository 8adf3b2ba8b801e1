/** The bytes that a capture accepts as a topic are exactly the encodings of texts. */
module Utf8Valid {
  import opened Common
  import opened CaptureFormat
  import opened Utf8Order

  /** The encoding of one character is taken by one turn of the validity test. */
  lemma CharIsValid(c: char, rest: seq<byte>)
    ensures ValidUtf8(Encoded(c) + rest) <==> ValidUtf8(rest)
  {
    hide D0, D1, D2, D3;
    var n := c as int;
    var e := Encoded(c);
    var s := e + rest;
    assert s[|e|..] == rest;
    CharDigits(c);
    assert forall i :: 0 <= i < |e| ==> s[i] == e[i];
  }

  /** What is known of the digits of a character. */
  lemma CharDigits(c: char)
    ensures var n := c as int;
            && n < 0x11_0000 && !(0xD800 <= n < 0xE000)
            && (0x80 <= n < 0x800 ==> D1(n) >= 2)
            && (0x800 <= n < 0x1_0000 && D2(n) == 0 ==> D1(n) >= 32)
            && (0x800 <= n < 0x1_0000 && D2(n) == 13 ==> D1(n) < 32)
            && (0x1_0000 <= n && D3(n) == 0 ==> D2(n) >= 16)
            && (0x1_0000 <= n && D3(n) == 4 ==> D2(n) < 16)
  {
    hide D0, D1, D2, D3;
    DigitsAre(c as int);
  }

  lemma {:induction false} TextIsValid(t: string)
    ensures ValidUtf8(Utf8(t))
  {
    hide Encoded, ValidUtf8;
    if t == [] {
      NothingIsValid();
    } else {
      TextIsValid(t[1..]);
      CharIsValid(t[0], Utf8(t[1..]));
    }
  }

  lemma NothingIsValid()
    ensures ValidUtf8([])
  {
  }

  /** The first character of valid bytes. */
  lemma FirstChar(s: seq<byte>) returns (c: char, n: nat)
    requires s != [] && ValidUtf8(s)
    ensures 1 <= n <= |s| && s[..n] == Encoded(c) && ValidUtf8(s[n..])
  {
    hide D0, D1, D2, D3;
    if s[0] <= 0x7F {
      c, n := s[0] as char, 1;
    } else if s[0] <= 0xDF {
      var b, a: int := s[0] as int - 0xC0, s[1] as int - 0x80;
      Digits2(b, a);
      c, n := (64 * b + a) as char, 2;
    } else if s[0] <= 0xEF {
      var d, b, a: int := s[0] as int - 0xE0, s[1] as int - 0x80, s[2] as int - 0x80;
      Digits3(d, b, a);
      c, n := (64 * (64 * d + b) + a) as char, 3;
    } else {
      var e, d, b, a: int := s[0] as int - 0xF0, s[1] as int - 0x80, s[2] as int - 0x80, s[3] as int - 0x80;
      Digits4(e, d, b, a);
      c, n := (64 * (64 * (64 * e + d) + b) + a) as char, 4;
    }
  }

  lemma Digits2(b: nat, a: nat)
    requires a < 64 && b < 32
    ensures var v := 64 * b + a; D0(v) == a && D1(v) == b
  {
  }

  lemma Digits3(c: nat, b: nat, a: nat)
    requires a < 64 && b < 64 && c < 16
    ensures var v := 64 * (64 * c + b) + a; D0(v) == a && D1(v) == b && D2(v) == c
  {
    var v := 64 * (64 * c + b) + a;
    assert v / 64 == 64 * c + b && v / 4096 == c;
  }

  lemma Digits4(d: nat, c: nat, b: nat, a: nat)
    requires a < 64 && b < 64 && c < 64 && d < 5
    ensures var v := 64 * (64 * (64 * d + c) + b) + a; D0(v) == a && D1(v) == b && D2(v) == c && D3(v) == d
  {
    var v := 64 * (64 * (64 * d + c) + b) + a;
    assert v / 64 == 64 * (64 * d + c) + b && v / 4096 == 64 * d + c && v / 262144 == d;
  }

  lemma {:induction false} ValidIsText(s: seq<byte>) returns (t: string)
    requires ValidUtf8(s)
    ensures Utf8(t) == s
    decreases |s|
  {
    hide Encoded, ValidUtf8;
    if s == [] {
      t := [];
    } else {
      var c, n := FirstChar(s);
      var rest := ValidIsText(s[n..]);
      t := [c] + rest;
      assert t[1..] == rest && s == s[..n] + s[n..];
    }
  }

  /** Bytes are valid if and only if they encode a text. */
  lemma ValidIff(s: seq<byte>)
    ensures ValidUtf8(s) <==> exists t :: Utf8(t) == s
  {
    hide ValidUtf8, Utf8;
    if ValidUtf8(s) { var t := ValidIsText(s); }
    forall t | Utf8(t) == s ensures ValidUtf8(s) { TextIsValid(t); }
  }
}
