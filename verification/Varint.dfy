/** Base-128 varints and zigzag numbers. */
module Varint {
  import opened Common
  import opened Bytes

  datatype Error = Truncated | ExceedsU64 | NotCanonical

  function Encoded(n: nat): (s: seq<byte>)
    ensures |s| >= 1
  {
    if n >= 128 then [n % 128 + 128] + Encoded(n / 128) else [n]
  }

  function Pow128(k: nat): (p: nat)
    ensures p > 0
  {
    if k == 0 then 1 else 128 * Pow128(k - 1)
  }

  /** The number that the low seven bits of the bytes spell. */
  function Low(s: seq<byte>): nat {
    if s == [] then 0 else s[0] % 128 + 128 * Low(s[1..])
  }

  /** Continuation bytes and then one final byte. */
  predicate Delimited(s: seq<byte>) {
    s != [] && s[|s| - 1] < 128 && forall i :: 0 <= i < |s| - 1 ==> s[i] >= 128
  }

  lemma {:induction false} EncodedProps(n: nat)
    ensures Delimited(Encoded(n)) && Low(Encoded(n)) == n
  {
    if n >= 128 {
      EncodedProps(n / 128);
      var s, t := Encoded(n), Encoded(n / 128);
      assert s[1..] == t && s[|s| - 1] == t[|t| - 1];
      assert forall i :: 1 <= i < |s| ==> s[i] == t[i - 1];
    }
  }

  lemma {:induction false} EncodedLength(n: nat, k: nat)
    requires k >= 1
    ensures |Encoded(n)| <= k <==> n < Pow128(k)
  {
    if n >= 128 && k > 1 {
      EncodedLength(n / 128, k - 1);
    } else if n >= 128 {
      assert Pow128(1) == 128 * Pow128(0);
    } else {
      AtLeast128(k);
    }
  }

  lemma AtLeast128(k: nat)
    requires k >= 1
    ensures Pow128(k) >= 128
  {
    if k > 1 { AtLeast128(k - 1); }
  }

  lemma {:induction false} LowAppend(s: seq<byte>, b: byte)
    ensures Low(s + [b]) == Low(s) + Pow128(|s|) * (b % 128)
  {
    if s == [] {
      assert s + [b] == [b] && [b][1..] == [];
    } else {
      LowAppend(s[1..], b);
      assert (s + [b])[1..] == s[1..] + [b];
      var p, x := Pow128(|s| - 1), b % 128;
      assert 128 * (p * x) == 128 * p * x;
    }
  }

  lemma {:induction false} LowBound(s: seq<byte>)
    ensures Low(s) < Pow128(|s|)
  {
    if s != [] { LowBound(s[1..]); }
  }

  lemma SevenBits(b: int, rest: nat)
    ensures (b % 128 + 128 * rest) / 128 == rest && (b % 128 + 128 * rest) % 128 == b % 128
  {
  }

  lemma EncodedMore(b: byte, rest: nat)
    requires b >= 128 && rest > 0
    ensures Encoded(b % 128 + 128 * rest) == [b] + Encoded(rest)
  {
    SevenBits(b, rest);
  }

  lemma EncodedLast(n: nat)
    requires n < 128
    ensures Encoded(n) == [n]
  {
  }

  /** Of all delimited spellings of a number, exactly the one of minimal length
      is its encoding. */
  lemma {:induction false} CanonicalIffShort(s: seq<byte>)
    requires Delimited(s)
    ensures Encoded(Low(s)) == s <==> |Encoded(Low(s))| == |s|
  {
    hide Encoded;
    if |s| == 1 {
      assert s[1..] == [];
      EncodedLast(s[0]);
    } else {
      var t := s[1..];
      CanonicalIffShort(t);
      assert s == [s[0]] + t;
      if Low(t) > 0 { EncodedMore(s[0], Low(t)); } else { EncodedLast(Low(s)); }
    }
  }

  lemma Pow128At9()
    ensures Pow128(9) == 0x8000_0000_0000_0000 && Pow128(10) >= U64
  {
    assert Pow128(3) == 0x20_0000 by { assert Pow128(1) == 128; assert Pow128(2) == 16384; }
    assert Pow128(5) == 16384 * Pow128(3);
    assert Pow128(7) == 16384 * Pow128(5);
    assert Pow128(9) == 16384 * Pow128(7);
  }

  method EncodeVarint(value: u64, out: seq<byte>) returns (r: seq<byte>)
    ensures r == out + Encoded(value)
  {
    r := out;
    var n: nat := value;
    while n >= 128
      invariant r + Encoded(n) == out + Encoded(value)
    {
      r := r + [n % 128 + 128];
      n := n / 128;
    }
    r := r + [n];
  }

  method VarintLen(value: u64) returns (len: nat)
    ensures len == |Encoded(value)|
  {
    len := 1;
    var n: nat := value;
    while n >= 128
      invariant len - 1 + |Encoded(n)| == |Encoded(value)|
    {
      len := len + 1;
      n := n / 128;
    }
  }

  /** `decode_varint`: accepts exactly the canonical encodings of 64-bit numbers. */
  method DecodeVarint(buf: seq<byte>, cursor: nat) returns (r: Result<u64, Error>, next: nat)
    requires cursor <= |buf|
    ensures cursor <= next <= |buf|
    ensures r.Ok? ==> buf[cursor..next] == Encoded(r.value)
    ensures forall v: u64 :: Encoded(v) <= buf[cursor..] ==> r == Ok(v)
    ensures r == Err(Truncated) <==> |buf| < cursor + 10 && forall j :: cursor <= j < |buf| ==> buf[j] >= 128
    ensures r == Err(ExceedsU64) <==> |buf| >= cursor + 10 && buf[cursor + 9] > 1 && forall j :: cursor <= j < cursor + 9 ==> buf[j] >= 128
  {
    hide Encoded, Low, Pow128, Delimited;
    ghost var s := buf[cursor..];
    PowStep(0);
    NoLow();
    next := cursor;
    var value: nat := 0;
    var scale: nat := 1;
    for i := 0 to 10
      invariant i <= 9 && next == cursor + i <= |buf| && scale == Pow128(i)
      invariant forall j :: 0 <= j < i ==> s[j] >= 128
      invariant forall j :: cursor <= j < next ==> buf[j] >= 128
      invariant value == Low(s[..i])
    {
      if next >= |buf| {
        forall v: u64 ensures !(Encoded(v) <= s) { RunsOut(s, v); }
        return Err(Truncated), next;
      }
      var b := buf[next];
      next := next + 1;
      if i == 9 && b > 1 {
        forall v: u64 ensures !(Encoded(v) <= s) { TooLong(s, v); }
        return Err(ExceedsU64), next;
      }
      ghost var word := s[..i + 1];
      assert word == s[..i] + [b];
      LowAppend(s[..i], b);
      PowStep(i);
      value := value + scale * (b % 128);
      scale := 128 * scale;
      if b < 128 {
        FinalByte(word);
        forall v: u64 | Encoded(v) <= s ensures Encoded(v) == word && v == value {
          SameWord(s, word, v);
          EncodedProps(v);
        }
        var len := VarintLen(value);
        if len != i + 1 {
          return Err(NotCanonical), next;
        }
        assert buf[cursor..next] == word;
        return Ok(value), next;
      }
    }
    assert false;
  }

  lemma NoLow()
    ensures Low([]) == 0
  {
  }

  lemma PowStep(k: nat)
    ensures Pow128(0) == 1 && Pow128(k + 1) == 128 * Pow128(k)
  {
  }

  /** Every encoding has a final byte. */
  lemma RunsOut(s: seq<byte>, v: u64)
    requires forall j :: 0 <= j < |s| ==> s[j] >= 128
    ensures !(Encoded(v) <= s)
  {
    EncodedProps(v);
    assert Encoded(v)[|Encoded(v)| - 1] < 128;
  }

  /** A delimited word of up to ten bytes, the tenth at most one, is a 64-bit
      number, and its encoding if it is as short as that. */
  lemma FinalByte(word: seq<byte>)
    requires 1 <= |word| <= 10 && (|word| == 10 ==> word[9] <= 1)
    requires word[|word| - 1] < 128 && forall j :: 0 <= j < |word| - 1 ==> word[j] >= 128
    ensures Delimited(word) && Low(word) < U64
    ensures Encoded(Low(word)) == word <==> |Encoded(Low(word))| == |word|
  {
    hide Encoded, Low, Pow128;
    CanonicalIffShort(word);
    LowBound(word);
    Pow128At9();
    if |word| == 10 {
      LowBound(word[..9]);
      LowAppend(word[..9], word[9]);
      assert word == word[..9] + [word[9]];
    } else {
      PowMonotone(|word|, 9);
    }
  }

  lemma {:induction false} PowMonotone(a: nat, b: nat)
    requires a <= b
    ensures Pow128(a) <= Pow128(b)
    decreases b
  {
    if a < b { PowMonotone(a, b - 1); }
  }

  lemma SameWord(s: seq<byte>, word: seq<byte>, v: nat)
    requires Delimited(word) && word <= s && Encoded(v) <= s
    ensures Encoded(v) == word
  {
    EncodedProps(v);
    var e := Encoded(v);
    assert forall i :: 0 <= i < |e| ==> e[i] == s[i];
    assert forall i :: 0 <= i < |word| ==> word[i] == s[i];
  }

  /** At most one number's code starts a text. */
  lemma PrefixUnique(s: seq<byte>, x: nat, y: nat)
    requires Encoded(x) <= s && Encoded(y) <= s
    ensures x == y
  {
    hide Encoded;
    EncodedProps(x);
    EncodedProps(y);
    SameWord(s, Encoded(x), y);
  }

  lemma TooLong(s: seq<byte>, v: u64)
    requires |s| >= 10 && (forall j :: 0 <= j < 9 ==> s[j] >= 128) && s[9] > 1
    ensures !(Encoded(v) <= s)
  {
    hide Encoded, Low;
    EncodedProps(v);
    Pow128At9();
    EncodedLength(v, 10);
    var e := Encoded(v);
    if |e| == 10 {
      assert e == e[..9] + [e[9]];
      LowAppend(e[..9], e[9]);
    }
    assert |e| < 10 ==> e[|e| - 1] < 128;
  }

  // ------------------------------------------------------------------- zigzag

  /** `(v << 1) ^ (v >> 63)` on 64 bits, read arithmetically. */
  function Zigzag(v: i64): u64 { if v >= 0 then 2 * v else -2 * v - 1 }

  /** `(u >> 1) ^ -(u & 1)` on 64 bits, read arithmetically. */
  function Unzigzag(u: u64): i64 { if u % 2 == 0 then u / 2 else -(u / 2) - 1 }

  lemma ZigzagRoundTrip(v: i64, u: u64)
    ensures Unzigzag(Zigzag(v)) == v && Zigzag(Unzigzag(u)) == u
  {
  }

  /** The sign bit in every position: an arithmetic shift right by 63. */
  function SignFill(v: bv64): bv64 { if v >> 63 == 0 then 0 else 0xFFFF_FFFF_FFFF_FFFF }

  function ZigzagBits(v: bv64): bv64 { (v << 1) ^ SignFill(v) }

  function UnzigzagBits(u: bv64): bv64 { (u >> 1) ^ (0 - (u & 1)) }

  /** Zigzag in two's complement, by cases: what both the bits and the numbers say. */
  lemma ZigzagBitsCases(v: bv64)
    ensures v >> 63 == 0 ==> ZigzagBits(v) == v << 1 && UnzigzagBits(v << 1) == v
    ensures v >> 63 != 0 ==> ZigzagBits(v) == !(v << 1)
  {
  }

  lemma UnzigzagOdd(v: bv64)
    ensures v >> 63 != 0 ==> UnzigzagBits(!(v << 1)) == v
  {
  }

  lemma UnzigzagBitsCases(u: bv64)
    ensures u & 1 == 0 ==> UnzigzagBits(u) == u >> 1 && ZigzagBits(u >> 1) == u
    ensures u & 1 != 0 ==> UnzigzagBits(u) == !(u >> 1)
  {
  }

  lemma ZigzagOdd(u: bv64)
    ensures u & 1 != 0 ==> ZigzagBits(!(u >> 1)) == u
  {
  }

  lemma Complement(x: bv64)
    ensures !x == 0 - x - 1
  {
  }

  lemma Doubled(v: bv64)
    ensures v << 1 == v + v
  {
  }

  /** The shift-and-xor forms on 64-bit words: they are inverse to each other, and in
      two's complement they compute the arithmetic forms. */
  lemma ZigzagBitsRoundTrip(v: bv64, u: bv64)
    ensures UnzigzagBits(ZigzagBits(v)) == v && ZigzagBits(UnzigzagBits(u)) == u
    ensures ZigzagBits(v) == if v >> 63 == 0 then v + v else 0 - (v + v) - 1
    ensures UnzigzagBits(u) == if u & 1 == 0 then u >> 1 else 0 - (u >> 1) - 1
  {
    hide ZigzagBits, UnzigzagBits;
    ZigzagBitsCases(v);
    UnzigzagOdd(v);
    UnzigzagBitsCases(u);
    ZigzagOdd(u);
    Doubled(v);
    Complement(v << 1);
    Complement(u >> 1);
  }
}
