/** Little-endian integers and byte cursors. */
module Bytes {
  import opened Common

  function Pow256(w: nat): (p: nat)
    ensures p > 0
  {
    if w == 0 then 1 else 256 * Pow256(w - 1)
  }

  /** The `w` low bytes of `n`, least significant first. */
  function LE(n: nat, w: nat): (s: seq<byte>)
    ensures |s| == w
    decreases w
  {
    if w == 0 then [] else [n % 256] + LE(n / 256, w - 1)
  }

  function FromLE(s: seq<byte>): nat {
    if s == [] then 0 else s[0] + 256 * FromLE(s[1..])
  }

  lemma {:induction false} FromToLE(n: nat, w: nat)
    requires n < Pow256(w)
    ensures FromLE(LE(n, w)) == n
    decreases w
  {
    if w > 0 { FromToLE(n / 256, w - 1); }
  }

  lemma {:induction false} ToFromLE(s: seq<byte>)
    ensures FromLE(s) < Pow256(|s|) && LE(FromLE(s), |s|) == s
  {
    if s != [] { ToFromLE(s[1..]); }
  }

  type u32 = x: int | 0 <= x < U32
  type u64 = x: int | 0 <= x < U64
  type i32 = x: int | -0x8000_0000 <= x < 0x8000_0000
  type i64 = x: int | -0x8000_0000_0000_0000 <= x < 0x8000_0000_0000_0000

  /** Two's complement in `bound` values. */
  function Unsigned(x: int, bound: nat): int { if x < 0 then x + bound else x }
  function Signed(n: int, bound: nat): int { if 2 * n < bound then n else n - bound }

  lemma Widths()
    ensures Pow256(4) == U32 && Pow256(8) == U64
  {
    assert Pow256(2) == 0x1_0000;
    assert Pow256(4) == 0x1_0000 * Pow256(2);
    assert Pow256(6) == 0x1_0000 * Pow256(4);
  }

  function PutU32(x: u32): (s: seq<byte>)
    ensures |s| == 4
  { LE(x, 4) }

  function PutU64(x: u64): (s: seq<byte>)
    ensures |s| == 8
  { LE(x, 8) }

  function PutI32(x: i32): (s: seq<byte>)
    ensures |s| == 4
  { LE(Unsigned(x, U32), 4) }

  function PutI64(x: i64): (s: seq<byte>)
    ensures |s| == 8
  { LE(Unsigned(x, U64), 8) }

  function GetU32(s: seq<byte>): u32
    requires |s| == 4
  {
    Widths(); ToFromLE(s); FromLE(s)
  }

  function GetU64(s: seq<byte>): u64
    requires |s| == 8
  {
    Widths(); ToFromLE(s); FromLE(s)
  }

  function GetI32(s: seq<byte>): i32
    requires |s| == 4
  {
    Signed(GetU32(s), U32)
  }

  function GetI64(s: seq<byte>): i64
    requires |s| == 8
  {
    Signed(GetU64(s), U64)
  }

  lemma U32RoundTrip(x: u32)
    ensures GetU32(PutU32(x)) == x
  { Widths(); FromToLE(x, 4); }

  lemma U64RoundTrip(x: u64)
    ensures GetU64(PutU64(x)) == x
  { Widths(); FromToLE(x, 8); }

  lemma I32RoundTrip(x: i32)
    ensures GetI32(PutI32(x)) == x
  { U32RoundTrip(Unsigned(x, U32)); }

  lemma I64RoundTrip(x: i64)
    ensures GetI64(PutI64(x)) == x
  { U64RoundTrip(Unsigned(x, U64)); }

  // ------------------------------------------------------------------- layout

  /** `width` bytes from `at` on hold `value`, lowest byte first. */
  predicate NumberAt(file: seq<byte>, at: nat, width: nat, value: nat) {
    at + width <= |file| && forall i :: 0 <= i < width ==> file[at + i] == value / Pow256(i) % 256
  }

  predicate BytesAt(file: seq<byte>, at: nat, s: seq<byte>) { at + |s| <= |file| && file[at..at + |s|] == s }

  /** The bytes of a number, one by one. */
  lemma {:induction false} BytesOf(n: nat, w: nat, i: nat)
    requires i < w
    ensures LE(n, w)[i] == n / Pow256(i) % 256
    decreases w
  {
    if i > 0 {
      BytesOf(n / 256, w - 1, i - 1);
      DivTwice(n, 256, Pow256(i - 1));
    }
  }

  lemma LaidOut(file: seq<byte>, at: nat, n: nat, w: nat)
    requires BytesAt(file, at, LE(n, w))
    ensures NumberAt(file, at, w, n)
  {
    hide LE, Pow256;
    forall i | 0 <= i < w ensures file[at + i] == n / Pow256(i) % 256 {
      BytesOf(n, w, i);
      assert file[at + i] == file[at..at + w][i];
    }
  }

  lemma InTwosComplement(x: i64)
    ensures Unsigned(x, U64) == x % U64
  {
  }

  lemma InTwosComplement32(x: i32)
    ensures Unsigned(x, U32) == x % U32
  {
  }

  lemma BytesSplit(file: seq<byte>, at: nat, a: seq<byte>, b: seq<byte>)
    requires BytesAt(file, at, a + b)
    ensures BytesAt(file, at, a) && BytesAt(file, at + |a|, b)
  {
    var whole := file[at..at + |a + b|];
    assert file[at..at + |a|] == whole[..|a|] == a;
    assert file[at + |a|..at + |a| + |b|] == whole[|a|..] == b;
  }

  lemma NumberHeld(file: seq<byte>, at: nat, n: nat, w: nat)
    requires NumberAt(file, at, w, n)
    ensures BytesAt(file, at, LE(n, w))
  {
    hide LE, Pow256;
    forall i | 0 <= i < w ensures file[at..at + w][i] == LE(n, w)[i] { BytesOf(n, w, i); }
  }

  lemma BytesJoin(file: seq<byte>, at: nat, a: seq<byte>, b: seq<byte>)
    requires BytesAt(file, at, a) && BytesAt(file, at + |a|, b)
    ensures BytesAt(file, at, a + b)
  {
    assert file[at..at + |a + b|] == file[at..at + |a|] + file[at + |a|..at + |a| + |b|];
  }
}
