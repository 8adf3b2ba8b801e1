/** Streaming seed-zero XXH64 against the one-shot algorithm of the xxHash fast
    digest algorithm specification ("XXH64 Algorithm Description"). */
module XxHash {
  import opened Common

  /** Multiplication by the five primes of the specification. */
  function TimesP1(x: bv64): bv64 { x * 11400714785074694791 }
  function TimesP2(x: bv64): bv64 { x * 14029467366897019727 }
  function TimesP3(x: bv64): bv64 { x * 1609587929392839161 }
  function TimesP5(x: bv64): bv64 { x * P5 }

  const P1: bv64 := TimesP1(1)
  const P2: bv64 := TimesP2(1)
  const P3: bv64 := TimesP3(1)
  const P4: bv64 := 9650029242287828579
  const P5: bv64 := 2870177450012600261

  /** The other elementary operations on 64-bit words. */
  function Plus(x: bv64, k: bv64): bv64 { x + k }
  function Xor(x: bv64, k: bv64): bv64 { x ^ k }
  function Turn11(x: bv64): bv64 { x.RotateLeft(11) }
  function Turn23(x: bv64): bv64 { x.RotateLeft(23) }
  function Turn27(x: bv64): bv64 { x.RotateLeft(27) }
  function Turn31(x: bv64): bv64 { x.RotateLeft(31) }
  function Fold29(x: bv64): bv64 { x ^ (x >> 29) }
  function Fold32(x: bv64): bv64 { x ^ (x >> 32) }
  function Fold33(x: bv64): bv64 { x ^ (x >> 33) }

  function Round(acc: bv64, x: bv64): bv64 { TimesP1(Turn31(Plus(acc, TimesP2(x)))) }

  function MergeRound(acc: bv64, x: bv64): bv64 { Plus(TimesP1(Xor(acc, Round(0, x))), P4) }

  function Word(s: seq<bv8>, n: nat): bv64
    requires n <= |s|
  {
    if n == 0 then 0 else Pack(Word(s[1..], n - 1), s[0])
  }

  function Pack(high: bv64, low: bv8): bv64 { (high << 8) | (low as bv64) }

  // ---------------------------------------------------------------- reference

  function Stripe(lanes: seq<bv64>, block: seq<bv8>): (r: seq<bv64>)
    requires |lanes| == 4 && |block| == 32
    ensures |r| == 4
  {
    [Round(lanes[0], Word(block, 8)), Round(lanes[1], Word(block[8..], 8)),
     Round(lanes[2], Word(block[16..], 8)), Round(lanes[3], Word(block[24..], 8))]
  }

  const INITIAL: seq<bv64> := [P1 + P2, P2, 0, 0 - P1]

  /** The accumulators after the first `k` stripes of the input. */
  function Stripes(s: seq<bv8>, k: nat): (r: seq<bv64>)
    requires 32 * k <= |s|
    ensures |r| == 4
  {
    if k == 0 then INITIAL else Stripe(Stripes(s, k - 1), s[32 * k - 32..32 * k])
  }

  function Converge(lanes: seq<bv64>): bv64
    requires |lanes| == 4
  {
    var acc := lanes[0].RotateLeft(1) + lanes[1].RotateLeft(7) + lanes[2].RotateLeft(12) + lanes[3].RotateLeft(18);
    MergeRound(MergeRound(MergeRound(MergeRound(acc, lanes[0]), lanes[1]), lanes[2]), lanes[3])
  }

  function Mix8(acc: bv64, x: bv64): bv64 { Plus(TimesP1(Turn27(Xor(acc, Round(0, x)))), P4) }
  function Mix4(acc: bv64, x: bv64): bv64 { Plus(TimesP2(Turn23(Xor(acc, TimesP1(x)))), P3) }
  function Mix1(acc: bv64, x: bv64): bv64 { TimesP1(Turn11(Xor(acc, TimesP5(x)))) }

  function Bytes1(acc: bv64, s: seq<bv8>): bv64
    decreases |s|
  {
    if s == [] then acc else Bytes1(Mix1(acc, s[0] as bv64), s[1..])
  }

  /** The remaining input: lanes of eight bytes, one of four, then single bytes. */
  function Remaining(acc: bv64, s: seq<bv8>): bv64
    decreases |s|
  {
    if |s| >= 8 then Remaining(Mix8(acc, Word(s, 8)), s[8..])
    else if |s| >= 4 then Bytes1(Mix4(acc, Word(s, 4)), s[4..])
    else Bytes1(acc, s)
  }

  function Avalanche(h: bv64): bv64 { Fold32(TimesP3(Fold29(TimesP2(Fold33(h))))) }

  /** Reduction to 64 bits. */
  function Wrapped(n: nat): (r: nat)
    ensures r < U64 && (n < U64 ==> r == n)
  {
    n % U64
  }

  lemma AddWraps(a: nat, b: nat)
    ensures Wrapped(Wrapped(a) + b) == Wrapped(a + b)
  {
  }

  function AddLength(acc: bv64, n: nat): bv64
    requires n < U64
  {
    Plus(acc, n as bv64)
  }

  /** One-shot XXH64 of the whole input, seed zero. */
  function Xxh64(s: seq<bv8>): bv64 {
    var k := |s| / 32;
    var acc := if |s| >= 32 then Converge(Stripes(s, k)) else P5;
    Avalanche(Remaining(AddLength(acc, Wrapped(|s|)), s[32 * k..]))
  }

  /** What the streaming form returns: it knows the length of its input only reduced to 64
      bits, and lets that decide whether there were whole stripes. */
  function Streamed(s: seq<bv8>): bv64 {
    var k := |s| / 32;
    var acc := if Wrapped(|s|) >= 32 then Converge(Stripes(s, k)) else P5;
    Avalanche(Remaining(AddLength(acc, Wrapped(|s|)), s[32 * k..]))
  }

  lemma {:induction false} StripesPrefix(s: seq<bv8>, t: seq<bv8>, k: nat)
    requires 32 * k <= |s|
    ensures Stripes(s + t, k) == Stripes(s, k)
  {
    hide Stripe;
    if k > 0 {
      StripesPrefix(s, t, k - 1);
      assert (s + t)[32 * k - 32..32 * k] == s[32 * k - 32..32 * k];
    }
  }

  lemma NextStripe(s: seq<bv8>, block: seq<bv8>, k: nat)
    requires |s| == 32 * k && |block| == 32
    ensures Stripes(s + block, k + 1) == Stripe(Stripes(s, k), block)
  {
    hide Stripe;
    StripesPrefix(s, block, k);
    assert (s + block)[32 * k..32 * (k + 1)] == block;
  }

  // ---------------------------------------------------------------- streaming

  class XxHash64 {
    var totalLen: nat
    var lanes: seq<bv64>
    const buffered: array<bv8>
    var bufferedLen: nat
    /** Everything hashed so far. */
    ghost var input: seq<bv8>

    /** The accumulators cover the whole stripes of `s`, the buffer the rest. */
    ghost predicate Holds(s: seq<bv8>)
      reads this`lanes, this`bufferedLen, buffered
    {
      && buffered.Length == 32 && bufferedLen == |s| % 32
      && lanes == Stripes(s, |s| / 32) && buffered[..bufferedLen] == s[32 * (|s| / 32)..]
    }

    ghost predicate Valid()
      reads this, buffered
    {
      totalLen == Wrapped(|input|) && Holds(input)
    }

    constructor ()
      ensures Valid() && fresh(buffered) && input == []
    {
      totalLen, lanes, bufferedLen, input := 0, INITIAL, 0, [];
      buffered := new bv8[32](_ => 0);
    }

    method ConsumeBlock(block: seq<bv8>)
      requires |lanes| == 4 && |block| == 32
      modifies this`lanes
      ensures lanes == Stripe(old(lanes), block)
    {
      hide Round, Word;
      var next: seq<bv64> := [];
      for index := 0 to 4
        invariant |next| == index
        invariant forall i :: 0 <= i < index ==> next[i] == Round(lanes[i], Word(block[8 * i..], 8))
      {
        next := next + [Round(lanes[index], Word(block[8 * index..], 8))];
      }
      assert block[0..] == block;
      lanes := next;
    }

    /** Feeds a piece of input of any length, also none; bytes of the buffer beyond
        `bufferedLen` play no part. */
    method Update(piece: seq<bv8>)
      requires Valid()
      modifies this, buffered
      ensures Valid() && input == old(input) + piece
    {
      hide Holds, Wrapped;
      ghost var s := input;
      input := input + piece;
      AddWraps(|s|, |piece|);
      totalLen := Wrapped(totalLen + |piece|);
      BufferedLength(s);
      var rest := piece;
      if bufferedLen != 0 {
        var missing := 32 - bufferedLen;
        if |rest| < missing {
          BufferMore(rest, s);
          return;
        }
        CompleteBlock(rest[..missing], s);
        s := s + rest[..missing];
        rest := rest[missing..];
        assert s + rest == input;
      }
      ConsumeAll(rest, s);
    }

    lemma BufferedLength(s: seq<bv8>)
      requires Holds(s)
      ensures buffered.Length == 32 && bufferedLen == |s| % 32
    {
    }

    method BufferMore(bytes: seq<bv8>, ghost s: seq<bv8>)
      requires Holds(s) && bufferedLen + |bytes| < 32
      modifies this`bufferedLen, buffered
      ensures Holds(s + bytes)
    {
      hide Stripes;
      CopyIn(bufferedLen, bytes);
      ShortUpdate(s, bytes);
      assert buffered[..bufferedLen + |bytes|] == buffered[..bufferedLen] + buffered[bufferedLen..bufferedLen + |bytes|];
      bufferedLen := bufferedLen + |bytes|;
    }

    method CompleteBlock(bytes: seq<bv8>, ghost s: seq<bv8>)
      requires Holds(s) && bufferedLen != 0 && |bytes| == 32 - bufferedLen
      modifies this`bufferedLen, this`lanes, buffered
      ensures Holds(s + bytes) && |s + bytes| % 32 == 0
    {
      hide Stripes, Stripe;
      CopyIn(bufferedLen, bytes);
      FillBlock(s, bytes);
      assert buffered[..] == buffered[..bufferedLen] + buffered[bufferedLen..32];
      ConsumeBlock(buffered[..]);
      bufferedLen := 0;
    }

    method ConsumeAll(bytes: seq<bv8>, ghost s: seq<bv8>)
      requires Holds(s) && |s| % 32 == 0
      modifies this`bufferedLen, this`lanes, buffered
      ensures Holds(s + bytes)
    {
      hide Stripes, Stripe;
      var rest := bytes;
      ghost var t := s;
      while |rest| >= 32
        invariant |t| % 32 == 0 && t + rest == s + bytes && lanes == Stripes(t, |t| / 32)
        decreases |rest|
      {
        NextStripe(t, rest[..32], |t| / 32);
        ConsumeBlock(rest[..32]);
        assert t + rest[..32] + rest[32..] == t + rest;
        t := t + rest[..32];
        rest := rest[32..];
      }
      CopyIn(0, rest);
      ShortUpdate(t, rest);
      bufferedLen := |rest|;
    }

    method CopyIn(from: nat, bytes: seq<bv8>)
      requires buffered.Length == 32 && from + |bytes| <= 32
      modifies buffered
      ensures buffered[..] == old(buffered[..from]) + bytes + old(buffered[from + |bytes|..])
      ensures buffered[..from] == old(buffered[..from]) && buffered[from..from + |bytes|] == bytes
    {
      for i := 0 to |bytes|
        invariant buffered[..from] == old(buffered[..from]) && buffered[from..from + i] == bytes[..i]
        invariant buffered[from + i..] == old(buffered[from + i..])
      {
        buffered[from + i] := bytes[i];
      }
    }

    /** The digest depends on everything fed in, and not on how it was cut into pieces. */
    method Finish() returns (hash: bv64)
      requires Valid()
      ensures hash == Streamed(input)
    {
      hide Converge, Stripes, Remaining, Avalanche, AddLength;
      hash := if totalLen >= 32 then Converge(lanes) else P5;
      hash := AddLength(hash, totalLen);
      hash := FinishTail(hash, buffered[..bufferedLen]);
      hash := Avalanche(hash);
    }
  }

  /** The loops over the buffered remainder. */
  method FinishTail(acc: bv64, tail: seq<bv8>) returns (hash: bv64)
    ensures hash == Remaining(acc, tail)
  {
    hide Mix8, Mix4, Mix1, Word;
    hash := acc;
    var cursor := 0;
    assert tail[0..] == tail;
    while cursor + 8 <= |tail|
      invariant cursor <= |tail| && Remaining(hash, tail[cursor..]) == Remaining(acc, tail)
    {
      assert tail[cursor..][8..] == tail[cursor + 8..];
      hash := Mix8(hash, Word(tail[cursor..], 8));
      cursor := cursor + 8;
    }
    if cursor + 4 <= |tail| {
      assert tail[cursor..][4..] == tail[cursor + 4..];
      hash := Mix4(hash, Word(tail[cursor..], 4));
      cursor := cursor + 4;
    }
    while cursor < |tail|
      invariant cursor <= |tail| && Bytes1(hash, tail[cursor..]) == Remaining(acc, tail)
    {
      assert tail[cursor..][1..] == tail[cursor + 1..];
      hash := Mix1(hash, tail[cursor] as bv64);
      cursor := cursor + 1;
    }
  }

  lemma ShortUpdate(s: seq<bv8>, t: seq<bv8>)
    requires |s| % 32 + |t| < 32
    ensures |s + t| / 32 == |s| / 32 && |s + t| % 32 == |s| % 32 + |t|
    ensures Stripes(s + t, |s + t| / 32) == Stripes(s, |s| / 32)
    ensures (s + t)[32 * (|s + t| / 32)..] == s[32 * (|s| / 32)..] + t
  {
    hide Stripes;
    StripesPrefix(s, t, |s| / 32);
  }

  lemma FillBlock(s: seq<bv8>, t: seq<bv8>)
    requires |t| == 32 - |s| % 32 && |s| % 32 != 0
    ensures var block, more := s[32 * (|s| / 32)..] + t, s + t;
            && |block| == 32 && |more| % 32 == 0 && |more| == 32 * (|s| / 32 + 1)
            && Stripes(more, |more| / 32) == Stripe(Stripes(s, |s| / 32), block)
  {
    hide Stripes, Stripe;
    var k := |s| / 32;
    var head := s[..32 * k];
    var block := s[32 * k..] + t;
    NextStripe(head, block, k);
    StripesPrefix(head, s[32 * k..], k);
    assert head + s[32 * k..] == s && head + block == s + t;
  }

  /** Hashing in any pieces depends only on their concatenation. */
  method HashPieces(pieces: seq<seq<bv8>>) returns (hash: bv64)
    ensures hash == Streamed(Concat(pieces))
  {
    hide Streamed, XxHash64.Holds;
    var h := new XxHash64();
    for i := 0 to |pieces|
      invariant h.Valid() && fresh(h) && fresh(h.buffered) && h.input == Concat(pieces[..i])
    {
      assert pieces[..i + 1][..i] == pieces[..i];
      h.Update(pieces[i]);
    }
    assert pieces[..|pieces|] == pieces;
    hash := h.Finish();
  }

  function Concat(pieces: seq<seq<bv8>>): seq<bv8> {
    if pieces == [] then [] else Concat(pieces[..|pieces| - 1]) + pieces[|pieces| - 1]
  }
}
