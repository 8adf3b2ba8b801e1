/** Where the streaming hash and the one-shot hash agree: exactly on which inputs, and
    exactly for which input lengths. */
module XxHashLength {
  import opened Common
  import opened XxHash

  // ------------------------------------------------------ mixing loses nothing

  function Undo1(x: bv64): bv64 { x * 614540362697595703 }
  function Undo2(x: bv64): bv64 { x * 839798700976720815 }
  function Undo3(x: bv64): bv64 { x * 16855272203555305545 }

  lemma Undone1(x: bv64)
    ensures TimesP1(x) == x * 11400714785074694791 && Undo1(x * 11400714785074694791) == x
  {
  }

  lemma Undone2(x: bv64)
    ensures TimesP2(x) == x * 14029467366897019727 && Undo2(x * 14029467366897019727) == x
  {
  }

  lemma Undone3(x: bv64)
    ensures TimesP3(x) == x * 1609587929392839161 && Undo3(x * 1609587929392839161) == x
  {
  }

  lemma Times1Injective(x: bv64, y: bv64)
    requires TimesP1(x) == TimesP1(y)
    ensures x == y
  {
    hide *;
    Undone1(x);
    Undone1(y);
  }

  lemma Times2Injective(x: bv64, y: bv64)
    requires TimesP2(x) == TimesP2(y)
    ensures x == y
  {
    hide *;
    Undone2(x);
    Undone2(y);
  }

  lemma Times3Injective(x: bv64, y: bv64)
    requires TimesP3(x) == TimesP3(y)
    ensures x == y
  {
    hide *;
    Undone3(x);
    Undone3(y);
  }

  lemma PlusUndone(x: bv64, k: bv64)
    ensures Plus(x, k) == x + k && Plus(x + k, 0 - k) == x
  {
  }

  lemma XorUndone(x: bv64, k: bv64)
    ensures Xor(x, k) == x ^ k && Xor(x ^ k, k) == x
  {
  }

  lemma PlusInjective(x: bv64, y: bv64, k: bv64)
    requires Plus(x, k) == Plus(y, k)
    ensures x == y
  {
    hide *;
    PlusUndone(x, k);
    PlusUndone(y, k);
  }

  lemma XorInjective(x: bv64, y: bv64, k: bv64)
    requires Xor(x, k) == Xor(y, k)
    ensures x == y
  {
    hide *;
    XorUndone(x, k);
    XorUndone(y, k);
  }

  function Back11(x: bv64): bv64 { x.RotateRight(11) }
  function Back23(x: bv64): bv64 { x.RotateRight(23) }
  function Back27(x: bv64): bv64 { x.RotateRight(27) }

  lemma TurnsUndone(x: bv64)
    ensures Turn11(x) == x.RotateLeft(11) && Back11(x.RotateLeft(11)) == x
    ensures Turn23(x) == x.RotateLeft(23) && Back23(x.RotateLeft(23)) == x
    ensures Turn27(x) == x.RotateLeft(27) && Back27(x.RotateLeft(27)) == x
  {
  }

  lemma TurnsInjective(x: bv64, y: bv64)
    ensures Turn11(x) == Turn11(y) ==> x == y
    ensures Turn23(x) == Turn23(y) ==> x == y
    ensures Turn27(x) == Turn27(y) ==> x == y
  {
    hide *;
    TurnsUndone(x);
    TurnsUndone(y);
  }

  lemma Mix8Injective(a: bv64, b: bv64, x: bv64)
    requires Mix8(a, x) == Mix8(b, x)
    ensures a == b
  {
    hide TimesP1, Round, Plus, Xor, Turn27;
    var p, q := Xor(a, Round(0, x)), Xor(b, Round(0, x));
    PlusInjective(TimesP1(Turn27(p)), TimesP1(Turn27(q)), P4);
    Times1Injective(Turn27(p), Turn27(q));
    TurnsInjective(p, q);
    XorInjective(a, b, Round(0, x));
  }

  lemma Mix4Injective(a: bv64, b: bv64, x: bv64)
    requires Mix4(a, x) == Mix4(b, x)
    ensures a == b
  {
    hide TimesP1, TimesP2, Plus, Xor, Turn23;
    var p, q := Xor(a, TimesP1(x)), Xor(b, TimesP1(x));
    PlusInjective(TimesP2(Turn23(p)), TimesP2(Turn23(q)), P3);
    Times2Injective(Turn23(p), Turn23(q));
    TurnsInjective(p, q);
    XorInjective(a, b, TimesP1(x));
  }

  lemma Mix1Injective(a: bv64, b: bv64, x: bv64)
    requires Mix1(a, x) == Mix1(b, x)
    ensures a == b
  {
    hide TimesP1, TimesP5, Xor, Turn11;
    var p, q := Xor(a, TimesP5(x)), Xor(b, TimesP5(x));
    Times1Injective(Turn11(p), Turn11(q));
    TurnsInjective(p, q);
    XorInjective(a, b, TimesP5(x));
  }

  lemma {:induction false} Bytes1Injective(a: bv64, b: bv64, s: seq<bv8>)
    requires Bytes1(a, s) == Bytes1(b, s)
    ensures a == b
    decreases |s|
  {
    hide Mix1;
    if s != [] {
      var x := s[0] as bv64;
      Bytes1Injective(Mix1(a, x), Mix1(b, x), s[1..]);
      Mix1Injective(a, b, x);
    }
  }

  lemma {:induction false} RemainingInjective(a: bv64, b: bv64, s: seq<bv8>)
    requires Remaining(a, s) == Remaining(b, s)
    ensures a == b
    decreases |s|
  {
    hide Mix4, Mix8, Bytes1, Word;
    if |s| >= 8 {
      var x := Word(s, 8);
      RemainingInjective(Mix8(a, x), Mix8(b, x), s[8..]);
      Mix8Injective(a, b, x);
    } else if |s| >= 4 {
      var x := Word(s, 4);
      Bytes1Injective(Mix4(a, x), Mix4(b, x), s[4..]);
      Mix4Injective(a, b, x);
    } else {
      Bytes1Injective(a, b, s);
    }
  }

  function Unfold29(x: bv64): bv64 { x ^ (x >> 29) ^ (x >> 58) }

  lemma FoldsUndone(x: bv64)
    ensures Fold33(x) == x ^ (x >> 33) && Fold33(x ^ (x >> 33)) == x
    ensures Fold29(x) == x ^ (x >> 29) && Unfold29(x ^ (x >> 29)) == x
    ensures Fold32(x) == x ^ (x >> 32) && Fold32(x ^ (x >> 32)) == x
  {
  }

  lemma FoldsInjective(x: bv64, y: bv64)
    ensures Fold33(x) == Fold33(y) ==> x == y
    ensures Fold29(x) == Fold29(y) ==> x == y
    ensures Fold32(x) == Fold32(y) ==> x == y
  {
    hide *;
    FoldsUndone(x);
    FoldsUndone(y);
  }

  lemma AvalancheInjective(x: bv64, y: bv64)
    requires Avalanche(x) == Avalanche(y)
    ensures x == y
  {
    hide TimesP2, TimesP3, Fold33, Fold29, Fold32;
    var a, b := TimesP2(Fold33(x)), TimesP2(Fold33(y));
    FoldsInjective(TimesP3(Fold29(a)), TimesP3(Fold29(b)));
    Times3Injective(Fold29(a), Fold29(b));
    FoldsInjective(a, b);
    Times2Injective(Fold33(x), Fold33(y));
    FoldsInjective(x, y);
  }

  lemma AddLengthInjective(a: bv64, b: bv64, n: nat)
    requires n < U64 && AddLength(a, n) == AddLength(b, n)
    ensures a == b
  {
    hide Plus;
    PlusInjective(a, b, n as bv64);
  }

  /** Exactly the inputs on which the two hashes agree. Where the reduced length hides the
      whole stripes, they agree only if the stripes happen to converge to the value that
      an input without stripes starts from. */
  lemma AgreeIff(s: seq<bv8>)
    ensures Streamed(s) == Xxh64(s) <==> |s| < 32 || Wrapped(|s|) >= 32 || Converge(Stripes(s, |s| / 32)) == P5
  {
    hide Avalanche, Remaining, Converge, Stripes, AddLength;
    var k, n := |s| / 32, Wrapped(|s|);
    if Streamed(s) == Xxh64(s) && n < 32 <= |s| {
      var acc := Converge(Stripes(s, k));
      AvalancheInjective(Remaining(AddLength(P5, n), s[32 * k..]), Remaining(AddLength(acc, n), s[32 * k..]));
      RemainingInjective(AddLength(P5, n), AddLength(acc, n), s[32 * k..]);
      AddLengthInjective(P5, acc, n);
    }
  }

  // ------------------------------------------------------------ failing inputs

  /** The word that takes a lane to zero. */
  function Cancel(lane: bv64): bv64 { Undo2(0 - lane) }

  lemma CancelTimes(x: bv64)
    ensures Undo2(0 - x) == (0 - x) * 839798700976720815 && TimesP2((0 - x) * 839798700976720815) == 0 - x
    ensures Plus(x, 0 - x) == 0 && Turn31(0) == 0 && TimesP1(0) == 0
  {
  }

  lemma Cancels(lane: bv64)
    ensures Round(lane, Cancel(lane)) == 0
  {
    hide TimesP1, TimesP2, Undo2, Plus, Turn31;
    CancelTimes(lane);
  }

  /** Lanes that are all zero do not converge to the value for short inputs. */
  lemma ZeroLanes()
    ensures Converge([0, 0, 0, 0]) != P5
  {
  }

  function Low(w: bv64): bv8 { (w & 0xFF) as bv8 }
  function Down(w: bv64): bv64 { w >> 8 }

  /** What is left of a word without its `n` low bytes. */
  function High(w: bv64, n: nat): bv64
    decreases n
  {
    if n == 0 then w else High(Down(w), n - 1)
  }

  /** The `n` low bytes of a word, least significant first. */
  function Spread(w: bv64, n: nat): (s: seq<bv8>)
    ensures |s| == n
    decreases n
  {
    if n == 0 then [] else [Low(w)] + Spread(Down(w), n - 1)
  }

  lemma Repack(w: bv64)
    ensures Pack(w >> 8, Low(w)) == w && Down(w) == w >> 8
  {
  }

  lemma {:induction false} SpreadRead(w: bv64, n: nat, t: seq<bv8>)
    requires High(w, n) == 0
    ensures Word(Spread(w, n) + t, n) == w
    decreases n
  {
    hide Low, Down, Pack;
    if n > 0 {
      var s := Spread(w, n) + t;
      assert s[1..] == Spread(Down(w), n - 1) + t;
      SpreadRead(Down(w), n - 1, t);
      Repack(w);
    }
  }

  lemma Downs(w: bv64)
    ensures Down(w) == w >> 8 && Down(w >> 8) == w >> 16 && Down(w >> 16) == w >> 24 && Down(w >> 24) == w >> 32
    ensures Down(w >> 32) == w >> 40 && Down(w >> 40) == w >> 48 && Down(w >> 48) == w >> 56 && Down(w >> 56) == 0
  {
  }

  lemma EightBytes(w: bv64)
    ensures High(w, 8) == 0
  {
    hide Down;
    Downs(w);
    assert High(0, 0) == 0;
    assert High(w >> 56, 1) == 0;
    assert High(w >> 48, 2) == 0;
    assert High(w >> 40, 3) == 0;
    assert High(w >> 32, 4) == 0;
    assert High(w >> 24, 5) == 0;
    assert High(w >> 16, 6) == 0;
    assert High(w >> 8, 7) == 0;
  }

  /** A block that takes four lanes to zero. */
  function Canceling(lanes: seq<bv64>): (block: seq<bv8>)
    requires |lanes| == 4
    ensures |block| == 32
  {
    Spread(Cancel(lanes[0]), 8) + Spread(Cancel(lanes[1]), 8) + Spread(Cancel(lanes[2]), 8) + Spread(Cancel(lanes[3]), 8)
  }

  lemma WordAt(before: seq<bv8>, w: bv64, after: seq<bv8>)
    ensures Word((before + Spread(w, 8) + after)[|before|..], 8) == w
  {
    hide Word, Spread, High;
    assert (before + Spread(w, 8) + after)[|before|..] == Spread(w, 8) + after;
    EightBytes(w);
    SpreadRead(w, 8, after);
  }

  lemma CancelingStripe(lanes: seq<bv64>)
    requires |lanes| == 4
    ensures Stripe(lanes, Canceling(lanes)) == [0, 0, 0, 0]
  {
    hide Word, Spread, Round, Cancel;
    var a, b := Spread(Cancel(lanes[0]), 8), Spread(Cancel(lanes[1]), 8);
    var c, d := Spread(Cancel(lanes[2]), 8), Spread(Cancel(lanes[3]), 8);
    var block := Canceling(lanes);
    WordAt([], Cancel(lanes[0]), b + c + d);
    WordAt(a, Cancel(lanes[1]), c + d);
    WordAt(a + b, Cancel(lanes[2]), d);
    WordAt(a + b + c, Cancel(lanes[3]), []);
    assert block == [] + a + (b + c + d) == a + b + (c + d) == a + b + c + d + [] && block[0..] == block;
    Cancels(lanes[0]);
    Cancels(lanes[1]);
    Cancels(lanes[2]);
    Cancels(lanes[3]);
  }

  function Zeros(n: nat): (s: seq<bv8>)
    ensures |s| == n
  {
    seq(n, _ => 0)
  }

  /** An input of the given length whose last whole stripe takes the lanes to zero. */
  function Zeroed(n: nat): (s: seq<bv8>)
    requires n >= 32
    ensures |s| == n
  {
    var head := Zeros(32 * (n / 32 - 1));
    head + Canceling(Stripes(head, n / 32 - 1)) + Zeros(n % 32)
  }

  lemma ZeroedLanes(n: nat)
    requires n >= 32
    ensures Stripes(Zeroed(n), n / 32) == [0, 0, 0, 0]
  {
    hide Stripes, Stripe, Canceling, Zeros;
    var k := n / 32 - 1;
    var head := Zeros(32 * k);
    var block := Canceling(Stripes(head, k));
    NextStripe(head, block, k);
    StripesPrefix(head + block, Zeros(n % 32), k + 1);
    CancelingStripe(Stripes(head, k));
  }

  /** The failing inputs: for every length that wraps below one stripe, one on which the
      streaming hash is wrong. */
  lemma WrongHash(n: nat)
    requires Wrapped(n) < 32 <= n
    ensures Streamed(Zeroed(n)) != Xxh64(Zeroed(n))
  {
    hide *;
    ZeroedLanes(n);
    ZeroLanes();
    AgreeIff(Zeroed(n));
  }

  /** Exactly the lengths for which the streaming hash is the one-shot hash. */
  lemma LengthIff(n: nat)
    ensures (forall s: seq<bv8> :: |s| == n ==> Streamed(s) == Xxh64(s)) <==> n < 32 || Wrapped(n) >= 32
  {
    hide *;
    forall s: seq<bv8> | |s| == n && (n < 32 || Wrapped(n) >= 32) ensures Streamed(s) == Xxh64(s) { AgreeIff(s); }
    if Wrapped(n) < 32 <= n {
      WrongHash(n);
      assert |Zeroed(n)| == n;
    }
  }
}
