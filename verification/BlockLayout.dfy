/** The bytes of a block: its timestamp stream and its value stream. */
module BlockLayout {
  import opened Common
  import opened Bytes
  import opened Block
  import Varint

  /** `len` bytes from `at` on hold `n` in base 128, lowest digit first; every byte but the
      last has its high bit set, and there is no byte too many. */
  predicate CodeAt(s: seq<byte>, at: nat, len: nat, n: nat) {
    && len >= 1 && at + len <= |s| && n < Varint.Pow128(len) && (len > 1 ==> n >= Varint.Pow128(len - 1))
    && forall i :: 0 <= i < len ==> s[at + i] == n / Varint.Pow128(i) % 128 + if i < len - 1 then 128 else 0
  }

  lemma {:induction false} CodeLaid(n: nat)
    ensures CodeAt(Varint.Encoded(n), 0, |Varint.Encoded(n)|, n)
  {
    var s := Varint.Encoded(n);
    if n >= 128 {
      CodeLaid(n / 128);
      var t := Varint.Encoded(n / 128);
      assert s == [n % 128 + 128] + t;
      forall i | 1 <= i < |s| ensures n / Varint.Pow128(i) == n / 128 / Varint.Pow128(i - 1) && s[i] == t[i - 1] {
        DivTwice(n, 128, Varint.Pow128(i - 1));
      }
      CodeBounds(n, |t|);
    }
  }

  lemma CodeBounds(n: nat, len: nat)
    requires len >= 1 && n >= 128 && n / 128 < Varint.Pow128(len) && (len > 1 ==> n / 128 >= Varint.Pow128(len - 1))
    ensures n < Varint.Pow128(len + 1) && n >= Varint.Pow128(len)
  {
    assert Varint.Pow128(1) == 128;
  }

  lemma CodeWithin(s: seq<byte>, a: seq<byte>, n: nat)
    requires a + Varint.Encoded(n) <= s
    ensures CodeAt(s, |a|, |Varint.Encoded(n)|, n)
  {
    hide Varint.Encoded, Varint.Pow128;
    var e := Varint.Encoded(n);
    CodeLaid(n);
    forall i | 0 <= i < |e| ensures s[|a| + i] == e[i] { assert s[|a| + i] == (a + e)[|a| + i]; }
  }

  /** Number `k` of a stream stands right behind those before it. */
  lemma StreamLaid(ns: seq<u64>, k: nat)
    requires k < |ns|
    ensures var at, len := |Encodings(ns[..k])|, |Varint.Encoded(ns[k])|;
            CodeAt(Encodings(ns), at, len, ns[k]) && |Encodings(ns[..k + 1])| == at + len
  {
    hide Varint.Encoded, CodeAt;
    EncodingsSplit(ns, k);
    CodeWithin(Encodings(ns), Encodings(ns[..k]), ns[k]);
    EncodingsAppend(ns[..k], ns[k]);
    assert ns[..k + 1] == ns[..k] + [ns[k]];
  }

  /** The timestamp stream: how far each timestamp lies behind the window's start. */
  lemma TimestampsLaid(base: u64, samples: seq<Sample>, k: nat)
    requires InWindow(base, samples) && k < |samples|
    ensures var ns := Offsets(base, samples);
            CodeAt(Encodings(ns), |Encodings(ns[..k])|, |Varint.Encoded(ns[k])|, samples[k].timestamp - base)
  {
    hide Encodings, CodeAt, Varint.Encoded;
    StreamLaid(Offsets(base, samples), k);
  }

  /** The signed number that an unsigned one stands for: 0, -1, 1, -2, 2 and so on. */
  function Meant(u: nat): int { if u % 2 == 0 then u / 2 else -1 - u / 2 }

  /** The value stream of the delta codec: by how much each value differs from the one before
      it, modulo 2^64, the first one from zero. */
  lemma {:induction false} DeltaIs(vs: seq<i64>, k: nat)
    requires k < |vs|
    ensures |Deltas(vs)| == |vs|
    ensures (Meant(Deltas(vs)[k]) - (vs[k] as int - if k == 0 then 0 else vs[k - 1] as int)) % U64 == 0
    decreases |vs|
  {
    hide Wrap, Varint.Zigzag, Meant;
    var n := |vs| - 1;
    DeltasCount(vs);
    DeltasCount(vs[..n]);
    if k < n {
      DeltaIs(vs[..n], k);
    } else {
      ZigzagMeans(Wrap(vs[n] as int - Last(vs[..n])));
    }
  }

  lemma ZigzagMeans(v: i64)
    ensures Meant(Varint.Zigzag(v)) == v
  {
  }

  lemma ValuesLaid(vs: seq<i64>, k: nat)
    requires k < |vs|
    ensures |Deltas(vs)| == |vs|
    ensures var ns := Deltas(vs); CodeAt(ValueBytes(false, vs), |Encodings(ns[..k])|, |Varint.Encoded(ns[k])|, ns[k])
    ensures NumberAt(ValueBytes(true, vs), 8 * k, 8, vs[k] % U64)
  {
    hide Encodings, CodeAt, Varint.Encoded, Deltas, RawBytes, NumberAt;
    DeltasCount(vs);
    StreamLaid(Deltas(vs), k);
    RawLength(vs);
    RawAt(vs, k);
    InTwosComplement(vs[k]);
    LaidOut(RawBytes(vs), 8 * k, vs[k] % U64, 8);
  }
}
