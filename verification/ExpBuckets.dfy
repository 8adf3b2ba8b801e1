/** Exponential histogram buckets: folding them to a coarser scale. */
module ExpBuckets {
  import opened Common
  import opened Bytes

  datatype Buckets = Buckets(offset: i32, counts: seq<u64>)

  datatype Error = TargetScaleHigher | ScaleDeltaTooLarge | BucketIndexOverflow | BucketCountOverflow

  lemma {:induction false} Pow2Add(a: nat, b: nat)
    ensures Pow2(a + b) == Pow2(a) * Pow2(b)
    decreases b
  {
    if b > 0 {
      Pow2Add(a, b - 1);
      assert Pow2(a) * (2 * Pow2(b - 1)) == 2 * (Pow2(a) * Pow2(b - 1));
    }
  }

  /** The number of observations that fall into coarse bucket `i`, when each coarse
      bucket spans `d` fine ones. */
  function Total(counts: seq<u64>, offset: int, d: nat, i: int): nat
    requires d > 0
  {
    if counts == [] then 0
    else
      var n := |counts| - 1;
      Total(counts[..n], offset, d, i) + if (offset + n) / d == i then counts[n] as nat else 0
  }

  /** Coarse buckets `lo` up to `hi` together. */
  function RangeTotal(counts: seq<u64>, offset: int, d: nat, lo: int, hi: int): nat
    requires d > 0
    decreases hi - lo
  {
    if lo >= hi then 0 else Total(counts, offset, d, lo) + RangeTotal(counts, offset, d, lo + 1, hi)
  }

  lemma {:induction false} RangeStep(counts: seq<u64>, offset: int, d: nat, lo: int, hi: int)
    requires d > 0 && counts != []
    ensures var n := |counts| - 1;
            RangeTotal(counts, offset, d, lo, hi) ==
            RangeTotal(counts[..n], offset, d, lo, hi) + if lo <= (offset + n) / d < hi then counts[n] as nat else 0
    decreases hi - lo
  {
    if lo < hi { RangeStep(counts, offset, d, lo + 1, hi); }
  }

  lemma {:induction false} RangeEmpty(offset: int, d: nat, lo: int, hi: int)
    requires d > 0
    ensures RangeTotal([], offset, d, lo, hi) == 0
    decreases hi - lo
  {
    if lo < hi { RangeEmpty(offset, d, lo + 1, hi); }
  }

  lemma QuotientBetween(q: int, e: nat, i: int)
    requires e > 0
    ensures q / e == i <==> i * e <= q < (i + 1) * e
  {
    assert q == e * (q / e) + q % e;
    assert (i + 1) * e == i * e + e;
    if i * e <= q < (i + 1) * e { QuotientIs(q, e, i, q - i * e); }
  }

  /** Floor division twice is floor division by the product. */
  lemma FloorTwice(x: int, d: nat, e: nat, i: int)
    requires d > 0 && e > 0 && d * e > 0
    ensures x / (d * e) == i <==> i * e <= x / d < (i + 1) * e
  {
    var q, r := x / d, x % d;
    var p, s := q / e, q % e;
    NestedDivision(d, e, p, s, r);
    assert x == d * q + r && q == e * p + s;
    QuotientIs(x, d * e, p, d * s + r);
    QuotientBetween(q, e, i);
  }

  /** A coarser bucket is the range of the buckets that it spans. */
  lemma {:induction false} TotalIsRange(counts: seq<u64>, offset: int, d: nat, e: nat, i: int)
    requires d > 0 && e > 0 && d * e > 0
    ensures Total(counts, offset, d * e, i) == RangeTotal(counts, offset, d, i * e, (i + 1) * e)
  {
    if counts == [] {
      RangeEmpty(offset, d, i * e, (i + 1) * e);
    } else {
      var n := |counts| - 1;
      TotalIsRange(counts[..n], offset, d, e, i);
      RangeStep(counts, offset, d, i * e, (i + 1) * e);
      FloorTwice(offset + n, d, e, i);
    }
  }

  /** Growth in every bucket is growth in every coarser bucket. */
  lemma CoarserGrows(a: Buckets, da: nat, b: Buckets, db: nat, e: nat, i: int)
    requires da > 0 && db > 0 && e > 0 && da * e > 0 && db * e > 0
    requires forall j :: Total(a.counts, a.offset, da, j) <= Total(b.counts, b.offset, db, j)
    ensures Total(a.counts, a.offset, da * e, i) <= Total(b.counts, b.offset, db * e, i)
  {
    TotalIsRange(a.counts, a.offset, da, e, i);
    TotalIsRange(b.counts, b.offset, db, e, i);
    RangeGrows(a, da, b, db, i * e, (i + 1) * e);
  }

  lemma {:induction false} RangeGrows(a: Buckets, da: nat, b: Buckets, db: nat, lo: int, hi: int)
    requires da > 0 && db > 0
    requires forall j :: Total(a.counts, a.offset, da, j) <= Total(b.counts, b.offset, db, j)
    ensures RangeTotal(a.counts, a.offset, da, lo, hi) <= RangeTotal(b.counts, b.offset, db, lo, hi)
    decreases hi - lo
  {
    if lo < hi {
      RangeGrows(a, da, b, db, lo + 1, hi);
      assert Total(a.counts, a.offset, da, lo) <= Total(b.counts, b.offset, db, lo);
    }
  }

  // ------------------------------------------------------------- downscaling

  /** Truncating division and remainder, as the machine has them. */
  function Quotient(x: int, d: int): int
    requires d != 0
  {
    var q := (if x < 0 then 0 - x else x) / (if d < 0 then 0 - d else d);
    if (x < 0) == (d < 0) then q else -q
  }

  /** `floor_div_i64`: correct also for the divisor -2^63 that the shift by 63 yields. */
  function FloorDiv(x: int, d: int): int
    requires d != 0
  {
    var q := Quotient(x, d);
    var rest := x - q * d;
    if rest != 0 && x < 0 then q - 1 else q
  }

  /** `1i64 << shift`. */
  function Divisor(shift: nat): int
    requires shift < 64
    ensures Divisor(shift) != 0
  {
    if shift < 63 then Pow2(shift) else 0 - Pow2(63) as int
  }

  lemma FloorDivIsFloor(x: int, shift: nat)
    requires shift < 64 && -0x8000_0000_0000_0000 < x < 0x8000_0000_0000_0000
    ensures FloorDiv(x, Divisor(shift)) == x / Pow2(shift)
  {
    if shift == 63 {
      Pow2At63();
      SmallOverLarge(x, Pow2(63));
    } else {
      TruncatedToFloor(x, Pow2(shift));
    }
  }

  lemma SmallOverLarge(x: int, m: int)
    requires 0 - m < x < m
    ensures FloorDiv(x, 0 - m) == x / m
  {
    var size := if x < 0 then 0 - x else x;
    QuotientIs(size, m, 0, size);
    if x < 0 { QuotientIs(x, m, -1, x + m); } else { QuotientIs(x, m, 0, x); }
  }

  lemma TruncatedToFloor(x: int, d: nat)
    requires d > 0
    ensures FloorDiv(x, d) == x / d
  {
    if x < 0 {
      var q := (-x) / d;
      var rest := (-x) % d;
      assert -x == d * q + rest;
      assert -q * d == -(d * q);
      if rest == 0 { QuotientIs(x, d, -q, 0); } else { QuotientIs(x, d, -q - 1, d - rest); }
    }
  }

  lemma Pow2At63()
    ensures Pow2(63) == 0x8000_0000_0000_0000
  {
    Pow2At16();
    Pow2Add(16, 16);
    Pow2Add(32, 31);
    assert Pow2(32) == 2 * Pow2(31);
  }

  lemma Pow2At16()
    ensures Pow2(16) == 65536
  {
    assert Pow2(4) == 16;
    Pow2Add(4, 4);
    Pow2Add(8, 8);
  }

  function Get(m: map<int, nat>, i: int): nat { if i in m then m[i] else 0 }

  predicate InI32(x: int) { -0x8000_0000 <= x < 0x8000_0000 }

  predicate IndexFits(offset: int, d: nat, n: nat)
    requires d > 0
  {
    offset + n < 0x8000_0000_0000_0000 && InI32((offset + n) / d)
  }

  /** Indexes and sums that the result can represent. */
  ghost predicate Folds(counts: seq<u64>, offset: int, d: nat)
    requires d > 0
  {
    && (forall n :: 0 <= n < |counts| ==> IndexFits(offset, d, n))
    && (forall i :: Total(counts, offset, d, i) < U64)
  }

  ghost predicate Representable(b: Buckets, source: int, target: int) {
    target <= source && source - target < 64 && Folds(b.counts, b.offset, Pow2(source - target))
  }

  /** The coarse bucket of fine bucket `n`. */
  function Index(offset: int, d: nat, n: int): int
    requires d > 0
  {
    (offset + n) / d
  }

  lemma FloorGrows(x: int, y: int, d: nat)
    requires d > 0 && x <= y
    ensures x / d <= y / d
  {
    assert x == d * (x / d) + x % d && y == d * (y / d) + y % d;
    assert d * (x / d - y / d) == d * (x / d) - d * (y / d);
    if x / d > y / d { AtLeastOnce(d, x / d - y / d); }
  }

  lemma {:induction false} TotalOutside(counts: seq<u64>, offset: int, d: nat, i: int)
    requires d > 0 && forall n :: 0 <= n < |counts| ==> Index(offset, d, n) != i
    ensures Total(counts, offset, d, i) == 0
  {
    if counts != [] {
      var n := |counts| - 1;
      assert Index(offset, d, n) != i;
      TotalOutside(counts[..n], offset, d, i);
    }
  }

  lemma {:induction false} TotalUnit(counts: seq<u64>, offset: int, i: int)
    ensures Total(counts, offset, 1, i) == if offset <= i < offset + |counts| then counts[i - offset] as nat else 0
  {
    if counts != [] { TotalUnit(counts[..|counts| - 1], offset, i); }
  }

  /** Buckets at the coarser scale that hold what these hold. */
  lemma Coarsened(b: Buckets, d: nat) returns (c: Buckets)
    requires d > 0 && Folds(b.counts, b.offset, d)
    ensures Folds(c.counts, c.offset, 1)
    ensures forall i :: Total(c.counts, c.offset, 1, i) == Total(b.counts, b.offset, d, i)
  {
    hide Total;
    var n := |b.counts|;
    if n == 0 {
      c := Buckets(0, []);
      forall i ensures Total([], 0, 1, i) == Total(b.counts, b.offset, d, i) {
        TotalUnit([], 0, i);
        TotalOutside(b.counts, b.offset, d, i);
      }
    } else {
      var lo, hi := Index(b.offset, d, 0), Index(b.offset, d, n - 1);
      assert IndexFits(b.offset, d, 0) && IndexFits(b.offset, d, n - 1);
      FloorGrows(b.offset, b.offset + n - 1, d);
      c := Buckets(lo, seq(hi - lo + 1, j requires 0 <= j => Total(b.counts, b.offset, d, lo + j) as u64));
      forall i ensures Total(c.counts, c.offset, 1, i) == Total(b.counts, b.offset, d, i) {
        TotalUnit(c.counts, c.offset, i);
        if !(lo <= i <= hi) { IndexBetween(b.offset, d, n, i); TotalOutside(b.counts, b.offset, d, i); }
      }
      forall j | 0 <= j < |c.counts| ensures IndexFits(c.offset, 1, j) { }
    }
  }

  lemma IndexBetween(offset: int, d: nat, n: nat, i: int)
    requires d > 0 && n > 0 && !(Index(offset, d, 0) <= i <= Index(offset, d, n - 1))
    ensures forall k :: 0 <= k < n ==> Index(offset, d, k) != i
  {
    forall k | 0 <= k < n ensures Index(offset, d, k) != i {
      FloorGrows(offset, offset + k, d);
      FloorGrows(offset + k, offset + n - 1, d);
    }
  }

  /** `downscale_exponential_histogram_buckets_to_map`. */
  method Downscale(b: Buckets, source: i32, target: i32) returns (r: Result<map<int, nat>, Error>)
    ensures r.Ok? <==> Representable(b, source, target)
    ensures target > source ==> r == Err(TargetScaleHigher)
    ensures source as int - target as int >= 64 ==> r == Err(ScaleDeltaTooLarge)
    ensures r.Ok? ==> forall i :: Get(r.value, i) == Total(b.counts, b.offset, Pow2(source - target), i)
  {
    if target > source { return Err(TargetScaleHigher); }
    var shift := source as int - target as int;
    if shift >= 64 { return Err(ScaleDeltaTooLarge); }
    r := Fold(b, shift);
  }

  method Fold(b: Buckets, shift: nat) returns (r: Result<map<int, nat>, Error>)
    requires shift < 64
    ensures r.Ok? <==> Folds(b.counts, b.offset, Pow2(shift))
    ensures r.Ok? ==> forall i :: Get(r.value, i) == Total(b.counts, b.offset, Pow2(shift), i)
  {
    hide Total, Pow2, FloorDiv, Divisor, InI32;
    var divisor := Divisor(shift);
    ghost var d := Pow2(shift);
    var m: map<int, nat> := map[];
    NothingTallied(b, d);
    for n := 0 to |b.counts|
      invariant Tallies(m, b.counts[..n], b.offset, d)
      invariant forall k :: 0 <= k < n ==> IndexFits(b.offset, d, k)
    {
      var at := b.offset as int + n;
      if at >= 0x8000_0000_0000_0000 {
        assert !IndexFits(b.offset, d, n);
        return Err(BucketIndexOverflow);
      }
      FloorDivIsFloor(at, shift);
      var index := FloorDiv(at, divisor);
      if !InI32(index) {
        assert !IndexFits(b.offset, d, n);
        return Err(BucketIndexOverflow);
      }
      var sum := (if index in m then m[index] else 0) + b.counts[n] as nat;
      TallyStep(m, b, d, n, index, sum);
      if sum >= U64 {
        PrefixTotal(b, d, n + 1, index);
        return Err(BucketCountOverflow);
      }
      assert IndexFits(b.offset, d, n);
      m := m[index := sum];
    }
    assert b.counts[..|b.counts|] == b.counts;
    r := Ok(m);
  }

  /** The map holds every total, and every total fits 64 bits. */
  ghost predicate Tallies(m: map<int, nat>, counts: seq<u64>, offset: int, d: nat)
    requires d > 0
  {
    forall i :: Get(m, i) == Total(counts, offset, d, i) < U64
  }

  lemma NothingTallied(b: Buckets, d: nat)
    requires d > 0
    ensures Tallies(map[], b.counts[..0], b.offset, d)
  {
  }

  lemma TallyStep(m: map<int, nat>, b: Buckets, d: nat, n: nat, index: int, sum: nat)
    requires d > 0 && n < |b.counts| && Tallies(m, b.counts[..n], b.offset, d)
    requires index == (b.offset + n) / d && sum == Get(m, index) + b.counts[n] as nat
    ensures Total(b.counts[..n + 1], b.offset, d, index) == sum
    ensures sum < U64 ==> Tallies(m[index := sum], b.counts[..n + 1], b.offset, d)
  {
    hide Total;
    TotalStep(b, d, n, index);
    var after, more := m[index := sum], b.counts[..n + 1];
    forall i ensures sum < U64 ==> Get(after, i) == Total(more, b.offset, d, i) < U64 {
      TotalStep(b, d, n, i);
      assert Get(m, i) == Total(b.counts[..n], b.offset, d, i) < U64;
    }
  }

  lemma TotalStep(b: Buckets, d: nat, n: nat, i: int)
    requires d > 0 && n < |b.counts|
    ensures Total(b.counts[..n + 1], b.offset, d, i) ==
            Total(b.counts[..n], b.offset, d, i) + if (b.offset + n) / d == i then b.counts[n] as nat else 0
  {
    assert b.counts[..n + 1][..n] == b.counts[..n];
  }

  lemma {:induction false} PrefixTotal(b: Buckets, d: nat, n: nat, i: int)
    requires d > 0 && n <= |b.counts|
    ensures Total(b.counts[..n], b.offset, d, i) <= Total(b.counts, b.offset, d, i)
    decreases |b.counts| - n
  {
    if n < |b.counts| {
      TotalStep(b, d, n, i);
      PrefixTotal(b, d, n + 1, i);
    } else {
      assert b.counts[..n] == b.counts;
    }
  }
}
