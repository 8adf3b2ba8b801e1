/** Head blocks: samples encoded into a timestamp stream and a value stream, held
    in a builder, sealed into an arena, and decoded from either. */
module Block {
  import opened Common
  import opened Bytes
  import Varint
  import A = Arena

  datatype Sample = Sample(timestamp: u64, value: i64)

  datatype Error = BeforeWindow | BadTimestamps | BadValues | BadSlice | NoSpace

  // ------------------------------------------------------------------ streams

  function Encodings(ns: seq<u64>): seq<byte> {
    if ns == [] then [] else Encodings(ns[..|ns| - 1]) + Varint.Encoded(ns[|ns| - 1])
  }

  lemma EncodingsAppend(ns: seq<u64>, n: u64)
    ensures Encodings(ns + [n]) == Encodings(ns) + Varint.Encoded(n)
  {
    assert (ns + [n])[..|ns|] == ns;
  }

  lemma EncodingsOne(n: u64)
    ensures Encodings([n]) == Varint.Encoded(n)
  {
    hide Varint.Encoded;
    EncodingsAppend([], n);
    assert [] + [n] == [n];
  }

  lemma {:induction false} EncodingsSplit(ns: seq<u64>, i: nat)
    requires i < |ns|
    ensures Encodings(ns[..i]) + Varint.Encoded(ns[i]) <= Encodings(ns)
    decreases |ns|
  {
    hide Varint.Encoded;
    if i == |ns| - 1 {
    } else {
      EncodingsSplit(ns[..|ns| - 1], i);
      assert ns[..|ns| - 1][..i] == ns[..i];
    }
  }

  /** Reads `count` varints that must fill the buffer: the inverse of `Encodings`. */
  method DecodeAll(buf: seq<byte>, count: nat) returns (r: Option<seq<u64>>)
    ensures r.Some? ==> |r.value| == count && Encodings(r.value) == buf
    ensures forall ns :: |ns| == count && Encodings(ns) == buf ==> r == Some(ns)
  {
    hide Varint.Encoded;
    var cursor := 0;
    var out: seq<u64> := [];
    for i := 0 to count
      invariant cursor <= |buf| && |out| == i && Encodings(out) == buf[..cursor]
      invariant forall ns :: |ns| == count && Encodings(ns) == buf ==> out == ns[..i]
    {
      var n, next := Varint.DecodeVarint(buf, cursor);
      forall ns | |ns| == count && Encodings(ns) == buf ensures n == Ok(ns[i]) && out + [ns[i]] == ns[..i + 1] {
        NextWord(buf, cursor, ns, i);
      }
      if n.Err? { return None; }
      EncodingsAppend(out, n.value);
      assert buf[..next] == buf[..cursor] + buf[cursor..next];
      out := out + [n.value];
      cursor := next;
    }
    forall ns | |ns| == count && Encodings(ns) == buf ensures out == ns { assert ns[..count] == ns; }
    if cursor != |buf| { return None; }
    assert buf[..cursor] == buf;
    r := Some(out);
  }

  /** No two streams are the same bytes, whatever their lengths. */
  lemma EncodingsInjective(a: seq<u64>, b: seq<u64>)
    requires Encodings(a) == Encodings(b)
    ensures a == b
  {
    hide Encodings;
    if |a| <= |b| { StreamPrefix(a, b, |a|); StreamEnds(a, b); } else { StreamPrefix(b, a, |b|); StreamEnds(b, a); }
  }

  lemma {:induction false} StreamPrefix(a: seq<u64>, b: seq<u64>, i: nat)
    requires Encodings(a) == Encodings(b) && i <= |a| <= |b|
    ensures a[..i] == b[..i]
  {
    hide Encodings, Varint.Encoded;
    if i > 0 {
      StreamPrefix(a, b, i - 1);
      EncodingsSplit(a, i - 1);
      EncodingsSplit(b, i - 1);
      var done, all := Encodings(a[..i - 1]), Encodings(a);
      RestOfPrefix(done, Varint.Encoded(a[i - 1]), all);
      RestOfPrefix(done, Varint.Encoded(b[i - 1]), all);
      Varint.PrefixUnique(all[|done|..], a[i - 1], b[i - 1]);
    }
  }

  lemma StreamEnds(a: seq<u64>, b: seq<u64>)
    requires Encodings(a) == Encodings(b) && |a| <= |b| && a[..|a|] == b[..|a|]
    ensures a == b
  {
    hide Encodings, Varint.Encoded;
    assert a[..|a|] == a;
    if |a| < |b| { EncodingsSplit(b, |a|); }
    assert |a| == |b|;
    assert b[..|b|] == b;
  }

  lemma NextWord(buf: seq<byte>, cursor: nat, ns: seq<u64>, i: nat)
    requires cursor <= |buf| && i < |ns| && Encodings(ns) == buf && Encodings(ns[..i]) == buf[..cursor]
    ensures Varint.Encoded(ns[i]) <= buf[cursor..]
  {
    hide Varint.Encoded, Encodings;
    EncodingsSplit(ns, i);
    RestOfPrefix(Encodings(ns[..i]), Varint.Encoded(ns[i]), buf);
  }

  lemma RestOfPrefix(a: seq<byte>, e: seq<byte>, s: seq<byte>)
    requires a + e <= s
    ensures e <= s[|a|..]
  {
    assert (a + e)[|a|..] == e;
  }

  // -------------------------------------------------------------- value codec

  /** The raw codec keeps the values; the delta codec keeps its bytes and the last
      value. */
  datatype Codec = Raw(values: seq<i64>) | Delta(bytes: seq<byte>, last: i64)

  /** Reduction to 64-bit two's complement. */
  function Wrap(x: int): (r: i64)
    ensures (r - x) % U64 == 0
  {
    var m := x % U64; if m < 0x8000_0000_0000_0000 then m else m - U64
  }

  /** Adding the wrapped difference back gives the value, over all of `i64`. */
  lemma WrapBack(a: i64, b: i64)
    ensures Wrap(a as int + Wrap(b as int - a as int) as int) == b
  {
  }

  /** The zigzag deltas, the first one from zero. */
  function Deltas(vs: seq<i64>): seq<u64> {
    if vs == [] then []
    else Deltas(vs[..|vs| - 1]) + [Varint.Zigzag(Wrap(vs[|vs| - 1] as int - Last(vs[..|vs| - 1])))]
  }

  function Last(vs: seq<i64>): int { if vs == [] then 0 else vs[|vs| - 1] }

  lemma DeltasAppend(vs: seq<i64>, v: i64)
    ensures Deltas(vs + [v]) == Deltas(vs) + [Varint.Zigzag(Wrap(v as int - Last(vs)))]
  {
    hide Wrap, Varint.Zigzag;
    assert (vs + [v])[..|vs|] == vs;
  }

  function RawBytes(vs: seq<i64>): seq<byte> {
    if vs == [] then [] else RawBytes(vs[..|vs| - 1]) + PutI64(vs[|vs| - 1])
  }

  /** The codec stands for the values `vs`. */
  ghost predicate Holds(c: Codec, vs: seq<i64>) {
    match c
    case Raw(values) => values == vs
    case Delta(bytes, last) => bytes == Encodings(Deltas(vs)) && vs != [] && last == vs[|vs| - 1]
  }

  /** The value buffer of `vs`. */
  ghost function ValueBytes(raw: bool, vs: seq<i64>): seq<byte> {
    if raw then RawBytes(vs) else Encodings(Deltas(vs))
  }

  method PushValue(c: Codec, v: i64, ghost vs: seq<i64>) returns (c': Codec)
    requires Holds(c, vs)
    ensures Holds(c', vs + [v]) && (c'.Raw? <==> c.Raw?)
  {
    match c {
    case Raw(values) =>
      c' := Raw(values + [v]);
    case Delta(bytes, last) =>
      var delta := Wrap(v as int - last as int);
      var more := Varint.EncodeVarint(Varint.Zigzag(delta), bytes);
      DeltasAppend(vs, v);
      EncodingsAppend(Deltas(vs), Varint.Zigzag(delta));
      c' := Delta(more, v);
    }
  }

  method NewCodec(raw: bool, first: i64) returns (c: Codec)
    ensures Holds(c, [first]) && (c.Raw? <==> raw)
  {
    if raw { return Raw([first]); }
    var bytes := Varint.EncodeVarint(Varint.Zigzag(first), []);
    assert Wrap(first as int - Last([])) == first;
    DeltasAppend([], first);
    EncodingsAppend([], Varint.Zigzag(first));
    assert [] + [first] == [first] && [] + [Varint.Zigzag(first)] == [Varint.Zigzag(first)];
    c := Delta(bytes, first);
  }

  method SnapshotBytes(c: Codec, ghost vs: seq<i64>) returns (s: seq<byte>)
    requires Holds(c, vs)
    ensures s == ValueBytes(c.Raw?, vs)
  {
    match c {
    case Delta(bytes, _) => s := bytes;
    case Raw(values) =>
      s := [];
      for i := 0 to |values|
        invariant s == RawBytes(values[..i])
      {
        assert values[..i + 1][..i] == values[..i];
        s := s + PutI64(values[i]);
      }
      assert values[..|values|] == values;
    }
  }

  /** `decode_int_values` accumulates the wrapped deltas. */
  method DecodeDeltas(buf: seq<byte>, count: nat) returns (r: Option<seq<i64>>)
    ensures r.Some? ==> |r.value| == count && Encodings(Deltas(r.value)) == buf
    ensures forall vs :: |vs| == count && Encodings(Deltas(vs)) == buf ==> r == Some(vs)
  {
    hide Encodings, Wrap;
    var ds := DecodeAll(buf, count);
    forall vs | |vs| == count && Encodings(Deltas(vs)) == buf ensures ds == Some(Deltas(vs)) { DeltasCount(vs); }
    if ds.None? { return None; }
    var vs: seq<i64> := [];
    var prev: i64 := 0;
    for i := 0 to count
      invariant |vs| == i && prev == Last(vs)
      invariant Deltas(vs) == ds.value[..i]
    {
      var value := Wrap(prev as int + Varint.Unzigzag(ds.value[i]) as int);
      NextDelta(prev, value, ds.value[i]);
      DeltasAppend(vs, value);
      assert ds.value[..i + 1] == ds.value[..i] + [ds.value[i]];
      vs := vs + [value];
      prev := value;
    }
    assert ds.value[..count] == ds.value;
    forall ws | |ws| == count && Encodings(Deltas(ws)) == buf ensures ws == vs { DeltasInjective(ws, vs); }
    r := Some(vs);
  }

  lemma {:induction false} DeltasCount(vs: seq<i64>)
    ensures |Deltas(vs)| == |vs|
  {
    if vs != [] { DeltasCount(vs[..|vs| - 1]); }
  }

  lemma NextDelta(prev: i64, value: i64, d: u64)
    requires value == Wrap(prev as int + Varint.Unzigzag(d) as int)
    ensures Varint.Zigzag(Wrap(value as int - prev as int)) == d
  {
    hide Wrap, Varint.Zigzag, Varint.Unzigzag;
    Varint.ZigzagRoundTrip(0, d);
    WrapUndo(prev, Varint.Unzigzag(d));
  }

  lemma WrapUndo(prev: i64, delta: i64)
    ensures Wrap(Wrap(prev as int + delta as int) as int - prev as int) == delta
  {
  }

  lemma {:induction false} DeltasInjective(a: seq<i64>, b: seq<i64>)
    requires |a| == |b| && Deltas(a) == Deltas(b)
    ensures a == b
  {
    hide Wrap, Varint.Zigzag, Deltas;
    if a != [] {
      var n := |a| - 1;
      var a', b' := a[..n], b[..n];
      assert a == a' + [a[n]] && b == b' + [b[n]];
      DeltasAppend(a', a[n]);
      DeltasAppend(b', b[n]);
      DeltasCount(a');
      DeltasCount(b');
      SameEnds(Deltas(a'), Varint.Zigzag(Wrap(a[n] as int - Last(a'))), Deltas(b'), Varint.Zigzag(Wrap(b[n] as int - Last(b'))));
      DeltasInjective(a', b');
      SameDelta(Last(a'), a[n], b[n]);
    }
  }

  lemma SameEnds(s: seq<u64>, x: u64, t: seq<u64>, y: u64)
    requires s + [x] == t + [y]
    ensures s == t && x == y
  {
    assert |s| == |t|;
    assert (s + [x])[..|s|] == s && (t + [y])[..|t|] == t;
    assert (s + [x])[|s|] == x && (t + [y])[|t|] == y;
  }

  lemma SameDelta(prev: i64, x: i64, y: i64)
    requires Varint.Zigzag(Wrap(x as int - prev as int)) == Varint.Zigzag(Wrap(y as int - prev as int))
    ensures x == y
  {
    Varint.ZigzagRoundTrip(Wrap(x as int - prev as int), 0);
    Varint.ZigzagRoundTrip(Wrap(y as int - prev as int), 0);
    WrapBack(prev, x);
    WrapBack(prev, y);
  }

  method DecodeRaw(buf: seq<byte>, count: nat) returns (r: Option<seq<i64>>)
    ensures (r.Some? <==> |buf| == 8 * count) && (r.Some? ==> |r.value| == count)
    ensures forall vs :: |vs| == count && RawBytes(vs) == buf ==> r == Some(vs)
  {
    hide PutI64, GetI64;
    forall vs | |vs| == count && RawBytes(vs) == buf ensures |buf| == 8 * count { RawLength(vs); }
    if |buf| != 8 * count { return None; }
    var out: seq<i64> := [];
    for i := 0 to count
      invariant |out| == i
      invariant forall vs :: |vs| == count && RawBytes(vs) == buf ==> out == vs[..i]
    {
      var value := GetI64(buf[8 * i..8 * i + 8]);
      forall vs | |vs| == count && RawBytes(vs) == buf ensures out + [value] == vs[..i + 1] {
        RawAt(vs, i);
        I64RoundTrip(vs[i]);
      }
      out := out + [value];
    }
    forall vs | |vs| == count && RawBytes(vs) == buf ensures out == vs { assert vs[..count] == vs; }
    r := Some(out);
  }

  lemma {:induction false} RawLength(vs: seq<i64>)
    ensures |RawBytes(vs)| == 8 * |vs|
  {
    hide PutI64;
    if vs != [] { RawLength(vs[..|vs| - 1]); }
  }

  lemma {:induction false} RawAt(vs: seq<i64>, i: nat)
    requires i < |vs|
    ensures |RawBytes(vs)| == 8 * |vs| && RawBytes(vs)[8 * i..8 * i + 8] == PutI64(vs[i])
    decreases |vs|
  {
    hide PutI64;
    RawLength(vs);
    var n := |vs| - 1;
    RawLength(vs[..n]);
    if i < n {
      RawAt(vs[..n], i);
      assert RawBytes(vs)[..8 * n] == RawBytes(vs[..n]);
      assert RawBytes(vs)[8 * i..8 * i + 8] == RawBytes(vs[..n])[8 * i..8 * i + 8];
    } else {
      LastPart(RawBytes(vs[..n]), PutI64(vs[n]));
    }
  }

  lemma LastPart(a: seq<byte>, b: seq<byte>)
    ensures (a + b)[|a|..|a| + |b|] == b
  {
  }

  method DecodeValues(raw: bool, buf: seq<byte>, count: nat) returns (r: Option<seq<i64>>)
    ensures r.Some? ==> |r.value| == count
    ensures forall vs :: |vs| == count && ValueBytes(raw, vs) == buf ==> r == Some(vs)
  {
    hide RawBytes, Encodings, Deltas;
    if raw { r := DecodeRaw(buf, count); } else { r := DecodeDeltas(buf, count); }
  }

  // ------------------------------------------------------------------ builder

  function Offsets(base: u64, samples: seq<Sample>): (ns: seq<u64>)
    requires InWindow(base, samples)
    ensures |ns| == |samples| && forall i :: 0 <= i < |ns| ==> ns[i] == samples[i].timestamp - base
  {
    seq(|samples|, i requires 0 <= i < |samples| => samples[i].timestamp - base)
  }

  function Values(samples: seq<Sample>): (vs: seq<i64>)
    ensures |vs| == |samples| && forall i :: 0 <= i < |vs| ==> vs[i] == samples[i].value
  {
    seq(|samples|, i requires 0 <= i < |samples| => samples[i].value)
  }

  predicate InWindow(base: u64, samples: seq<Sample>) {
    forall i :: 0 <= i < |samples| ==> samples[i].timestamp >= base
  }

  /** `min` and `max` are the least and greatest timestamps. */
  predicate Bounds(samples: seq<Sample>, min: u64, max: u64) {
    && (forall i :: 0 <= i < |samples| ==> min <= samples[i].timestamp <= max)
    && (exists i :: 0 <= i < |samples| && samples[i].timestamp == min)
    && (exists i :: 0 <= i < |samples| && samples[i].timestamp == max)
  }

  lemma BoundsAppend(samples: seq<Sample>, min: u64, max: u64, s: Sample)
    requires Bounds(samples, min, max)
    ensures Bounds(samples + [s], if s.timestamp < min then s.timestamp else min, if s.timestamp > max then s.timestamp else max)
  {
    var more := samples + [s];
    var i :| 0 <= i < |samples| && samples[i].timestamp == min;
    var j :| 0 <= j < |samples| && samples[j].timestamp == max;
    assert more[i].timestamp == min && more[j].timestamp == max && more[|samples|] == s;
  }

  predicate Overlaps(min: u64, max: u64, from: u64, to: u64) { max >= from && min < to }

  /** A moment of a block from `min` to `max` and of a half-open range. */
  predicate InBoth(t: int, min: u64, max: u64, from: u64, to: u64) { min <= t <= max && from <= t < to }

  /** A block overlaps a range that is not empty if and only if they share a moment. */
  lemma OverlapsIff(min: u64, max: u64, from: u64, to: u64)
    requires min <= max
    ensures Overlaps(min, max, from, to) && from < to <==> exists t: u64 :: InBoth(t, min, max, from, to)
  {
    var t: u64 := if min < from then from else min;
    assert Overlaps(min, max, from, to) && from < to ==> InBoth(t, min, max, from, to);
  }

  /** The overlap test misses no sample in the half-open range. */
  lemma OverlapsMissesNothing(samples: seq<Sample>, min: u64, max: u64, from: u64, to: u64, s: Sample)
    requires Bounds(samples, min, max) && s in samples && from <= s.timestamp < to
    ensures Overlaps(min, max, from, to)
  {
    var i :| 0 <= i < |samples| && samples[i] == s;
    assert min <= samples[i].timestamp <= max;
  }

  /** The sample count of a block saturates at the largest 32-bit value. */
  function Counted(n: nat): nat { if n < U32 then n else U32 - 1 }

  /** Both buffers of a run of samples. */
  ghost predicate Buffers(base: u64, raw: bool, samples: seq<Sample>, ts: seq<byte>, vs: seq<byte>) {
    InWindow(base, samples) && ts == Encodings(Offsets(base, samples)) && vs == ValueBytes(raw, Values(samples))
  }

  /** Decoding a pair of buffers returns exactly the samples they were made of, and fails
      under any other count. */
  method DecodeBuffers(base: u64, raw: bool, count: nat, ts: seq<byte>, vs: seq<byte>, ghost samples: seq<Sample>)
      returns (r: Result<seq<Sample>, Error>)
    ensures |samples| == count && Buffers(base, raw, samples, ts, vs) ==> r == Ok(samples)
    ensures |samples| != count && InWindow(base, samples) && ts == Encodings(Offsets(base, samples)) ==> r == Err(BadTimestamps)
  {
    hide Encodings, ValueBytes;
    var offsets := DecodeAll(ts, count);
    if offsets.Some? && InWindow(base, samples) && ts == Encodings(Offsets(base, samples)) {
      EncodingsInjective(offsets.value, Offsets(base, samples));
    }
    if offsets.None? { return Err(BadTimestamps); }
    var values := DecodeValues(raw, vs, count);
    if values.None? || |values.value| != count { return Err(BadValues); }
    var out: seq<Sample> := [];
    for i := 0 to count
      invariant |out| == i
      invariant |samples| == count && Buffers(base, raw, samples, ts, vs) ==> out == samples[..i]
    {
      var t := base + offsets.value[i];
      out := out + [Sample(if t < U64 then t else U64 - 1, values.value[i])];
    }
    assert |samples| == count ==> samples[..count] == samples;
    r := Ok(out);
  }

  class BlockBuilder {
    const base: u64
    const raw: bool
    var minTs: u64
    var maxTs: u64
    var timestamps: seq<byte>
    var codec: Codec
    var samples: nat
    ghost var log: seq<Sample>

    ghost predicate Valid()
      reads this
    {
      && |log| >= 1 && samples == Counted(|log|) && InWindow(base, log) && Bounds(log, minTs, maxTs)
      && timestamps == Encodings(Offsets(base, log)) && Holds(codec, Values(log)) && (codec.Raw? <==> raw)
    }

    constructor (base: u64, raw: bool, timestamp: u64, value: i64, timestamps: seq<byte>, codec: Codec)
      requires timestamp >= base && timestamps == Varint.Encoded(timestamp - base) && Holds(codec, [value]) && (codec.Raw? <==> raw)
      ensures Valid() && log == [Sample(timestamp, value)] && this.base == base && this.raw == raw
    {
      hide Encodings, Holds, Varint.Encoded;
      this.base, this.raw, this.minTs, this.maxTs := base, raw, timestamp, timestamp;
      this.timestamps, this.codec, this.samples := timestamps, codec, 1;
      log := [Sample(timestamp, value)];
      new;
      assert Offsets(base, log) == [timestamp - base] && Values(log) == [value];
      EncodingsOne(timestamp - base);
      assert log[0].timestamp == timestamp;
    }

    /** A sample before the window is refused and nothing changes. */
    method PushSample(timestamp: u64, value: i64) returns (r: Result<(), Error>)
      requires Valid()
      modifies this
      ensures Valid()
      ensures r.Ok? <==> timestamp >= base
      ensures r.Ok? ==> log == old(log) + [Sample(timestamp, value)]
      ensures r.Err? ==> unchanged(this)
    {
      hide Encodings, Holds, Bounds, Offsets, Values, Varint.Encoded;
      if timestamp < base { return Err(BeforeWindow); }
      ghost var s := Sample(timestamp, value);
      codec := PushValue(codec, value, Values(log));
      timestamps := Varint.EncodeVarint(timestamp - base, timestamps);
      EncodingsAppend(Offsets(base, log), timestamp - base);
      BoundsAppend(log, minTs, maxTs, s);
      assert Offsets(base, log + [s]) == Offsets(base, log) + [timestamp - base];
      assert Values(log + [s]) == Values(log) + [value];
      samples := if samples < U32 - 1 then samples + 1 else samples;
      if timestamp < minTs { minTs := timestamp; }
      if timestamp > maxTs { maxTs := timestamp; }
      log := log + [s];
      r := Ok(());
    }

    /** Every accepted sample in order, exactly while the count has not saturated. */
    method DecodeSamples() returns (r: Result<seq<Sample>, Error>)
      requires Valid()
      ensures r == if |log| < U32 then Ok(log) else Err(BadTimestamps)
    {
      hide Encodings, Holds, Bounds;
      var bytes := SnapshotBytes(codec, Values(log));
      r := DecodeBuffers(base, raw, samples, timestamps, bytes, log);
    }

    /** The arena has room, and memory, for one buffer after the other. */
    ghost predicate SealFits(arena: A.BlockArena, memory1: bool, memory2: bool)
      requires Valid()
      reads this, arena
    {
      var ts, vs := Encodings(Offsets(base, log)), ValueBytes(raw, Values(log));
      && A.Grants(arena.pages, A.Max(|ts|, 1), memory1)
      && A.TipGrants(A.TipAfter(arena.pages, arena.pageSize, A.Max(|ts|, 1)), A.Max(|vs|, 1), memory2)
    }

    /** `try_seal`: both buffers go to the arena as one transaction; on failure the
        builder is complete and the arena restored. */
    method TrySeal(arena: A.BlockArena, memory1: bool, memory2: bool) returns (r: Result<SealedBlock, Error>)
      requires Valid() && arena.Valid()
      modifies arena
      ensures Valid() && arena.Valid()
      ensures r.Ok? <==> old(SealFits(arena, memory1, memory2))
      ensures r.Ok? ==> Seals(r.value, raw, log, arena.live) && old(arena.live) <= arena.live
      ensures r.Err? ==> A.Restored(old(arena.pages), arena.pages) && arena.pageSize == old(arena.pageSize) && arena.live == old(arena.live)
    {
      hide Encodings, Holds, Bounds;
      var bytes := SnapshotBytes(codec, Values(log));
      var refs := arena.TryWritePair(timestamps, bytes, memory1, memory2);
      if refs.Err? { return Err(NoSpace); }
      r := Ok(SealedBlock(base, minTs, maxTs, refs.value.0, refs.value.1, samples));
      NonEmpty(base, raw, log, timestamps, bytes);
      InLive(old(arena.live), arena.live, refs.value.0, timestamps, refs.value.1, bytes);
    }

    /** `seal`: two separate writes; `None` stands for the panic on a write that
        fails. */
    method Seal(arena: A.BlockArena, memory1: bool, memory2: bool) returns (r: Option<SealedBlock>)
      requires Valid() && arena.Valid()
      modifies arena
      ensures arena.Valid()
      ensures r.Some? <==> old(SealFits(arena, memory1, memory2))
      ensures r.Some? ==> Seals(r.value, raw, log, arena.live) && old(arena.live) <= arena.live
    {
      hide Encodings, Holds, Bounds, Offsets, Values, ValueBytes, A.Extends, A.Slice;
      var bytes := SnapshotBytes(codec, Values(log));
      var ts := arena.TryWrite(timestamps, memory1);
      if ts.Err? { return None; }
      var vs := arena.TryWrite(bytes, memory2);
      if vs.Err? { return None; }
      r := Some(SealedBlock(base, minTs, maxTs, ts.value, vs.value, samples));
      NonEmpty(base, raw, log, timestamps, bytes);
      assert arena.live == old(arena.live) + [A.Live(ts.value, Some(timestamps)), A.Live(vs.value, Some(bytes))];
      InLive(old(arena.live), arena.live, ts.value, timestamps, vs.value, bytes);
    }
  }

  // ------------------------------------------------------------- sealed block

  datatype SealedBlock = SealedBlock(base: u64, minTs: u64, maxTs: u64, timestamps: A.BufferRef, values: A.BufferRef, samples: nat)

  ghost predicate InArena(live: seq<A.Live>, r: A.BufferRef, data: seq<byte>) {
    A.Live(r, Some(data)) in live
  }

  /** The block's two references are live, with the buffers of the samples. */
  ghost predicate Seals(b: SealedBlock, raw: bool, log: seq<Sample>, live: seq<A.Live>) {
    && b.samples == Counted(|log|) && InWindow(b.base, log) && Bounds(log, b.minTs, b.maxTs)
    && InArena(live, b.timestamps, Encodings(Offsets(b.base, log))) && InArena(live, b.values, ValueBytes(raw, Values(log)))
  }

  lemma NonEmpty(base: u64, raw: bool, log: seq<Sample>, ts: seq<byte>, vs: seq<byte>)
    requires log != [] && Buffers(base, raw, log, ts, vs)
    ensures ts != [] && vs != []
  {
    hide Varint.Encoded, PutI64;
    var n := |log| - 1;
    assert Values(log) != [] && Offsets(base, log) != [];
    if !raw { DeltasCount(Values(log)); } else { RawLength(Values(log)); }
  }

  lemma InLive(before: seq<A.Live>, after: seq<A.Live>, r: A.BufferRef, ts: seq<byte>, q: A.BufferRef, vs: seq<byte>)
    requires after == before + [A.Live(r, Some(ts)), A.Live(q, Some(vs))]
    ensures before <= after && InArena(after, r, ts) && InArena(after, q, vs)
  {
    assert after[|before|] == A.Live(r, Some(ts)) && after[|before| + 1] == A.Live(q, Some(vs));
  }

  /** Later writes keep a sealed block: references stay live. */
  lemma SealsKept(b: SealedBlock, raw: bool, log: seq<Sample>, live: seq<A.Live>, later: seq<A.Live>)
    requires Seals(b, raw, log, live) && live <= later
    ensures Seals(b, raw, log, later)
  {
    hide Encodings, ValueBytes, Bounds;
    forall x | x in live ensures x in later { var i :| 0 <= i < |live| && live[i] == x; assert later[i] == x; }
  }

  /** What a sealed block reads, in the arena and after freezing it. */
  lemma SealedReads(b: SealedBlock, raw: bool, log: seq<Sample>, pages: seq<A.Page>, live: seq<A.Live>)
    requires A.Sound(pages) && A.AllLive(pages, live) && Seals(b, raw, log, live)
    ensures A.Slice(pages, b.timestamps) == Ok(Encodings(Offsets(b.base, log)))
    ensures A.Slice(pages, b.values) == Ok(ValueBytes(raw, Values(log)))
    ensures A.FrozenSlice(A.Seen(pages), b.timestamps) == A.Slice(pages, b.timestamps)
    ensures A.FrozenSlice(A.Seen(pages), b.values) == A.Slice(pages, b.values)
  {
    hide Encodings, ValueBytes, Bounds, A.Slice, A.FrozenSlice;
    A.FreezeKeepsReads(pages, b.timestamps);
    A.FreezeKeepsReads(pages, b.values);
  }

  /** Decodes a block from what the arena, mutable or frozen, returns for its two
      references. */
  method DecodeBlock(b: SealedBlock, raw: bool, ts: Result<seq<byte>, A.Error>, vs: Result<seq<byte>, A.Error>, ghost log: seq<Sample>)
      returns (r: Result<seq<Sample>, Error>)
    ensures b.samples == |log| && Buffers(b.base, raw, log, OrEmpty(ts), OrEmpty(vs)) && ts.Ok? && vs.Ok? ==> r == Ok(log)
    ensures b.samples != |log| && InWindow(b.base, log) && ts == Ok(Encodings(Offsets(b.base, log))) ==> r == Err(BadTimestamps)
    ensures ts.Err? ==> r == Err(BadSlice)
    ensures vs.Err? ==> r.Err?
    ensures vs.Err? && b.samples == |log| && InWindow(b.base, log) && ts == Ok(Encodings(Offsets(b.base, log))) ==> r == Err(BadSlice)
  {
    hide Encodings, ValueBytes;
    if ts.Err? { return Err(BadSlice); }
    if vs.Err? {
      var offsets := DecodeAll(ts.value, b.samples);
      if offsets.Some? && InWindow(b.base, log) && ts == Ok(Encodings(Offsets(b.base, log))) {
        EncodingsInjective(offsets.value, Offsets(b.base, log));
      }
      return Err(if offsets.None? then BadTimestamps else BadSlice);
    }
    r := DecodeBuffers(b.base, raw, b.samples, ts.value, vs.value, log);
  }

  function OrEmpty(r: Result<seq<byte>, A.Error>): seq<byte> { if r.Ok? then r.value else [] }

  /** A block sealed from a builder decodes to the builder's samples from any later
      state of its arena and from the frozen arena, exactly while their count fits. */
  method ReadBack(b: SealedBlock, raw: bool, arena: A.BlockArena, ghost log: seq<Sample>)
      returns (now: Result<seq<Sample>, Error>, frozen: Result<seq<Sample>, Error>)
    requires arena.Valid() && Seals(b, raw, log, arena.live)
    ensures now == frozen == if |log| < U32 then Ok(log) else Err(BadTimestamps)
  {
    hide Encodings, ValueBytes, Bounds, A.Slice, A.FrozenSlice, A.AllLive, A.WellPaged;
    A.SoundOf(arena.pages, arena.initial, arena.maxPageSize, arena.adaptive);
    SealedReads(b, raw, log, arena.pages, arena.live);
    now := DecodeBlock(b, raw, A.Slice(arena.pages, b.timestamps), A.Slice(arena.pages, b.values), log);
    var pages := A.Seen(arena.pages);
    frozen := DecodeBlock(b, raw, A.FrozenSlice(pages, b.timestamps), A.FrozenSlice(pages, b.values), log);
  }

  /** `BlockBuilder::new`. */
  method NewBuilder(base: u64, raw: bool, timestamp: u64, value: i64) returns (r: Result<BlockBuilder, Error>)
    ensures r.Ok? <==> timestamp >= base
    ensures r.Ok? ==> fresh(r.value) && r.value.Valid() && r.value.log == [Sample(timestamp, value)] && r.value.base == base && r.value.raw == raw
  {
    if timestamp < base { return Err(BeforeWindow); }
    var ts := Varint.EncodeVarint(timestamp - base, []);
    var codec := NewCodec(raw, value);
    var b := new BlockBuilder(base, raw, timestamp, value, ts, codec);
    r := Ok(b);
  }
}
