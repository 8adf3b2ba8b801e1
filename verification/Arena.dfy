/** The paged arena of encoded head blocks: references stay readable and never
    overlap, a failed pair write is undone, space stays bounded, and freezing
    changes no read. */
module Arena {
  import opened Common
  import opened Bytes

  datatype BufferRef = BufferRef(page: u32, offset: u32, len: u32)

  datatype Error = InvalidInput | InvalidData | OutOfMemory

  /** `first` is auxiliary: the length of the allocation that opened the page. */
  datatype Page = Page(buf: seq<byte>, used: nat, first: nat)

  // ------------------------------------------------------------------ reading

  /** `checked_slice`. */
  function CheckedSlice(buf: seq<byte>, used: nat, r: BufferRef): Result<seq<byte>, Error> {
    var end := r.offset + r.len;
    if used > |buf| || end > used then Err(InvalidData) else Ok(buf[r.offset..end])
  }

  function Slice(pages: seq<Page>, r: BufferRef): Result<seq<byte>, Error> {
    if r.page >= |pages| then Err(InvalidData) else CheckedSlice(pages[r.page].buf, pages[r.page].used, r)
  }

  predicate Sound(pages: seq<Page>) {
    forall k :: 0 <= k < |pages| ==> 1 <= pages[k].first <= pages[k].used <= |pages[k].buf|
  }

  /** What readers can see: the used prefix of every page. */
  function Seen(pages: seq<Page>): (s: seq<seq<byte>>)
    requires Sound(pages)
    ensures |s| == |pages| && forall k :: 0 <= k < |s| ==> s[k] == pages[k].buf[..pages[k].used]
  {
    seq(|pages|, k requires 0 <= k < |pages| => pages[k].buf[..pages[k].used])
  }

  function FrozenSlice(pages: seq<seq<byte>>, r: BufferRef): Result<seq<byte>, Error> {
    if r.page >= |pages| then Err(InvalidData) else CheckedSlice(pages[r.page], |pages[r.page]|, r)
  }

  /** Freezing to exact pages changes the outcome of no read, valid or malformed. */
  lemma FreezeKeepsReads(pages: seq<Page>, r: BufferRef)
    requires Sound(pages)
    ensures FrozenSlice(Seen(pages), r) == Slice(pages, r)
  {
    if r.page < |pages| {
      var p := pages[r.page];
      if r.offset + r.len <= p.used { assert p.buf[..p.used][r.offset..r.offset + r.len] == p.buf[r.offset..r.offset + r.len]; }
    }
  }

  // --------------------------------------------------------------- allocation

  /** `ref` covers `n` bytes that no page had in use: right after the used part of
      the last page, or at the start of a new page. Nothing else changes. */
  predicate Extends(before: seq<Page>, after: seq<Page>, r: BufferRef, n: nat) {
    && r.len == n && |after| == r.page + 1 && |before| <= |after| <= |before| + 1
    && (forall k :: 0 <= k < r.page ==> after[k] == before[k])
    && var last := after[r.page];
       && last.used == r.offset + n <= |last.buf|
       && if r.page < |before| then r.offset == before[r.page].used && last.first == before[r.page].first
                                    && |last.buf| == |before[r.page].buf|
                                    && last.buf[..r.offset] == before[r.page].buf[..r.offset]
          else r.offset == 0 && last.first == n
  }

  /** A page is opened only for what its predecessor has no room for. */
  predicate Snug(pages: seq<Page>) {
    forall k :: 0 < k < |pages| ==> |pages[k - 1].buf| - pages[k - 1].used < pages[k].first
  }

  /** The size the geometric policy gives to page `k`. */
  function Target(initial: nat, max: nat, adaptive: bool, k: nat): nat {
    if !adaptive || k == 0 then initial
    else var twice := 2 * Target(initial, max, adaptive, k - 1); if twice <= max then twice else max
  }

  function Max(a: nat, b: nat): nat { if a < b then b else a }
  function Min(a: nat, b: nat): nat { if a < b then a else b }

  lemma {:induction false} TargetIsGeometric(initial: nat, max: nat, k: nat)
    requires 1 <= initial <= max
    ensures Target(initial, max, true, k) == Min(initial * Pow2(k), max)
  {
    hide Target, Pow2;
    TargetTurn(initial, max, k);
    PowTurn(k);
    if k > 0 {
      TargetIsGeometric(initial, max, k - 1);
      Doubled(initial, Pow2(k - 1));
    }
  }

  lemma TargetTurn(initial: nat, max: nat, k: nat)
    ensures Target(initial, max, true, k) == if k == 0 then initial else Min(2 * Target(initial, max, true, k - 1), max)
  {
  }

  lemma PowTurn(k: nat)
    ensures Pow2(k) == if k == 0 then 1 else 2 * Pow2(k - 1)
  {
  }

  lemma Doubled(n: nat, p: nat)
    ensures n * (2 * p) == 2 * (n * p) && n * p >= 0
  {
  }

  predicate Geometric(pages: seq<Page>, initial: nat, max: nat, adaptive: bool) {
    forall k :: 0 <= k < |pages| ==> |pages[k].buf| == Max(Target(initial, max, adaptive, k), pages[k].first)
  }

  // -------------------------------------------------------------- space bound

  function Capacity(pages: seq<Page>): nat {
    if pages == [] then 0 else Capacity(pages[..|pages| - 1]) + |pages[|pages| - 1].buf|
  }

  function Used(pages: seq<Page>): nat {
    if pages == [] then 0 else Used(pages[..|pages| - 1]) + pages[|pages| - 1].used
  }

  /** All slack before the last page is paid for by later used bytes. */
  lemma {:induction false} SlackIsPaid(pages: seq<Page>)
    requires Sound(pages) && Snug(pages) && pages != []
    ensures var last := pages[|pages| - 1];
            Capacity(pages) + pages[0].used + |pages| - 1 <= 2 * Used(pages) + (|last.buf| - last.used)
  {
    var n := |pages|;
    if n == 1 {
      assert pages[..0] == [];
    } else {
      var rest := pages[..n - 1];
      SlackIsPaid(rest);
      assert |pages[n - 2].buf| - pages[n - 2].used < pages[n - 1].first;
    }
  }

  /** Total capacity is below twice the used bytes plus the last page. */
  lemma SpaceBound(pages: seq<Page>)
    requires Sound(pages) && Snug(pages) && pages != []
    ensures Capacity(pages) < 2 * Used(pages) + |pages[|pages| - 1].buf|
  {
    SlackIsPaid(pages);
  }

  // ---------------------------------------------------------- live references

  /** A reference handed out: for non-empty data, with its data. */
  datatype Live = Live(r: BufferRef, data: Option<seq<byte>>)

  predicate Disjoint(a: BufferRef, b: BufferRef) {
    a.page != b.page || a.offset + a.len <= b.offset || b.offset + b.len <= a.offset
  }

  predicate InUse(pages: seq<Page>, r: BufferRef) {
    r.page < |pages| && r.offset + r.len <= pages[r.page].used
  }

  ghost predicate AllLive(pages: seq<Page>, live: seq<Live>) {
    && (forall i :: 0 <= i < |live| ==>
          InUse(pages, live[i].r) && (live[i].data.Some? ==> Slice(pages, live[i].r) == Ok(live[i].data.value)))
    && (forall i, j :: 0 <= i < j < |live| ==> Disjoint(live[i].r, live[j].r))
  }

  /** Readers that see the same used prefixes keep all references. */
  lemma SeenKeepsLive(before: seq<Page>, after: seq<Page>, live: seq<Live>)
    requires Sound(before) && Sound(after) && AllLive(before, live) && Seen(before) == Seen(after)
    ensures AllLive(after, live)
  {
    forall i | 0 <= i < |live|
      ensures InUse(after, live[i].r) && (live[i].data.Some? ==> Slice(after, live[i].r) == Ok(live[i].data.value))
    {
      FreezeKeepsReads(before, live[i].r);
      FreezeKeepsReads(after, live[i].r);
      assert |Seen(before)[live[i].r.page]| == |Seen(after)[live[i].r.page]|;
    }
  }

  lemma ExtendsKeepsLive(before: seq<Page>, after: seq<Page>, r: BufferRef, n: nat, live: seq<Live>, data: Option<seq<byte>>)
    requires Sound(before) && Sound(after) && AllLive(before, live) && Extends(before, after, r, n)
    requires data.Some? ==> Slice(after, r) == Ok(data.value)
    ensures AllLive(after, live + [Live(r, data)])
  {
    forall i | 0 <= i < |live|
      ensures InUse(after, live[i].r) && (live[i].data.Some? ==> Slice(after, live[i].r) == Ok(live[i].data.value))
      ensures Disjoint(live[i].r, r)
    {
      OldRead(before, after, r, n, live[i].r);
    }
  }

  lemma OldRead(before: seq<Page>, after: seq<Page>, r: BufferRef, n: nat, o: BufferRef)
    requires Sound(before) && Extends(before, after, r, n) && InUse(before, o)
    ensures InUse(after, o) && Disjoint(o, r) && Slice(after, o) == Slice(before, o)
  {
    if o.page == r.page {
      var b, a, end := before[o.page], after[o.page], o.offset + o.len;
      assert b.buf[..r.offset][o.offset..end] == b.buf[o.offset..end];
      assert a.buf[..r.offset][o.offset..end] == a.buf[o.offset..end];
    }
  }

  // -------------------------------------------------------------------- arena

  predicate NeedsPage(pages: seq<Page>, n: nat) {
    pages == [] || |pages[|pages| - 1].buf| < pages[|pages| - 1].used + n
  }

  /** When an allocation of `n` bytes is representable and has memory. */
  predicate Grants(pages: seq<Page>, n: nat, memory: bool) {
    && n < U32
    && if NeedsPage(pages, n) then |pages| < U32 && memory
       else |pages| - 1 < U32 && pages[|pages| - 1].used < U32
  }

  /** The bytes from `offset` on of page number `page` are the next free ones for `n` bytes:
      behind the used part of the last page if they fit there, else at the start of a new
      page. */
  predicate NextPlace(pages: seq<Page>, n: nat, page: int, offset: int) {
    if pages != [] && pages[|pages| - 1].used + n <= |pages[|pages| - 1].buf| then page == |pages| - 1 && offset == pages[|pages| - 1].used
    else page == |pages| && offset == 0
  }

  /** An allocation is granted if and only if page number, offset and length of its place
      fit into 32 bits each and a new page, where one is needed, can be had. */
  lemma GrantsIff(pages: seq<Page>, n: nat, memory: bool)
    ensures Grants(pages, n, memory) <==>
              exists page, offset :: NextPlace(pages, n, page, offset) && page <= 0xFFFF_FFFF && offset <= 0xFFFF_FFFF && n <= 0xFFFF_FFFF
                                     && (page == |pages| ==> memory)
  {
    var room := pages != [] && pages[|pages| - 1].used + n <= |pages[|pages| - 1].buf|;
    assert if room then NextPlace(pages, n, |pages| - 1, pages[|pages| - 1].used) else NextPlace(pages, n, |pages|, 0);
  }

  /** Where an allocation of `n` bytes leaves the last page: its position, its used
      length and its capacity. */
  datatype Tip = Tip(count: nat, used: nat, capacity: nat)

  function TipOf(pages: seq<Page>): Tip {
    if pages == [] then Tip(0, 0, 0) else Tip(|pages|, pages[|pages| - 1].used, |pages[|pages| - 1].buf|)
  }

  function TipAfter(pages: seq<Page>, pageSize: nat, n: nat): Tip {
    if NeedsPage(pages, n) then Tip(|pages| + 1, n, Max(pageSize, n))
    else Tip(|pages|, pages[|pages| - 1].used + n, |pages[|pages| - 1].buf|)
  }

  /** `Grants` in terms of the tip alone. */
  predicate TipGrants(t: Tip, n: nat, memory: bool) {
    && n < U32
    && if t.count == 0 || t.capacity < t.used + n then t.count < U32 && memory else t.count - 1 < U32 && t.used < U32
  }

  ghost predicate WellPaged(pages: seq<Page>, initial: nat, max: nat, adaptive: bool) {
    Sound(pages) && Snug(pages) && Geometric(pages, initial, max, adaptive)
  }

  /** Overwrites the bytes of `r`, which lie in its page. */
  function Copied(pages: seq<Page>, r: BufferRef, data: seq<byte>): seq<Page>
    requires r.page < |pages| && r.offset + |data| <= |pages[r.page].buf|
  {
    var p := pages[r.page];
    pages[r.page := p.(buf := p.buf[..r.offset] + data + p.buf[r.offset + |data|..])]
  }

  class BlockArena {
    var pages: seq<Page>
    var pageSize: nat
    const initial: nat
    const maxPageSize: nat
    const adaptive: bool
    /** Every reference handed out and not undone. */
    ghost var live: seq<Live>

    ghost predicate Valid()
      reads this
    {
      && 1 <= initial <= maxPageSize && WellPaged(pages, initial, maxPageSize, adaptive)
      && pageSize == Target(initial, maxPageSize, adaptive, |pages|)
      && AllLive(pages, live)
    }

    /** Fixed pages. */
    constructor (size: nat)
      ensures Valid() && pages == [] && live == [] && !adaptive && pageSize == Max(size, 1)
    {
      initial, maxPageSize, pageSize, adaptive := Max(size, 1), Max(size, 1), Max(size, 1), false;
      pages, live := [], [];
    }

    /** Pages that double up to a limit. */
    constructor Growing(size: nat, limit: nat)
      ensures Valid() && pages == [] && live == [] && adaptive
      ensures maxPageSize == Max(limit, 1) && pageSize == initial == Min(Max(size, 1), Max(limit, 1))
    {
      maxPageSize := Max(limit, 1);
      initial, pageSize, adaptive := Min(Max(size, 1), Max(limit, 1)), Min(Max(size, 1), Max(limit, 1)), true;
      pages, live := [], [];
    }

    /** `try_alloc`, with `memory` telling whether a new page can be reserved. The
        references handed out are recorded by the callers. */
    method TryAlloc(len: nat, memory: bool) returns (r: Result<BufferRef, Error>)
      requires Valid()
      modifies this`pages, this`pageSize
      ensures Valid()
      ensures r.Ok? <==> Grants(old(pages), Max(len, 1), memory)
      ensures r.Ok? ==> Extends(old(pages), pages, r.value, Max(len, 1)) && TipOf(pages) == TipAfter(old(pages), old(pageSize), Max(len, 1))
      ensures r.Err? ==> pages == old(pages) && pageSize == old(pageSize)
    {
      hide AllLive, Target, WellPaged;
      SoundOf(pages, initial, maxPageSize, adaptive);
      var n := Max(len, 1);
      if n >= U32 { return Err(InvalidInput); }
      var last := |pages| - 1;
      if NeedsPage(pages, n) {
        if |pages| >= U32 { return Err(InvalidInput); }
        var size := Max(pageSize, n);
        var next := if adaptive then Min(2 * pageSize, maxPageSize) else pageSize;
        if !memory { return Err(OutOfMemory); }
        var r0 := BufferRef(|pages|, 0, n);
        var page := Page(seq(size, _ => 0), n, n);
        NewPageKeeps(pages, initial, maxPageSize, adaptive, page);
        NextTarget(initial, maxPageSize, adaptive, |pages|);
        SoundOf(pages + [page], initial, maxPageSize, adaptive);
        LivesOn(pages, pages + [page], r0, n, live);
        pages := pages + [page];
        pageSize := next;
        return Ok(r0);
      }
      var offset := pages[last].used;
      if last >= U32 || offset >= U32 { return Err(InvalidInput); }
      r := Ok(BufferRef(last, offset, n));
      var grown := pages[last := pages[last].(used := offset + n)];
      FillKeeps(pages, initial, maxPageSize, adaptive, n);
      SoundOf(grown, initial, maxPageSize, adaptive);
      LivesOn(pages, grown, r.value, n, live);
      pages := grown;
    }

    /** `try_write`: an empty write takes one byte of unspecified content. */
    method TryWrite(data: seq<byte>, memory: bool) returns (r: Result<BufferRef, Error>)
      requires Valid()
      modifies this
      ensures Valid()
      ensures r.Ok? <==> Grants(old(pages), Max(|data|, 1), memory)
      ensures r.Ok? ==> Extends(old(pages), pages, r.value, Max(|data|, 1)) && TipOf(pages) == TipAfter(old(pages), old(pageSize), Max(|data|, 1))
      ensures r.Ok? && data != [] ==> Slice(pages, r.value) == Ok(data)
      ensures r.Ok? ==> live == old(live) + [Live(r.value, if data == [] then None else Some(data))]
      ensures r.Err? ==> unchanged(this)
    {
      hide AllLive, Target, WellPaged;
      ghost var before := pages;
      r := TryAlloc(|data|, memory);
      if r.Err? { return; }
      if data != [] {
        CopyKeeps(before, pages, r.value, data, initial, maxPageSize, adaptive);
        pages := Copied(pages, r.value, data);
      }
      ghost var added := if data == [] then None else Some(data);
      SoundOf(before, initial, maxPageSize, adaptive);
      SoundOf(pages, initial, maxPageSize, adaptive);
      ExtendsKeepsLive(before, pages, r.value, Max(|data|, 1), old(live), added);
      live := live + [Live(r.value, added)];
    }

    /** `try_write_pair`: both buffers or neither. A failure leaves the page list,
        every used prefix and the next page size as they were. */
    method TryWritePair(first: seq<byte>, second: seq<byte>, memory1: bool, memory2: bool)
        returns (r: Result<(BufferRef, BufferRef), Error>)
      requires Valid()
      modifies this
      ensures Valid()
      ensures r.Ok? <==> Grants(old(pages), Max(|first|, 1), memory1)
                         && TipGrants(TipAfter(old(pages), old(pageSize), Max(|first|, 1)), Max(|second|, 1), memory2)
      ensures r.Ok? ==> live == old(live) + [Live(r.value.0, if first == [] then None else Some(first)),
                                             Live(r.value.1, if second == [] then None else Some(second))]
      ensures r.Err? ==> Restored(old(pages), pages) && pageSize == old(pageSize) && live == old(live)
    {
      hide AllLive, Target, WellPaged, Slice;
      var pageCount := |pages|;
      var lastUsed := if pages == [] then 0 else pages[|pages| - 1].used;
      var nextPageSize := pageSize;
      ghost var before := pages;
      SoundOf(before, initial, maxPageSize, adaptive);
      SameRestored(before);
      var firstRef := TryWrite(first, memory1);
      if firstRef.Err? {
        Rollback(pageCount, lastUsed, nextPageSize, before, old(live));
        return Err(firstRef.error);
      }
      var secondRef := TryWrite(second, memory2);
      if secondRef.Err? {
        WithinOne(before, pages, firstRef.value, Max(|first|, 1));
        Rollback(pageCount, lastUsed, nextPageSize, before, old(live));
        return Err(secondRef.error);
      }
      r := Ok((firstRef.value, secondRef.value));
      assert live == old(live) + [Live(firstRef.value, if first == [] then None else Some(first)),
                                  Live(secondRef.value, if second == [] then None else Some(second))];
    }

    /** `rollback_pair_write`. */
    method Rollback(pageCount: nat, lastUsed: nat, nextPageSize: nat, ghost before: seq<Page>, ghost wasLive: seq<Live>)
      requires 1 <= initial <= maxPageSize && WellPaged(before, initial, maxPageSize, adaptive) && AllLive(before, wasLive)
      requires pageCount == |before| && (before != [] ==> lastUsed == before[|before| - 1].used)
      requires nextPageSize == Target(initial, maxPageSize, adaptive, |before|) && Keeps(before, pages)
      modifies this
      ensures Valid() && Restored(before, pages) && pageSize == nextPageSize && live == wasLive
    {
      hide AllLive, Target;
      pages := pages[..pageCount];
      if pages != [] {
        pages := pages[|pages| - 1 := pages[|pages| - 1].(used := lastUsed)];
      }
      pageSize := nextPageSize;
      live := wasLive;
      RestoredKeeps(before, pages, initial, maxPageSize, adaptive, wasLive);
    }

    /** `try_freeze`: exact pages, or the arena unchanged. */
    method TryFreeze(memory: bool) returns (r: Result<seq<seq<byte>>, Error>)
      requires Valid()
      ensures r.Ok? <==> |pages| <= U32 && memory
      ensures r.Ok? ==> r.value == Seen(pages)
    {
      hide AllLive;
      if |pages| > U32 { return Err(InvalidData); }
      if !memory { return Err(OutOfMemory); }
      var frozen := [];
      for k := 0 to |pages|
        invariant frozen == Seen(pages)[..k]
      {
        frozen := frozen + [pages[k].buf[..pages[k].used]];
      }
      r := Ok(frozen);
    }
  }

  // ------------------------------------------------------------ policy lemmas

  lemma SoundOf(pages: seq<Page>, initial: nat, max: nat, adaptive: bool)
    requires WellPaged(pages, initial, max, adaptive)
    ensures Sound(pages)
  {
  }

  lemma NextTarget(initial: nat, max: nat, adaptive: bool, k: nat)
    requires 1 <= initial <= max
    ensures 1 <= Target(initial, max, adaptive, k) <= max
    ensures Target(initial, max, adaptive, k + 1) ==
            if adaptive then Min(2 * Target(initial, max, adaptive, k), max) else Target(initial, max, adaptive, k)
  {
    if k > 0 { NextTarget(initial, max, adaptive, k - 1); }
  }

  lemma NewPageKeeps(pages: seq<Page>, initial: nat, max: nat, adaptive: bool, page: Page)
    requires WellPaged(pages, initial, max, adaptive) && page.used == page.first >= 1 && NeedsPage(pages, page.first)
    requires |page.buf| == Max(Target(initial, max, adaptive, |pages|), page.first)
    ensures WellPaged(pages + [page], initial, max, adaptive)
  {
    hide Target;
  }

  lemma FillKeeps(pages: seq<Page>, initial: nat, max: nat, adaptive: bool, n: nat)
    requires WellPaged(pages, initial, max, adaptive) && pages != [] && !NeedsPage(pages, n)
    ensures var last := |pages| - 1; WellPaged(pages[last := pages[last].(used := pages[last].used + n)], initial, max, adaptive)
  {
    hide Target;
  }

  lemma LivesOn(before: seq<Page>, after: seq<Page>, r: BufferRef, n: nat, live: seq<Live>)
    requires Sound(before) && Sound(after) && AllLive(before, live) && Extends(before, after, r, n)
    ensures AllLive(after, live)
  {
    ExtendsKeepsLive(before, after, r, n, live, None);
    var more := live + [Live(r, None)];
    assert forall i :: 0 <= i < |live| ==> more[i] == live[i];
  }

  lemma CopyKeeps(before: seq<Page>, pages: seq<Page>, r: BufferRef, data: seq<byte>, initial: nat, max: nat, adaptive: bool)
    requires WellPaged(pages, initial, max, adaptive) && Extends(before, pages, r, |data|)
    ensures WellPaged(Copied(pages, r, data), initial, max, adaptive)
    ensures TipOf(Copied(pages, r, data)) == TipOf(pages)
    ensures Extends(before, Copied(pages, r, data), r, |data|) && Slice(Copied(pages, r, data), r) == Ok(data)
  {
    hide Target;
    var after := Copied(pages, r, data);
    assert |after[r.page].buf| == |pages[r.page].buf|;
    assert after[r.page].buf[..r.offset] == pages[r.page].buf[..r.offset];
    assert after[r.page].buf[r.offset..r.offset + |data|] == data;
  }

  // -------------------------------------------------------------- transaction

  /** `pages` still starts with the pages of `before`; of its last page only bytes
      past the used prefix may have changed. */
  predicate Keeps(before: seq<Page>, pages: seq<Page>) {
    && |before| <= |pages|
    && (forall k :: 0 <= k < |before| - 1 ==> pages[k] == before[k])
    && (before != [] ==>
          var b, p := before[|before| - 1], pages[|before| - 1];
          && b.used <= p.used && b.used <= |b.buf| && |p.buf| == |b.buf| && p.first == b.first
          && p.buf[..b.used] == b.buf[..b.used])
  }

  /** The same pages but for bytes that no reference can reach. */
  predicate Restored(before: seq<Page>, pages: seq<Page>) {
    && |pages| == |before|
    && forall k :: 0 <= k < |pages| ==>
         && pages[k].used == before[k].used && pages[k].first == before[k].first && |pages[k].buf| == |before[k].buf|
         && before[k].used <= |before[k].buf| && pages[k].buf[..before[k].used] == before[k].buf[..before[k].used]
  }

  lemma SameRestored(pages: seq<Page>)
    requires Sound(pages)
    ensures Keeps(pages, pages)
  {
  }

  lemma WithinOne(before: seq<Page>, after: seq<Page>, r: BufferRef, n: nat)
    requires Sound(before) && Extends(before, after, r, n)
    ensures Keeps(before, after)
  {
  }

  lemma RestoredKeeps(before: seq<Page>, pages: seq<Page>, initial: nat, max: nat, adaptive: bool, live: seq<Live>)
    requires WellPaged(before, initial, max, adaptive) && AllLive(before, live) && Restored(before, pages)
    ensures WellPaged(pages, initial, max, adaptive) && AllLive(pages, live)
  {
    hide Target, AllLive;
    assert Sound(pages);
    assert Seen(before) == Seen(pages);
    SeenKeepsLive(before, pages, live);
  }
}
