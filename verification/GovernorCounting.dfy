/** How the sizes that the governor's counters stand for change when one slot,
    acquisition, lease, preflight or caller is added, replaced or removed. */
module GovernorCounting {
  import opened GovernorModel

  function Bit(b: bool): nat { if b then 1 else 0 }

  /** `after` is `before` with the membership of `x` set to `now`. */
  lemma Swap<T>(before: set<T>, x: T, now: bool, after: set<T>)
    requires forall y :: y in after <==> if y == x then now else y in before
    ensures |after| == |before| - Bit(x in before) + Bit(now)
  {
    assert after == if now then (before - {x}) + {x} else before - {x};
  }

  // ------------------------------------------------------------------- slots

  lemma PutSlot(slots: map<Slot, Content>, s: Slot, c: Content, kind: Kind)
    ensures |In(slots[s := c], kind)| ==
            |In(slots, kind)| - Bit(s in slots && Of(kind, s, slots[s])) + Bit(Of(kind, s, c))
  {
    Swap(In(slots, kind), s, Of(kind, s, c), In(slots[s := c], kind));
  }

  lemma DelSlot(slots: map<Slot, Content>, s: Slot, kind: Kind)
    ensures |In(slots - {s}, kind)| == |In(slots, kind)| - Bit(s in slots && Of(kind, s, slots[s]))
  {
    assert In(slots - {s}, kind) == In(slots, kind) - {s};
  }

  function Change(slots: map<Slot, Content>, s: Slot, c: Content, kind: Kind): int {
    Bit(Of(kind, s, c)) - Bit(s in slots && Of(kind, s, slots[s]))
  }

  function CountsPut(n: Counts, slots: map<Slot, Content>, s: Slot, c: Content): Counts {
    Counts(n.occupied + Bit(s !in slots),
           n.live + Change(slots, s, c, Live),
           n.pending + Change(slots, s, c, PendingOpen),
           n.reserved + Change(slots, s, c, Reservation),
           n.livePreflights + Change(slots, s, c, LivePreflight))
  }

  function CountsDel(n: Counts, slots: map<Slot, Content>, s: Slot): Counts
    requires s in slots
  {
    Counts(n.occupied - 1,
           n.live - Bit(Of(Live, s, slots[s])),
           n.pending - Bit(Of(PendingOpen, s, slots[s])),
           n.reserved - Bit(Of(Reservation, s, slots[s])),
           n.livePreflights - Bit(Of(LivePreflight, s, slots[s])))
  }

  lemma ConservedPut(max: nat, n: Counts, slots: map<Slot, Content>, s: Slot, c: Content)
    requires Conserved(max, n, slots) && (s in slots || n.occupied < max)
    ensures Conserved(max, CountsPut(n, slots, s, c), slots[s := c])
  {
    assert slots[s := c].Keys == slots.Keys + {s};
    PutSlot(slots, s, c, Live);
    PutSlot(slots, s, c, PendingOpen);
    PutSlot(slots, s, c, Reservation);
    PutSlot(slots, s, c, LivePreflight);
  }

  lemma ConservedDel(max: nat, n: Counts, slots: map<Slot, Content>, s: Slot)
    requires Conserved(max, n, slots) && s in slots
    ensures Conserved(max, CountsDel(n, slots, s), slots - {s})
  {
    assert (slots - {s}).Keys == slots.Keys - {s};
    DelSlot(slots, s, Live);
    DelSlot(slots, s, PendingOpen);
    DelSlot(slots, s, Reservation);
    DelSlot(slots, s, LivePreflight);
  }

  // -------------------------------------------------------- detached closing

  lemma ClosingSame(m: map<string, nat>, slots: map<Slot, Content>, s: Slot, c: Content)
    requires ClosingTally(m, slots)
    requires forall g :: Change(slots, s, c, ClosingOf(g)) == 0
    ensures ClosingTally(m, slots[s := c])
  {
    forall g ensures |In(slots[s := c], ClosingOf(g))| == |In(slots, ClosingOf(g))| {
      PutSlot(slots, s, c, ClosingOf(g));
      assert Change(slots, s, c, ClosingOf(g)) == 0;
    }
  }

  lemma ClosingStart(m: map<string, nat>, slots: map<Slot, Content>, s: Slot, c: Content)
    requires ClosingTally(m, slots)
    requires c.Closing? && (s in slots ==> !slots[s].Closing?)
    ensures ClosingTally(Increment(m, c.key.segment), slots[s := c])
  {
    forall g
      ensures |In(slots[s := c], ClosingOf(g))| == |In(slots, ClosingOf(g))| + Bit(g == c.key.segment)
    {
      PutSlot(slots, s, c, ClosingOf(g));
    }
  }

  lemma ClosingGone(m: map<string, nat>, slots: map<Slot, Content>, s: Slot)
    requires ClosingTally(m, slots) && s in slots && !slots[s].Closing?
    ensures ClosingTally(m, slots - {s})
  {
    forall g ensures |In(slots - {s}, ClosingOf(g))| == |In(slots, ClosingOf(g))| {
      DelSlot(slots, s, ClosingOf(g));
    }
  }

  lemma ClosingEnd(m: map<string, nat>, slots: map<Slot, Content>, s: Slot)
    requires ClosingTally(m, slots) && s in slots && slots[s].Closing?
    ensures ClosingTally(Decrement(m, slots[s].key.segment), slots[s := Vacant])
    ensures ClosingTally(Decrement(m, slots[s].key.segment), slots - {s})
  {
    var x := slots[s].key.segment;
    assert s in In(slots, ClosingOf(x));
    assert Count(m, x) > 0;
    forall g
      ensures |In(slots[s := Vacant], ClosingOf(g))| == |In(slots, ClosingOf(g))| - Bit(g == x)
      ensures |In(slots - {s}, ClosingOf(g))| == |In(slots, ClosingOf(g))| - Bit(g == x)
    {
      PutSlot(slots, s, Vacant, ClosingOf(g));
      DelSlot(slots, s, ClosingOf(g));
    }
  }

  // ------------------------------------------------------------ acquisitions

  lemma PutAcqOn(acqs: map<nat, Acquisition>, t: nat, a: Acquisition, k: Key)
    ensures |AcqsOn(acqs[t := a], k)| ==
            |AcqsOn(acqs, k)| - Bit(t in acqs && k in acqs[t].existing) + Bit(k in a.existing)
  {
    Swap(AcqsOn(acqs, k), t, k in a.existing, AcqsOn(acqs[t := a], k));
  }

  lemma PutAcqIn(acqs: map<nat, Acquisition>, t: nat, a: Acquisition, s: string)
    ensures |AcqsIn(acqs[t := a], s)| ==
            |AcqsIn(acqs, s)| - Bit(t in acqs && s in acqs[t].segs) + Bit(s in a.segs)
  {
    Swap(AcqsIn(acqs, s), t, s in a.segs, AcqsIn(acqs[t := a], s));
  }

  lemma AcqTallySame(m: map<string, nat>, acqs: map<nat, Acquisition>, t: nat, a: Acquisition)
    requires AcqTally(m, acqs) && t in acqs && a.segs == acqs[t].segs
    ensures AcqTally(m, acqs[t := a])
  {
    forall s ensures |AcqsIn(acqs[t := a], s)| == |AcqsIn(acqs, s)| {
      PutAcqIn(acqs, t, a, s);
    }
  }

  lemma AcqTallyPositive(m: map<string, nat>, acqs: map<nat, Acquisition>, t: nat, s: string)
    requires AcqTally(m, acqs) && t in acqs && s in acqs[t].segs
    ensures s in m
  {
    assert t in AcqsIn(acqs, s);
    assert Count(m, s) == |AcqsIn(acqs, s)|;
  }

  // --------------------------------------------- leases, preflights, callers

  lemma PutLease(leases: map<nat, Lease>, l: nat, x: Lease, k: Key)
    ensures |LeasesOn(leases[l := x], k)| ==
            |LeasesOn(leases, k)| - Bit(l in leases && leases[l].key == k) + Bit(x.key == k)
  {
    Swap(LeasesOn(leases, k), l, x.key == k, LeasesOn(leases[l := x], k));
  }

  lemma DelLease(leases: map<nat, Lease>, l: nat, k: Key)
    ensures |LeasesOn(leases - {l}, k)| == |LeasesOn(leases, k)| - Bit(l in leases && leases[l].key == k)
  {
    assert LeasesOn(leases - {l}, k) == LeasesOn(leases, k) - {l};
  }

  lemma PutPre(pres: map<nat, Preflight>, p: nat, x: Preflight, s: string)
    ensures |PresIn(pres[p := x], s)| ==
            |PresIn(pres, s)| - Bit(p in pres && pres[p].segment == s) + Bit(x.segment == s)
  {
    Swap(PresIn(pres, s), p, x.segment == s, PresIn(pres[p := x], s));
  }

  lemma PreTallySame(m: map<string, nat>, pres: map<nat, Preflight>, p: nat, x: Preflight)
    requires PreTally(m, pres) && p in pres && x.segment == pres[p].segment
    ensures PreTally(m, pres[p := x])
  {
    forall s ensures |PresIn(pres[p := x], s)| == |PresIn(pres, s)| {
      PutPre(pres, p, x, s);
    }
  }

  // -------------------------------------------------------------- idle queue

  lemma {:induction false} WithoutProps<T>(s: seq<T>, x: T)
    requires NoDup(s)
    ensures NoDup(Without(s, x))
    ensures forall y :: y in Without(s, x) <==> y in s && y != x
    ensures |Without(s, x)| == |s| - Bit(x in s)
  {
    if s != [] {
      assert s == [s[0]] + s[1..];
      assert s[0] !in s[1..];
      WithoutProps(s[1..], x);
    }
  }
}
