/** What a change of one table entry or one slot does to each part of the
    governor's invariant. */
module GovernorFrames {
  import opened GovernorModel
  import opened GovernorCounting
  import opened GovernorSteps

  // -------------------------------------------------------------- idle queue

  lemma IdleClaim(entries: map<Key, Entry>, idle: seq<Key>, k: Key, e: Entry)
    requires IdleQueue(entries, idle) && e.Open? && e.leases > 0
    ensures IdleQueue(entries[k := e], Without(idle, k))
  {
    WithoutProps(idle, k);
  }

  lemma IdleEvict(entries: map<Key, Entry>, idle: seq<Key>, k: Key)
    requires IdleQueue(entries, idle)
    ensures IdleQueue(entries - {k}, Without(idle, k))
  {
    WithoutProps(idle, k);
  }

  lemma IdleKeep(entries: map<Key, Entry>, idle: seq<Key>, k: Key, e: Entry)
    requires IdleQueue(entries, idle) && !IsIdle(entries, k) && (e.Open? ==> e.leases > 0)
    ensures IdleQueue(entries[k := e], idle)
  {
    forall x ensures x in idle <==> IsIdle(entries[k := e], x) { assert x in idle <==> IsIdle(entries, x); }
  }

  lemma IdlePush(entries: map<Key, Entry>, idle: seq<Key>, k: Key, e: Entry)
    requires IdleQueue(entries, idle) && !IsIdle(entries, k) && e.Open? && e.leases == 0
    ensures IdleQueue(entries[k := e], idle + [k])
  {
    assert k !in idle;
    forall x ensures x in idle + [k] <==> IsIdle(entries[k := e], x) { assert x in idle <==> IsIdle(entries, x); }
  }

  // ------------------------------------------------------------------ claims

  /** A zero-lease entry has no lease object and no pending lease on it. */
  lemma IdleUnclaimed(entries: map<Key, Entry>, leases: map<nat, Lease>, acqs: map<nat, Acquisition>, k: Key)
    requires LeaseCounts(entries, leases, acqs) && IsIdle(entries, k)
    ensures forall l :: l in leases ==> leases[l].key != k
    ensures forall t :: t in acqs ==> k !in acqs[t].existing
  {
    assert LeasesOn(leases, k) == {} && AcqsOn(acqs, k) == {};
    forall l | l in leases ensures leases[l].key != k {
      assert l !in LeasesOn(leases, k);
    }
    forall t | t in acqs ensures k !in acqs[t].existing {
      assert t !in AcqsOn(acqs, k);
    }
  }

  /** A lease or a pending lease keeps the count of its entry positive. */
  lemma ClaimedPositive(entries: map<Key, Entry>, leases: map<nat, Lease>, acqs: map<nat, Acquisition>, k: Key)
    requires LeaseCounts(entries, leases, acqs) && k in entries && entries[k].Open?
    requires (exists l :: l in leases && leases[l].key == k) || (exists t :: t in acqs && k in acqs[t].existing)
    ensures entries[k].leases > 0
  {
    if l :| l in leases && leases[l].key == k {
      assert l in LeasesOn(leases, k);
    } else {
      var t :| t in acqs && k in acqs[t].existing;
      assert t in AcqsOn(acqs, k);
    }
  }

  /** Lease counts when one entry, the leases and the acquisitions change together. */
  lemma LeaseCountsPut(entries: map<Key, Entry>, leases: map<nat, Lease>, acqs: map<nat, Acquisition>,
                       k: Key, e: Entry, leases': map<nat, Lease>, acqs': map<nat, Acquisition>)
    requires LeaseCounts(entries, leases, acqs)
    requires forall x :: x != k ==> |LeasesOn(leases', x)| == |LeasesOn(leases, x)|
    requires forall x :: x != k ==> |AcqsOn(acqs', x)| == |AcqsOn(acqs, x)|
    requires e.Open? ==> e.leases == |LeasesOn(leases', k)| + |AcqsOn(acqs', k)|
    ensures LeaseCounts(entries[k := e], leases', acqs')
  {
  }

  lemma AcqsOnPut(acqs: map<nat, Acquisition>, t: nat, a: Acquisition, k: Key)
    requires t in acqs
    requires forall x :: x != k ==> (x in a.existing <==> x in acqs[t].existing)
    ensures forall x :: x != k ==> |AcqsOn(acqs[t := a], x)| == |AcqsOn(acqs, x)|
    ensures |AcqsOn(acqs[t := a], k)| == |AcqsOn(acqs, k)| - Bit(k in acqs[t].existing) + Bit(k in a.existing)
  {
    forall x | x != k ensures |AcqsOn(acqs[t := a], x)| == |AcqsOn(acqs, x)| { PutAcqOn(acqs, t, a, x); }
    PutAcqOn(acqs, t, a, k);
  }

  lemma LeasesOnPut(leases: map<nat, Lease>, l: nat, x: Lease)
    requires l in leases ==> leases[l].key == x.key
    ensures forall k :: k != x.key ==> |LeasesOn(leases[l := x], k)| == |LeasesOn(leases, k)|
    ensures |LeasesOn(leases[l := x], x.key)| == |LeasesOn(leases, x.key)| + Bit(l !in leases)
  {
    forall k | k != x.key ensures |LeasesOn(leases[l := x], k)| == |LeasesOn(leases, k)| { PutLease(leases, l, x, k); }
    PutLease(leases, l, x, x.key);
  }

  lemma LeasesOnDel(leases: map<nat, Lease>, l: nat)
    requires l in leases
    ensures forall k :: k != leases[l].key ==> |LeasesOn(leases - {l}, k)| == |LeasesOn(leases, k)|
    ensures |LeasesOn(leases - {l}, leases[l].key)| == |LeasesOn(leases, leases[l].key)| - 1
  {
    forall k | k != leases[l].key ensures |LeasesOn(leases - {l}, k)| == |LeasesOn(leases, k)| { DelLease(leases, l, k); }
    DelLease(leases, l, leases[l].key);
  }

  lemma LeasedPut(entries: map<Key, Entry>, leases: map<nat, Lease>, l: nat, x: Lease)
    requires Leased(entries, leases) && x.key in entries && entries[x.key].Open? && entries[x.key].file == x.file
    requires x.cloning > 0 ==> x.arc
    ensures Leased(entries, leases[l := x])
  {
  }

  // ------------------------------------------------------------ acquisitions

  /** Nothing an acquisition relies on differs between two tables and slot maps. */
  ghost predicate Agree(entries: map<Key, Entry>, slots: map<Slot, Content>,
                        entries': map<Key, Entry>, slots': map<Slot, Content>, a: Acquisition)
  {
    && (forall k :: k in a.existing && k in entries && entries[k].Open? ==>
          k in entries' && entries'[k].Open? && entries'[k].file == entries[k].file && entries'[k].handle == entries[k].handle)
    && (forall k :: k in a.missing && k in entries && KeySlot(k) in slots ==>
          k in entries' && entries'[k] == entries[k] && KeySlot(k) in slots' && slots'[KeySlot(k)] == slots[KeySlot(k)])
  }

  lemma AcqFrame(entries: map<Key, Entry>, slots: map<Slot, Content>,
                 entries': map<Key, Entry>, slots': map<Slot, Content>, t: nat, a: Acquisition)
    requires AcquisitionOk(entries, slots, t, a) && Agree(entries, slots, entries', slots', a)
    ensures AcquisitionOk(entries', slots', t, a)
  {
    assert ReservationsOk(entries', slots', t, a) by {
      forall i | 0 <= i < |a.missing|
        ensures a.missing[i] in entries' && entries'[a.missing[i]] == entries[a.missing[i]]
        ensures KeySlot(a.missing[i]) in slots' && slots'[KeySlot(a.missing[i])] == slots[KeySlot(a.missing[i])]
      {
        assert a.missing[i] in a.missing;
      }
    }
  }

  /** Only acquisition `t` may rely on what changed; it is replaced by `a`. */
  lemma AcqsFrame(entries: map<Key, Entry>, slots: map<Slot, Content>, acqs: map<nat, Acquisition>,
                  entries': map<Key, Entry>, slots': map<Slot, Content>, t: nat, a: Acquisition)
    requires Acquisitions(entries, slots, acqs)
    requires forall x :: x in acqs && x != t ==> Agree(entries, slots, entries', slots', acqs[x])
    requires AcquisitionOk(entries', slots', t, a)
    ensures Acquisitions(entries', slots', acqs[t := a])
  {
    forall x | x in acqs && x != t ensures AcquisitionOk(entries', slots', x, acqs[x]) {
      AcqFrame(entries, slots, entries', slots', x, acqs[x]);
    }
  }

  lemma AcqsKeep(entries: map<Key, Entry>, slots: map<Slot, Content>, acqs: map<nat, Acquisition>,
                 entries': map<Key, Entry>, slots': map<Slot, Content>)
    requires Acquisitions(entries, slots, acqs)
    requires forall x :: x in acqs ==> Agree(entries, slots, entries', slots', acqs[x])
    ensures Acquisitions(entries', slots', acqs)
  {
    forall x | x in acqs ensures AcquisitionOk(entries', slots', x, acqs[x]) {
      AcqFrame(entries, slots, entries', slots', x, acqs[x]);
    }
  }

  // --------------------------------------------- a lease count changes (k open)

  predicate SameFile(entries: map<Key, Entry>, k: Key, e: Entry) {
    k in entries && entries[k].Open? && e.Open? && e.handle == entries[k].handle && e.file == entries[k].file
  }

  lemma LeaseChangeClaims(entries: map<Key, Entry>, leases: map<nat, Lease>, acqs: map<nat, Acquisition>, k: Key, e: Entry)
    requires SameFile(entries, k, e) && Leased(entries, leases) && Owned(entries, acqs)
    ensures Leased(entries[k := e], leases)
    ensures Owned(entries[k := e], acqs)
  {
  }

  /** The idle queue when one lease of `k` ends. */
  lemma UnleaseIdle(entries: map<Key, Entry>, idle: seq<Key>, k: Key)
    requires IdleQueue(entries, idle) && k in entries && entries[k].Open? && entries[k].leases > 0
    ensures IdleQueue(entries[k := entries[k].(leases := entries[k].leases - 1)],
                      if entries[k].leases == 1 then idle + [k] else idle)
  {
    var e := entries[k].(leases := entries[k].leases - 1);
    if e.leases == 0 { IdlePush(entries, idle, k, e); } else { IdleKeep(entries, idle, k, e); }
  }

  lemma TableLease(entries: map<Key, Entry>, slots: map<Slot, Content>, nextFree: nat, k: Key, e: Entry)
    requires SameFile(entries, k, e) && Table(entries, slots, nextFree)
    ensures Table(entries[k := e], slots, nextFree)
  {
    var es := entries[k := e];
    forall s ensures TableAt(es, slots, nextFree, s) { assert TableAt(entries, slots, nextFree, s); }
  }

  lemma LeaseChangeAgree(entries: map<Key, Entry>, slots: map<Slot, Content>, acqs: map<nat, Acquisition>, k: Key, e: Entry)
    requires SameFile(entries, k, e) && Acquisitions(entries, slots, acqs)
    ensures forall x :: x in acqs ==> Agree(entries, slots, entries[k := e], slots, acqs[x])
  {
    forall x | x in acqs ensures Agree(entries, slots, entries[k := e], slots, acqs[x]) {
      var a := acqs[x];
      assert AcquisitionOk(entries, slots, x, a);
      assert k !in a.missing;
    }
  }

  lemma LeaseChangeAcqs(entries: map<Key, Entry>, slots: map<Slot, Content>, acqs: map<nat, Acquisition>, k: Key, e: Entry)
    requires SameFile(entries, k, e) && Acquisitions(entries, slots, acqs)
    ensures Acquisitions(entries[k := e], slots, acqs)
  {
    LeaseChangeAgree(entries, slots, acqs, k, e);
    AcqsKeep(entries, slots, acqs, entries[k := e], slots);
  }

  lemma DrainedPut(m: Manager, k: Key, e: Entry, n: Manager)
    requires Drained(m) && (k in m.entries || k.segment in m.acquisitions)
    requires n.entries == m.entries[k := e] && n.retirements == m.retirements
    requires n.preflights == m.preflights && n.acquisitions == m.acquisitions && n.closings == m.closings
    ensures Drained(n)
  {
    forall s | s in n.retirements && n.retirements[s].completed ensures Quiet(n, s) {
      assert Quiet(m, s);
    }
  }

  // ------------------------------------------------- an idle entry is detached

  lemma TableEvict(entries: map<Key, Entry>, slots: map<Slot, Content>, nextFree: nat, v: Key)
    requires Table(entries, slots, nextFree)
    ensures Table(entries - {v}, slots - {KeySlot(v)}, nextFree)
  {
    forall s ensures TableAt(entries - {v}, slots - {KeySlot(v)}, nextFree, s) {
      assert TableAt(entries, slots, nextFree, s);
    }
  }

  lemma EvictParts(entries: map<Key, Entry>, leases: map<nat, Lease>, acqs: map<nat, Acquisition>, v: Key)
    requires IsIdle(entries, v) && LeaseCounts(entries, leases, acqs)
    requires Leased(entries, leases) && Owned(entries, acqs)
    ensures Leased(entries - {v}, leases)
    ensures Owned(entries - {v}, acqs)
    ensures LeaseCounts(entries - {v}, leases, acqs)
  {
    IdleUnclaimed(entries, leases, acqs, v);
  }

  lemma EvictAgree(entries: map<Key, Entry>, slots: map<Slot, Content>,
                   leases: map<nat, Lease>, acqs: map<nat, Acquisition>, v: Key)
    requires IsIdle(entries, v) && LeaseCounts(entries, leases, acqs) && Acquisitions(entries, slots, acqs)
    ensures forall x :: x in acqs ==> Agree(entries, slots, entries - {v}, slots - {KeySlot(v)}, acqs[x])
  {
    IdleUnclaimed(entries, leases, acqs, v);
    forall x | x in acqs ensures Agree(entries, slots, entries - {v}, slots - {KeySlot(v)}, acqs[x]) {
      assert AcquisitionOk(entries, slots, x, acqs[x]);
      assert v !in acqs[x].missing;
    }
  }

  lemma EvictAcqs(entries: map<Key, Entry>, slots: map<Slot, Content>,
                  leases: map<nat, Lease>, acqs: map<nat, Acquisition>, v: Key, s: Slot, c: Content)
    requires IsIdle(entries, v) && LeaseCounts(entries, leases, acqs) && Acquisitions(entries, slots, acqs)
    requires !s.KeySlot?
    ensures Acquisitions(entries - {v}, (slots - {KeySlot(v)})[s := c], acqs)
  {
    EvictAgree(entries, slots, leases, acqs, v);
    AcqsKeep(entries, slots, acqs, entries - {v}, slots - {KeySlot(v)});
    AcqsOther(entries - {v}, slots - {KeySlot(v)}, acqs, s, c);
  }

  /** Slots that belong to no key do not matter to acquisitions. */
  lemma AcqsOther(entries: map<Key, Entry>, slots: map<Slot, Content>, acqs: map<nat, Acquisition>, s: Slot, c: Content)
    requires Acquisitions(entries, slots, acqs) && !s.KeySlot?
    ensures Acquisitions(entries, slots[s := c], acqs)
    ensures Acquisitions(entries, slots - {s}, acqs)
  {
    AcqsKeep(entries, slots, acqs, entries, slots[s := c]);
    AcqsKeep(entries, slots, acqs, entries, slots - {s});
  }

  lemma DrainedEvict(m: Manager, v: Key, n: Manager)
    requires Drained(m) && v in m.entries
    requires n.entries == m.entries - {v} && n.retirements == m.retirements
    requires n.preflights == m.preflights && n.acquisitions == m.acquisitions
    requires n.closings == Increment(m.closings, v.segment)
    ensures Drained(n)
  {
    forall s | s in n.retirements && n.retirements[s].completed ensures Quiet(n, s) {
      assert Quiet(m, s);
    }
  }

  lemma DistinctMove(slots: map<Slot, Content>, from: Slot, to: Slot, c: Content)
    requires Distinct(slots) && from in slots && HasFd(slots[from]) && HasFd(c) && to !in slots
    requires c.file.fd == slots[from].file.fd
    ensures Distinct((slots - {from})[to := c])
  {
  }

  lemma DistinctPut(slots: map<Slot, Content>, s: Slot, c: Content)
    requires Distinct(slots)
    requires HasFd(c) ==> forall r :: r in slots && r != s && HasFd(slots[r]) ==> slots[r].file.fd != c.file.fd
    ensures Distinct(slots[s := c])
  {
  }

  // ------------------------------------------------------ preflights and slots

  lemma PreflightsOther(slots: map<Slot, Content>, pres: map<nat, Preflight>, s: Slot, c: Content)
    requires Preflights(slots, pres) && !s.PreSlot?
    ensures Preflights(slots[s := c], pres)
    ensures Preflights(slots - {s}, pres)
  {
    var put := slots[s := c];
    forall p: nat ensures PreflightAt(put, pres, p) && PreflightAt(slots - {s}, pres, p) {
      assert PreflightAt(slots, pres, p);
    }
  }

  lemma PreflightsPut(slots: map<Slot, Content>, pres: map<nat, Preflight>, p: nat, c: Content, x: Preflight)
    requires Preflights(slots, pres)
    requires x.phase.PreHolding? || (x.phase.PreSpent? && c.Vacant?)
    ensures Preflights(slots[PreSlot(p) := c], pres[p := x])
  {
    var put, xs := slots[PreSlot(p) := c], pres[p := x];
    forall q: nat ensures PreflightAt(put, xs, q) {
      assert PreflightAt(slots, pres, q);
    }
  }

  lemma PreflightsGone(slots: map<Slot, Content>, pres: map<nat, Preflight>, p: nat, x: Preflight)
    requires Preflights(slots, pres) && (x.phase.PreWaiting? || x.phase.PreFinished?)
    ensures Preflights(slots - {PreSlot(p)}, pres[p := x])
    ensures Preflights(slots - {PreSlot(p)}, pres - {p})
  {
    var xs := pres[p := x];
    forall q: nat
      ensures PreflightAt(slots - {PreSlot(p)}, xs, q)
      ensures PreflightAt(slots - {PreSlot(p)}, pres - {p}, q)
    {
      assert PreflightAt(slots, pres, q);
    }
  }

  /** A slot's content changes without entering or leaving the table. */
  predicate MayHold(entries: map<Key, Entry>, s: Slot, c: Content) {
    match s
    case KeySlot(k) => k in entries && entries[k].Opening? && !c.InTable?
    case PreSlot(_) => !c.InTable?
    case FreeSlot(_) => c.Closing?
  }

  lemma TableContent(entries: map<Key, Entry>, slots: map<Slot, Content>, nextFree: nat, s: Slot, c: Content)
    requires Table(entries, slots, nextFree) && MayHold(entries, s, c) && (s.PreSlot? || s in slots)
    ensures Table(entries, slots[s := c], nextFree)
  {
    var put := slots[s := c];
    forall r ensures TableAt(entries, put, nextFree, r) { assert TableAt(entries, slots, nextFree, r); }
  }

  lemma TableFree(entries: map<Key, Entry>, slots: map<Slot, Content>, nextFree: nat, c: Content)
    requires Table(entries, slots, nextFree) && c.Closing?
    ensures Table(entries, slots[FreeSlot(nextFree) := c], nextFree + 1)
  {
    var put, next := slots[FreeSlot(nextFree) := c], nextFree + 1;
    forall r ensures TableAt(entries, put, next, r) {
      assert TableAt(entries, slots, nextFree, r);
    }
  }

  lemma TableGone(entries: map<Key, Entry>, slots: map<Slot, Content>, nextFree: nat, s: Slot)
    requires Table(entries, slots, nextFree) && !s.KeySlot?
    ensures Table(entries, slots - {s}, nextFree)
  {
    forall r ensures TableAt(entries, slots - {s}, nextFree, r) { assert TableAt(entries, slots, nextFree, r); }
  }

  lemma TableReserve(entries: map<Key, Entry>, slots: map<Slot, Content>, nextFree: nat, k: Key, e: Entry, c: Content)
    requires Table(entries, slots, nextFree) && e.Opening? && e.handle.key == k && !c.InTable?
    ensures Table(entries[k := e], slots[KeySlot(k) := c], nextFree)
  {
    var es := entries[k := e];
    var put := slots[KeySlot(k) := c];
    forall r ensures TableAt(es, put, nextFree, r) {
      assert TableAt(entries, slots, nextFree, r);
    }
  }

  // -------------------------------------------------------------- retirement

  /** Neither the table's keys nor the activity grew: quiet segments stay quiet. */
  lemma DrainedShrink(m: Manager, n: Manager)
    requires Drained(m) && n.retirements == m.retirements && n.entries.Keys <= m.entries.Keys
    requires n.preflights.Keys <= m.preflights.Keys && n.acquisitions.Keys <= m.acquisitions.Keys
    requires n.closings.Keys <= m.closings.Keys
    ensures Drained(n)
  {
    forall s | s in n.retirements && n.retirements[s].completed ensures Quiet(n, s) {
      assert Quiet(m, s);
      assert forall k :: k in n.entries ==> k in m.entries;
    }
  }

}
