/** Every elementary governor step keeps the invariant `Core`. */
module GovernorProof {
  import opened GovernorModel
  import opened GovernorCounting
  import opened GovernorFrames
  import opened GovernorSteps

  // ------------------------------------------------ registering an acquisition

  lemma RegisterTally(w: World, t: nat, handles: seq<Handle>)
    requires AcqTally(w.m.acquisitions, w.acqs) && CanRegister(w, t, handles)
    ensures AcqTally(Register(w, t, handles).m.acquisitions, Register(w, t, handles).acqs)
  {
    var v := Register(w, t, handles);
    forall s ensures |AcqsIn(v.acqs, s)| == |AcqsIn(w.acqs, s)| + Bit(s in Segments(handles)) {
      PutAcqIn(w.acqs, t, v.acqs[t], s);
    }
  }

  lemma SameClaimCounts(entries: map<Key, Entry>, leases: map<nat, Lease>, acqs: map<nat, Acquisition>, t: nat, a: Acquisition)
    requires LeaseCounts(entries, leases, acqs)
    requires forall k :: k in a.existing <==> t in acqs && k in acqs[t].existing
    ensures LeaseCounts(entries, leases, acqs[t := a])
  {
    forall k ensures |AcqsOn(acqs[t := a], k)| == |AcqsOn(acqs, k)| { PutAcqOn(acqs, t, a, k); }
  }

  lemma RegisterOk(w: World, t: nat, handles: seq<Handle>)
    requires CanRegister(w, t, handles)
    ensures AcquisitionOk(w.m.entries, w.slots, t, Register(w, t, handles).acqs[t])
  {
  }

  lemma RegisterClaims(w: World, t: nat, handles: seq<Handle>)
    requires ClaimPart(w) && CanRegister(w, t, handles)
    ensures ClaimPart(Register(w, t, handles))
  {
    hide LeaseCounts, AcqTally, IdleQueue, Leased, AcquisitionOk;
    var v := Register(w, t, handles);
    RegisterTally(w, t, handles);
    RegisterOk(w, t, handles);
    AcqsFrame(w.m.entries, w.slots, w.acqs, w.m.entries, w.slots, t, v.acqs[t]);
    SameClaimCounts(w.m.entries, w.leases, w.acqs, t, v.acqs[t]);
  }

  lemma RegisterCore(w: World, t: nat, handles: seq<Handle>)
    requires Core(w) && CanRegister(w, t, handles)
    ensures Core(Register(w, t, handles))
  {
    var v := Register(w, t, handles);
    RegisterClaims(w, t, handles);
    forall s | s in v.m.retirements && v.m.retirements[s].completed ensures Quiet(v.m, s) { assert Quiet(w.m, s); }
  }

  lemma UnregisterTally(w: World, t: nat)
    requires AcqTally(w.m.acquisitions, w.acqs) && t in w.acqs
    ensures AcqTally(Unregister(w, t).m.acquisitions, Unregister(w, t).acqs)
  {
    var v := Unregister(w, t);
    forall s
      ensures |AcqsIn(v.acqs, s)| == |AcqsIn(w.acqs, s)| - Bit(s in w.acqs[t].segs)
      ensures s in w.acqs[t].segs ==> s in w.m.acquisitions
    {
      assert AcqsIn(v.acqs, s) == AcqsIn(w.acqs, s) - {t};
      if s in w.acqs[t].segs { AcqTallyPositive(w.m.acquisitions, w.acqs, t, s); }
    }
  }

  lemma UnregisterClaims(w: World, t: nat)
    requires ClaimPart(w) && CanUnregister(w, t)
    ensures ClaimPart(Unregister(w, t))
  {
    var v := Unregister(w, t);
    UnregisterTally(w, t);
    forall k ensures |AcqsOn(v.acqs, k)| == |AcqsOn(w.acqs, k)| { assert AcqsOn(v.acqs, k) == AcqsOn(w.acqs, k); }
    assert LeaseCounts(v.m.entries, v.leases, v.acqs);
  }

  lemma UnregisterCore(w: World, t: nat)
    requires Core(w) && CanUnregister(w, t)
    ensures Core(Unregister(w, t))
  {
    UnregisterClaims(w, t);
    DrainedShrink(w.m, Unregister(w, t).m);
  }

  /** A step that only rewrites the bookkeeping of acquisition `t`. */
  lemma AcqOnly(w: World, t: nat, a: Acquisition)
    requires ClaimPart(w) && t in w.acqs
    requires a.segs == w.acqs[t].segs && a.existing == w.acqs[t].existing && a.missing == w.acqs[t].missing
    requires AcquisitionOk(w.m.entries, w.slots, t, a)
    ensures ClaimPart(w.(acqs := w.acqs[t := a]))
  {
    hide AcquisitionOk;
    AcqTallySame(w.m.acquisitions, w.acqs, t, a);
    AcqsFrame(w.m.entries, w.slots, w.acqs, w.m.entries, w.slots, t, a);
    SameClaimCounts(w.m.entries, w.leases, w.acqs, t, a);
  }

  lemma StartReservingCore(w: World, t: nat)
    requires Core(w) && CanStartReserving(w, t)
    ensures Core(StartReserving(w, t))
  {
    var v := StartReserving(w, t);
    assert AcquisitionOk(w.m.entries, w.slots, t, w.acqs[t]);
    AcqOnly(w, t, v.acqs[t]);
    DrainedShrink(w.m, v.m);
  }

  lemma FinishRollbackCore(w: World, t: nat)
    requires Core(w) && CanFinishRollback(w, t)
    ensures Core(FinishRollback(w, t))
  {
    assert AcquisitionOk(w.m.entries, w.slots, t, w.acqs[t]);
    AcqOnly(w, t, FinishRollback(w, t).acqs[t]);
  }

  lemma CanFinishPublishFiles(w: World, t: nat)
    requires Core(w) && CanFinishPublish(w, t)
    ensures forall k :: k in w.acqs[t].existing ==> k in w.m.entries && w.m.entries[k].Open?
  {
    assert AcquisitionOk(w.m.entries, w.slots, t, w.acqs[t]);
  }

  lemma FinishPublishCore(w: World, t: nat)
    requires Core(w) && CanFinishPublish(w, t)
    requires forall k :: k in w.acqs[t].existing ==> k in w.m.entries && w.m.entries[k].Open?
    ensures Core(FinishPublish(w, t))
  {
    hide LeaseCounts, AcqTally, IdleQueue, Leased, AcquisitionOk;
    FinishPublishOk(w, t);
    AcqOnly(w, t, FinishPublish(w, t).acqs[t]);
  }

  lemma FinishPublishOk(w: World, t: nat)
    requires Acquisitions(w.m.entries, w.slots, w.acqs) && CanFinishPublish(w, t)
    requires forall k :: k in w.acqs[t].existing ==> k in w.m.entries && w.m.entries[k].Open?
    ensures AcquisitionOk(w.m.entries, w.slots, t, FinishPublish(w, t).acqs[t])
  {
    assert AcquisitionOk(w.m.entries, w.slots, t, w.acqs[t]);
  }

  // ----------------------------------------------------------- pending leases

  lemma ClaimAcqs(w: World, t: nat, k: Key)
    requires CanClaim(w, t, k) && Acquisitions(w.m.entries, w.slots, w.acqs)
    ensures Acquisitions(Claim(w, t, k).m.entries, w.slots, Claim(w, t, k).acqs)
  {
    var v := Claim(w, t, k);
    var e := v.m.entries[k];
    assert v.m.entries == w.m.entries[k := e];
    LeaseChangeAgree(w.m.entries, w.slots, w.acqs, k, e);
    assert AcquisitionOk(w.m.entries, w.slots, t, w.acqs[t]);
    AcqFrame(w.m.entries, w.slots, v.m.entries, w.slots, t, w.acqs[t]);
    AcqsFrame(w.m.entries, w.slots, w.acqs, v.m.entries, w.slots, t, v.acqs[t]);
  }

  lemma ClaimClaims(w: World, t: nat, k: Key)
    requires ClaimPart(w) && CanClaim(w, t, k)
    ensures ClaimPart(Claim(w, t, k))
  {
    hide AcquisitionOk;
    var v := Claim(w, t, k);
    var e := v.m.entries[k];
    IdleClaim(w.m.entries, w.m.idle, k, e);
    AcqTallySame(w.m.acquisitions, w.acqs, t, v.acqs[t]);
    AcqsOnPut(w.acqs, t, v.acqs[t], k);
    LeaseCountsPut(w.m.entries, w.leases, w.acqs, k, e, w.leases, v.acqs);
    LeaseChangeClaims(w.m.entries, w.leases, w.acqs, k, e);
    ClaimAcqs(w, t, k);
    assert Owned(v.m.entries, v.acqs);
  }

  lemma ClaimCore(w: World, t: nat, k: Key)
    requires Core(w) && CanClaim(w, t, k)
    ensures Core(Claim(w, t, k))
  {
    var v := Claim(w, t, k);
    ClaimClaims(w, t, k);
    TableLease(w.m.entries, w.slots, w.nextFree, k, v.m.entries[k]);
    DrainedPut(w.m, k, v.m.entries[k], v.m);
  }

  lemma CanUnclaimLeases(w: World, t: nat)
    requires ClaimPart(w) && CanUnclaim(w, t)
    ensures var k := w.acqs[t].existing[0];
            k in w.m.entries && w.m.entries[k].Open? && w.m.entries[k].leases > 0
  {
    var k := w.acqs[t].existing[0];
    assert AcquisitionOk(w.m.entries, w.slots, t, w.acqs[t]);
    assert k in w.acqs[t].existing;
    ClaimedPositive(w.m.entries, w.leases, w.acqs, k);
  }

  lemma UnclaimAcqs(w: World, t: nat)
    requires ClaimPart(w) && CanUnclaim(w, t)
    requires var k := w.acqs[t].existing[0];
             k in w.m.entries && w.m.entries[k].Open? && w.m.entries[k].leases > 0
    ensures Acquisitions(Unclaim(w, t).m.entries, w.slots, Unclaim(w, t).acqs)
  {
    hide LeaseCounts, AcqTally, Leased, IdleQueue, Owned;
    var v := Unclaim(w, t);
    var k := w.acqs[t].existing[0];
    var e := v.m.entries[k];
    assert v.m.entries == w.m.entries[k := e];
    LeaseChangeAgree(w.m.entries, w.slots, w.acqs, k, e);
    assert AcquisitionOk(w.m.entries, w.slots, t, w.acqs[t]);
    AcqFrame(w.m.entries, w.slots, v.m.entries, w.slots, t, w.acqs[t]);
    AcqsFrame(w.m.entries, w.slots, w.acqs, v.m.entries, w.slots, t, v.acqs[t]);
  }

  lemma HeadTail<T>(s: seq<T>, k: T, tail: seq<T>)
    requires NoDup(s) && s == [k] + tail
    ensures k !in tail && forall x :: x in s <==> x == k || x in tail
  {
    assert s[0] == k && forall i :: 0 <= i < |tail| ==> tail[i] == s[i + 1];
    forall i | 0 <= i < |tail| ensures tail[i] != k { assert s[0] != s[i + 1]; }
  }

  lemma UnclaimCounts(entries: map<Key, Entry>, leases: map<nat, Lease>, acqs: map<nat, Acquisition>,
                      t: nat, a: Acquisition, k: Key, e: Entry)
    requires LeaseCounts(entries, leases, acqs) && t in acqs && k in entries && entries[k].Open?
    requires NoDup(acqs[t].existing) && acqs[t].existing == [k] + a.existing
    requires e.Open? && e.leases == entries[k].leases - 1
    ensures LeaseCounts(entries[k := e], leases, acqs[t := a])
  {
    HeadTail(acqs[t].existing, k, a.existing);
    AcqsOnPut(acqs, t, a, k);
    LeaseCountsPut(entries, leases, acqs, k, e, leases, acqs[t := a]);
  }

  lemma ClaimedOnce(w: World, t: nat)
    requires Acquisitions(w.m.entries, w.slots, w.acqs) && t in w.acqs
    ensures NoDup(w.acqs[t].existing)
  {
    assert AcquisitionOk(w.m.entries, w.slots, t, w.acqs[t]);
  }

  lemma UnclaimClaims(w: World, t: nat)
    requires ClaimPart(w) && CanUnclaim(w, t)
    requires var k := w.acqs[t].existing[0];
             k in w.m.entries && w.m.entries[k].Open? && w.m.entries[k].leases > 0
    ensures ClaimPart(Unclaim(w, t))
  {
    hide LeaseCounts, AcqTally, Leased, IdleQueue, AcquisitionOk;
    var v := Unclaim(w, t);
    var a := w.acqs[t];
    var k := a.existing[0];
    var e := v.m.entries[k];
    UnclaimAcqs(w, t);
    ClaimedOnce(w, t);
    assert a.existing == [k] + a.existing[1..];
    AcqTallySame(w.m.acquisitions, w.acqs, t, v.acqs[t]);
    UnclaimCounts(w.m.entries, w.leases, w.acqs, t, v.acqs[t], k, e);
    UnleaseIdle(w.m.entries, w.m.idle, k);
    LeaseChangeClaims(w.m.entries, w.leases, w.acqs, k, e);
  }

  lemma UnclaimCore(w: World, t: nat)
    requires Core(w) && CanUnclaim(w, t)
    requires var k := w.acqs[t].existing[0];
             k in w.m.entries && w.m.entries[k].Open? && w.m.entries[k].leases > 0
    ensures Core(Unclaim(w, t))
  {
    var k := w.acqs[t].existing[0];
    var v := Unclaim(w, t);
    UnclaimClaims(w, t);
    TableLease(w.m.entries, w.slots, w.nextFree, k, v.m.entries[k]);
    DrainedPut(w.m, k, v.m.entries[k], v.m);
  }

  // -------------------------------------------------------- detached closing

  /** The counters, tally and descriptors when an open entry's descriptor moves to slot `s`. */
  lemma EvictSlots(max: nat, n: Counts, closings: map<string, nat>, slots: map<Slot, Content>, k: Key, s: Slot, c: Content, n': Counts)
    requires Conserved(max, n, slots) && ClosingTally(closings, slots) && Distinct(slots)
    requires KeySlot(k) in slots && slots[KeySlot(k)].InTable? && s !in slots
    requires c == Closing(k, slots[KeySlot(k)].file, false)
    requires n' == n.(reserved := n.reserved + Bit(s.PreSlot?))
    ensures Conserved(max, n', (slots - {KeySlot(k)})[s := c])
    ensures ClosingTally(Increment(closings, k.segment), (slots - {KeySlot(k)})[s := c])
    ensures Distinct((slots - {KeySlot(k)})[s := c])
  {
    var mid := slots - {KeySlot(k)};
    ConservedDel(max, n, slots, KeySlot(k));
    ConservedPut(max, CountsDel(n, slots, KeySlot(k)), mid, s, c);
    assert CountsPut(CountsDel(n, slots, KeySlot(k)), mid, s, c) == n';
    ClosingGone(closings, slots, KeySlot(k));
    ClosingStart(closings, mid, s, c);
    DistinctMove(slots, KeySlot(k), s, c);
  }

  lemma EvictClaims(w: World, k: Key, s: Slot, c: Content)
    requires ClaimPart(w) && IsIdle(w.m.entries, k) && !s.KeySlot?
    ensures IdleQueue(w.m.entries - {k}, Without(w.m.idle, k))
    ensures LeaseCounts(w.m.entries - {k}, w.leases, w.acqs)
    ensures Leased(w.m.entries - {k}, w.leases)
    ensures Acquisitions(w.m.entries - {k}, (w.slots - {KeySlot(k)})[s := c], w.acqs)
    ensures Owned(w.m.entries - {k}, w.acqs)
  {
    EvictParts(w.m.entries, w.leases, w.acqs, k);
    EvictAcqs(w.m.entries, w.slots, w.leases, w.acqs, k, s, c);
    IdleEvict(w.m.entries, w.m.idle, k);
  }

  lemma EvictTable(entries: map<Key, Entry>, slots: map<Slot, Content>, nextFree: nat, pres: map<nat, Preflight>, k: Key, c: Content)
    requires Table(entries, slots, nextFree) && Preflights(slots, pres) && c.Closing?
    ensures Table(entries - {k}, (slots - {KeySlot(k)})[FreeSlot(nextFree) := c], nextFree + 1)
    ensures Preflights((slots - {KeySlot(k)})[FreeSlot(nextFree) := c], pres)
  {
    TableEvict(entries, slots, nextFree, k);
    TableFree(entries - {k}, slots - {KeySlot(k)}, nextFree, c);
    PreflightsOther(slots, pres, KeySlot(k), c);
    PreflightsOther(slots - {KeySlot(k)}, pres, FreeSlot(nextFree), c);
  }

  lemma IdleSlot(w: World, k: Key)
    requires Table(w.m.entries, w.slots, w.nextFree) && IsIdle(w.m.entries, k)
    ensures KeySlot(k) in w.slots && w.slots[KeySlot(k)] == InTable(w.m.entries[k].file)
    ensures FreeSlot(w.nextFree) !in w.slots
  {
    assert TableAt(w.m.entries, w.slots, w.nextFree, KeySlot(k));
    assert TableAt(w.m.entries, w.slots, w.nextFree, FreeSlot(w.nextFree));
  }

  lemma EvictSlotPart(w: World, k: Key)
    requires SlotPart(w) && CanEvict(w, k)
    ensures SlotPart(Evict(w, k))
  {
    hide Conserved, ClosingTally, Distinct, Table, Preflights, PreTally;
    var v := Evict(w, k);
    var s := FreeSlot(w.nextFree);
    IdleSlot(w, k);
    assert Conserved(v.max, v.m.counts, v.slots) && ClosingTally(v.m.closings, v.slots) && Distinct(v.slots) by {
      EvictSlots(w.max, w.m.counts, w.m.closings, w.slots, k, s, v.slots[s], v.m.counts);
    }
    assert Table(v.m.entries, v.slots, v.nextFree) && Preflights(v.slots, v.pres) by {
      EvictTable(w.m.entries, w.slots, w.nextFree, w.pres, k, v.slots[s]);
    }
  }

  lemma EvictCore(w: World, k: Key)
    requires Core(w) && CanEvict(w, k)
    ensures Core(Evict(w, k))
  {
    EvictSlotPart(w, k);
    EvictClaims(w, k, FreeSlot(w.nextFree), Closing(k, w.m.entries[k].file, false));
    DrainedEvict(w.m, k, Evict(w, k).m);
  }

  lemma TakeIdleSlotSlots(w: World, p: nat, k: Key)
    requires SlotPart(w) && CanTakeIdleSlot(w, p, k)
    ensures SlotPart(TakeIdleSlot(w, p, k))
  {
    var v := TakeIdleSlot(w, p, k);
    var s, mid := PreSlot(p), w.slots - {KeySlot(k)};
    var c := Closing(k, w.m.entries[k].file, false);
    assert TableAt(w.m.entries, w.slots, w.nextFree, KeySlot(k));
    assert PreflightAt(w.slots, w.pres, p);
    EvictSlots(w.max, w.m.counts, w.m.closings, w.slots, k, s, c, v.m.counts);
    TableEvict(w.m.entries, w.slots, w.nextFree, k);
    TableContent(w.m.entries - {k}, mid, w.nextFree, s, c);
    PreflightsOther(w.slots, w.pres, KeySlot(k), c);
    PreflightsPut(mid, w.pres, p, c, v.pres[p]);
    PreTallySame(w.m.preflights, w.pres, p, v.pres[p]);
  }

  lemma TakeIdleSlotCore(w: World, p: nat, k: Key)
    requires Core(w) && CanTakeIdleSlot(w, p, k)
    ensures Core(TakeIdleSlot(w, p, k))
  {
    TakeIdleSlotSlots(w, p, k);
    EvictClaims(w, k, PreSlot(p), Closing(k, w.m.entries[k].file, false));
    DrainedEvict(w.m, k, TakeIdleSlot(w, p, k).m);
  }

  // ------------------------------------------------------------ reservations

  /** A new key is reserved for acquisition `t`. */
  lemma ReserveAcqs(entries: map<Key, Entry>, slots: map<Slot, Content>, acqs: map<nat, Acquisition>,
                    t: nat, k: Key, e: Entry, c: Content)
    requires Acquisitions(entries, slots, acqs) && t in acqs && k !in entries
    requires acqs[t].phase.Reserving? && acqs[t].openCount == 0 && k.segment in acqs[t].segs
    requires e.Opening? && e.op == acqs[t].op && e.owner == t && (c.Vacant? || c.Closing?) && e.handle in acqs[t].handles
    ensures Acquisitions(entries[k := e], slots[KeySlot(k) := c], acqs[t := acqs[t].(missing := acqs[t].missing + [k])])
  {
    var a := acqs[t];
    hide AcquisitionOk, Agree;
    forall x | x in acqs ensures Agree(entries, slots, entries[k := e], slots[KeySlot(k) := c], acqs[x]) {
      ReserveAgrees(entries, slots, x, acqs[x], k, e, c);
    }
    assert AcquisitionOk(entries, slots, t, a);
    NotReserved(entries, slots, t, a, k);
    AcqFrame(entries, slots, entries[k := e], slots[KeySlot(k) := c], t, a);
    ReserveOne(entries[k := e], slots[KeySlot(k) := c], t, a, k);
    AcqsFrame(entries, slots, acqs, entries[k := e], slots[KeySlot(k) := c], t, a.(missing := a.missing + [k]));
  }

  lemma NotReserved(entries: map<Key, Entry>, slots: map<Slot, Content>, t: nat, a: Acquisition, k: Key)
    requires AcquisitionOk(entries, slots, t, a) && k !in entries
    ensures k !in a.missing
  {
  }

  lemma ReserveAgrees(entries: map<Key, Entry>, slots: map<Slot, Content>, x: nat, a: Acquisition, k: Key, e: Entry, c: Content)
    requires AcquisitionOk(entries, slots, x, a) && k !in entries
    ensures Agree(entries, slots, entries[k := e], slots[KeySlot(k) := c], a)
  {
  }

  lemma ReserveOne(entries: map<Key, Entry>, slots: map<Slot, Content>, t: nat, a: Acquisition, k: Key)
    requires AcquisitionOk(entries, slots, t, a) && k in entries && k !in a.missing && KeySlot(k) in slots
    requires a.phase.Reserving? && a.openCount == 0 && k.segment in a.segs
    requires entries[k].Opening? && entries[k].op == a.op && entries[k].owner == t && entries[k].handle in a.handles
    requires slots[KeySlot(k)].Vacant? || slots[KeySlot(k)].Closing?
    ensures AcquisitionOk(entries, slots, t, a.(missing := a.missing + [k]))
  {
  }

  lemma ReserveOwned(entries: map<Key, Entry>, leases: map<nat, Lease>, acqs: map<nat, Acquisition>, t: nat, k: Key, e: Entry)
    requires Owned(entries, acqs) && Leased(entries, leases) && LeaseCounts(entries, leases, acqs)
    requires t in acqs && k !in entries && e.Opening? && e.owner == t
    ensures var acqs' := acqs[t := acqs[t].(missing := acqs[t].missing + [k])];
            Owned(entries[k := e], acqs') && Leased(entries[k := e], leases) && LeaseCounts(entries[k := e], leases, acqs')
  {
    var a := acqs[t].(missing := acqs[t].missing + [k]);
    AcqsOnPut(acqs, t, a, k);
    LeaseCountsPut(entries, leases, acqs, k, e, leases, acqs[t := a]);
  }

  lemma ReserveClaims(w: World, t: nat, h: Handle)
    requires ClaimPart(w) && CanReserve(w, t, h)
    ensures ClaimPart(Reserve(w, t, h))
  {
    var v := Reserve(w, t, h);
    var e := v.m.entries[h.key];
    ReserveAcqs(w.m.entries, w.slots, w.acqs, t, h.key, e, Vacant);
    ReserveOwned(w.m.entries, w.leases, w.acqs, t, h.key, e);
    AcqTallySame(w.m.acquisitions, w.acqs, t, v.acqs[t]);
    IdleKeep(w.m.entries, w.m.idle, h.key, e);
  }

  lemma ReserveSlots(w: World, t: nat, h: Handle)
    requires SlotPart(w) && CanReserve(w, t, h) && w.m.counts.occupied < w.max
    ensures SlotPart(Reserve(w, t, h))
  {
    var v := Reserve(w, t, h);
    var s := KeySlot(h.key);
    assert TableAt(w.m.entries, w.slots, w.nextFree, s);
    ConservedPut(w.max, w.m.counts, w.slots, s, Vacant);
    assert CountsPut(w.m.counts, w.slots, s, Vacant) == v.m.counts;
    ClosingSame(w.m.closings, w.slots, s, Vacant);
    DistinctPut(w.slots, s, Vacant);
    TableReserve(w.m.entries, w.slots, w.nextFree, h.key, v.m.entries[h.key], Vacant);
    PreflightsOther(w.slots, w.pres, s, Vacant);
  }

  lemma ReserveCore(w: World, t: nat, h: Handle)
    requires Core(w) && CanReserve(w, t, h) && w.m.counts.occupied < w.max
    ensures Core(Reserve(w, t, h))
  {
    ReserveClaims(w, t, h);
    ReserveSlots(w, t, h);
    AcqTallyPositive(w.m.acquisitions, w.acqs, t, h.key.segment);
    DrainedPut(w.m, h.key, Reserve(w, t, h).m.entries[h.key], Reserve(w, t, h).m);
  }

  lemma TransferClaims(w: World, t: nat, k: Key, h: Handle)
    requires ClaimPart(w) && CanTransfer(w, t, k, h)
    ensures ClaimPart(Transfer(w, t, k, h))
  {
    var v := Transfer(w, t, k, h);
    var e, c := v.m.entries[h.key], v.slots[KeySlot(h.key)];
    var es, mid := w.m.entries - {k}, w.slots - {KeySlot(k)};
    EvictParts(w.m.entries, w.leases, w.acqs, k);
    EvictAgree(w.m.entries, w.slots, w.leases, w.acqs, k);
    AcqsKeep(w.m.entries, w.slots, w.acqs, es, mid);
    IdleEvict(w.m.entries, w.m.idle, k);
    ReserveAcqs(es, mid, w.acqs, t, h.key, e, c);
    ReserveOwned(es, w.leases, w.acqs, t, h.key, e);
    AcqTallySame(w.m.acquisitions, w.acqs, t, v.acqs[t]);
    IdleKeep(es, v.m.idle, h.key, e);
  }

  lemma TransferSlots(w: World, t: nat, k: Key, h: Handle)
    requires SlotPart(w) && CanTransfer(w, t, k, h)
    ensures SlotPart(Transfer(w, t, k, h))
  {
    var v := Transfer(w, t, k, h);
    var s, mid := KeySlot(h.key), w.slots - {KeySlot(k)};
    var c := v.slots[s];
    assert TableAt(w.m.entries, w.slots, w.nextFree, KeySlot(k)) && TableAt(w.m.entries, w.slots, w.nextFree, s);
    EvictSlots(w.max, w.m.counts, w.m.closings, w.slots, k, s, c, v.m.counts);
    TableEvict(w.m.entries, w.slots, w.nextFree, k);
    TableReserve(w.m.entries - {k}, mid, w.nextFree, h.key, v.m.entries[h.key], c);
    PreflightsOther(w.slots, w.pres, KeySlot(k), c);
    PreflightsOther(mid, w.pres, s, c);
  }

  lemma TransferCore(w: World, t: nat, k: Key, h: Handle)
    requires Core(w) && CanTransfer(w, t, k, h)
    ensures Core(Transfer(w, t, k, h))
  {
    var v := Transfer(w, t, k, h);
    TransferSlots(w, t, k, h);
    TransferClaims(w, t, k, h);
    AcqTallyPositive(w.m.acquisitions, w.acqs, t, h.key.segment);
    var m := w.m.(entries := w.m.entries - {k}, closings := v.m.closings);
    DrainedEvict(w.m, k, m);
    DrainedPut(m, h.key, v.m.entries[h.key], v.m);
  }

  // ---------------------------------------------------- opening reserved files

  /** Acquisition `t` changes the content of its own reservation number `i`. */
  lemma OwnSlotAcqs(entries: map<Key, Entry>, slots: map<Slot, Content>, acqs: map<nat, Acquisition>,
                    t: nat, i: nat, c: Content, a: Acquisition)
    requires Acquisitions(entries, slots, acqs) && t in acqs && i < |acqs[t].missing|
    requires a.missing == acqs[t].missing && WellFormed(a) && ClaimsOk(entries, a) && a.op == acqs[t].op && a.handles == acqs[t].handles
    requires ReservationContent(a, i, c)
    requires forall j, x :: j != i && ReservationContent(acqs[t], j, x) ==> ReservationContent(a, j, x)
    ensures Acquisitions(entries, slots[KeySlot(acqs[t].missing[i]) := c], acqs[t := a])
  {
    var k := acqs[t].missing[i];
    var put := slots[KeySlot(k) := c];
    assert AcquisitionOk(entries, slots, t, acqs[t]);
    forall x | x in acqs && x != t ensures Agree(entries, slots, entries, put, acqs[x]) {
      assert AcquisitionOk(entries, slots, x, acqs[x]);
      assert k !in acqs[x].missing;
    }
    assert ReservationsOk(entries, put, t, a);
    AcqsFrame(entries, slots, acqs, entries, put, t, a);
  }

  /** Its claims and reservations stay the same sets. */
  lemma SameListsClaims(w: World, t: nat, a: Acquisition, slots: map<Slot, Content>)
    requires ClaimPart(w) && t in w.acqs
    requires a.segs == w.acqs[t].segs && a.existing == w.acqs[t].existing && a.missing == w.acqs[t].missing
    requires Acquisitions(w.m.entries, slots, w.acqs[t := a])
    ensures ClaimPart(w.(acqs := w.acqs[t := a], slots := slots))
  {
    AcqTallySame(w.m.acquisitions, w.acqs, t, a);
    SameClaimCounts(w.m.entries, w.leases, w.acqs, t, a);
  }

  lemma OpenHandClaims(w: World, t: nat, f: File)
    requires ClaimPart(w) && CanOpenHand(w, t, f)
    ensures ClaimPart(OpenHand(w, t, f))
  {
    var a := w.acqs[t];
    var v := OpenHand(w, t, f);
    assert AcquisitionOk(w.m.entries, w.slots, t, a);
    OwnSlotAcqs(w.m.entries, w.slots, w.acqs, t, a.openCount, InHand(f), a);
    assert w.acqs[t := a] == w.acqs;
  }

  lemma OpenHandCore(w: World, t: nat, f: File)
    requires Core(w) && CanOpenHand(w, t, f)
    ensures Core(OpenHand(w, t, f))
  {
    var k := w.acqs[t].missing[w.acqs[t].openCount];
    OpenHandClaims(w, t, f);
    OwnKey(w, t, w.acqs[t].openCount);
    HandSlots(w, KeySlot(k), f);
  }

  lemma OwnKey(w: World, t: nat, i: nat)
    requires ClaimPart(w) && t in w.acqs && i < |w.acqs[t].missing|
    ensures var k := w.acqs[t].missing[i];
            k in w.m.entries && w.m.entries[k].Opening? && KeySlot(k) in w.slots
  {
    assert AcquisitionOk(w.m.entries, w.slots, t, w.acqs[t]);
  }

  /** A fresh descriptor appears in a vacant slot. */
  lemma HandSlots(w: World, s: Slot, f: File)
    requires SlotPart(w) && FreshFd(w, f.fd) && s in w.slots && w.slots[s].Vacant?
    requires MayHold(w.m.entries, s, InHand(f))
    requires s.PreSlot? ==> s.id in w.pres && !w.pres[s.id].phase.PreSpent?
    ensures SlotPart(w.(slots := w.slots[s := InHand(f)]))
  {
    var c := InHand(f);
    ConservedPut(w.max, w.m.counts, w.slots, s, c);
    assert CountsPut(w.m.counts, w.slots, s, c) == w.m.counts;
    ClosingSame(w.m.closings, w.slots, s, c);
    DistinctPut(w.slots, s, c);
    TableContent(w.m.entries, w.slots, w.nextFree, s, c);
    SamePhase(w.slots, w.pres, s, c);
  }

  /** A content change that needs no change of preflight phase. */
  lemma SamePhase(slots: map<Slot, Content>, pres: map<nat, Preflight>, s: Slot, c: Content)
    requires Preflights(slots, pres) && s in slots
    requires s.PreSlot? ==> s.id in pres && !pres[s.id].phase.PreSpent?
    ensures Preflights(slots[s := c], pres)
  {
    if s.PreSlot? {
      assert PreflightAt(slots, pres, s.id);
      PreflightsPut(slots, pres, s.id, c, pres[s.id]);
      assert pres[s.id := pres[s.id]] == pres;
    } else {
      PreflightsOther(slots, pres, s, c);
    }
  }

  /** The descriptor in a slot is accounted. */
  lemma AccountSlots(w: World, s: Slot, n: Counts)
    requires SlotPart(w) && s in w.slots && w.slots[s].InHand? && MayHold(w.m.entries, s, Vacant)
    requires s.PreSlot? ==> s.id in w.pres && !w.pres[s.id].phase.PreSpent?
    requires n == w.m.counts.(live := w.m.counts.live + 1,
                              pending := w.m.counts.pending + Bit(s.KeySlot?),
                              livePreflights := w.m.counts.livePreflights + Bit(s.PreSlot?))
    ensures SlotPart(w.(slots := w.slots[s := Pending(w.slots[s].file, false)], m := w.m.(counts := n)))
  {
    var c := Pending(w.slots[s].file, false);
    ConservedPut(w.max, w.m.counts, w.slots, s, c);
    assert CountsPut(w.m.counts, w.slots, s, c) == n;
    ClosingSame(w.m.closings, w.slots, s, c);
    DistinctPut(w.slots, s, c);
    TableContent(w.m.entries, w.slots, w.nextFree, s, c);
    SamePhase(w.slots, w.pres, s, c);
  }

  lemma AccountClaims(w: World, t: nat)
    requires ClaimPart(w) && CanAccount(w, t)
    ensures ClaimPart(Account(w, t))
  {
    var v := Account(w, t);
    var a := w.acqs[t];
    var s := KeySlot(a.missing[a.openCount]);
    assert AcquisitionOk(w.m.entries, w.slots, t, a);
    OwnSlotAcqs(w.m.entries, w.slots, w.acqs, t, a.openCount, v.slots[s], v.acqs[t]);
    SameListsClaims(w, t, v.acqs[t], v.slots);
  }

  lemma AccountCore(w: World, t: nat)
    requires Core(w) && CanAccount(w, t)
    ensures Core(Account(w, t))
  {
    hide LeaseCounts, AcqTally, Leased, IdleQueue, AcquisitionOk, Owned;
    var v := Account(w, t);
    AccountClaims(w, t);
    OwnKey(w, t, w.acqs[t].openCount);
    AccountSlots(w, KeySlot(w.acqs[t].missing[w.acqs[t].openCount]), v.m.counts);
    DrainedShrink(w.m, v.m);
  }

  // ---------------------------------------------------------------- rollback

  lemma FailOpenAcqs(w: World, t: nat)
    requires ClaimPart(w) && CanFailOpen(w, t)
    ensures Acquisitions(w.m.entries, FailOpen(w, t).slots, FailOpen(w, t).acqs)
  {
    var v := FailOpen(w, t);
    var a := w.acqs[t];
    assert AcquisitionOk(w.m.entries, w.slots, t, a);
    forall x | x in w.acqs && x != t ensures Agree(w.m.entries, w.slots, w.m.entries, v.slots, w.acqs[x]) {
      assert AcquisitionOk(w.m.entries, w.slots, x, w.acqs[x]);
      assert forall k :: k in w.acqs[x].missing ==> k !in a.missing;
    }
    assert ReservationsOk(w.m.entries, v.slots, t, v.acqs[t]) by {
      forall i | 0 <= i < |a.missing| ensures ReservationContent(v.acqs[t], i, v.slots[KeySlot(a.missing[i])]) {
        assert a.missing[i] in a.missing;
      }
    }
    AcqsFrame(w.m.entries, w.slots, w.acqs, w.m.entries, v.slots, t, v.acqs[t]);
  }

  lemma FailOpenOwn(w: World, t: nat, k: Key)
    requires ClaimPart(w) && CanFailOpen(w, t) && k in w.acqs[t].missing
    ensures k in w.m.entries && w.m.entries[k].Opening? && KeySlot(k) in w.slots
    ensures var c := w.slots[KeySlot(k)]; c.Vacant? || c.InHand? || (c.Pending? && !c.dropped)
  {
    assert AcquisitionOk(w.m.entries, w.slots, t, w.acqs[t]);
    var i :| 0 <= i < |w.acqs[t].missing| && w.acqs[t].missing[i] == k;
  }

  lemma FailOpenKinds(w: World, t: nat, kind: Kind)
    requires ClaimPart(w) && CanFailOpen(w, t)
    ensures In(FailOpen(w, t).slots, kind) == In(w.slots, kind)
  {
    forall s | s in w.slots && s.KeySlot? && s.key in w.acqs[t].missing
      ensures Of(kind, s, FailOpen(w, t).slots[s]) == Of(kind, s, w.slots[s])
    {
      FailOpenOwn(w, t, s.key);
    }
  }

  lemma FailOpenSlots(w: World, t: nat)
    requires SlotPart(w) && ClaimPart(w) && CanFailOpen(w, t)
    ensures SlotPart(FailOpen(w, t))
  {
    var v := FailOpen(w, t);
    assert v.slots.Keys == w.slots.Keys;
    forall kind ensures In(v.slots, kind) == In(w.slots, kind) { FailOpenKinds(w, t, kind); }
    assert Conserved(v.max, v.m.counts, v.slots);
    assert ClosingTally(v.m.closings, v.slots);
    FailOpenTable(w, t);
  }

  lemma FailOpenTable(w: World, t: nat)
    requires Table(w.m.entries, w.slots, w.nextFree) && Distinct(w.slots) && Preflights(w.slots, w.pres)
    requires ClaimPart(w) && CanFailOpen(w, t)
    ensures Table(w.m.entries, FailOpen(w, t).slots, w.nextFree)
    ensures Distinct(FailOpen(w, t).slots)
    ensures Preflights(FailOpen(w, t).slots, w.pres)
  {
    hide LeaseCounts, AcqTally, Leased, IdleQueue, Owned;
    var v := FailOpen(w, t);
    forall s ensures TableAt(w.m.entries, v.slots, w.nextFree, s) {
      assert TableAt(w.m.entries, w.slots, w.nextFree, s);
      if s.KeySlot? && s.key in w.acqs[t].missing { FailOpenOwn(w, t, s.key); }
    }
    forall p: nat ensures PreflightAt(v.slots, w.pres, p) { assert PreflightAt(w.slots, w.pres, p); }
  }

  lemma FailOpenCore(w: World, t: nat)
    requires Core(w) && CanFailOpen(w, t)
    ensures Core(FailOpen(w, t))
  {
    FailOpenAcqs(w, t);
    SameListsClaims(w, t, FailOpen(w, t).acqs[t], FailOpen(w, t).slots);
    FailOpenSlots(w, t);
  }

  /** Two tables and slot maps that differ at most at key `k`. */
  ghost predicate SameBut(entries: map<Key, Entry>, slots: map<Slot, Content>,
                          entries': map<Key, Entry>, slots': map<Slot, Content>, k: Key)
  {
    && (forall q :: q != k && q in entries ==> q in entries' && entries'[q] == entries[q])
    && (forall s :: s != KeySlot(k) && s in slots ==> s in slots' && slots'[s] == slots[s])
  }

  lemma OthersAgree(entries: map<Key, Entry>, slots: map<Slot, Content>, acqs: map<nat, Acquisition>, t: nat, k: Key,
                    entries': map<Key, Entry>, slots': map<Slot, Content>)
    requires Acquisitions(entries, slots, acqs) && SameBut(entries, slots, entries', slots', k)
    requires k in entries && entries[k].Opening? && entries[k].owner == t
    ensures forall x :: x in acqs && x != t ==> Agree(entries, slots, entries', slots', acqs[x])
  {
    forall x | x in acqs && x != t ensures Agree(entries, slots, entries', slots', acqs[x]) {
      assert AcquisitionOk(entries, slots, x, acqs[x]);
      assert k !in acqs[x].missing && k !in acqs[x].existing;
    }
  }

  /** Dropping the first reservation keeps the others in place. */
  lemma TailOk(entries: map<Key, Entry>, slots: map<Slot, Content>, t: nat, a: Acquisition,
               entries': map<Key, Entry>, slots': map<Slot, Content>, b: Acquisition)
    requires ReservationsOk(entries, slots, t, a) && NoDup(a.missing) && a.missing != []
    requires SameBut(entries, slots, entries', slots', a.missing[0])
    requires b.missing == a.missing[1..] && b.op == a.op && b.phase == a.phase && b.handles == a.handles
    requires b.openCount == if a.openCount > 0 then a.openCount - 1 else 0
    requires a.openCount > 0 || a.phase.Failing?
    ensures ReservationsOk(entries', slots', t, b) && NoDup(b.missing)
  {
    forall i | 0 <= i < |b.missing|
      ensures b.missing[i] == a.missing[i + 1] && a.missing[i + 1] != a.missing[0]
      ensures ReservationContent(a, i + 1, slots[KeySlot(b.missing[i])])
    {
    }
  }

  lemma UnreserveAcqs(w: World, t: nat)
    requires ClaimPart(w) && CanUnreserve(w, t)
    ensures Acquisitions(Unreserve(w, t).m.entries, Unreserve(w, t).slots, Unreserve(w, t).acqs)
  {
    var v := Unreserve(w, t);
    var a := w.acqs[t];
    assert AcquisitionOk(w.m.entries, w.slots, t, a);
    OthersAgree(w.m.entries, w.slots, w.acqs, t, a.missing[0], v.m.entries, v.slots);
    TailOk(w.m.entries, w.slots, t, a, v.m.entries, v.slots, v.acqs[t]);
    assert AcquisitionOk(v.m.entries, v.slots, t, v.acqs[t]);
    AcqsFrame(w.m.entries, w.slots, w.acqs, v.m.entries, v.slots, t, v.acqs[t]);
  }

  lemma TailOwned(entries: map<Key, Entry>, acqs: map<nat, Acquisition>, t: nat, b: Acquisition, entries': map<Key, Entry>)
    requires Owned(entries, acqs) && t in acqs && acqs[t].missing != [] && b.missing == acqs[t].missing[1..]
    requires forall q :: q in entries' && entries'[q].Opening? ==> q != acqs[t].missing[0] && q in entries && entries'[q] == entries[q]
    ensures Owned(entries', acqs[t := b])
  {
    assert acqs[t].missing == [acqs[t].missing[0]] + b.missing;
  }

  lemma UnreserveClaims(w: World, t: nat)
    requires ClaimPart(w) && CanUnreserve(w, t)
    ensures ClaimPart(Unreserve(w, t))
  {
    hide AcqTally, Owned, Acquisitions;
    var v := Unreserve(w, t);
    var k := w.acqs[t].missing[0];
    OwnKey(w, t, 0);
    UnreserveAcqs(w, t);
    TailOwned(w.m.entries, w.acqs, t, v.acqs[t], v.m.entries);
    AcqTallySame(w.m.acquisitions, w.acqs, t, v.acqs[t]);
    SameClaimCounts(w.m.entries, w.leases, w.acqs, t, v.acqs[t]);
    assert IdleQueue(v.m.entries, v.m.idle) by {
      forall x ensures x in w.m.idle <==> IsIdle(v.m.entries, x) { assert x in w.m.idle <==> IsIdle(w.m.entries, x); }
    }
  }

  lemma UnreserveSlots(w: World, t: nat)
    requires SlotPart(w) && ClaimPart(w) && CanUnreserve(w, t)
    ensures SlotPart(Unreserve(w, t))
  {
    var a := w.acqs[t];
    var k := a.missing[0];
    assert ReservationContent(a, 0, w.slots[KeySlot(k)]) by {
      assert AcquisitionOk(w.m.entries, w.slots, t, a);
    }
    OwnKey(w, t, 0);
    UnreserveSlot(w, t, k, if a.openCount > 0 then 1 else 0);
  }

  lemma UnreserveSlot(w: World, t: nat, k: Key, wasOpen: nat)
    requires SlotPart(w) && KeySlot(k) in w.slots
    requires if wasOpen == 1 then w.slots[KeySlot(k)].Pending? else wasOpen == 0 && w.slots[KeySlot(k)].Vacant?
    ensures SlotPart(w.(slots := w.slots - {KeySlot(k)},
                        m := w.m.(entries := w.m.entries - {k},
                                  counts := w.m.counts.(occupied := w.m.counts.occupied - 1,
                                                        live := w.m.counts.live - wasOpen,
                                                        pending := w.m.counts.pending - wasOpen))))
  {
    var s := KeySlot(k);
    ConservedDel(w.max, w.m.counts, w.slots, s);
    ClosingGone(w.m.closings, w.slots, s);
    TableEvict(w.m.entries, w.slots, w.nextFree, k);
    PreflightsOther(w.slots, w.pres, s, Vacant);
  }

  lemma UnreserveCore(w: World, t: nat)
    requires Core(w) && CanUnreserve(w, t)
    ensures Core(Unreserve(w, t))
  {
    UnreserveClaims(w, t);
    UnreserveSlots(w, t);
    DrainedShrink(w.m, Unreserve(w, t).m);
  }

  // ----------------------------------------------------------------- publish

  /** The `unreachable!` arms of publish: the first reservation is its own, open and accounted. */
  lemma PublishOwn(w: World, t: nat)
    requires ClaimPart(w) && CanPublishOne(w, t)
    ensures var a := w.acqs[t];
            var k := a.missing[0];
            && a.openCount > 0 && k in w.m.entries && w.m.entries[k].Opening? && w.m.entries[k].op == a.op
            && KeySlot(k) in w.slots && w.slots[KeySlot(k)].Pending? && !w.slots[KeySlot(k)].dropped
  {
    var a := w.acqs[t];
    assert AcquisitionOk(w.m.entries, w.slots, t, a);
    assert ReservationContent(a, 0, w.slots[KeySlot(a.missing[0])]);
  }

  lemma ClaimsGrow(entries: map<Key, Entry>, a: Acquisition, k: Key, e: Entry, b: Acquisition)
    requires ClaimsOk(entries, a) && WellFormed(a) && a.phase.Reserving? && k !in a.existing && e.Open? && e.handle in a.handles
    requires k in a.missing && NoDup(b.missing) && b.missing == a.missing[1..] && b.openCount <= |b.missing|
    requires b == a.(existing := a.existing + [k], missing := b.missing, openCount := b.openCount)
    ensures ClaimsOk(entries[k := e], b) && WellFormed(b)
  {
  }

  lemma PublishOneOwn(w: World, t: nat)
    requires ClaimPart(w) && CanPublishOne(w, t)
    requires w.acqs[t].openCount > 0 && w.acqs[t].missing[0] in w.m.entries
    requires KeySlot(w.acqs[t].missing[0]) in w.slots && w.slots[KeySlot(w.acqs[t].missing[0])].Pending?
    ensures AcquisitionOk(PublishOne(w, t).m.entries, PublishOne(w, t).slots, t, PublishOne(w, t).acqs[t])
  {
    hide LeaseCounts, AcqTally, Leased, IdleQueue, Owned;
    var v := PublishOne(w, t);
    var a := w.acqs[t];
    var k := a.missing[0];
    assert AcquisitionOk(w.m.entries, w.slots, t, a);
    assert k !in a.existing;
    TailOk(w.m.entries, w.slots, t, a, v.m.entries, v.slots, v.acqs[t]);
    ClaimsGrow(w.m.entries, a, k, v.m.entries[k], v.acqs[t]);
  }

  lemma PublishOneAcqs(w: World, t: nat)
    requires ClaimPart(w) && CanPublishOne(w, t)
    requires w.acqs[t].openCount > 0 && w.acqs[t].missing[0] in w.m.entries
    requires KeySlot(w.acqs[t].missing[0]) in w.slots && w.slots[KeySlot(w.acqs[t].missing[0])].Pending?
    ensures Acquisitions(PublishOne(w, t).m.entries, PublishOne(w, t).slots, PublishOne(w, t).acqs)
  {
    hide LeaseCounts, AcqTally, Leased, IdleQueue, Owned;
    var v := PublishOne(w, t);
    assert AcquisitionOk(w.m.entries, w.slots, t, w.acqs[t]);
    OthersAgree(w.m.entries, w.slots, w.acqs, t, w.acqs[t].missing[0], v.m.entries, v.slots);
    PublishOneOwn(w, t);
    AcqsFrame(w.m.entries, w.slots, w.acqs, v.m.entries, v.slots, t, v.acqs[t]);
  }

  lemma OpeningUnclaimed(w: World, k: Key)
    requires ClaimPart(w) && k in w.m.entries && w.m.entries[k].Opening?
    ensures LeasesOn(w.leases, k) == {} && AcqsOn(w.acqs, k) == {}
  {
    forall t | t in w.acqs ensures k !in w.acqs[t].existing {
      assert AcquisitionOk(w.m.entries, w.slots, t, w.acqs[t]);
    }
  }

  lemma PublishOneClaims(w: World, t: nat)
    requires ClaimPart(w) && CanPublishOne(w, t)
    requires w.acqs[t].openCount > 0 && w.acqs[t].missing[0] in w.m.entries
    requires KeySlot(w.acqs[t].missing[0]) in w.slots && w.slots[KeySlot(w.acqs[t].missing[0])].Pending?
    ensures ClaimPart(PublishOne(w, t))
  {
    hide LeaseCounts, AcqTally, IdleQueue, Owned, AcquisitionOk;
    var v := PublishOne(w, t);
    var k := w.acqs[t].missing[0];
    var e := v.m.entries[k];
    OwnKey(w, t, 0);
    OpeningUnclaimed(w, k);
    assert k !in w.acqs[t].existing by { assert t !in AcqsOn(w.acqs, k); }
    PublishOneAcqs(w, t);
    TailOwned(w.m.entries, w.acqs, t, v.acqs[t], v.m.entries);
    AcqTallySame(w.m.acquisitions, w.acqs, t, v.acqs[t]);
    AcqsOnPut(w.acqs, t, v.acqs[t], k);
    LeaseCountsPut(w.m.entries, w.leases, w.acqs, k, e, w.leases, v.acqs);
    IdleKeep(w.m.entries, w.m.idle, k, e);
  }

  lemma TablePublish(entries: map<Key, Entry>, slots: map<Slot, Content>, nextFree: nat, k: Key, f: File)
    requires Table(entries, slots, nextFree) && k in entries
    ensures Table(entries[k := Open(entries[k].handle, f, 1)], slots[KeySlot(k) := InTable(f)], nextFree)
  {
    var es := entries[k := Open(entries[k].handle, f, 1)];
    var put := slots[KeySlot(k) := InTable(f)];
    assert TableAt(entries, slots, nextFree, KeySlot(k));
    forall r ensures TableAt(es, put, nextFree, r) { assert TableAt(entries, slots, nextFree, r); }
  }

  lemma PublishSlot(w: World, k: Key, acqs: map<nat, Acquisition>)
    requires SlotPart(w) && k in w.m.entries && KeySlot(k) in w.slots
    requires w.slots[KeySlot(k)].Pending? && !w.slots[KeySlot(k)].dropped
    ensures var f := w.slots[KeySlot(k)].file;
            SlotPart(w.(slots := w.slots[KeySlot(k) := InTable(f)], acqs := acqs,
                        m := w.m.(entries := w.m.entries[k := Open(w.m.entries[k].handle, f, 1)],
                                  counts := w.m.counts.(pending := w.m.counts.pending - 1))))
  {
    var s, f := KeySlot(k), w.slots[KeySlot(k)].file;
    var c := InTable(f);
    ConservedPut(w.max, w.m.counts, w.slots, s, c);
    assert CountsPut(w.m.counts, w.slots, s, c) == w.m.counts.(pending := w.m.counts.pending - 1);
    ClosingSame(w.m.closings, w.slots, s, c);
    DistinctPut(w.slots, s, c);
    TablePublish(w.m.entries, w.slots, w.nextFree, k, f);
    PreflightsOther(w.slots, w.pres, s, c);
  }

  lemma PublishOneCore(w: World, t: nat)
    requires Core(w) && CanPublishOne(w, t)
    requires w.acqs[t].openCount > 0 && w.acqs[t].missing[0] in w.m.entries
    requires KeySlot(w.acqs[t].missing[0]) in w.slots && w.slots[KeySlot(w.acqs[t].missing[0])].Pending?
    ensures Core(PublishOne(w, t))
  {
    var v := PublishOne(w, t);
    PublishOwn(w, t);
    PublishOneClaims(w, t);
    PublishSlot(w, w.acqs[t].missing[0], v.acqs);
    DrainedPut(w.m, w.acqs[t].missing[0], v.m.entries[w.acqs[t].missing[0]], v.m);
  }

  // ------------------------------------------------------------------ leases

  lemma HandOutFile(w: World, t: nat, l: nat)
    requires ClaimPart(w) && CanHandOut(w, t, l)
    ensures var k := w.acqs[t].existing[0];
            k in w.acqs[t].files && k in w.m.entries && w.m.entries[k].Open? && w.m.entries[k].file == w.acqs[t].files[k]
  {
    assert AcquisitionOk(w.m.entries, w.slots, t, w.acqs[t]);
    assert w.acqs[t].existing[0] in w.acqs[t].existing;
  }

  lemma HandOutOne(entries: map<Key, Entry>, slots: map<Slot, Content>, t: nat, a: Acquisition)
    requires AcquisitionOk(entries, slots, t, a) && a.phase.Published? && a.existing != []
    ensures AcquisitionOk(entries, slots, t, a.(existing := a.existing[1..], files := a.files - {a.existing[0]}))
  {
    HeadTail(a.existing, a.existing[0], a.existing[1..]);
  }

  lemma HandOutAcqs(w: World, t: nat, l: nat)
    requires ClaimPart(w) && CanHandOut(w, t, l) && w.acqs[t].existing[0] in w.acqs[t].files
    ensures Acquisitions(w.m.entries, w.slots, HandOut(w, t, l).acqs)
    ensures NoDup(w.acqs[t].existing)
  {
    var a := w.acqs[t];
    assert AcquisitionOk(w.m.entries, w.slots, t, a);
    HandOutOne(w.m.entries, w.slots, t, a);
    AcqsFrame(w.m.entries, w.slots, w.acqs, w.m.entries, w.slots, t, HandOut(w, t, l).acqs[t]);
  }

  lemma HandOutCounts(entries: map<Key, Entry>, leases: map<nat, Lease>, acqs: map<nat, Acquisition>,
                      t: nat, a: Acquisition, l: nat, x: Lease)
    requires LeaseCounts(entries, leases, acqs) && t in acqs && l !in leases && x.key in entries
    requires NoDup(acqs[t].existing) && acqs[t].existing == [x.key] + a.existing
    ensures LeaseCounts(entries, leases[l := x], acqs[t := a])
  {
    HeadTail(acqs[t].existing, x.key, a.existing);
    AcqsOnPut(acqs, t, a, x.key);
    LeasesOnPut(leases, l, x);
    LeaseCountsPut(entries, leases, acqs, x.key, entries[x.key], leases[l := x], acqs[t := a]);
    assert entries[x.key := entries[x.key]] == entries;
  }

  lemma HandOutClaims(w: World, t: nat, l: nat)
    requires ClaimPart(w) && CanHandOut(w, t, l)
    requires w.acqs[t].existing[0] in w.acqs[t].files
    ensures ClaimPart(HandOut(w, t, l))
  {
    hide LeaseCounts, AcqTally, Leased, IdleQueue, AcquisitionOk;
    var v := HandOut(w, t, l);
    HandOutFile(w, t, l);
    HandOutAcqs(w, t, l);
    AcqTallySame(w.m.acquisitions, w.acqs, t, v.acqs[t]);
    assert w.acqs[t].existing == [w.acqs[t].existing[0]] + w.acqs[t].existing[1..];
    HandOutCounts(w.m.entries, w.leases, w.acqs, t, v.acqs[t], l, v.leases[l]);
    LeasedPut(w.m.entries, w.leases, l, v.leases[l]);
  }

  lemma HandOutCore(w: World, t: nat, l: nat)
    requires Core(w) && CanHandOut(w, t, l)
    requires w.acqs[t].existing[0] in w.acqs[t].files
    ensures Core(HandOut(w, t, l))
  {
    HandOutClaims(w, t, l);
  }

  /** A change inside one lease object that keeps its key and file. */
  lemma LeaseOnly(w: World, l: nat, x: Lease)
    requires ClaimPart(w) && l in w.leases && x.key == w.leases[l].key && x.file == w.leases[l].file
    requires x.cloning > 0 ==> x.arc
    ensures ClaimPart(w.(leases := w.leases[l := x]))
  {
    hide AcquisitionOk, AcqTally, IdleQueue, Owned;
    LeasesOnPut(w.leases, l, x);
    var e := w.m.entries[x.key];
    LeaseCountsPut(w.m.entries, w.leases, w.acqs, x.key, e, w.leases[l := x], w.acqs);
    assert w.m.entries[x.key := e] == w.m.entries;
  }

  lemma StartCloneCore(w: World, l: nat)
    requires Core(w) && CanStartClone(w, l)
    ensures Core(StartClone(w, l))
  {
    LeaseOnly(w, l, StartClone(w, l).leases[l]);
  }

  lemma DropArcCore(w: World, l: nat)
    requires Core(w) && CanDropArc(w, l)
    ensures Core(DropArc(w, l))
  {
    LeaseOnly(w, l, DropArc(w, l).leases[l]);
  }

  /** The `unreachable!` arms of clone and release: a live lease keeps its entry. */
  lemma LeaseEntry(w: World, l: nat)
    requires ClaimPart(w) && l in w.leases
    ensures var x := w.leases[l];
            && x.key in w.m.entries && w.m.entries[x.key].Open?
            && w.m.entries[x.key].file == x.file && w.m.entries[x.key].leases > 0
  {
    ClaimedPositive(w.m.entries, w.leases, w.acqs, w.leases[l].key);
  }

  lemma FinishCloneCounts(entries: map<Key, Entry>, leases: map<nat, Lease>, acqs: map<nat, Acquisition>,
                          l: nat, x: Lease, copy: nat, y: Lease, e: Entry)
    requires LeaseCounts(entries, leases, acqs) && l in leases && copy !in leases
    requires x.key == leases[l].key == y.key && x.key in entries && entries[x.key].Open?
    requires e.Open? && e.leases == entries[x.key].leases + 1
    ensures LeaseCounts(entries[x.key := e], leases[l := x][copy := y], acqs)
  {
    LeasesOnPut(leases, l, x);
    LeasesOnPut(leases[l := x], copy, y);
    LeaseCountsPut(entries, leases, acqs, x.key, e, leases[l := x][copy := y], acqs);
  }

  lemma FinishCloneClaims(w: World, l: nat, copy: nat)
    requires ClaimPart(w) && CanFinishClone(w, l, copy)
    requires w.leases[l].key in w.m.entries && w.m.entries[w.leases[l].key].Open?
    ensures ClaimPart(FinishClone(w, l, copy))
  {
    var v := FinishClone(w, l, copy);
    var k := w.leases[l].key;
    var e := v.m.entries[k];
    LeaseEntry(w, l);
    FinishCloneCounts(w.m.entries, w.leases, w.acqs, l, v.leases[l], copy, v.leases[copy], e);
    LeaseChangeClaims(w.m.entries, w.leases, w.acqs, k, e);
    LeasedPut(v.m.entries, w.leases, l, v.leases[l]);
    LeasedPut(v.m.entries, w.leases[l := v.leases[l]], copy, v.leases[copy]);
    LeaseChangeAcqs(w.m.entries, w.slots, w.acqs, k, e);
    IdleKeep(w.m.entries, w.m.idle, k, e);
  }

  lemma FinishCloneCore(w: World, l: nat, copy: nat)
    requires Core(w) && CanFinishClone(w, l, copy)
    requires w.leases[l].key in w.m.entries && w.m.entries[w.leases[l].key].Open?
    ensures Core(FinishClone(w, l, copy))
  {
    var v := FinishClone(w, l, copy);
    FinishCloneClaims(w, l, copy);
    TableLease(w.m.entries, w.slots, w.nextFree, w.leases[l].key, v.m.entries[w.leases[l].key]);
    DrainedPut(w.m, w.leases[l].key, v.m.entries[w.leases[l].key], v.m);
  }

  lemma UnleaseClaims(w: World, l: nat)
    requires ClaimPart(w) && CanUnlease(w, l)
    requires w.leases[l].key in w.m.entries && w.m.entries[w.leases[l].key].Open?
    requires w.m.entries[w.leases[l].key].leases > 0
    ensures ClaimPart(Unlease(w, l))
  {
    var v := Unlease(w, l);
    var k := w.leases[l].key;
    var e := v.m.entries[k];
    LeasesOnDel(w.leases, l);
    LeaseCountsPut(w.m.entries, w.leases, w.acqs, k, e, v.leases, w.acqs);
    LeaseChangeClaims(w.m.entries, w.leases, w.acqs, k, e);
    LeaseChangeAcqs(w.m.entries, w.slots, w.acqs, k, e);
    UnleaseIdle(w.m.entries, w.m.idle, k);
  }

  lemma UnleaseCore(w: World, l: nat)
    requires Core(w) && CanUnlease(w, l)
    requires w.leases[l].key in w.m.entries && w.m.entries[w.leases[l].key].Open?
    requires w.m.entries[w.leases[l].key].leases > 0
    ensures Core(Unlease(w, l))
  {
    var v := Unlease(w, l);
    UnleaseClaims(w, l);
    TableLease(w.m.entries, w.slots, w.nextFree, w.leases[l].key, v.m.entries[w.leases[l].key]);
    DrainedPut(w.m, w.leases[l].key, v.m.entries[w.leases[l].key], v.m);
  }

  // --------------------------------------------------- closing detached files

  lemma ClosingKeyAcqs(w: World, k: Key, c: Content)
    requires SlotPart(w) && ClaimPart(w) && KeySlot(k) in w.slots && w.slots[KeySlot(k)].Closing? && (c.Closing? || c.Vacant?)
    ensures Acquisitions(w.m.entries, w.slots[KeySlot(k) := c], w.acqs)
    ensures k in w.m.entries && w.m.entries[k].Opening?
  {
    assert TableAt(w.m.entries, w.slots, w.nextFree, KeySlot(k));
    var t := w.m.entries[k].owner;
    var a := w.acqs[t];
    var i :| 0 <= i < |a.missing| && a.missing[i] == k;
    assert AcquisitionOk(w.m.entries, w.slots, t, a);
    OwnSlotAcqs(w.m.entries, w.slots, w.acqs, t, i, c, a);
    assert w.acqs[t := a] == w.acqs;
  }

  lemma ClosingAcqs(w: World, s: Slot, c: Content)
    requires SlotPart(w) && ClaimPart(w) && s in w.slots && w.slots[s].Closing? && (c.Closing? || c.Vacant?)
    ensures Acquisitions(w.m.entries, w.slots[s := c], w.acqs)
    ensures s.KeySlot? ==> s.key in w.m.entries && w.m.entries[s.key].Opening?
    ensures s.PreSlot? ==> s.id in w.pres && w.pres[s.id].phase.PreHolding?
  {
    if s.KeySlot? {
      ClosingKeyAcqs(w, s.key, c);
    } else {
      AcqsOther(w.m.entries, w.slots, w.acqs, s, c);
      if s.PreSlot? { assert PreflightAt(w.slots, w.pres, s.id); }
    }
  }

  lemma DropVictimCore(w: World, s: Slot)
    requires Core(w) && CanDropVictim(w, s)
    ensures Core(DropVictim(w, s))
  {
    ClosingAcqs(w, s, DropVictim(w, s).slots[s]);
    DropVictimSlots(w, s);
  }

  lemma DropVictimSlots(w: World, s: Slot)
    requires SlotPart(w) && CanDropVictim(w, s)
    requires s.KeySlot? ==> s.key in w.m.entries && w.m.entries[s.key].Opening?
    requires s.PreSlot? ==> s.id in w.pres && w.pres[s.id].phase.PreHolding?
    ensures SlotPart(DropVictim(w, s))
  {
    var c := DropVictim(w, s).slots[s];
    ConservedPut(w.max, w.m.counts, w.slots, s, c);
    assert CountsPut(w.m.counts, w.slots, s, c) == w.m.counts;
    ClosingSame(w.m.closings, w.slots, s, c);
    DistinctPut(w.slots, s, c);
    TableContent(w.m.entries, w.slots, w.nextFree, s, c);
    SamePhase(w.slots, w.pres, s, c);
  }

  lemma FinishCloseFree(w: World, s: Slot)
    requires SlotPart(w) && CanFinishClose(w, s) && s.FreeSlot?
    ensures SlotPart(FinishClose(w, s))
  {
    ClosingEnd(w.m.closings, w.slots, s);
    ConservedDel(w.max, w.m.counts, w.slots, s);
    assert CountsDel(w.m.counts, w.slots, s) == FinishClose(w, s).m.counts;
    TableGone(w.m.entries, w.slots, w.nextFree, s);
    PreflightsOther(w.slots, w.pres, s, Vacant);
  }

  lemma FinishCloseHeir(w: World, s: Slot)
    requires SlotPart(w) && CanFinishClose(w, s) && !s.FreeSlot?
    requires s.KeySlot? ==> s.key in w.m.entries && w.m.entries[s.key].Opening?
    requires s.PreSlot? ==> s.id in w.pres && w.pres[s.id].phase.PreHolding?
    ensures SlotPart(FinishClose(w, s))
  {
    ClosingEnd(w.m.closings, w.slots, s);
    ConservedPut(w.max, w.m.counts, w.slots, s, Vacant);
    assert CountsPut(w.m.counts, w.slots, s, Vacant) == FinishClose(w, s).m.counts;
    DistinctPut(w.slots, s, Vacant);
    TableContent(w.m.entries, w.slots, w.nextFree, s, Vacant);
    SamePhase(w.slots, w.pres, s, Vacant);
  }

  lemma FinishCloseCore(w: World, s: Slot)
    requires Core(w) && CanFinishClose(w, s)
    ensures Core(FinishClose(w, s))
  {
    ClosingAcqs(w, s, Vacant);
    if s.FreeSlot? {
      AcqsOther(w.m.entries, w.slots, w.acqs, s, Vacant);
      FinishCloseFree(w, s);
    } else {
      FinishCloseHeir(w, s);
    }
    DrainedShrink(w.m, FinishClose(w, s).m);
  }

  // -------------------------------------------------------------- preflights

  lemma BeginPreflightSlots(w: World, p: nat, segment: string)
    requires SlotPart(w) && CanBeginPreflight(w, p, segment)
    ensures SlotPart(BeginPreflight(w, p, segment))
  {
    var v := BeginPreflight(w, p, segment);
    BeginPreflightTally(w.m.preflights, w.pres, p, v.pres[p]);
    assert PreflightAt(w.slots, w.pres, p);
    PreflightsGone(w.slots, w.pres, p, v.pres[p]);
    assert w.slots - {PreSlot(p)} == w.slots;
  }

  lemma BeginPreflightCore(w: World, p: nat, segment: string)
    requires Core(w) && CanBeginPreflight(w, p, segment)
    ensures Core(BeginPreflight(w, p, segment))
  {
    var v := BeginPreflight(w, p, segment);
    BeginPreflightSlots(w, p, segment);
    assert Drained(v.m) by {
      forall s | s in v.m.retirements && v.m.retirements[s].completed ensures Quiet(v.m, s) { assert Quiet(w.m, s); }
    }
  }

  lemma BeginPreflightTally(m: map<string, nat>, pres: map<nat, Preflight>, p: nat, x: Preflight)
    requires PreTally(m, pres) && p !in pres
    ensures PreTally(Increment(m, x.segment), pres[p := x])
  {
    var put := pres[p := x];
    forall s ensures |PresIn(put, s)| == |PresIn(pres, s)| + Bit(s == x.segment) { PutPre(pres, p, x, s); }
  }

  lemma TakeFreeSlotSlots(w: World, p: nat)
    requires SlotPart(w) && CanTakeFreeSlot(w, p)
    ensures SlotPart(TakeFreeSlot(w, p))
  {
    var v := TakeFreeSlot(w, p);
    var s := PreSlot(p);
    assert PreflightAt(w.slots, w.pres, p);
    ConservedPut(w.max, w.m.counts, w.slots, s, Vacant);
    assert CountsPut(w.m.counts, w.slots, s, Vacant) == v.m.counts;
    ClosingSame(w.m.closings, w.slots, s, Vacant);
    DistinctPut(w.slots, s, Vacant);
    TableContent(w.m.entries, w.slots, w.nextFree, s, Vacant);
    PreflightsPut(w.slots, w.pres, p, Vacant, v.pres[p]);
    PreTallySame(w.m.preflights, w.pres, p, v.pres[p]);
  }

  lemma TakeFreeSlotCore(w: World, p: nat)
    requires Core(w) && CanTakeFreeSlot(w, p)
    ensures Core(TakeFreeSlot(w, p))
  {
    TakeFreeSlotSlots(w, p);
    AcqsOther(w.m.entries, w.slots, w.acqs, PreSlot(p), Vacant);
    DrainedShrink(w.m, TakeFreeSlot(w, p).m);
  }

  lemma OpenPreflightCore(w: World, p: nat, f: File)
    requires Core(w) && CanOpenPreflight(w, p, f)
    ensures Core(OpenPreflight(w, p, f))
  {
    HandSlots(w, PreSlot(p), f);
    AcqsOther(w.m.entries, w.slots, w.acqs, PreSlot(p), InHand(f));
  }

  lemma FailPreflightCore(w: World, p: nat)
    requires Core(w) && CanFailPreflight(w, p)
    ensures Core(FailPreflight(w, p))
  {
    var v := FailPreflight(w, p);
    PreflightsPut(w.slots, w.pres, p, Vacant, v.pres[p]);
    assert w.slots[PreSlot(p) := Vacant] == w.slots;
    PreTallySame(w.m.preflights, w.pres, p, v.pres[p]);
  }

  lemma HoldingPreflight(w: World, p: nat)
    requires SlotPart(w) && PreSlot(p) in w.slots && !w.slots[PreSlot(p)].Vacant?
    ensures p in w.pres && w.pres[p].phase.PreHolding?
  {
    assert PreflightAt(w.slots, w.pres, p);
  }

  lemma ObservePreflightCore(w: World, p: nat)
    requires Core(w) && CanObservePreflight(w, p)
    ensures Core(ObservePreflight(w, p))
  {
    var v := ObservePreflight(w, p);
    HoldingPreflight(w, p);
    AccountSlots(w, PreSlot(p), v.m.counts);
    AcqsOther(w.m.entries, w.slots, w.acqs, PreSlot(p), v.slots[PreSlot(p)]);
    DrainedShrink(w.m, v.m);
  }

  lemma ClosePreflightSlots(w: World, p: nat)
    requires SlotPart(w) && CanClosePreflight(w, p)
    ensures SlotPart(ClosePreflight(w, p))
  {
    var s := PreSlot(p);
    var c := ClosePreflight(w, p).slots[s];
    HoldingPreflight(w, p);
    ConservedPut(w.max, w.m.counts, w.slots, s, c);
    assert CountsPut(w.m.counts, w.slots, s, c) == w.m.counts;
    ClosingSame(w.m.closings, w.slots, s, c);
    DistinctPut(w.slots, s, c);
    TableContent(w.m.entries, w.slots, w.nextFree, s, c);
    SamePhase(w.slots, w.pres, s, c);
  }

  lemma ClosePreflightCore(w: World, p: nat)
    requires Core(w) && CanClosePreflight(w, p)
    ensures Core(ClosePreflight(w, p))
  {
    ClosePreflightSlots(w, p);
    AcqsOther(w.m.entries, w.slots, w.acqs, PreSlot(p), ClosePreflight(w, p).slots[PreSlot(p)]);
  }

  lemma FinishPreflightOpenSlots(w: World, p: nat)
    requires SlotPart(w) && CanFinishPreflightOpen(w, p)
    ensures SlotPart(FinishPreflightOpen(w, p))
  {
    var v := FinishPreflightOpen(w, p);
    var s := PreSlot(p);
    ConservedPut(w.max, w.m.counts, w.slots, s, Vacant);
    assert CountsPut(w.m.counts, w.slots, s, Vacant) == v.m.counts;
    ClosingSame(w.m.closings, w.slots, s, Vacant);
    DistinctPut(w.slots, s, Vacant);
    TableContent(w.m.entries, w.slots, w.nextFree, s, Vacant);
    PreflightsPut(w.slots, w.pres, p, Vacant, v.pres[p]);
    PreTallySame(w.m.preflights, w.pres, p, v.pres[p]);
  }

  lemma FinishPreflightOpenCore(w: World, p: nat)
    requires Core(w) && CanFinishPreflightOpen(w, p)
    ensures Core(FinishPreflightOpen(w, p))
  {
    FinishPreflightOpenSlots(w, p);
    AcqsOther(w.m.entries, w.slots, w.acqs, PreSlot(p), Vacant);
    DrainedShrink(w.m, FinishPreflightOpen(w, p).m);
  }

  lemma ReleasePreflightSlotSlots(w: World, p: nat)
    requires SlotPart(w) && CanReleasePreflightSlot(w, p)
    ensures SlotPart(ReleasePreflightSlot(w, p))
  {
    var v := ReleasePreflightSlot(w, p);
    var s := PreSlot(p);
    assert PreflightAt(w.slots, w.pres, p);
    ConservedDel(w.max, w.m.counts, w.slots, s);
    assert CountsDel(w.m.counts, w.slots, s) == v.m.counts;
    ClosingGone(w.m.closings, w.slots, s);
    TableGone(w.m.entries, w.slots, w.nextFree, s);
    PreflightsGone(w.slots, w.pres, p, v.pres[p]);
    PreTallySame(w.m.preflights, w.pres, p, v.pres[p]);
  }

  lemma ReleasePreflightSlotCore(w: World, p: nat)
    requires Core(w) && CanReleasePreflightSlot(w, p)
    ensures Core(ReleasePreflightSlot(w, p))
  {
    ReleasePreflightSlotSlots(w, p);
    AcqsOther(w.m.entries, w.slots, w.acqs, PreSlot(p), Vacant);
    DrainedShrink(w.m, ReleasePreflightSlot(w, p).m);
  }

  lemma FinishPreflightTally(m: map<string, nat>, pres: map<nat, Preflight>, p: nat)
    requires PreTally(m, pres) && p in pres
    ensures PreTally(Decrement(m, pres[p].segment), pres - {p})
  {
    assert p in PresIn(pres, pres[p].segment);
    assert Count(m, pres[p].segment) == |PresIn(pres, pres[p].segment)|;
    forall s ensures |PresIn(pres - {p}, s)| == |PresIn(pres, s)| - Bit(s == pres[p].segment) {
      assert PresIn(pres - {p}, s) == PresIn(pres, s) - {p};
    }
  }

  lemma FinishPreflightSlots(w: World, p: nat)
    requires SlotPart(w) && CanFinishPreflight(w, p)
    ensures SlotPart(FinishPreflight(w, p))
  {
    FinishPreflightTally(w.m.preflights, w.pres, p);
    assert PreflightAt(w.slots, w.pres, p);
    PreflightsGone(w.slots, w.pres, p, w.pres[p]);
    assert w.slots - {PreSlot(p)} == w.slots;
  }

  lemma FinishPreflightCore(w: World, p: nat)
    requires Core(w) && CanFinishPreflight(w, p)
    ensures Core(FinishPreflight(w, p))
  {
    FinishPreflightSlots(w, p);
    DrainedShrink(w.m, FinishPreflight(w, p).m);
  }

  // -------------------------------------------------------------- retirement

  lemma PutCaller(callers: map<nat, string>, c: nat, segment: string, s: string)
    requires c !in callers
    ensures |CallersOf(callers[c := segment], s)| == |CallersOf(callers, s)| + Bit(s == segment)
  {
    assert CallersOf(callers[c := segment], s) ==
           if s == segment then CallersOf(callers, s) + {c} else CallersOf(callers, s);
  }

  lemma BeginRetirementMarkers(w: World, c: nat, segment: string)
    requires Markers(w.m.retirements, w.callers, w.leader) && CanBeginRetirement(w, c, segment)
    ensures var v := BeginRetirement(w, c, segment); Markers(v.m.retirements, v.callers, v.leader)
  {
    var v := BeginRetirement(w, c, segment);
    forall s ensures MarkerAt(v.m.retirements, v.callers, v.leader, s) {
      assert MarkerAt(w.m.retirements, w.callers, w.leader, s);
      PutCaller(w.callers, c, segment, s);
    }
  }

  lemma BeginRetirementCore(w: World, c: nat, segment: string)
    requires Core(w) && CanBeginRetirement(w, c, segment)
    ensures Core(BeginRetirement(w, c, segment))
  {
    var v := BeginRetirement(w, c, segment);
    BeginRetirementMarkers(w, c, segment);
    forall s | s in v.m.retirements && v.m.retirements[s].completed ensures Quiet(v.m, s) { assert Quiet(w.m, s); }
  }

  /** A caller in flight keeps its marker. */
  lemma CallerMarker(w: World, c: nat)
    requires RetirePart(w) && c in w.callers
    ensures w.callers[c] in w.m.retirements && w.m.retirements[w.callers[c]].callers > 0
  {
    assert MarkerAt(w.m.retirements, w.callers, w.leader, w.callers[c]);
    assert c in CallersOf(w.callers, w.callers[c]);
  }

  lemma LeaveMarkers(w: World, c: nat)
    requires RetirePart(w) && c in w.callers && (CanComplete(w, c) || CanJoinedLeave(w, c))
    requires w.callers[c] in w.m.retirements && w.m.retirements[w.callers[c]].callers > 0
    ensures var v := LeaveRetirement(w, c); Markers(v.m.retirements, v.callers, v.leader)
  {
    var v := LeaveRetirement(w, c);
    forall s ensures MarkerAt(v.m.retirements, v.callers, v.leader, s) {
      assert MarkerAt(w.m.retirements, w.callers, w.leader, s);
      assert CallersOf(v.callers, s) == CallersOf(w.callers, s) - {c};
    }
  }

  lemma LeaveDrained(w: World, c: nat)
    requires RetirePart(w) && c in w.callers && (CanComplete(w, c) || CanJoinedLeave(w, c))
    requires w.callers[c] in w.m.retirements && w.m.retirements[w.callers[c]].callers > 0
    ensures Drained(LeaveRetirement(w, c).m)
  {
    var n := LeaveRetirement(w, c).m;
    assert Quiet(w.m, w.callers[c]);
    forall s | s in n.retirements && n.retirements[s].completed ensures Quiet(n, s) { assert Quiet(w.m, s); }
  }

  lemma LeaveRetirementCore(w: World, c: nat)
    requires Core(w) && c in w.callers && (CanComplete(w, c) || CanJoinedLeave(w, c))
    requires w.callers[c] in w.m.retirements && w.m.retirements[w.callers[c]].callers > 0
    ensures Core(LeaveRetirement(w, c))
  {
    LeaveMarkers(w, c);
    LeaveDrained(w, c);
  }
}
