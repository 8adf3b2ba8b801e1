/** What the invariant means for the users of the governor: the hard cap on
    descriptors, the snapshot's accounting identities, the safety of leases
    against eviction and close, retirement, and exact admission. */
module GovernorTheorems {
  import opened GovernorModel
  import opened GovernorCounting
  import opened GovernorSteps
  import opened GovernorProof
  import opened GovernorRuns

  // ---------------------------------------------------------------- hard cap

  /** Descriptors held by lease Arcs (also those of clones under way) and by
      acquisitions about to return. */
  ghost function HeldByCallers(w: World): set<nat> {
    (set l | l in w.leases && w.leases[l].arc :: w.leases[l].file.fd)
    + (set t, k | t in w.acqs && k in w.acqs[t].existing && k in w.acqs[t].files && w.acqs[t].phase.Published? :: w.acqs[t].files[k].fd)
  }

  function OpenSlots(slots: map<Slot, Content>): set<Slot> {
    set s | s in slots && HasFd(slots[s])
  }

  function FdsOf(slots: map<Slot, Content>, of: set<Slot>): set<nat> {
    set s | s in of && s in slots && HasFd(slots[s]) :: slots[s].file.fd
  }

  /** Every descriptor of the process that the governor is answerable for. */
  ghost function OpenDescriptors(w: World): set<nat> {
    FdsOf(w.slots, OpenSlots(w.slots)) + HeldByCallers(w)
  }

  lemma {:induction false} FdsCard(slots: map<Slot, Content>, of: set<Slot>)
    ensures |FdsOf(slots, of)| <= |of|
    decreases |of|
  {
    if of != {} {
      var s :| s in of;
      FdsCard(slots, of - {s});
      var here := if s in slots && HasFd(slots[s]) then {slots[s].file.fd} else {};
      assert FdsOf(slots, of) == FdsOf(slots, of - {s}) + here;
    }
  }

  lemma {:induction false} SubsetCard<T>(a: set<T>, b: set<T>)
    requires a <= b
    ensures |a| <= |b|
    decreases |a|
  {
    if a != {} {
      var x :| x in a;
      SubsetCard(a - {x}, b - {x});
    }
  }

  lemma Sum4<T>(all: set<T>, a: set<T>, b: set<T>, c: set<T>, d: set<T>)
    requires all == a + b + c + d && a !! b && (a + b) !! c && (a + b + c) !! d
    ensures |all| == |a| + |b| + |c| + |d|
  {
  }

  lemma CallersHoldTableFiles(w: World)
    requires Core(w)
    ensures HeldByCallers(w) <= FdsOf(w.slots, OpenSlots(w.slots))
  {
    hide Conserved, ClosingTally, Distinct, Preflights, PreTally, IdleQueue, LeaseCounts, Owned, AcqTally, Markers, Drained;
    forall l | l in w.leases ensures w.leases[l].file.fd in FdsOf(w.slots, OpenSlots(w.slots)) {
      var s := KeySlot(w.leases[l].key);
      assert TableAt(w.m.entries, w.slots, w.nextFree, s);
      assert s in OpenSlots(w.slots);
    }
    forall t, k | t in w.acqs && k in w.acqs[t].existing && k in w.acqs[t].files && w.acqs[t].phase.Published?
      ensures w.acqs[t].files[k].fd in FdsOf(w.slots, OpenSlots(w.slots))
    {
      assert AcquisitionOk(w.m.entries, w.slots, t, w.acqs[t]);
      assert TableAt(w.m.entries, w.slots, w.nextFree, KeySlot(k));
      assert KeySlot(k) in OpenSlots(w.slots);
    }
  }

  /** At no moment are more descriptors open than the hard cap allows, counting
      descriptors in the table, just opened, being closed, and held by callers. */
  lemma HardCap(w: World)
    requires Inv(w)
    ensures |OpenDescriptors(w)| <= w.m.counts.occupied <= w.max
  {
    CallersHoldTableFiles(w);
    assert OpenDescriptors(w) == FdsOf(w.slots, OpenSlots(w.slots));
    FdsCard(w.slots, OpenSlots(w.slots));
    SubsetCard(OpenSlots(w.slots), w.slots.Keys);
  }

  // ------------------------------------------------------------ conservation

  function KeySlots(ks: set<Key>): set<Slot> {
    set k | k in ks :: KeySlot(k)
  }

  lemma {:induction false} KeySlotsCard(ks: set<Key>)
    ensures |KeySlots(ks)| == |ks|
    decreases |ks|
  {
    if ks != {} {
      var k :| k in ks;
      KeySlotsCard(ks - {k});
      assert KeySlots(ks) == KeySlots(ks - {k}) + {KeySlot(k)};
    }
  }

  function OpenKeys(entries: map<Key, Entry>): set<Key> {
    set k | k in entries && entries[k].Open?
  }

  /** Detached victims that give their slot back, and all detached victims. */
  function Releasing(slots: map<Slot, Content>): set<Slot> {
    set s | s in slots && s.FreeSlot?
  }

  function Detached(slots: map<Slot, Content>): set<Slot> {
    set s | s in slots && slots[s].Closing?
  }

  /** The table's slots, and those of its open entries. */
  function Tabled(slots: map<Slot, Content>): set<Slot> {
    set s | s in slots && s.KeySlot?
  }

  function Published(slots: map<Slot, Content>): set<Slot> {
    set s | s in slots && slots[s].InTable?
  }

  lemma TabledCard(entries: map<Key, Entry>, slots: map<Slot, Content>, nextFree: nat)
    requires Table(entries, slots, nextFree)
    ensures |Tabled(slots)| == |entries| && |Published(slots)| == |OpenKeys(entries)|
  {
    forall s ensures s in Tabled(slots) <==> s in KeySlots(entries.Keys) {
      assert TableAt(entries, slots, nextFree, s);
    }
    forall s ensures s in Published(slots) <==> s in KeySlots(OpenKeys(entries)) {
      assert TableAt(entries, slots, nextFree, s);
    }
    assert Tabled(slots) == KeySlots(entries.Keys) && Published(slots) == KeySlots(OpenKeys(entries));
    KeySlotsCard(entries.Keys);
    KeySlotsCard(OpenKeys(entries));
  }

  /** Every occupied slot is a table entry, a preflight reservation or a victim
      that still owes its slot. */
  lemma OccupiedSplit(w: World)
    requires SlotPart(w)
    ensures w.m.counts.occupied == |w.m.entries| + w.m.counts.reserved + |Releasing(w.slots)|
  {
    hide ClosingTally, Distinct, Preflights, PreTally, Table, In, Tabled, Releasing;
    TabledCard(w.m.entries, w.slots, w.nextFree);
    SlotKinds(w.slots);
  }

  lemma SlotKinds(slots: map<Slot, Content>)
    ensures |slots| == |Tabled(slots)| + |In(slots, Reservation)| + |Releasing(slots)|
  {
    var a, b, c := Tabled(slots), In(slots, Reservation), Releasing(slots);
    assert slots.Keys == a + b + c;
    assert a !! b && a !! c && b !! c;
    Sum4(slots.Keys, a, b, c, {});
  }

  lemma LiveCases(entries: map<Key, Entry>, slots: map<Slot, Content>, nextFree: nat)
    requires Table(entries, slots, nextFree)
    ensures |In(slots, Live)| == |Published(slots)| + |In(slots, PendingOpen)| + |In(slots, LivePreflight)| + |Detached(slots)|
  {
    forall s | s in slots && slots[s].Pending? ensures !s.FreeSlot? {
      assert TableAt(entries, slots, nextFree, s);
    }
    Sum4(In(slots, Live), Published(slots), In(slots, PendingOpen), In(slots, LivePreflight), Detached(slots));
  }

  /** Every live descriptor is published, pending, a preflight's or a victim's. */
  lemma LiveSplit(w: World)
    requires SlotPart(w)
    ensures w.m.counts.live ==
              |OpenKeys(w.m.entries)| + w.m.counts.pending + w.m.counts.livePreflights + |Detached(w.slots)|
  {
    hide ClosingTally, Distinct, Preflights, PreTally, Table, In, Published, Detached;
    TabledCard(w.m.entries, w.slots, w.nextFree);
    LiveCases(w.m.entries, w.slots, w.nextFree);
  }

  /** `closing_files` of the snapshot: saturating subtraction over the counters. */
  function ClosingFiles(m: Manager): int {
    var published := |OpenKeys(m.entries)| + m.counts.pending + m.counts.livePreflights;
    if published <= m.counts.live then m.counts.live - published else 0
  }

  /** The snapshot's closing figure counts exactly the detached victims, live
      descriptors never exceed occupied slots, and no counter is ever negative. */
  lemma SnapshotExact(w: World)
    requires Inv(w)
    ensures ClosingFiles(w.m) == |Detached(w.slots)|
    ensures 0 <= w.m.counts.pending && 0 <= w.m.counts.livePreflights <= w.m.counts.reserved
    ensures 0 <= w.m.counts.live <= w.m.counts.occupied
    ensures |Releasing(w.slots)| <= |Detached(w.slots)|
  {
    LiveSplit(w);
    OccupiedSplit(w);
    SubsetCard(In(w.slots, Live), w.slots.Keys);
    SubsetCard(In(w.slots, LivePreflight), In(w.slots, Reservation));
    forall s | s in Releasing(w.slots) ensures s in Detached(w.slots) {
      assert TableAt(w.m.entries, w.slots, w.nextFree, s);
    }
    SubsetCard(Releasing(w.slots), Detached(w.slots));
  }

  // ------------------------------------------------------------------ leases

  /** A live lease pins its entry: open, same descriptor, lease counted, not
      idle, so neither a victim of any kind nor detached by retirement. */
  lemma LeasePins(w: World, l: nat)
    requires Core(w) && l in w.leases
    ensures var k := w.leases[l].key;
            && k in w.m.entries && w.m.entries[k].Open? && w.m.entries[k].file == w.leases[l].file
            && w.m.entries[k].leases > 0 && k !in w.m.idle && !IsIdle(w.m.entries, k)
  {
    LeaseEntry(w, l);
  }

  /** When a victim's Arc is dropped its descriptor really closes: nobody else
      holds an Arc of it. */
  lemma VictimUnshared(w: World, s: Slot)
    requires Core(w) && s in w.slots && w.slots[s].Closing? && !w.slots[s].dropped
    ensures w.slots[s].file.fd !in HeldByCallers(w)
    ensures forall r :: r in w.slots && r != s && HasFd(w.slots[r]) ==> w.slots[r].file.fd != w.slots[s].file.fd
  {
    hide Conserved, ClosingTally, Preflights, PreTally, IdleQueue, LeaseCounts, Owned, AcqTally, Markers, Drained;
    forall l | l in w.leases ensures w.leases[l].file.fd != w.slots[s].file.fd {
      assert TableAt(w.m.entries, w.slots, w.nextFree, KeySlot(w.leases[l].key));
    }
    forall t, k | t in w.acqs && k in w.acqs[t].existing && k in w.acqs[t].files && w.acqs[t].phase.Published?
      ensures w.acqs[t].files[k].fd != w.slots[s].file.fd
    {
      assert AcquisitionOk(w.m.entries, w.slots, t, w.acqs[t]);
      assert TableAt(w.m.entries, w.slots, w.nextFree, KeySlot(k));
    }
  }

  /** The idle queue lists exactly the zero-lease open entries, once each and
      within the cache limit, and no caller holds an Arc of an idle file. */
  lemma IdleFiles(w: World, k: Key)
    requires Inv(w)
    ensures k in w.m.idle <==> IsIdle(w.m.entries, k)
    ensures NoDup(w.m.idle) && |w.m.idle| <= w.maxCached
    ensures k in w.m.idle ==> w.m.entries[k].file.fd !in HeldByCallers(w)
  {
    if k in w.m.idle { IdleUnheld(w, k); }
  }

  lemma IdleUnheld(w: World, k: Key)
    requires Core(w) && IsIdle(w.m.entries, k)
    ensures w.m.entries[k].file.fd !in HeldByCallers(w)
  {
    hide Conserved, ClosingTally, Preflights, PreTally, IdleQueue, Owned, AcqTally, Markers, Drained;
    assert LeasesOn(w.leases, k) == {} && AcqsOn(w.acqs, k) == {};
    assert TableAt(w.m.entries, w.slots, w.nextFree, KeySlot(k));
    forall l | l in w.leases ensures w.leases[l].file.fd != w.m.entries[k].file.fd {
      assert l !in LeasesOn(w.leases, k);
      assert TableAt(w.m.entries, w.slots, w.nextFree, KeySlot(w.leases[l].key));
    }
    forall t, q | t in w.acqs && q in w.acqs[t].existing && q in w.acqs[t].files && w.acqs[t].phase.Published?
      ensures w.acqs[t].files[q].fd != w.m.entries[k].file.fd
    {
      assert t !in AcqsOn(w.acqs, k);
      assert AcquisitionOk(w.m.entries, w.slots, t, w.acqs[t]);
      assert TableAt(w.m.entries, w.slots, w.nextFree, KeySlot(q));
    }
  }

  // -------------------------------------------------------------- retirement

  /** Nothing of the segment is left anywhere in the world. */
  ghost predicate Gone(w: World, segment: string) {
    && Quiet(w.m, segment)
    && (forall t :: t in w.acqs ==> segment !in w.acqs[t].segs)
    && (forall p :: p in w.pres ==> w.pres[p].segment != segment)
    && (forall l :: l in w.leases ==> w.leases[l].key.segment != segment)
    && (forall s :: s in w.slots ==>
          && (w.slots[s].Closing? ==> w.slots[s].key.segment != segment)
          && (s.KeySlot? ==> s.key.segment != segment))
  }

  lemma QuietIsGone(w: World, segment: string)
    requires Core(w) && Quiet(w.m, segment)
    ensures Gone(w, segment)
  {
    hide Conserved, Distinct, Preflights, IdleQueue, LeaseCounts, Acquisitions, Owned, Markers, Drained;
    assert Count(w.m.closings, segment) == 0 && Count(w.m.acquisitions, segment) == 0 && Count(w.m.preflights, segment) == 0;
    assert In(w.slots, ClosingOf(segment)) == {} && AcqsIn(w.acqs, segment) == {} && PresIn(w.pres, segment) == {};
    forall s | s in w.slots && w.slots[s].Closing? ensures w.slots[s].key.segment != segment {
      assert s !in In(w.slots, ClosingOf(segment));
    }
    forall t | t in w.acqs ensures segment !in w.acqs[t].segs { assert t !in AcqsIn(w.acqs, segment); }
    forall p | p in w.pres ensures w.pres[p].segment != segment { assert p !in PresIn(w.pres, segment); }
    forall s | s in w.slots && s.KeySlot? ensures s.key.segment != segment {
      assert TableAt(w.m.entries, w.slots, w.nextFree, s);
    }
  }

  lemma LastCaller(w: World, c: nat)
    requires RetirePart(w) && c in w.callers && (CanComplete(w, c) || CanJoinedLeave(w, c))
    requires w.callers[c] in w.m.retirements && w.m.retirements[w.callers[c]].callers > 0
    ensures var s, v := w.callers[c], LeaveRetirement(w, c);
            s in v.m.retirements <==> exists d :: d in w.callers && d != c && w.callers[d] == s
  {
    hide Drained, Quiet, CallersOf;
    var s := w.callers[c];
    assert MarkerAt(w.m.retirements, w.callers, w.leader, s);
    OtherCallers(w.callers, c);
  }

  lemma OtherCallers(callers: map<nat, string>, c: nat)
    requires c in callers
    ensures |CallersOf(callers, callers[c])| > 1 <==> exists d :: d in callers && d != c && callers[d] == callers[c]
    ensures |CallersOf(callers, callers[c])| >= 1
  {
    var s := callers[c];
    var all := CallersOf(callers, s);
    assert c in all && |all - {c}| == |all| - 1;
    if d :| d in callers && d != c && callers[d] == s { assert d in all - {c}; }
    if |all| > 1 { var d :| d in all - {c}; }
  }

  lemma LeavesQuiet(w: World, c: nat)
    requires RetirePart(w) && c in w.callers && (CanComplete(w, c) || CanJoinedLeave(w, c))
    requires w.callers[c] in w.m.retirements && w.m.retirements[w.callers[c]].callers > 0
    ensures Quiet(w.m, w.callers[c]) && Quiet(LeaveRetirement(w, c).m, w.callers[c])
  {
    hide Markers;
  }

  /** No call of `retire_segment`, leader or joiner, returns while anything of
      its segment is left: entry, descriptor being closed, lease, acquisition or
      preflight. The marker stays exactly until the last caller has left. */
  lemma RetirementReturnsDrained(w: World, c: nat)
    requires Inv(w) && Enabled(w, LeaveRetire(c))
    ensures Gone(w, w.callers[c])
    ensures var v := Step(w, LeaveRetire(c));
            var s := w.callers[c];
            && Gone(v, s)
            && (s in v.m.retirements <==> exists d :: d in w.callers && d != c && w.callers[d] == s)
  {
    hide SlotPart, ClaimPart, RetirePart, Gone, Quiet;
    CallerMarker(w, c);
    LastCaller(w, c);
    LeavesQuiet(w, c);
    assert Step(w, LeaveRetire(c)) == LeaveRetirement(w, c);
    QuietIsGone(w, w.callers[c]);
    QuietIsGone(LeaveRetirement(w, c), w.callers[c]);
  }

  /** While a marker stands its segment admits no acquisition and no preflight. */
  lemma RetiringRefuses(w: World, e: Event, s: string)
    requires Inv(w) && Enabled(w, e) && s in w.m.retirements
    requires (e.BeginAcquire? && s in Segments(e.handles))
          || (e.RequestPreflight? && e.segment == s)
          || (e.PrepareAcquire? && s in w.acqs[e.t].segs)
    ensures Step(w, e) == w
  {
    if e.PrepareAcquire? {
      var handles := w.acqs[e.t].handles;
      assert AcquisitionOk(w.m.entries, w.slots, e.t, w.acqs[e.t]);
      ScanProps(w.m, handles);
      assert Step(w, e) == Prepare(w, e.t);
    }
  }

  // --------------------------------------------------------------- admission

  /** Entries that are not requested and cannot be evicted: leased or opening. */
  function Pinned(entries: map<Key, Entry>, requested: set<Key>): set<Key> {
    set k | k in entries && k !in requested && !IsIdle(entries, k)
  }

  /** The request does not clash with a retirement, a conflicting definition or
      an open under way. */
  ghost predicate Compatible(m: Manager, handles: seq<Handle>) {
    forall h :: h in handles ==>
      && h.key.segment !in m.retirements
      && (h.key in m.entries ==> m.entries[h.key].Open? && m.entries[h.key].handle == h)
  }

  lemma {:induction false} NoDupCard<T>(s: seq<T>, elements: set<T>)
    requires NoDup(s) && forall x :: x in elements <==> x in s
    ensures |elements| == |s|
  {
    if s == [] {
      assert elements == {};
    } else {
      HeadTail(s, s[0], s[1..]);
      NoDupCard(s[1..], elements - {s[0]});
    }
  }

  lemma EntriesSplit(entries: map<Key, Entry>, idle: seq<Key>, requested: set<Key>, existing: seq<Key>)
    requires IdleQueue(entries, idle) && NoDup(existing)
    requires forall k :: k in existing <==> k in requested && k in entries
    ensures |entries| == |existing| + |Candidates(idle, requested)| + |Pinned(entries, requested)|
  {
    var a, b := Elements(existing), Elements(Candidates(idle, requested));
    CandidatesProps(idle, requested);
    NoDupCard(existing, a);
    NoDupCard(Candidates(idle, requested), b);
    EntriesAre(entries, idle, requested, a, b);
    Sum4(entries.Keys, a, b, Pinned(entries, requested), {});
  }

  lemma EntriesAre(entries: map<Key, Entry>, idle: seq<Key>, requested: set<Key>, a: set<Key>, b: set<Key>)
    requires IdleQueue(entries, idle)
    requires forall k :: k in a <==> k in requested && k in entries
    requires forall k :: k in b <==> k in idle && k !in requested
    ensures entries.Keys == a + b + Pinned(entries, requested)
    ensures a !! b && (a + b) !! Pinned(entries, requested)
  {
  }

  /** Exact admission: a waiting request is granted if and only if it is
      compatible and, with every idle file that it did not ask for evicted, the
      slots that remain taken leave room for the whole request. */
  lemma AdmissionExact(w: World, t: nat)
    requires Inv(w) && CanPrepare(w, t)
    ensures var handles := w.acqs[t].handles;
            PrepareVerdict(w, handles) == Ready <==>
              && Compatible(w.m, handles)
              && |handles| + |Pinned(w.m.entries, KeySet(handles))| + w.m.counts.reserved + |Releasing(w.slots)| <= w.max
  {
    hide Table, Distinct, Preflights, ClosingTally, PreTally, LeaseCounts, Leased, Owned, AcqTally, RetirePart, Releasing, Pinned;
    var handles := w.acqs[t].handles;
    assert AcquisitionOk(w.m.entries, w.slots, t, w.acqs[t]);
    ScanProps(w.m, handles);
    OccupiedSplit(w);
    var scan := ScanHandles(w.m, handles);
    if scan.Scanned? { EntriesSplit(w.m.entries, w.m.idle, KeySet(handles), scan.existing); }
  }

  /** All or none: an attempt that is not granted, because a requested file is being
      opened, clashes or retires or because the slots do not suffice, changes nothing at
      all; a granted one always moves on. */
  lemma AllOrNone(w: World, t: nat)
    requires Inv(w) && Enabled(w, PrepareAcquire(t))
    ensures Step(w, PrepareAcquire(t)) == w <==> PrepareVerdict(w, w.acqs[t].handles) != Ready
  {
    hide Core;
    if PrepareVerdict(w, w.acqs[t].handles) == Ready { PrepareClosed(w, t); }
  }

  /** A compatible request within the cap is granted once nothing else is leased,
      in flight or being closed, whatever the cache holds. */
  lemma AloneIsGranted(w: World, t: nat)
    requires Inv(w) && CanPrepare(w, t)
    requires w.acqs.Keys == {t} && w.pres == map[] && w.leases == map[] && Detached(w.slots) == {}
    requires Compatible(w.m, w.acqs[t].handles) && |w.acqs[t].handles| <= w.max
    ensures PrepareVerdict(w, w.acqs[t].handles) == Ready
  {
    AdmissionExact(w, t);
    SnapshotExact(w);
    var requested := KeySet(w.acqs[t].handles);
    assert AcquisitionOk(w.m.entries, w.slots, t, w.acqs[t]);
    forall k | k in w.m.entries ensures IsIdle(w.m.entries, k) {
      assert AcqsOn(w.acqs, k) == {} && LeasesOn(w.leases, k) == {};
    }
    assert Pinned(w.m.entries, requested) == {};
    forall p: nat ensures PreSlot(p) !in w.slots { assert PreflightAt(w.slots, w.pres, p); }
    assert In(w.slots, Reservation) == {};
  }

  // ------------------------------------------------------------- all or none

  /** Rollback, whatever other threads did meanwhile: exactly the acquisition's
      own reservations leave the table, exactly its own pending leases are
      returned, and the counters give back exactly its slots and descriptors. */
  lemma RollbackExact(w: World, t: nat)
    requires Core(w) && CanRollback(w, t)
    ensures var a, v, c := w.acqs[t], Undo(w, t), w.m.counts;
            && v.m.entries == LessLeases(w.m.entries - Elements(a.missing), a.existing)
            && v.m.counts == c.(occupied := c.occupied - |a.missing|, live := c.live - a.openCount,
                                pending := c.pending - a.openCount)
            && v.m.retirements == w.m.retirements && v.m.acquisitions == w.m.acquisitions
            && v.m.closings == w.m.closings && v.m.preflights == w.m.preflights
  {
    assert AcquisitionOk(w.m.entries, w.slots, t, w.acqs[t]);
    hide Core;
    UndoReservationsClosed(w, t);
    UndoClaimsClosed(UndoReservations(w, t), t);
  }

  lemma {:induction false} AddOpeningsGone(entries: map<Key, Entry>, hs: seq<Handle>, op: nat, t: nat)
    requires DistinctKeys(hs) && forall h :: h in hs ==> h.key !in entries
    ensures AddOpenings(entries, hs, op, t) - Elements(KeysOf(hs)) == entries
    decreases |hs|
  {
    if hs == [] {
      assert entries - Elements(KeysOf(hs)) == entries;
    } else {
      var k, tail := hs[0].key, hs[1..];
      DistinctTail(hs);
      AddOpeningsGone(entries[k := Opening(hs[0], op, t)], tail, op, t);
      assert KeysOf(hs) == [k] + KeysOf(tail);
      MinusMore(AddOpenings(entries, hs, op, t), Elements(KeysOf(tail)), k, Elements(KeysOf(hs)), entries);
    }
  }

  lemma MinusMore(all: map<Key, Entry>, some: set<Key>, k: Key, more: set<Key>, rest: map<Key, Entry>)
    requires more == some + {k} && k !in rest && k in all && all - some == rest[k := all[k]]
    ensures all - more == rest
  {
    assert forall x :: x in all - more <==> x in (all - some) && x != k;
    assert forall x :: x in rest ==> x in all - some && rest[x] == (all - some)[x];
  }

  lemma LeasesRoundTrip(entries: map<Key, Entry>, ks: seq<Key>, gone: set<Key>)
    requires forall k :: k in ks ==> k !in gone && k in entries && entries[k].Open?
    ensures LessLeases(MoreLeases(entries, ks) - gone, ks) == entries - gone
  {
  }

  /** A granted request that is rolled back leaves the table as it found it, but
      for the idle files evicted to make room. */
  lemma RollbackRestores(w: World, t: nat, u: World)
    requires Core(w) && CanPrepare(w, t) && PrepareVerdict(w, w.acqs[t].handles) == Ready
    requires Core(u) && CanRollback(u, t) && u.m.entries == Prepare(w, t).m.entries
    requires t in Prepare(w, t).acqs && u.acqs[t].existing == Prepare(w, t).acqs[t].existing
    requires u.acqs[t].missing == Prepare(w, t).acqs[t].missing
    ensures Undo(u, t).m.entries ==
            w.m.entries - Elements(Victims(w, w.acqs[t].handles, |ScanHandles(w.m, w.acqs[t].handles).missing|))
  {
    var handles := w.acqs[t].handles;
    var scan := ScanHandles(w.m, handles);
    var vs := Victims(w, handles, |scan.missing|);
    assert AcquisitionOk(w.m.entries, w.slots, t, w.acqs[t]);
    VictimsProps(w, handles, |scan.missing|);
    ScanProps(w.m, handles);
    hide Core, ScanHandles, Victims, PrepareVerdict;
    PrepareClosed(w, t);
    RollbackExact(u, t);
    assert [] + scan.existing == scan.existing && [] + KeysOf(scan.missing) == KeysOf(scan.missing);
    var base := MoreLeases(w.m.entries, scan.existing) - Elements(vs);
    AddOpeningsGone(base, scan.missing, PreparedAcq(w.m, w.acqs[t], scan).op, t);
    LeasesRoundTrip(w.m.entries, scan.existing, Elements(vs));
  }

  /** Publication is complete: every requested file gets a pending lease on an
      open entry registered for exactly the requested definition. */
  lemma PublishComplete(w: World, t: nat, h: Handle)
    requires Inv(w) && CanPublish(w, t) && h in w.acqs[t].handles
    ensures var v := Publish(w, t);
            && t in v.acqs && h.key in v.acqs[t].existing && h.key in v.acqs[t].files
            && h.key in v.m.entries && v.m.entries[h.key].Open?
            && v.m.entries[h.key].handle == h && v.m.entries[h.key].file == v.acqs[t].files[h.key]
  {
    assert Covers(w.acqs[t]);
    PublishKeeps(w, t, h.key);
    PublishFrame(w, t);
    EntryOf(Publish(w, t), t, h);
  }

  lemma {:induction false} PublishKeeps(w: World, t: nat, k: Key)
    requires Core(w) && CanPublish(w, t) && (k in w.acqs[t].existing || k in w.acqs[t].missing)
    ensures t in Publish(w, t).acqs && k in Publish(w, t).acqs[t].existing
    ensures Publish(w, t).acqs[t].handles == w.acqs[t].handles
    decreases |w.acqs[t].missing|
  {
    hide Core, ClaimPart, RetirePart;
    Parts(w);
    if w.acqs[t].missing == [] {
      CanFinishPublishFiles(w, t);
    } else {
      PublishOwn(w, t);
      PublishOneCore(w, t);
      PublishKeeps(PublishOne(w, t), t, k);
    }
  }

  lemma EntryOf(w: World, t: nat, h: Handle)
    requires Core(w) && t in w.acqs && w.acqs[t].phase.Published? && h in w.acqs[t].handles && h.key in w.acqs[t].existing
    ensures h.key in w.m.entries && w.m.entries[h.key].Open? && w.m.entries[h.key].handle == h
    ensures h.key in w.acqs[t].files && w.m.entries[h.key].file == w.acqs[t].files[h.key]
  {
    assert AcquisitionOk(w.m.entries, w.slots, t, w.acqs[t]);
    assert TableAt(w.m.entries, w.slots, w.nextFree, KeySlot(h.key));
  }
}
