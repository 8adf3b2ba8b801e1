/** Waiting requests and the locked regions that do not notify: no wake-up is lost. */
module GovernorWaking {
  import opened GovernorModel
  import opened GovernorCounting
  import opened GovernorSteps
  import opened GovernorProof
  import opened GovernorRuns
  import GovernorTheorems

  /** The event does not notify the condition variable: the thread holds no lock, or its
      locked region ends without `notify_all`. A release notifies when it returns the last
      lease. */
  ghost predicate Silent(w: World, e: Event) {
    match e
    case PublishAcquire(_) => false
    case RollBack(_) => false
    case EndAcquire(_) => false
    case ReleaseLease(l) => l in w.leases && w.leases[l].key in w.m.entries && KeepsLease(w.m.entries[w.leases[l].key])
    case FinishCloses(_) => false
    case BeginRetire(_, _) => false
    case LeaveRetire(_) => false
    case FinishOpen(_) => false
    case ReleaseSlot(_) => false
    case EndPreflight(_) => false
    case _ => true
  }

  predicate KeepsLease(e: Entry) { e.Open? && e.leases > 1 }

  /** Nothing that a request may wait for is nearer: no slot is given back, no file becomes
      idle, no reservation ends, no file is published, no segment becomes quiet, and the
      retirement markers stay. */
  ghost predicate Tighter(m: Manager, m': Manager) {
    && m.counts.occupied <= m'.counts.occupied
    && (forall k :: k in m'.idle ==> k in m.idle)
    && (forall k :: k in m'.entries && m'.entries[k].Open? ==>
          k in m.entries && m.entries[k].Open? && m.entries[k].handle == m'.entries[k].handle)
    && (forall k :: k in m.entries && m.entries[k].Opening? ==> k in m'.entries && m'.entries[k].Opening?)
    && (forall s :: Quiet(m', s) ==> Quiet(m, s))
    && m'.retirements == m.retirements
  }

  lemma TighterTwice(a: Manager, b: Manager, c: Manager)
    requires Tighter(a, b) && Tighter(b, c)
    ensures Tighter(a, c)
  {
    hide Quiet;
  }

  // -------------------------------------------------------- elementary steps

  lemma WithoutSubset<T>(s: seq<T>, x: T)
    ensures forall y :: y in Without(s, x) ==> y in s
  {
    if s != [] && s[0] != x { WithoutSubset(s[1..], x); }
  }

  lemma Relabelled(m: Manager, m': Manager)
    requires m'.entries == m.entries && m'.idle == m.idle && m'.retirements == m.retirements && m'.closings == m.closings
    requires m.counts.occupied <= m'.counts.occupied
    requires m.preflights.Keys <= m'.preflights.Keys && m.acquisitions.Keys <= m'.acquisitions.Keys
    ensures Tighter(m, m')
  {
  }

  /** One more or one less lease on a file that stays in use. */
  lemma Recounted(m: Manager, k: Key, n: nat, idle: seq<Key>)
    requires k in m.entries && m.entries[k].Open? && forall x :: x in idle ==> x in m.idle
    ensures Tighter(m, m.(entries := m.entries[k := m.entries[k].(leases := n)], idle := idle))
  {
    var m' := m.(entries := m.entries[k := m.entries[k].(leases := n)], idle := idle);
    assert m'.entries.Keys == m.entries.Keys;
    forall s | Quiet(m', s) ensures Quiet(m, s) {
      forall x | x in m.entries ensures x.segment != s { assert x in m'.entries; }
    }
  }

  /** An idle file leaves the table and is to be closed; others may be reserved. */
  lemma Detached(m: Manager, v: Key, m': Manager)
    requires v in m.entries && m.entries[v].Open? && m'.idle == Without(m.idle, v) && m'.retirements == m.retirements
    requires m.counts.occupied <= m'.counts.occupied && m'.preflights == m.preflights && m'.acquisitions == m.acquisitions
    requires m'.closings == Increment(m.closings, v.segment)
    requires m.entries.Keys <= m'.entries.Keys + {v}
    requires forall k :: k in m'.entries ==> (m'.entries[k].Opening? && k !in m.entries) || (k in m.entries && m'.entries[k] == m.entries[k])
    ensures Tighter(m, m')
  {
    WithoutSubset(m.idle, v);
    forall s | Quiet(m', s) ensures Quiet(m, s) {
      assert v.segment in m'.closings;
      forall x | x in m.entries ensures x.segment != s { assert x == v || x in m'.entries; }
    }
  }

  lemma ClaimTightens(w: World, t: nat, k: Key)
    requires CanClaim(w, t, k)
    ensures Tighter(w.m, Claim(w, t, k).m)
  {
    hide Tighter;
    WithoutSubset(w.m.idle, k);
    Recounted(w.m, k, w.m.entries[k].leases + 1, Without(w.m.idle, k));
  }

  lemma TransferTightens(w: World, t: nat, v: Key, h: Handle)
    requires CanTransfer(w, t, v, h)
    ensures Tighter(w.m, Transfer(w, t, v, h).m)
  {
    hide Tighter;
    Detached(w.m, v, Transfer(w, t, v, h).m);
  }

  lemma ReserveTightens(w: World, t: nat, h: Handle)
    requires CanReserve(w, t, h)
    ensures Tighter(w.m, Reserve(w, t, h).m)
  {
    var m' := Reserve(w, t, h).m;
    forall s | Quiet(m', s) ensures Quiet(w.m, s) {
      forall x | x in w.m.entries ensures x.segment != s { assert x in m'.entries; }
    }
  }

  lemma EvictTightens(w: World, k: Key)
    requires CanEvict(w, k)
    ensures Tighter(w.m, Evict(w, k).m)
  {
    hide Tighter;
    Detached(w.m, k, Evict(w, k).m);
  }

  // ----------------------------------------------------------------- regions

  lemma {:induction false} ClaimAllTightens(w: World, t: nat, ks: seq<Key>)
    requires Core(w) && CanClaimAll(w, t, ks)
    ensures Tighter(w.m, ClaimAll(w, t, ks).m)
    decreases |ks|
  {
    hide Core, Tighter;
    if ks == [] {
      Relabelled(w.m, w.m);
    } else {
      ClaimNext(w, t, ks);
      ClaimCore(w, t, ks[0]);
      var v := Claim(w, t, ks[0]);
      ClaimTightens(w, t, ks[0]);
      ClaimAllTightens(v, t, ks[1..]);
      TighterTwice(w.m, v.m, ClaimAll(v, t, ks[1..]).m);
    }
  }

  lemma {:induction false} ReserveAllTightens(w: World, t: nat, vs: seq<Key>, hs: seq<Handle>)
    requires Core(w) && CanTransferAll(w, t, vs, hs)
    ensures Tighter(w.m, ReserveAll(w, t, vs, hs).m)
    decreases |hs|
  {
    hide Core, Tighter;
    if vs != [] {
      TransferNext(w, t, vs, hs);
      TransferCore(w, t, vs[0], hs[0]);
      var v := Transfer(w, t, vs[0], hs[0]);
      TransferTightens(w, t, vs[0], hs[0]);
      ReserveAllTightens(v, t, vs[1..], hs[1..]);
      TighterTwice(w.m, v.m, ReserveAll(v, t, vs[1..], hs[1..]).m);
    } else if hs != [] {
      ReserveNext(w, t, hs);
      ReserveCore(w, t, hs[0]);
      var v := Reserve(w, t, hs[0]);
      ReserveTightens(w, t, hs[0]);
      ReserveAllTightens(v, t, [], hs[1..]);
      TighterTwice(w.m, v.m, ReserveAll(v, t, [], hs[1..]).m);
    } else {
      Relabelled(w.m, w.m);
    }
  }

  lemma PrepareTightens(w: World, t: nat)
    requires Core(w) && CanPrepare(w, t)
    ensures Tighter(w.m, Prepare(w, t).m)
  {
    hide Core, ClaimPart, RetirePart, Tighter;
    var handles := w.acqs[t].handles;
    if PrepareVerdict(w, handles) != Ready {
      Relabelled(w.m, w.m);
    } else {
      var scan := ScanHandles(w.m, handles);
      var u, c := StartReserving(w, t), PrepareClaimed(w, t);
      Parts(w);
      StartReservingCore(w, t);
      PrepareClaims(w, t);
      ClaimAllClosed(u, t, scan.existing);
      ClaimAllTightens(u, t, scan.existing);
      Relabelled(w.m, u.m);
      TighterTwice(w.m, u.m, c.m);
      PrepareReady(w, t);
      ReserveAllTightens(c, t, Victims(w, handles, |scan.missing|), scan.missing);
      TighterTwice(w.m, c.m, Prepare(w, t).m);
    }
  }

  lemma {:induction false} SweepTightens(w: World, segment: string, ks: seq<Key>)
    requires Core(w) && IdleOf(w, segment, ks)
    ensures Tighter(w.m, Sweep(w, segment, ks).m)
    decreases |ks|
  {
    hide Core, Tighter;
    if ks == [] {
      Relabelled(w.m, w.m);
    } else {
      SweepNext(w, segment, ks);
      EvictCore(w, ks[0]);
      var v := Evict(w, ks[0]);
      EvictTightens(w, ks[0]);
      SweepTightens(v, segment, ks[1..]);
      TighterTwice(w.m, v.m, Sweep(v, segment, ks[1..]).m);
    }
  }

  lemma ReservePreflightTightens(w: World, p: nat)
    requires Core(w) && p in w.pres && w.pres[p].phase.PreWaiting?
    ensures Tighter(w.m, ReservePreflight(w, p).m)
  {
    hide Core, Tighter;
    if w.m.counts.occupied < w.max || w.m.idle == [] {
      Relabelled(w.m, ReservePreflight(w, p).m);
    } else {
      IdleHead(w);
      Detached(w.m, w.m.idle[0], ReservePreflight(w, p).m);
    }
  }

  /** A release that leaves leases. */
  lemma ReleaseTightens(w: World, l: nat)
    requires Inv(w) && CanUnlease(w, l) && Silent(w, ReleaseLease(l))
    ensures Tighter(w.m, Release(w, l).m)
  {
    hide Core, ClaimPart, RetirePart, Tighter;
    Parts(w);
    LeaseEntry(w, l);
    UnleaseCore(w, l);
    var k := w.leases[l].key;
    Recounted(w.m, k, w.m.entries[k].leases - 1, w.m.idle);
    ReleaseKeeps(w, l);
  }

  lemma ReleaseKeeps(w: World, l: nat)
    requires Inv(w) && CanUnlease(w, l) && Silent(w, ReleaseLease(l))
    ensures w.leases[l].key in w.m.entries && w.m.entries[w.leases[l].key].leases > 0 && Release(w, l) == Unlease(w, l)
  {
    hide Core, ClaimPart, RetirePart;
    Parts(w);
    LeaseEntry(w, l);
    UnleaseCore(w, l);
    assert !IsIdle(Unlease(w, l).m.entries, w.leases[l].key);
  }

  lemma AcquisitionTightens(w: World, e: Event)
    requires Inv(w) && Enabled(w, e) && Silent(w, e) && e.OfAcquisition()
    ensures Tighter(w.m, StepAcquisition(w, e).m)
  {
    hide Core, ClaimPart, RetirePart, Tighter, Prepare, Publish, Undo, Trim, Covered, Admitted, Register, Unregister, OpenHand, Account, FailOpen,
         DistinctKeys;
    if e.PrepareAcquire? {
      PrepareTightens(w, e.t);
    } else if e.BeginAcquire? {
      RegisterTightens(w, e.t, e.handles);
    } else {
      OpeningTightens(w, e);
    }
  }

  lemma RegisterTightens(w: World, t: nat, handles: seq<Handle>)
    ensures Tighter(w.m, Register(w, t, handles).m) && Tighter(w.m, w.m)
  {
    hide Tighter;
    Relabelled(w.m, Register(w, t, handles).m);
    Relabelled(w.m, w.m);
  }

  lemma OpeningTightens(w: World, e: Event)
    requires Inv(w) && Enabled(w, e) && (e.OpenFile? || e.AccountOpen? || e.FailedOpen?)
    ensures Tighter(w.m, StepAcquisition(w, e).m)
  {
    hide Core, ClaimPart, RetirePart, Tighter, Prepare, Publish, Undo, Trim, Covered, Admitted, Register, Unregister, DistinctKeys;
    Relabelled(w.m, StepAcquisition(w, e).m);
  }

  lemma PreflightTightens(w: World, e: Event)
    requires Inv(w) && Enabled(w, e) && Silent(w, e) && e.OfPreflight()
    ensures Tighter(w.m, StepPreflight(w, e).m)
  {
    hide Core, ClaimPart, RetirePart, Tighter, ReservePreflight, Covered, BeginPreflight, OpenPreflight, FailPreflight, ObservePreflight,
         ClosePreflight;
    if e.ReserveSlot? {
      ReservePreflightTightens(w, e.p);
    } else if e.RequestPreflight? {
      RequestTightens(w, e.p, e.segment);
    } else {
      PathTightens(w, e);
    }
  }

  lemma RequestTightens(w: World, p: nat, segment: string)
    ensures Tighter(w.m, BeginPreflight(w, p, segment).m) && Tighter(w.m, w.m)
  {
    hide Tighter;
    Relabelled(w.m, BeginPreflight(w, p, segment).m);
    Relabelled(w.m, w.m);
  }

  lemma PathTightens(w: World, e: Event)
    requires Inv(w) && Enabled(w, e) && (e.OpenPath? || e.FailedPath? || e.ObserveOpen? || e.ClosePath?)
    ensures Tighter(w.m, StepPreflight(w, e).m)
  {
    hide Core, ClaimPart, RetirePart, Tighter, ReservePreflight, Covered, BeginPreflight;
    Relabelled(w.m, StepPreflight(w, e).m);
  }

  lemma LeaseTightens(w: World, e: Event)
    requires Inv(w) && Enabled(w, e) && Silent(w, e) && !e.OfAcquisition() && !e.OfPreflight()
    ensures Tighter(w.m, StepLease(w, e).m)
  {
    hide Core, ClaimPart, RetirePart, Tighter, Release, FinishDetached, Sweep, Covered;
    if e.CloneLease? {
      CloneTightens(w, e.l, e.copy);
    } else if e.ReleaseLease? {
      ReleaseTightens(w, e.l);
    } else if e.SweepIdle? {
      SweepTightens(w, w.callers[e.c], e.ks);
    } else {
      Relabelled(w.m, StepLease(w, e).m);
    }
  }

  /** Every event that does not notify. */
  lemma SilentTightens(w: World, e: Event)
    requires Inv(w) && Enabled(w, e) && Silent(w, e)
    ensures Tighter(w.m, Step(w, e).m)
  {
    hide Inv, Enabled, Silent, Tighter, StepAcquisition, StepPreflight, StepLease;
    if e.OfAcquisition() {
      AcquisitionTightens(w, e);
    } else if e.OfPreflight() {
      PreflightTightens(w, e);
    } else {
      LeaseTightens(w, e);
    }
  }

  lemma CloneTightens(w: World, l: nat, copy: nat)
    requires Inv(w) && Enabled(w, CloneLease(l, copy))
    ensures Tighter(w.m, StepLease(w, CloneLease(l, copy)).m)
  {
    hide Core, ClaimPart, RetirePart, Tighter;
    Parts(w);
    LeaseEntry(w, l);
    Recounted(w.m, w.leases[l].key, w.m.entries[w.leases[l].key].leases + 1, w.m.idle);
  }

  // ---------------------------------------------------------------- requests

  lemma {:induction false} FewerCandidates(idle: seq<Key>, idle': seq<Key>, requested: set<Key>)
    requires NoDup(idle) && NoDup(idle') && forall k :: k in idle' ==> k in idle
    ensures |Candidates(idle', requested)| <= |Candidates(idle, requested)|
  {
    hide Candidates, NoDup;
    CandidatesProps(idle, requested);
    CandidatesProps(idle', requested);
    FewerElements(Candidates(idle', requested), Candidates(idle, requested));
  }

  lemma FewerElements<T>(a: seq<T>, b: seq<T>)
    requires NoDup(a) && NoDup(b) && forall x :: x in a ==> x in b
    ensures |a| <= |b|
  {
    hide NoDup;
    GovernorTheorems.NoDupCard(a, Elements(a));
    GovernorTheorems.NoDupCard(b, Elements(b));
    GovernorTheorems.SubsetCard(Elements(a), Elements(b));
  }

  /** A request that waits in `m` is not granted in a tighter state. */
  lemma StillWaits(w: World, v: World, handles: seq<Handle>)
    requires Tighter(w.m, v.m) && w.max == v.max && DistinctKeys(handles) && NoDup(w.m.idle) && NoDup(v.m.idle)
    requires PrepareVerdict(w, handles) == Wait
    ensures PrepareVerdict(v, handles) != Ready
  {
    hide ScanHandles, Candidates, Quiet, NoDup, DistinctKeys, KeySet;
    var a, b := ScanHandles(w.m, handles), ScanHandles(v.m, handles);
    FewerCandidates(w.m.idle, v.m.idle, KeySet(handles));
    if PrepareVerdict(v, handles) == Ready {
      NotBusy(w.m, v.m, handles);
      MoreMissing(w.m, v.m, handles);
    }
  }

  /** What can be scanned in a tighter state meets no reservation in the other. */
  lemma {:induction false} NotBusy(m: Manager, m': Manager, handles: seq<Handle>)
    requires Tighter(m, m') && ScanHandles(m', handles).Scanned?
    ensures !ScanHandles(m, handles).Busy?
  {
    hide Quiet;
    if handles != [] { NotBusy(m, m', handles[1..]); }
  }

  lemma MoreMissing(m: Manager, m': Manager, handles: seq<Handle>)
    requires Tighter(m, m') && DistinctKeys(handles) && ScanHandles(m, handles).Scanned? && ScanHandles(m', handles).Scanned?
    ensures |ScanHandles(m, handles).missing| <= |ScanHandles(m', handles).missing|
  {
    hide Quiet, ScanHandles, NoDup, DistinctKeys;
    ScanProps(m, handles);
    ScanProps(m', handles);
    var a, b := ScanHandles(m, handles).missing, ScanHandles(m', handles).missing;
    forall h | h in a ensures h in b { assert h.key !in m'.entries; }
    DistinctNoDup(a);
    DistinctNoDup(b);
    FewerElements(a, b);
  }

  lemma DistinctNoDup(hs: seq<Handle>)
    requires DistinctKeys(hs)
    ensures NoDup(hs)
  {
  }

  /** What a preflight waits for. */
  predicate SlotFor(w: World) { w.m.counts.occupied < w.max || w.m.idle != [] }

  /** What a retirement waits for: a file to detach, or a quiet segment; when it has joined,
      completion. */
  ghost predicate Retirable(w: World, segment: string) { Quiet(w.m, segment) || exists k :: k in w.m.idle && k.segment == segment }

  predicate Completed(w: World, segment: string) { segment in w.m.retirements && w.m.retirements[segment].completed }

  /** No request that waits in `w` could go on in `v`. */
  ghost predicate NobodyWoken(w: World, v: World) {
    && (forall handles :: DistinctKeys(handles) && PrepareVerdict(w, handles) == Wait ==> PrepareVerdict(v, handles) != Ready)
    && (SlotFor(v) ==> SlotFor(w))
    && forall s :: (Retirable(v, s) ==> Retirable(w, s)) && (Completed(v, s) ==> Completed(w, s))
  }

  lemma TighterWakesNobody(w: World, v: World)
    requires Inv(w) && Inv(v) && Tighter(w.m, v.m) && w.max == v.max
    ensures NobodyWoken(w, v)
  {
    hide PrepareVerdict, Quiet, DistinctKeys, NoDup;
    IdleOnce(w);
    IdleOnce(v);
    forall handles | DistinctKeys(handles) && PrepareVerdict(w, handles) == Wait ensures PrepareVerdict(v, handles) != Ready {
      StillWaits(w, v, handles);
    }
    if SlotFor(v) && v.m.idle != [] { assert v.m.idle[0] in w.m.idle; }
  }

  lemma IdleOnce(w: World)
    requires Inv(w)
    ensures NoDup(w.m.idle)
  {
  }

  /** An event that does not notify lets no waiting request go on. */
  lemma SilentWakesNobody(w: World, e: Event)
    requires Inv(w) && Enabled(w, e) && Silent(w, e)
    ensures NobodyWoken(w, Step(w, e))
  {
    hide Inv, Enabled, Silent, Tighter, NobodyWoken;
    SilentTightens(w, e);
    TighterWakesNobody(w, Step(w, e));
  }

  lemma {:induction false} SilentRunTightens(states: seq<World>, events: seq<Event>, i: nat, j: nat)
    requires Run(states, events) && i <= j < |states|
    requires forall k :: i <= k < j ==> Silent(states[k], events[k])
    ensures Tighter(states[i].m, states[j].m)
    decreases j - i
  {
    hide Inv, Init, Step, Enabled, Silent, Tighter;
    if i == j {
      Relabelled(states[i].m, states[i].m);
    } else {
      SilentRunTightens(states, events, i, j - 1);
      EveryRun(states, events, j - 1);
      var k := j - 1;
      assert Next(states[k], events[k], states[k + 1]);
      SilentTightens(states[k], events[k]);
      TighterTwice(states[i].m, states[k].m, states[j].m);
    }
  }

  /** Over every run: between two notifications a request that has to wait could not have
      gone on at any later moment, so that whoever sleeps until the next notification misses
      nothing. */
  lemma NoLostWakeup(states: seq<World>, events: seq<Event>, i: nat, j: nat)
    requires Run(states, events) && i <= j < |states|
    requires forall k :: i <= k < j ==> Silent(states[k], events[k])
    ensures NobodyWoken(states[i], states[j])
  {
    hide Inv, Init, Next, Silent, Tighter, NobodyWoken;
    EveryRun(states, events, i);
    EveryRun(states, events, j);
    SilentRunTightens(states, events, i, j);
    TighterWakesNobody(states[i], states[j]);
  }
}
