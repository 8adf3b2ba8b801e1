/** The order of the idle queue: who has been idle longest stands first and goes first, and
    nobody goes without need. */
module GovernorLru {
  import opened GovernorModel
  import opened GovernorCounting
  import opened GovernorSteps
  import opened GovernorProof
  import opened GovernorRuns
  import opened GovernorTheorems

  // ------------------------------------------------------------------- queues

  /** `x` stands before `y`. */
  predicate Ahead<T(==)>(s: seq<T>, x: T, y: T) {
    s != [] && ((s[0] == x && y in s[1..]) || Ahead(s[1..], x, y))
  }

  lemma {:induction false} AheadIs<T>(s: seq<T>, x: T, y: T)
    ensures Ahead(s, x, y) <==> exists i, j :: 0 <= i < j < |s| && s[i] == x && s[j] == y
  {
    if s != [] {
      var t := s[1..];
      AheadIs(t, x, y);
      if i, j :| 0 <= i < j < |t| && t[i] == x && t[j] == y { assert s[i + 1] == x && s[j + 1] == y; }
      if s[0] == x && y in t {
        var j :| 0 <= j < |t| && t[j] == y;
        assert s[0] == x && s[j + 1] == y;
      }
      if i, j :| 0 <= i < j < |s| && s[i] == x && s[j] == y {
        assert t[j - 1] == y;
        if i > 0 { assert t[i - 1] == x; }
      }
    }
  }

  lemma {:induction false} AheadIn<T>(s: seq<T>, x: T, y: T)
    requires Ahead(s, x, y)
    ensures x in s && y in s
  {
    if !(s[0] == x && y in s[1..]) { AheadIn(s[1..], x, y); }
  }

  /** Members keep their order, and none is added. */
  ghost predicate Thinned(before: seq<Key>, after: seq<Key>) { forall x, y :: Ahead(after, x, y) ==> Ahead(before, x, y) }

  lemma {:induction false} WithoutThins(s: seq<Key>, z: Key)
    ensures Thinned(s, Without(s, z))
  {
    if s != [] {
      WithoutThins(s[1..], z);
      if s[0] != z {
        var t := [s[0]] + Without(s[1..], z);
        assert t[1..] == Without(s[1..], z);
        WithoutIn(s[1..], z);
      }
    }
  }

  lemma {:induction false} WithoutIn<T>(s: seq<T>, z: T)
    ensures forall y :: y in Without(s, z) ==> y in s
  {
    if s != [] { WithoutIn(s[1..], z); }
  }

  lemma {:induction false} WithoutAllThins(s: seq<Key>, ks: seq<Key>)
    ensures Thinned(s, WithoutAll(s, ks))
    decreases |ks|
  {
    if ks != [] {
      WithoutThins(s, ks[0]);
      WithoutAllThins(Without(s, ks[0]), ks[1..]);
    }
  }

  lemma {:induction false} AppendedLast(s: seq<Key>, t: seq<Key>, x: Key, y: Key)
    requires Ahead(s + t, x, y) && y !in t
    ensures Ahead(s, x, y)
  {
    if s == [] {
      assert s + t == t;
      AheadIn(t, x, y);
    } else {
      assert (s + t)[1..] == s[1..] + t;
      if Ahead(s[1..] + t, x, y) { AppendedLast(s[1..], t, x, y); }
    }
  }

  lemma {:induction false} AheadInPrefix<T>(s: seq<T>, n: nat, x: T, y: T)
    requires n <= |s| && NoDup(s) && Ahead(s, x, y) && y in s[..n]
    ensures x in s[..n]
  {
    if s[0] != x {
      HeadTail(s, s[0], s[1..]);
      AheadIn(s[1..], x, y);
      assert s[..n] == [s[0]] + s[1..][..n - 1];
      AheadInPrefix(s[1..], n - 1, x, y);
    }
  }

  lemma {:induction false} CandidatesInOrder(idle: seq<Key>, requested: set<Key>, x: Key, y: Key)
    requires Ahead(idle, x, y) && x !in requested && y !in requested
    ensures Ahead(Candidates(idle, requested), x, y)
  {
    var tail := idle[1..];
    if idle[0] == x && y in tail {
      CandidatesKeep(tail, requested, y);
      assert ([x] + Candidates(tail, requested))[1..] == Candidates(tail, requested);
    } else {
      CandidatesInOrder(tail, requested, x, y);
      assert ([idle[0]] + Candidates(tail, requested))[1..] == Candidates(tail, requested);
    }
  }

  lemma {:induction false} CandidatesKeep(idle: seq<Key>, requested: set<Key>, y: Key)
    requires y in idle && y !in requested
    ensures y in Candidates(idle, requested)
  {
    if idle[0] != y { CandidatesKeep(idle[1..], requested, y); }
  }

  // -------------------------------------------------------------------- events

  /** Whoever stands before a file that was already queued stood before it already. */
  ghost predicate InOrder(before: seq<Key>, after: seq<Key>) {
    forall x, y :: Ahead(after, x, y) && y in before ==> Ahead(before, x, y)
  }

  lemma ThinnedInOrder(before: seq<Key>, after: seq<Key>)
    requires Thinned(before, after)
    ensures InOrder(before, after)
  {
  }

  /** New files queue up behind the others, and some files leave. */
  lemma AppendedInOrder(before: seq<Key>, more: seq<Key>, after: seq<Key>)
    requires (forall k :: k in more ==> k !in before) && Thinned(before + more, after)
    ensures InOrder(before, after)
  {
    forall x, y | Ahead(after, x, y) && y in before ensures Ahead(before, x, y) { AppendedLast(before, more, x, y); }
  }

  /** How many files `trim_idle_cache` takes. */
  function Excess(idle: seq<Key>, limit: nat): (n: nat)
    ensures n <= |idle|
  {
    if |idle| <= limit then 0 else |idle| - limit
  }

  /** It takes those that have been idle longest, exactly down to the limit. */
  lemma {:induction false} TrimTakesOldest(w: World)
    requires Core(w)
    ensures var n := Excess(w.m.idle, w.maxCached);
            && Trim(w).m.idle == w.m.idle[n..]
            && forall k :: k in Trim(w).m.entries <==> k in w.m.entries && k !in w.m.idle[..n]
    decreases |w.m.idle|
  {
    hide Core, Excess;
    NothingTaken(w.m.idle, w.maxCached);
    if |w.m.idle| > w.maxCached {
      IdleHead(w);
      EvictCore(w, w.m.idle[0]);
      WithoutProps(w.m.idle, w.m.idle[0]);
      var v := Evict(w, w.m.idle[0]);
      HeadGoes(w.m.idle);
      TrimTakesOldest(v);
      OneMoreTaken(w.m.idle, w.maxCached);
    }
  }

  lemma NothingTaken(idle: seq<Key>, limit: nat)
    ensures |idle| <= limit ==> Excess(idle, limit) == 0
  {
  }

  lemma OneMoreTaken(idle: seq<Key>, limit: nat)
    requires |idle| > limit
    ensures var n, rest := Excess(idle, limit), idle[1..];
            && Excess(rest, limit) == n - 1 && rest[n - 1..] == idle[n..]
            && forall k :: k in idle[..n] <==> k == idle[0] || k in rest[..n - 1]
  {
    var n, rest := Excess(idle, limit), idle[1..];
    assert idle[..n] == [idle[0]] + rest[..n - 1];
  }

  lemma HeadGoes(s: seq<Key>)
    requires s != []
    ensures Without(s, s[0]) == s[1..]
  {
  }

  lemma {:induction false} TailThins(s: seq<Key>, n: nat)
    requires n <= |s|
    ensures Thinned(s, s[n..])
    decreases n
  {
    if n > 0 {
      TailThins(s[1..], n - 1);
      assert s[1..][n - 1..] == s[n..];
    }
  }

  lemma {:induction false} SweepThins(w: World, segment: string, ks: seq<Key>)
    requires Core(w) && IdleOf(w, segment, ks)
    ensures Thinned(w.m.idle, Sweep(w, segment, ks).m.idle)
    decreases |ks|
  {
    hide Core, Ahead;
    if ks != [] {
      SweepNext(w, segment, ks);
      EvictCore(w, ks[0]);
      WithoutThins(w.m.idle, ks[0]);
      SweepThins(Evict(w, ks[0]), segment, ks[1..]);
    }
  }

  lemma PrepareThins(w: World, t: nat)
    requires Core(w) && CanPrepare(w, t)
    ensures Thinned(w.m.idle, Prepare(w, t).m.idle)
  {
    hide Core, Ahead, ScanHandles, WithoutAll, AddOpenings, IncrementEach, MoreLeases, Victims;
    if PrepareVerdict(w, w.acqs[t].handles) == Ready {
      PrepareClosed(w, t);
      var scan := ScanHandles(w.m, w.acqs[t].handles);
      WithoutAllThins(w.m.idle, scan.existing);
      WithoutAllThins(WithoutAll(w.m.idle, scan.existing), Victims(w, w.acqs[t].handles, |scan.missing|));
    }
  }

  lemma PreflightThins(w: World, p: nat)
    requires Core(w) && p in w.pres && w.pres[p].phase.PreWaiting?
    ensures Thinned(w.m.idle, ReservePreflight(w, p).m.idle)
  {
    hide Core, Ahead;
    if w.m.idle != [] { WithoutThins(w.m.idle, w.m.idle[0]); }
  }

  lemma ReleaseInOrder(w: World, l: nat)
    requires Core(w) && CanUnlease(w, l)
    ensures InOrder(w.m.idle, Release(w, l).m.idle)
  {
    hide Core, ClaimPart, RetirePart, Ahead, Trim, InOrder;
    Parts(w);
    LeasePins(w, l);
    LeaseEntry(w, l);
    UnleaseCore(w, l);
    var k, u := w.leases[l].key, Unlease(w, l);
    var more := if w.m.entries[k].leases == 1 then [k] else [];
    assert u.m.idle == w.m.idle + more;
    if IsIdle(u.m.entries, k) && k.segment in w.m.retirements {
      EvictCore(u, k);
      var v := Evict(u, k);
      TrimTakesOldest(v);
      WithoutThins(u.m.idle, k);
      TailThins(v.m.idle, Excess(v.m.idle, v.maxCached));
    } else {
      TrimTakesOldest(u);
      TailThins(u.m.idle, Excess(u.m.idle, u.maxCached));
    }
    AppendedInOrder(w.m.idle, more, Release(w, l).m.idle);
  }

  lemma {:induction false} LastLeasesLeased(entries: map<Key, Entry>, ks: seq<Key>)
    ensures forall k :: k in LastLeases(entries, ks) ==> k in entries && entries[k].Open? && entries[k].leases == 1
  {
    if ks != [] { LastLeasesLeased(entries, ks[1..]); }
  }

  lemma UndoQueues(w: World, t: nat)
    requires Core(w) && CanRollback(w, t)
    ensures exists more :: Undo(w, t).m.idle == w.m.idle + more && forall k :: k in more ==> k !in w.m.idle
  {
    hide Core, ClaimPart, RetirePart, UndoReservations, UndoClaims;
    Parts(w);
    OwnNoDup(w, t);
    var v := UndoReservations(w, t);
    UndoReservationsClosed(w, t);
    UndoClaimsClosed(v, t);
    var more := LastLeases(v.m.entries, v.acqs[t].existing);
    LastLeasesLeased(v.m.entries, v.acqs[t].existing);
    NotQueued(w, more);
    assert Undo(w, t).m.idle == w.m.idle + more;
  }

  lemma OwnNoDup(w: World, t: nat)
    requires ClaimPart(w) && t in w.acqs
    ensures NoDup(w.acqs[t].existing) && w.acqs[t].openCount <= |w.acqs[t].missing|
  {
    OwnWellFormed(w, t);
  }

  lemma NotQueued(w: World, more: seq<Key>)
    requires ClaimPart(w) && forall k :: k in more ==> k in w.m.entries && w.m.entries[k].Open? && w.m.entries[k].leases == 1
    ensures forall k :: k in more ==> k !in w.m.idle
  {
  }

  lemma RollbackInOrder(w: World, t: nat)
    requires Core(w) && CanRollback(w, t)
    ensures InOrder(w.m.idle, Trim(Undo(w, t)).m.idle)
  {
    hide Core, Ahead, Trim, InOrder, Undo;
    UndoQueues(w, t);
    var u := Undo(w, t);
    var more :| u.m.idle == w.m.idle + more && forall k :: k in more ==> k !in w.m.idle;
    TrimTakesOldest(u);
    TailThins(u.m.idle, Excess(u.m.idle, u.maxCached));
    AppendedInOrder(w.m.idle, more, Trim(u).m.idle);
  }

  lemma Unmoved(idle: seq<Key>)
    ensures InOrder(idle, idle)
  {
  }

  lemma AcquisitionInOrder(w: World, e: Event)
    requires Inv(w) && Enabled(w, e) && e.OfAcquisition()
    ensures InOrder(w.m.idle, StepAcquisition(w, e).m.idle)
  {
    hide Core, ClaimPart, RetirePart, InOrder, Prepare, Undo, Covered, Admitted, DistinctKeys, Publish, Trim;
    Unmoved(w.m.idle);
    if e.PrepareAcquire? {
      PrepareThins(w, e.t);
      ThinnedInOrder(w.m.idle, Prepare(w, e.t).m.idle);
    } else if e.RollBack? {
      RollbackInOrder(w, e.t);
    } else {
      AcquisitionUnmoved(w, e);
    }
  }

  lemma AcquisitionUnmoved(w: World, e: Event)
    requires Inv(w) && Enabled(w, e) && e.OfAcquisition() && !e.PrepareAcquire? && !e.RollBack?
    ensures StepAcquisition(w, e).m.idle == w.m.idle
  {
    hide Core, ClaimPart, RetirePart, Prepare, Undo, Covered, Admitted, DistinctKeys, Publish, Trim;
  }

  lemma LeaseInOrder(w: World, e: Event)
    requires Inv(w) && Enabled(w, e) && !e.OfAcquisition() && !e.OfPreflight()
    ensures InOrder(w.m.idle, StepLease(w, e).m.idle)
  {
    hide Core, ClaimPart, RetirePart, InOrder, Covered, Release, Sweep, FinishDetached;
    Unmoved(w.m.idle);
    if e.ReleaseLease? {
      ReleaseInOrder(w, e.l);
    } else if e.SweepIdle? {
      SweepThins(w, w.callers[e.c], e.ks);
      ThinnedInOrder(w.m.idle, Sweep(w, w.callers[e.c], e.ks).m.idle);
    } else {
      LeaseUnmoved(w, e);
    }
  }

  lemma LeaseUnmoved(w: World, e: Event)
    requires Inv(w) && Enabled(w, e) && !e.OfAcquisition() && !e.OfPreflight() && !e.ReleaseLease? && !e.SweepIdle?
    ensures StepLease(w, e).m.idle == w.m.idle
  {
    hide Core, ClaimPart, RetirePart, Covered, Release, Sweep, FinishDetached;
  }

  lemma PreflightInOrder(w: World, e: Event)
    requires Inv(w) && Enabled(w, e) && e.OfPreflight()
    ensures InOrder(w.m.idle, StepPreflight(w, e).m.idle)
  {
    hide Core, ClaimPart, RetirePart, InOrder, Covered, ReservePreflight;
    Unmoved(w.m.idle);
    if e.ReserveSlot? {
      PreflightThins(w, e.p);
      ThinnedInOrder(w.m.idle, ReservePreflight(w, e.p).m.idle);
    } else {
      PreflightUnmoved(w, e);
    }
  }

  lemma PreflightUnmoved(w: World, e: Event)
    requires Inv(w) && Enabled(w, e) && e.OfPreflight() && !e.ReserveSlot?
    ensures StepPreflight(w, e).m.idle == w.m.idle
  {
    hide Core, ClaimPart, RetirePart, Covered, ReservePreflight;
  }

  /** No event lets a file overtake one that was already idle. */
  lemma EveryEventInOrder(w: World, e: Event)
    requires Inv(w) && Enabled(w, e)
    ensures InOrder(w.m.idle, Step(w, e).m.idle)
  {
    hide Inv, Enabled, InOrder, StepAcquisition, StepPreflight, StepLease;
    if e.OfAcquisition() {
      AcquisitionInOrder(w, e);
    } else if e.OfPreflight() {
      PreflightInOrder(w, e);
    } else {
      LeaseInOrder(w, e);
    }
  }

  /** `k` has been idle in every state from `i` to `j`. */
  ghost predicate IdleThroughout(states: seq<World>, i: nat, j: nat, k: Key)
    requires i <= j < |states|
  {
    forall n :: i <= n <= j ==> k in states[n].m.idle
  }

  /** Over every run: whoever stands further ahead in the idle queue has been idle at least
      as long. */
  lemma {:induction false} LongestIdleFirst(states: seq<World>, events: seq<Event>, i: nat, j: nat, x: Key, y: Key)
    requires Run(states, events) && i <= j < |states|
    requires Ahead(states[j].m.idle, x, y) && IdleThroughout(states, i, j, y)
    ensures IdleThroughout(states, i, j, x)
    decreases j
  {
    hide Inv, Init, Step, Enabled, Ahead;
    AheadIn(states[j].m.idle, x, y);
    if i < j {
      var k := j - 1;
      EveryRun(states, events, k);
      assert Next(states[k], events[k], states[k + 1]);
      EveryEventInOrder(states[k], events[k]);
      assert y in states[k].m.idle;
      LongestIdleFirst(states, events, i, k, x, y);
    }
  }

  // ----------------------------------------------------------------- evictions

  /** A granted request evicts the files that have been idle longest, apart from those that
      it asks for, and none unless it then takes every slot. */
  lemma PrepareEvictsOldest(w: World, t: nat, x: Key, y: Key)
    requires Inv(w) && CanPrepare(w, t)
    requires x in w.m.idle && x !in Prepare(w, t).m.entries
    ensures Prepare(w, t).m.counts.occupied == w.max
    ensures Ahead(w.m.idle, y, x) && y !in KeySet(w.acqs[t].handles) ==> y !in Prepare(w, t).m.entries
  {
    hide Core, ClaimPart, RetirePart, ScanHandles, WithoutAll, IncrementEach, Ahead, KeySet, AddOpenings, MoreLeases;
    Parts(w);
    var handles := w.acqs[t].handles;
    assert PrepareVerdict(w, handles) == Ready by { if PrepareVerdict(w, handles) != Ready { Queued(w, x); } }
    PrepareClosed(w, t);
    var missing := ScanHandles(w.m, handles).missing;
    var victims := Victims(w, handles, |missing|);
    Evicted(w, t, x);
    if Ahead(w.m.idle, y, x) && y !in KeySet(handles) {
      AheadIn(w.m.idle, y, x);
      QueueOnce(w);
      VictimsFirst(w, handles, |missing|, y, x);
      Evicted(w, t, y);
    }
  }

  lemma Queued(w: World, x: Key)
    requires ClaimPart(w) && x in w.m.idle
    ensures x in w.m.entries
  {
  }

  lemma QueueOnce(w: World)
    requires ClaimPart(w)
    ensures NoDup(w.m.idle)
  {
  }

  /** An idle file leaves the table if and only if it is a victim. */
  lemma Evicted(w: World, t: nat, x: Key)
    requires Core(w) && CanPrepare(w, t) && PrepareVerdict(w, w.acqs[t].handles) == Ready && x in w.m.idle
    ensures x !in Prepare(w, t).m.entries <==> x in Victims(w, w.acqs[t].handles, |ScanHandles(w.m, w.acqs[t].handles).missing|)
  {
    hide Core, ClaimPart, RetirePart, ScanHandles, WithoutAll, IncrementEach, Victims;
    Parts(w);
    PrepareClosed(w, t);
    Queued(w, x);
    var handles := w.acqs[t].handles;
    var scan := ScanHandles(w.m, handles);
    OwnDistinctKeys(w, t);
    ScanProps(w.m, handles);
    AddOpeningsKeys(MoreLeases(w.m.entries, scan.existing) - Elements(Victims(w, handles, |scan.missing|)), scan.missing,
                    PreparedAcq(w.m, w.acqs[t], scan).op, t, x);
  }

  lemma OwnDistinctKeys(w: World, t: nat)
    requires ClaimPart(w) && t in w.acqs
    ensures DistinctKeys(w.acqs[t].handles)
  {
    OwnWellFormed(w, t);
  }

  lemma {:induction false} AddOpeningsKeys(entries: map<Key, Entry>, hs: seq<Handle>, op: nat, t: nat, x: Key)
    ensures x in AddOpenings(entries, hs, op, t) <==> x in entries || exists h :: h in hs && h.key == x
    decreases |hs|
  {
    if hs != [] {
      AddOpeningsKeys(entries[hs[0].key := Opening(hs[0], op, t)], hs[1..], op, t, x);
      assert hs == [hs[0]] + hs[1..];
    }
  }

  lemma VictimsFirst(w: World, handles: seq<Handle>, needed: nat, y: Key, x: Key)
    requires NoDup(w.m.idle) && Ahead(w.m.idle, y, x) && y !in KeySet(handles) && x in Victims(w, handles, needed)
    ensures y in Victims(w, handles, needed)
  {
    hide Ahead, KeySet, Shortfall;
    var all := Candidates(w.m.idle, KeySet(handles));
    CandidatesProps(w.m.idle, KeySet(handles));
    assert x in all;
    CandidatesInOrder(w.m.idle, KeySet(handles), y, x);
    var n := Shortfall(w.max, w.m.counts.occupied, needed);
    if n <= |all| { AheadInPrefix(all, n, y, x); } else { AheadIn(all, y, x); }
  }

  /** A preflight takes a free slot if there is one, and otherwise that of the file that has
      been idle longest. */
  lemma PreflightEvictsOldest(w: World, p: nat)
    requires Inv(w) && p in w.pres && w.pres[p].phase.PreWaiting?
    ensures var v := ReservePreflight(w, p);
            if w.m.counts.occupied < w.max then v.m.idle == w.m.idle && v.m.entries == w.m.entries
            else if w.m.idle == [] then v == w
            else v.m.idle == w.m.idle[1..] && v.m.entries == w.m.entries - {w.m.idle[0]}
  {
    hide Core;
    if w.m.idle != [] { HeadGoes(w.m.idle); }
  }

  /** Returning the last lease puts the file at the end of the idle queue; under a retirement
      marker it leaves the table instead; returning another lease moves nothing. */
  lemma ReleaseQueues(w: World, l: nat)
    requires Inv(w) && CanUnlease(w, l)
    ensures var k, v := w.leases[l].key, Release(w, l);
            && k in w.m.entries && w.m.entries[k].Open?
            && (w.m.entries[k].leases > 1 ==> v.m.idle == w.m.idle && k in v.m.entries)
            && (w.m.entries[k].leases == 1 && k.segment in w.m.retirements ==> v.m.idle == w.m.idle && k !in v.m.entries)
            && (w.m.entries[k].leases == 1 && k.segment !in w.m.retirements && w.maxCached > 0 ==>
                  k in v.m.entries && v.m.idle != [] && v.m.idle[|v.m.idle| - 1] == k)
  {
    hide Core, ClaimPart, RetirePart, Trim;
    Parts(w);
    LeasePins(w, l);
    LeaseEntry(w, l);
    UnleaseCore(w, l);
    var k, u := w.leases[l].key, Unlease(w, l);
    if IsIdle(u.m.entries, k) && k.segment in w.m.retirements {
      EvictCore(u, k);
      LastGoes(w.m.idle, k);
      TrimTakesOldest(Evict(u, k));
    } else {
      QueueOnce(u);
      TrimTakesOldest(u);
    }
  }

  lemma {:induction false} LastGoes(s: seq<Key>, k: Key)
    requires k !in s
    ensures Without(s + [k], k) == s
  {
    if s == [] {
      assert s + [k] == [k];
    } else {
      LastGoes(s[1..], k);
      assert (s + [k])[1..] == s[1..] + [k];
    }
  }
}
