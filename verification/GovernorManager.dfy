/** The governor as the imperative object it is: the fields behind the mutex and
    one method per locked region, each proved to make exactly the step that the
    transition system prescribes. The `unreachable!` arms are `assert false`, and
    every checked subtraction is on a `nat` field.

    `w` is the world the region starts from. Its manager component is the
    object's state; the rest is what the other threads hold. */
module GovernorManager {
  import Common
  import opened GovernorModel
  import opened GovernorCounting
  import opened GovernorFrames
  import opened GovernorSteps
  import opened GovernorProof
  import opened GovernorRuns
  import opened GovernorTheorems

  datatype Disposition = Transferred | Released
  datatype Victim = Victim(key: Key, file: File, disposition: Disposition)

  datatype Refusal =
    | RequestExceedsLimit(requested: nat, limit: nat)
    | SegmentRetiring(segment: string)
    | ConflictingHandle(first: Handle, second: Handle)

  datatype Begun = Empty | Registered | NotBegun(refusal: Refusal)

  datatype Preparation =
    | Prepared(op: nat, existing: seq<Key>, missing: seq<Handle>, victims: seq<Victim>)
    | MustWait(additional: nat)
    | NotPrepared(refusal: Refusal)

  /** The files of a request that are not in the table. */
  function Absent(m: Manager, handles: seq<Handle>): set<Handle> {
    set h | h in handles && h.key !in m.entries
  }

  /** Why a file stands in the way of a request. */
  function RefusalOf(m: Manager, h: Handle): Refusal
    requires Refusing(m, h)
  {
    if h.key.segment in m.retirements then SegmentRetiring(h.key.segment) else ConflictingHandle(m.entries[h.key].handle, h)
  }

  /** The refusal names the first file that stops the request. */
  ghost predicate RefusedFor(m: Manager, handles: seq<Handle>, refusal: Refusal) {
    exists i :: StopsAt(m, handles, i) && Refusing(m, handles[i]) && refusal == RefusalOf(m, handles[i])
  }

  lemma PrepareAnswers(m: Manager, handles: seq<Handle>)
    requires DistinctKeys(handles)
    ensures var scan := ScanHandles(m, handles);
            && (scan.Retiring? ==> RefusedFor(m, handles, SegmentRetiring(scan.segment)))
            && (scan.Conflict? ==> RefusedFor(m, handles, ConflictingHandle(scan.first, scan.second)))
            && (scan.Scanned? <==> Compatible(m, handles))
            && (scan.Scanned? ==> |Absent(m, handles)| == |scan.missing|)
  {
    hide ScanHandles, NoDup, DistinctKeys;
    var scan := ScanHandles(m, handles);
    ScanProps(m, handles);
    if !scan.Scanned? {
      var i := SomeStop(m, handles);
      ScanStops(m, handles, i);
    } else {
      MissingOnce(scan.missing);
      NoDupCard(scan.missing, Absent(m, handles));
    }
  }

  lemma OwnDistinct(w: World, t: nat)
    requires Core(w) && t in w.acqs
    ensures DistinctKeys(w.acqs[t].handles)
  {
    hide SlotPart, RetirePart;
    OwnWellFormed(w, t);
  }

  lemma MissingOnce(hs: seq<Handle>)
    requires DistinctKeys(hs)
    ensures NoDup(hs)
  {
  }

  datatype Grant = FreeGrant | IdleSlot(victim: Victim) | NoSlot

  /** No checked subtraction fires: counters of a valid world are sizes of sets. */
  lemma CountsNat(w: World)
    requires Core(w)
    ensures var c := w.m.counts;
            0 <= c.occupied <= w.max && 0 <= c.live && 0 <= c.pending && 0 <= c.reserved && 0 <= c.livePreflights
  {
  }

  datatype Config = Config(inFlightMaxBytes: nat, maxOpenFiles: nat, maxCachedOpenFiles: nat)

  datatype ConfigError = ZeroInFlightBudget | ZeroOpenFileLimit | CachedLimitExceedsHardLimit(cached: nat, hard: nat)

  /** `MetadataFileManager::new`: a manager exactly for a valid configuration, which stands
      for every initial world with its limits. */
  method NewManager(config: Config) returns (r: Common.Result<MetadataFileManager, ConfigError>)
    ensures r.Ok? <==> config.inFlightMaxBytes > 0 && 0 < config.maxOpenFiles && config.maxCachedOpenFiles <= config.maxOpenFiles
    ensures r.Ok? ==> fresh(r.value)
    ensures r.Ok? ==> forall w :: Init(w) && w.max == config.maxOpenFiles && w.maxCached == config.maxCachedOpenFiles ==> r.value.Implements(w)
    ensures r.Err? ==> r.error == if config.inFlightMaxBytes == 0 then ZeroInFlightBudget
                                  else if config.maxOpenFiles == 0 then ZeroOpenFileLimit
                                  else CachedLimitExceedsHardLimit(config.maxCachedOpenFiles, config.maxOpenFiles)
  {
    hide Init, Inv;
    if config.inFlightMaxBytes == 0 { return Common.Err(ZeroInFlightBudget); }
    if config.maxOpenFiles == 0 { return Common.Err(ZeroOpenFileLimit); }
    if config.maxCachedOpenFiles > config.maxOpenFiles {
      return Common.Err(CachedLimitExceedsHardLimit(config.maxCachedOpenFiles, config.maxOpenFiles));
    }
    var manager := new MetadataFileManager(config.maxOpenFiles, config.maxCachedOpenFiles);
    r := Common.Ok(manager);
  }

  class MetadataFileManager {
    const maxOpenFiles: nat
    const maxCachedOpenFiles: nat
    var entries: map<Key, Entry>
    var idleLru: seq<Key>
    var retirements: map<string, Retirement>
    var activePreflights: map<string, nat>
    var activeAcquisitions: map<string, nat>
    var detachedClosing: map<string, nat>
    var occupiedSlots: nat
    var liveDescriptors: nat
    var pendingOpen: nat
    var preflightReservations: nat
    var livePreflights: nat
    var nextOperation: nat

    function State(): Manager
      reads this
    {
      Manager(entries, idleLru, retirements, activePreflights, activeAcquisitions, detachedClosing,
              Counts(occupiedSlots, liveDescriptors, pendingOpen, preflightReservations, livePreflights), nextOperation)
    }

    /** The object is the manager of world `w`, inside a locked region. */
    ghost predicate Manages(w: World)
      reads this
    {
      Core(w) && w.m == State() && w.max == maxOpenFiles && w.maxCached == maxCachedOpenFiles
    }

    /** The object is the manager of world `w` while the mutex is free. */
    ghost predicate Implements(w: World)
      reads this
    {
      Inv(w) && Manages(w)
    }

    constructor (max: nat, maxCached: nat)
      requires max > 0 && maxCached <= max
      ensures maxOpenFiles == max && maxCachedOpenFiles == maxCached
      ensures forall w :: Init(w) && w.max == max && w.maxCached == maxCached ==> Implements(w)
    {
      maxOpenFiles, maxCachedOpenFiles := max, maxCached;
      entries, idleLru, retirements := map[], [], map[];
      activePreflights, activeAcquisitions, detachedClosing := map[], map[], map[];
      occupiedSlots, liveDescriptors, pendingOpen, preflightReservations, livePreflights := 0, 0, 0, 0, 0;
      nextOperation := 0;
      new;
      forall w | Init(w) && w.max == max && w.maxCached == maxCached ensures Implements(w) { InitInv(w); }
    }

    // ------------------------------------------------------------ acquisition

    /** Head of an acquisition: cap, emptiness and retirement checks, then the
        segments' activity counts. */
    method BeginAcquisition(ghost w: World, ghost t: nat, handles: seq<Handle>) returns (r: Begun)
      requires Implements(w) && Enabled(w, BeginAcquire(t, handles))
      modifies this`activeAcquisitions
      ensures Implements(Step(w, BeginAcquire(t, handles)))
      ensures r.Registered? <==> Admitted(w, handles)
      ensures r.Empty? <==> handles == []
      ensures |handles| > maxOpenFiles ==> r == NotBegun(RequestExceedsLimit(|handles|, maxOpenFiles))
      ensures r.NotBegun? && |handles| <= maxOpenFiles ==>
                r.refusal.SegmentRetiring? && r.refusal.segment in Segments(handles) && r.refusal.segment in retirements
    {
      hide Core, Step, IncrementAll, Enabled;
      BeginStep(w, t, handles);
      if |handles| > maxOpenFiles {
        r := NotBegun(RequestExceedsLimit(|handles|, maxOpenFiles));
      } else if handles == [] {
        r := Empty;
      } else {
        var segments := SegmentIdentities(handles);
        var i := FirstRetiring(segments);
        if i < |segments| {
          r := NotBegun(SegmentRetiring(segments[i]));
        } else {
          CountSegments(segments);
          r := Registered;
        }
      }
    }

    /** The first segment with a retirement marker, if any. */
    method FirstRetiring(segments: seq<string>) returns (i: nat)
      ensures i <= |segments| && (i < |segments| ==> segments[i] in retirements)
      ensures forall j :: 0 <= j < i ==> segments[j] !in retirements
    {
      i := 0;
      while i < |segments| && segments[i] !in retirements
        invariant i <= |segments| && forall j :: 0 <= j < i ==> segments[j] !in retirements
      {
        i := i + 1;
      }
    }

    method CountSegments(segments: seq<string>)
      requires NoDup(segments)
      modifies this`activeAcquisitions
      ensures activeAcquisitions == IncrementAll(old(activeAcquisitions), Elements(segments))
    {
      assert IncrementAll(activeAcquisitions, Elements(segments[..0])) == activeAcquisitions;
      for i := 0 to |segments|
        invariant activeAcquisitions == IncrementAll(old(activeAcquisitions), Elements(segments[..i]))
      {
        IncrementAllMore(old(activeAcquisitions), segments, i);
        activeAcquisitions := activeAcquisitions[segments[i] := Count(activeAcquisitions, segments[i]) + 1];
      }
      assert segments[..|segments|] == segments;
    }

    /** Drop of the acquisition's request guard. */
    method FinishAcquisitionRequest(ghost w: World, ghost t: nat, segments: seq<string>)
      requires Implements(w) && Enabled(w, EndAcquire(t))
      requires NoDup(segments) && Elements(segments) == w.acqs[t].segs
      modifies this`activeAcquisitions
      ensures Implements(Step(w, EndAcquire(t)))
    {
      hide Core;
      assert w.m.acquisitions == DecrementAll(w.m.acquisitions, Elements(segments[..0]));
      for i := 0 to |segments|
        invariant activeAcquisitions == DecrementAll(w.m.acquisitions, Elements(segments[..i]))
      {
        AcquisitionCounted(w, t, segments[i]);
        DecrementAllMore(w.m.acquisitions, segments, i);
        var remaining: nat := activeAcquisitions[segments[i]] - 1;
        activeAcquisitions := if remaining == 0 then activeAcquisitions - {segments[i]}
                              else activeAcquisitions[segments[i] := remaining];
      }
      assert segments[..|segments|] == segments;
      UnregisterCore(w, t);
      assert Step(w, EndAcquire(t)) == Unregister(w, t);
    }

    /** Sorts the request into files already open and files to be opened. */
    method ClassifyHandles(handles: seq<Handle>) returns (r: Scan)
      ensures r == ScanHandles(State(), handles)
    {
      hide ScanHandles, Found;
      var existing, missing := [], [];
      ghost var m := State();
      assert handles[0..] == handles;
      FoundNothing(ScanHandles(m, handles));
      for i := 0 to |handles|
        invariant ScanHandles(m, handles) == Found(existing, missing, ScanHandles(m, handles[i..]))
      {
        FoundTurn(m, handles, i, existing, missing);
        var h := handles[i];
        if h.key.segment in retirements {
          return Retiring(h.key.segment);
        }
        if h.key in entries {
          if entries[h.key].handle != h {
            return Conflict(entries[h.key].handle, h);
          }
          if entries[h.key].Opening? {
            return Busy;
          }
          existing := existing + [h.key];
        } else {
          missing := missing + [h];
        }
      }
      assert handles[|handles|..] == [];
      FoundAll(m, existing, missing);
      r := Scanned(existing, missing);
    }

    /** The oldest idle files that are not requested, at most `needed`. */
    method SelectVictims(requested: set<Key>, needed: nat) returns (victims: seq<Key>)
      requires forall k :: k in idleLru ==> IsIdle(entries, k)
      ensures var all := Candidates(idleLru, requested); victims == if needed <= |all| then all[..needed] else all
    {
      hide Candidates;
      victims := [];
      var i := 0;
      assert idleLru[0..] == idleLru;
      NoCandidates(requested);
      while i < |idleLru| && |victims| < needed
        invariant i <= |idleLru| && |victims| <= needed
        invariant Candidates(idleLru, requested) == victims + Candidates(idleLru[i..], requested)
      {
        var key := idleLru[i];
        assert key in idleLru;
        CandidatesTurn(idleLru, i, requested, victims);
        if key !in requested && key in entries && entries[key].Open? && entries[key].leases == 0 {
          victims := victims + [key];
        }
        i := i + 1;
      }
      if i == |idleLru| { assert idleLru[i..] == []; }
    }

    /** Takes a pending lease on every file that is already open. */
    method ClaimExisting(existing: seq<Key>)
      requires NoDup(existing) && forall k :: k in existing ==> k in entries && entries[k].Open?
      modifies this`entries, this`idleLru
      ensures entries == MoreLeases(old(entries), existing)
      ensures idleLru == WithoutAll(old(idleLru), existing)
    {
      hide MoreLeases, Without;
      MoreLeasesNone(entries, existing);
      for i := 0 to |existing|
        invariant entries == MoreLeases(old(entries), existing[..i])
        invariant WithoutAll(idleLru, existing[i..]) == WithoutAll(old(idleLru), existing)
      {
        var key := existing[i];
        idleLru := Without(idleLru, key);
        MoreLeasesStep(old(entries), existing, i);
        entries := entries[key := Open(entries[key].handle, entries[key].file, entries[key].leases + 1)];
        assert existing[i..][1..] == existing[i + 1..];
      }
      assert existing[..|existing|] == existing;
    }

    /** Detaches the victims; their slots pass to the reservations. */
    method DetachVictims(keys: seq<Key>) returns (victims: seq<Victim>)
      requires NoDup(keys) && forall k :: k in keys ==> IsIdle(entries, k)
      modifies this`entries, this`idleLru, this`detachedClosing
      ensures entries == old(entries) - Elements(keys)
      ensures idleLru == WithoutAll(old(idleLru), keys)
      ensures detachedClosing == IncrementEach(old(detachedClosing), keys)
      ensures AreVictims(victims, keys, old(entries))
    {
      hide Without, Elements, Increment;
      victims := [];
      NoneLeft(entries, keys);
      for i := 0 to |keys|
        invariant entries == old(entries) - Elements(keys[..i])
        invariant WithoutAll(idleLru, keys[i..]) == WithoutAll(old(idleLru), keys)
        invariant IncrementEach(detachedClosing, keys[i..]) == IncrementEach(old(detachedClosing), keys)
        invariant AreVictims(victims, keys[..i], old(entries))
      {
        var key := keys[i];
        KeyLeft(old(entries), keys, i);
        idleLru := Without(idleLru, key);
        match entries[key] {
        case Open(_, file, 0) =>
          entries := entries - {key};
          var victim := TrackDetachedClose(key, file, Transferred);
          victims := victims + [victim];
        case _ => assert false;
        }
        assert keys[i..][1..] == keys[i + 1..];
      }
      assert keys[..|keys|] == keys;
    }

    method InsertOpenings(missing: seq<Handle>, op: nat, t: nat)
      modifies this`entries
      ensures entries == AddOpenings(old(entries), missing, op, t)
    {
      for i := 0 to |missing|
        invariant AddOpenings(entries, missing[i..], op, t) == AddOpenings(old(entries), missing, op, t)
      {
        entries := entries[missing[i].key := Opening(missing[i], op, t)];
        assert missing[i..][1..] == missing[i + 1..];
      }
    }

    /** `prepare_acquisition`. A wait or a refusal changes nothing at all; a grant
        makes exactly the prescribed step and hands out the victims to close. */
    method PrepareAcquisition(ghost w: World, t: nat, handles: seq<Handle>) returns (r: Preparation)
      requires Implements(w) && Enabled(w, PrepareAcquire(t)) && handles == w.acqs[t].handles
      modifies this
      ensures Implements(Step(w, PrepareAcquire(t)))
      ensures r.Prepared? <==> PrepareVerdict(w, handles) == Ready
      ensures r.MustWait? <==> PrepareVerdict(w, handles) == Wait
      ensures !r.Prepared? ==> unchanged(this)
      ensures r.NotPrepared? ==> RefusedFor(w.m, handles, r.refusal)
      ensures r.MustWait? ==> r.additional == if Compatible(w.m, handles) then |Absent(w.m, handles)| else |handles|
      ensures r.Prepared? ==> var scan := ScanHandles(w.m, handles);
                && r.existing == scan.existing && r.missing == scan.missing
                && r.op == Step(w, PrepareAcquire(t)).acqs[t].op
                && AreVictims(r.victims, Victims(w, handles, |scan.missing|), MoreLeases(w.m.entries, scan.existing))
    {
      hide Core, ScanHandles, Candidates, Step, Enabled, RefusedFor, Absent, Compatible, DistinctKeys;
      PrepareStep(w, t);
      OwnDistinct(w, t);
      PrepareAnswers(w.m, handles);
      var scan := ClassifyHandles(handles);
      match scan {
      case Retiring(segment) => r := NotPrepared(SegmentRetiring(segment));
      case Conflict(first, second) => r := NotPrepared(ConflictingHandle(first, second));
      case Busy => r := MustWait(|handles|);
      case Scanned(existing, missing) =>
        var requested := KeySet(handles);
        var free := if occupiedSlots <= maxOpenFiles then maxOpenFiles - occupiedSlots else 0;
        var victimsNeeded := if |missing| <= free then 0 else |missing| - free;
        IdleAll(w);
        var victimKeys := SelectVictims(requested, victimsNeeded);
        if |victimKeys| < victimsNeeded {
          r := MustWait(|missing|);
        } else {
          var victims := Reserve(w, t, existing, missing, victimKeys, |missing| - victimsNeeded);
          r := Prepared(nextOperation, existing, missing, victims);
        }
      }
    }

    /** The writes of a granted `prepare_acquisition`. */
    method Reserve(ghost w: World, t: nat, existing: seq<Key>, missing: seq<Handle>, victimKeys: seq<Key>, more: nat)
        returns (victims: seq<Victim>)
      requires Manages(w) && CanPrepare(w, t) && PrepareVerdict(w, w.acqs[t].handles) == Ready
      requires ScanHandles(w.m, w.acqs[t].handles) == Scanned(existing, missing)
      requires victimKeys == Victims(w, w.acqs[t].handles, |missing|) && more == |missing| - |victimKeys|
      modifies this
      ensures State() == PreparedState(w.m, w.acqs[t], t, Scanned(existing, missing), victimKeys)
      ensures nextOperation == PreparedAcq(w.m, w.acqs[t], Scanned(existing, missing)).op
      ensures AreVictims(victims, victimKeys, MoreLeases(w.m.entries, existing))
    {
      hide Core, ScanHandles, Victims, MoreLeases, WithoutAll, IncrementEach, AddOpenings, PrepareVerdict, Elements;
      ReserveFacts(w, t);
      nextOperation := (nextOperation + 1) % Common.U64;
      ClaimExisting(existing);
      victims := DetachVictims(victimKeys);
      occupiedSlots := occupiedSlots + more;
      InsertOpenings(missing, nextOperation, t);
    }

    /** Accounts one descriptor opened for an acquisition. */
    method AccountOpen(ghost w: World, ghost t: nat)
      requires Implements(w) && Enabled(w, Event.AccountOpen(t))
      modifies this
      ensures Implements(Step(w, Event.AccountOpen(t)))
    {
      hide Core;
      liveDescriptors := liveDescriptors + 1;
      pendingOpen := pendingOpen + 1;
    }

    /** Publishes a fully opened acquisition and returns one descriptor per
        requested file, in request order. */
    method PublishAcquisition(ghost w: World, ghost t: nat, op: nat, handles: seq<Handle>, missing: seq<Handle>, arcs: seq<File>)
        returns (files: seq<File>)
      requires Implements(w) && Enabled(w, PublishAcquire(t)) && op == w.acqs[t].op && handles == w.acqs[t].handles
      requires KeysOf(missing) == w.acqs[t].missing && (forall h :: h in missing ==> h in handles)
      requires PendingFiles(w.slots, w.acqs[t].missing, arcs)
      modifies this
      ensures Implements(Step(w, PublishAcquire(t)))
      ensures HandsOut(Step(w, PublishAcquire(t)), t, handles, files)
    {
      hide Core, Step, Publish, Publications;
      PublishEvent(w, t);
      PublishStep(w, t, arcs);
      InsertPublished(w, t, op, missing, arcs);
      pendingOpen := pendingOpen - |arcs|;
      files := [];
      for i := 0 to |handles|
        invariant HandsOut(Publish(w, t), t, handles[..i], files)
      {
        assert handles[i] in handles;
        match entries[handles[i].key] {
        case Open(_, file, _) => files := files + [file];
        case _ => assert false;
        }
      }
      assert handles[..|handles|] == handles;
    }

    method InsertPublished(ghost w: World, ghost t: nat, op: nat, missing: seq<Handle>, files: seq<File>)
      requires Manages(w) && CanPublish(w, t) && op == w.acqs[t].op
      requires KeysOf(missing) == w.acqs[t].missing && (forall h :: h in missing ==> h in w.acqs[t].handles)
      requires PendingFiles(w.slots, w.acqs[t].missing, files)
      modifies this`entries
      ensures entries == Publications(w.m.entries, w.acqs[t].missing, files)
    {
      hide Core;
      ghost var ks := w.acqs[t].missing;
      OwnReservations(w, t);
      for i := 0 to |missing|
        invariant Publications(entries, ks[i..], files[i..]) == Publications(w.m.entries, ks, files)
        invariant forall j :: i <= j < |ks| ==> ks[j] in entries && entries[ks[j]] == w.m.entries[ks[j]]
      {
        var key := missing[i].key;
        assert ks[i] == key && missing[i] in missing;
        match entries[key] {
        case Opening(handle, operation, _) =>
          assert operation == op;
          assert handle == missing[i];
          entries := entries[key := Open(missing[i], files[i], 1)];
        case _ => assert false;
        }
        assert ks[i..][1..] == ks[i + 1..] && files[i..][1..] == files[i + 1..];
      }
    }

    /** `rollback_acquisition`: its own reservations, then its own pending leases,
        then the counters, then the cache limit. */
    method RollbackAcquisition(ghost w: World, ghost t: nat, op: nat, existing: seq<Key>, missing: seq<Handle>, openedCount: nat)
        returns (victims: seq<Victim>)
      requires Implements(w) && Enabled(w, RollBack(t)) && op == w.acqs[t].op && openedCount == w.acqs[t].openCount
      requires existing == w.acqs[t].existing && KeysOf(missing) == w.acqs[t].missing
      modifies this
      ensures Implements(Step(w, RollBack(t)))
      ensures Detaches(Step(w, RollBack(t)).slots, Undo(w, t).nextFree, victims)
    {
      hide Core, Step, Undo, UndoReservations, UndoClaims, Returned, Elements, Trim, Detaches, Enabled;
      RollbackEvent(w, t);
      UndoStates(w, t);
      RemoveReservations(w, t, op, missing);
      ghost var m := UndoReservations(w, t).m;
      ReturnClaims(w, t, existing, m);
      ReturnedShape(m, existing);
      liveDescriptors := liveDescriptors - openedCount;
      pendingOpen := pendingOpen - openedCount;
      victims := TrimIdleCache(Undo(w, t));
    }

    method RemoveReservations(ghost w: World, ghost t: nat, op: nat, missing: seq<Handle>)
      requires Manages(w) && t in w.acqs && op == w.acqs[t].op && KeysOf(missing) == w.acqs[t].missing
      requires |missing| <= w.m.counts.occupied
      modifies this`entries, this`occupiedSlots
      ensures entries == w.m.entries - Elements(w.acqs[t].missing)
      ensures occupiedSlots == w.m.counts.occupied - |missing|
    {
      hide Core, Elements;
      ghost var ks := w.acqs[t].missing;
      OwnReservations(w, t);
      NoneLeft(entries, ks);
      for i := 0 to |missing|
        invariant entries == w.m.entries - Elements(ks[..i])
        invariant occupiedSlots == w.m.counts.occupied - i
      {
        assert ks[i] == missing[i].key;
        KeyDropped(w.m.entries, ks, i);
        match entries[missing[i].key] {
        case Opening(_, operation, _) =>
          assert operation == op;
          entries := entries - {missing[i].key};
          occupiedSlots := occupiedSlots - 1;
        case _ => assert false;
        }
      }
      assert ks[..|ks|] == ks;
    }

    /** `release_pending_lease` for each claim. */
    method ReturnClaims(ghost w: World, ghost t: nat, existing: seq<Key>, ghost m: Manager)
      requires Core(w) && t in w.acqs && existing == w.acqs[t].existing
      requires m.entries == entries == w.m.entries - Elements(w.acqs[t].missing) && m.idle == idleLru
      modifies this`entries, this`idleLru
      ensures entries == Returned(m, existing).entries && idleLru == Returned(m, existing).idle
    {
      hide Core, Returned;
      ClaimsLeased(w, t, entries);
      for i := 0 to |existing|
        invariant Returned(m.(entries := entries, idle := idleLru), existing[i..]) == Returned(m, existing)
        invariant forall j :: i <= j < |existing| ==> existing[j] in entries && entries[existing[j]].Open? && entries[existing[j]].leases > 0
      {
        var key := existing[i];
        assert existing[i..] == [key] + existing[i + 1..];
        ReturnedStep(m.(entries := entries, idle := idleLru), key, existing[i + 1..]);
        match entries[key] {
        case Open(handle, file, leases) =>
          entries := entries[key := Open(handle, file, leases - 1)];
          if leases - 1 == 0 { idleLru := idleLru + [key]; }
        case _ => assert false;
        }
      }
      assert existing[|existing|..] == [];
      ReturnedNone(m.(entries := entries, idle := idleLru));
    }

    /** One more lease for a copied lease object. */
    method CloneLease(ghost w: World, ghost l: nat, ghost copy: nat, key: Key, instance: nat)
      requires Implements(w) && Enabled(w, Event.CloneLease(l, copy)) && key == w.leases[l].key && instance == w.leases[l].file.instance
      modifies this`entries
      ensures Implements(Step(w, Event.CloneLease(l, copy)))
    {
      hide Core;
      LeasePins(w, l);
      match entries[key] {
      case Open(handle, file, leases) =>
        assert file.instance == instance;
        entries := entries[key := Open(handle, file, leases + 1)];
      case _ => assert false;
      }
    }

    /** Takes the victim's file out of the table for closing. */
    method TrackDetachedClose(key: Key, file: File, disposition: Disposition) returns (victim: Victim)
      modifies this`detachedClosing
      ensures detachedClosing == Increment(old(detachedClosing), key.segment)
      ensures victim == Victim(key, file, disposition)
    {
      var count := if key.segment in detachedClosing then detachedClosing[key.segment] else 0;
      detachedClosing := detachedClosing[key.segment := count + 1];
      victim := Victim(key, file, disposition);
    }

    /** Evicts idle files, oldest first, down to the cache limit. */
    method TrimIdleCache(ghost w: World) returns (victims: seq<Victim>)
      requires Manages(w)
      modifies this
      ensures Manages(Trim(w))
      ensures Detaches(Trim(w).slots, w.nextFree, victims)
    {
      hide Core, Trim, Evict, Detaches, Increment;
      victims := [];
      NoVictims(w.slots, w.nextFree);
      ghost var v := w;
      var idleCount := |set k | k in entries && IsIdle(entries, k)|;
      IdleCount(w);
      while idleCount > maxCachedOpenFiles
        invariant Manages(v) && Trim(v) == Trim(w)
        invariant idleCount == |idleLru| && v.nextFree == w.nextFree + |victims|
        invariant Detaches(v.slots, w.nextFree, victims)
        decreases idleCount
      {
        TrimTurn(v);
        var key := idleLru[0];
        idleLru := idleLru[1..];
        match entries[key] {
        case Open(_, file, 0) =>
          entries := entries - {key};
          var victim := TrackDetachedClose(key, file, Released);
          DetachesMore(v, key, w.nextFree, victims);
          victims := victims + [victim];
          idleCount := idleCount - 1;
        case _ => assert false;
        }
        v := Evict(v, key);
      }
      TrimDone(v);
    }

    /** The locked part of a lease release: the lease's Arc is already dropped. */
    method ReleaseLease(ghost w: World, ghost l: nat, key: Key, instance: nat) returns (victims: seq<Victim>, reachedZero: bool)
      requires Implements(w) && Enabled(w, Event.ReleaseLease(l)) && key == w.leases[l].key && instance == w.leases[l].file.instance
      modifies this
      ensures Implements(Step(w, Event.ReleaseLease(l)))
      ensures Detaches(Step(w, Event.ReleaseLease(l)).slots, w.nextFree, victims)
      ensures reachedZero <==> key in w.m.entries && w.m.entries[key].Open? && w.m.entries[key].leases == 1
    {
      hide Core, Step, Trim, Release, Detaches, Without, Increment, Unleased;
      ReleaseEvent(w, l);
      ReleaseCases(w, l);
      UnleasedState(w, l);
      var retiring := key.segment in retirements;
      match entries[key] {
      case Open(handle, file, leases) =>
        assert file.instance == instance;
        entries := entries[key := Open(handle, file, leases - 1)];
        reachedZero := leases - 1 == 0;
      case _ => assert false;
      }
      victims := [];
      ghost var v := Unleased(w, l);
      NoVictims(v.slots, w.nextFree);
      if reachedZero {
        if retiring {
          match entries[key] {
          case Open(_, file, 0) =>
            entries := entries - {key};
            var victim := TrackDetachedClose(key, file, Released);
            DetachesMore(v, key, w.nextFree, victims);
            victims := victims + [victim];
          case _ => assert false;
          }
          v := Evict(v, key);
        } else {
          idleLru := idleLru + [key];
        }
      }
      var trimmed := TrimIdleCache(v);
      DetachesJoin(v, w.nextFree, victims, trimmed);
      victims := victims + trimmed;
    }

    /** Close accounting for a batch of victims whose files are already closed. */
    method FinishDetachedCloses(ghost w: World, ghost batch: seq<Slot>, victims: seq<Victim>)
      requires Implements(w) && Enabled(w, FinishCloses(batch)) && ClosedVictims(w.slots, batch, victims)
      modifies this
      ensures Implements(Step(w, FinishCloses(batch)))
    {
      hide Core, Step, FinishDetached, DecrementEach, ReleasedCount, CanFinishDetached;
      FinishEvent(w, batch);
      FinishDetachedClosed(w, batch, victims);
      CountsNat(FinishDetached(w, batch));
      var released := CountReleased(victims);
      liveDescriptors := liveDescriptors - |victims|;
      occupiedSlots := occupiedSlots - released;
      DecrementClosings(w, batch, victims);
    }

    method DecrementClosings(ghost w: World, ghost batch: seq<Slot>, victims: seq<Victim>)
      requires Core(w) && w.m.closings == detachedClosing
      requires CanFinishDetached(w, batch) && ClosedVictims(w.slots, batch, victims)
      modifies this`detachedClosing
      ensures detachedClosing == DecrementEach(w.m.closings, victims)
    {
      hide Core, CanFinishDetached;
      ghost var v := w;
      for i := 0 to |victims|
        invariant |batch| == |victims| && Core(v) && CanFinishDetached(v, batch[i..]) && ClosedVictims(v.slots, batch[i..], victims[i..])
        invariant v.m.closings == detachedClosing
        invariant DecrementEach(detachedClosing, victims[i..]) == DecrementEach(w.m.closings, victims)
      {
        var segment := victims[i].key.segment;
        assert victims[i..][1..] == victims[i + 1..] && batch[i..][1..] == batch[i + 1..];
        CloseTurn(v, batch[i..], victims[i..]);
        var remaining: nat := detachedClosing[segment] - 1;
        detachedClosing := if remaining == 0 then detachedClosing - {segment} else detachedClosing[segment := remaining];
        v := FinishClose(v, batch[i]);
      }
    }

    // -------------------------------------------------------------- preflight

    method BeginPreflight(ghost w: World, ghost p: nat, segment: string) returns (ok: bool)
      requires Implements(w) && Enabled(w, RequestPreflight(p, segment))
      modifies this`activePreflights
      ensures Implements(Step(w, RequestPreflight(p, segment)))
      ensures ok <==> segment !in retirements
    {
      hide Core, Step, Enabled;
      PreflightEvent(w, p, segment);
      ok := segment !in retirements;
      if ok {
        var count := if segment in activePreflights then activePreflights[segment] else 0;
        activePreflights := activePreflights[segment := count + 1];
      }
    }

    /** A free slot, else the slot of the oldest idle file, else a wait that
        changes nothing. */
    method ReservePreflightSlot(ghost w: World, ghost p: nat) returns (r: Grant)
      requires Implements(w) && Enabled(w, ReserveSlot(p))
      modifies this
      ensures Implements(Step(w, ReserveSlot(p)))
      ensures r.NoSlot? <==> w.m.counts.occupied == w.max && w.m.idle == []
      ensures r.NoSlot? ==> unchanged(this)
      ensures r.IdleSlot? ==> ReservationHolds(Step(w, ReserveSlot(p)).slots, p, r.victim)
    {
      hide Core, Step, ReservePreflight, Without, Increment, ReservationHolds;
      ReserveEvent(w, p);
      ReserveCases(w, p);
      CountsNat(w);
      if occupiedSlots < maxOpenFiles {
        occupiedSlots := occupiedSlots + 1;
        r := FreeGrant;
      } else if idleLru != [] {
        var key := idleLru[0];
        idleLru := idleLru[1..];
        match entries[key] {
        case Open(_, file, 0) =>
          entries := entries - {key};
          var victim := TrackDetachedClose(key, file, Transferred);
          r := IdleSlot(victim);
        case _ => assert false;
        }
      } else {
        return NoSlot;
      }
      preflightReservations := preflightReservations + 1;
    }

    method ObservePreflightOpen(ghost w: World, ghost p: nat)
      requires Implements(w) && Enabled(w, ObserveOpen(p))
      modifies this
      ensures Implements(Step(w, ObserveOpen(p)))
    {
      hide Core;
      liveDescriptors := liveDescriptors + 1;
      livePreflights := livePreflights + 1;
    }

    method FinishPreflightOpen(ghost w: World, ghost p: nat)
      requires Implements(w) && Enabled(w, FinishOpen(p))
      modifies this
      ensures Implements(Step(w, FinishOpen(p)))
    {
      hide Core;
      CountsNat(Step(w, FinishOpen(p)));
      liveDescriptors := liveDescriptors - 1;
      livePreflights := livePreflights - 1;
    }

    method ReleasePreflightSlot(ghost w: World, ghost p: nat)
      requires Implements(w) && Enabled(w, ReleaseSlot(p))
      modifies this
      ensures Implements(Step(w, ReleaseSlot(p)))
    {
      hide Core;
      CountsNat(Step(w, ReleaseSlot(p)));
      preflightReservations := preflightReservations - 1;
      occupiedSlots := occupiedSlots - 1;
    }

    method FinishPreflightRequest(ghost w: World, ghost p: nat, segment: string)
      requires Implements(w) && Enabled(w, EndPreflight(p)) && segment == w.pres[p].segment
      modifies this`activePreflights
      ensures Implements(Step(w, EndPreflight(p)))
    {
      hide Core, Step, Enabled;
      EndPreflightEvent(w, p);
      PreflightCounted(w, p);
      var remaining: nat := activePreflights[segment] - 1;
      activePreflights := if remaining == 0 then activePreflights - {segment} else activePreflights[segment := remaining];
    }

    // ------------------------------------------------------------- retirement

    /** Installs the marker or joins the one that is there. */
    method BeginRetirement(ghost w: World, ghost c: nat, segment: string) returns (leader: bool)
      requires Implements(w) && Enabled(w, BeginRetire(c, segment))
      modifies this`retirements
      ensures Implements(Step(w, BeginRetire(c, segment)))
      ensures leader <==> segment !in w.m.retirements
      ensures leader ==> segment in Step(w, BeginRetire(c, segment)).leader && Step(w, BeginRetire(c, segment)).leader[segment] == c
    {
      hide Core;
      leader := segment !in retirements;
      if leader {
        retirements := retirements[segment := Retirement(1, false)];
      } else {
        var marker := retirements[segment];
        retirements := retirements[segment := Retirement(marker.callers + 1, marker.completed)];
      }
    }

    /** `segment_has_file_manager_activity`. */
    function HasActivity(segment: string): (active: bool)
      requires NoZero(activePreflights) && NoZero(activeAcquisitions) && NoZero(detachedClosing)
      reads this
      ensures active <==> !Quiet(State(), segment)
    {
      || (segment in activePreflights && activePreflights[segment] != 0)
      || (segment in activeAcquisitions && activeAcquisitions[segment] != 0)
      || (segment in detachedClosing && detachedClosing[segment] != 0)
      || (exists k :: k in entries && k.segment == segment)
    }

    /** The leader's test: complete and leave if the segment has no activity. */
    method CompleteRetirement(ghost w: World, ghost c: nat, segment: string) returns (done: bool)
      requires Implements(w) && c in w.callers && segment == w.callers[c] && segment in w.leader && w.leader[segment] == c
      modifies this`retirements
      ensures done <==> Quiet(w.m, segment)
      ensures if done then Enabled(w, LeaveRetire(c)) && Implements(Step(w, LeaveRetire(c))) else unchanged(this)
    {
      hide Core, Step, Quiet, HasActivity;
      NoZeroCounts(w);
      done := !HasActivity(segment);
      if done {
        LeaveEvent(w, c);
        retirements := retirements[segment := Retirement(retirements[segment].callers, true)];
        ReleaseRetirementCaller(segment);
      }
    }

    /** A joiner's test. */
    method LeaveJoinedRetirement(ghost w: World, ghost c: nat, segment: string) returns (done: bool)
      requires Implements(w) && c in w.callers && segment == w.callers[c]
      modifies this`retirements
      ensures done <==> CanJoinedLeave(w, c)
      ensures done ==> Enabled(w, LeaveRetire(c)) && Implements(Step(w, LeaveRetire(c))) && Quiet(w.m, segment)
      ensures !done ==> unchanged(this)
    {
      hide Core, Step;
      MarkerStands(w, c);
      done := retirements[segment].completed;
      if done {
        LeaveEvent(w, c);
        ReleaseRetirementCaller(segment);
      }
    }

    method ReleaseRetirementCaller(segment: string)
      requires segment in retirements && retirements[segment].callers > 0
      modifies this`retirements
      ensures var was := old(retirements)[segment];
              retirements == if was.callers == 1 then old(retirements) - {segment}
                             else old(retirements)[segment := Retirement(was.callers - 1, was.completed)]
    {
      var callers := retirements[segment].callers - 1;
      retirements := if callers == 0 then retirements - {segment}
                     else retirements[segment := Retirement(callers, retirements[segment].completed)];
    }

    /** Detaches every idle file of the retiring segment. */
    method DetachIdleSegmentFiles(ghost w: World, ghost c: nat, segment: string) returns (victims: seq<Victim>, keys: seq<Key>)
      requires Implements(w) && c in w.callers && segment == w.callers[c]
      modifies this
      ensures Enabled(w, SweepIdle(c, keys)) && Implements(Step(w, SweepIdle(c, keys)))
      ensures forall k :: k in keys <==> IsIdle(w.m.entries, k) && k.segment == segment
      ensures Detaches(Step(w, SweepIdle(c, keys)).slots, w.nextFree, victims)
    {
      hide Core, Step, Sweep, Evict, Detaches, Increment, Without, IdleOf, Enabled;
      keys := IdleKeys(segment);
      SweepEvent(w, c, keys);
      victims := [];
      NoVictims(w.slots, w.nextFree);
      ghost var v := w;
      for i := 0 to |keys|
        invariant Manages(v) && IdleOf(v, segment, keys[i..]) && Sweep(v, segment, keys[i..]) == Sweep(w, segment, keys)
        invariant v.nextFree == w.nextFree + i && |victims| == i && Detaches(v.slots, w.nextFree, victims)
      {
        SweepTurn(v, segment, keys[i..]);
        assert keys[i..][1..] == keys[i + 1..];
        var key := keys[i];
        idleLru := Without(idleLru, key);
        match entries[key] {
        case Open(_, file, 0) =>
          entries := entries - {key};
          var victim := TrackDetachedClose(key, file, Released);
          DetachesMore(v, key, w.nextFree, victims);
          victims := victims + [victim];
        case _ => assert false;
        }
        v := Evict(v, key);
      }
      SweepDone(v, segment, keys[|keys|..]);
    }

    method IdleKeys(segment: string) returns (keys: seq<Key>)
      ensures NoDup(keys) && forall k :: k in keys <==> IsIdle(entries, k) && k.segment == segment
    {
      keys := [];
      var left := set k | k in entries && IsIdle(entries, k) && k.segment == segment;
      while left != {}
        invariant NoDup(keys) && forall k :: k in keys || k in left <==> IsIdle(entries, k) && k.segment == segment
        invariant forall k :: k in keys ==> k !in left
        decreases |left|
      {
        var k :| k in left;
        keys := keys + [k];
        left := left - {k};
      }
    }
  }

  /** Each victim handed to the caller sits, not yet dropped, in its own slot. */
  ghost predicate Detaches(slots: map<Slot, Content>, first: nat, victims: seq<Victim>) {
    forall i :: 0 <= i < |victims| ==> DetachedAt(slots, first + i, victims[i])
  }

  predicate DetachedAt(slots: map<Slot, Content>, free: nat, victim: Victim) {
    && victim.disposition == Released
    && FreeSlot(free) in slots && slots[FreeSlot(free)] == Closing(victim.key, victim.file, false)
  }

  lemma NoVictims(slots: map<Slot, Content>, first: nat)
    ensures Detaches(slots, first, [])
  {
  }

  lemma DetachesMore(v: World, k: Key, first: nat, victims: seq<Victim>)
    requires k in v.m.entries && v.m.entries[k].Open?
    requires v.nextFree == first + |victims| && Detaches(v.slots, first, victims)
    ensures Detaches(Evict(v, k).slots, first, victims + [Victim(k, v.m.entries[k].file, Released)])
  {
    var more := victims + [Victim(k, v.m.entries[k].file, Released)];
    EvictKeepsVictims(v, k, first, victims);
    forall i | 0 <= i < |more| ensures DetachedAt(Evict(v, k).slots, first + i, more[i]) {
      if i < |victims| { assert more[i] == victims[i]; }
    }
  }

  lemma EvictKeepsVictims(v: World, k: Key, first: nat, victims: seq<Victim>)
    requires k in v.m.entries && v.m.entries[k].Open?
    requires v.nextFree >= first + |victims| && Detaches(v.slots, first, victims)
    ensures Detaches(Evict(v, k).slots, first, victims)
  {
    forall i | 0 <= i < |victims| ensures DetachedAt(Evict(v, k).slots, first + i, victims[i]) {
      assert DetachedAt(v.slots, first + i, victims[i]);
    }
  }

  lemma DetachesConcat(slots: map<Slot, Content>, first: nat, a: seq<Victim>, b: seq<Victim>)
    requires Detaches(slots, first, a) && Detaches(slots, first + |a|, b)
    ensures Detaches(slots, first, a + b)
  {
    hide DetachedAt;
    var all := a + b;
    forall i | 0 <= i < |all| ensures DetachedAt(slots, first + i, all[i]) {
      if i < |a| {
        assert all[i] == a[i];
      } else {
        var j := i - |a|;
        assert all[i] == b[j] && first + |a| + j == first + i;
        assert DetachedAt(slots, first + |a| + j, b[j]);
      }
    }
  }

  lemma TrimDone(v: World)
    requires Core(v) && |v.m.idle| <= v.maxCached
    ensures Trim(v) == v
  {
  }

  /** One turn of the trim loop, on the shared state. */
  lemma TrimTurn(v: World)
    requires Core(v) && |v.m.idle| > v.maxCached
    ensures var k := v.m.idle[0];
            && IsIdle(v.m.entries, k) && Core(Evict(v, k)) && Trim(Evict(v, k)) == Trim(v)
            && Evict(v, k).max == v.max && Evict(v, k).maxCached == v.maxCached && Evict(v, k).nextFree == v.nextFree + 1
            && Evict(v, k).m == v.m.(entries := v.m.entries - {k}, idle := v.m.idle[1..],
                                     closings := Increment(v.m.closings, k.segment))
  {
    hide Core;
    IdleHead(v);
    EvictCore(v, v.m.idle[0]);
  }

  lemma IdleCount(w: World)
    requires Core(w)
    ensures |set k | k in w.m.entries && IsIdle(w.m.entries, k)| == |w.m.idle|
  {
    NoDupCard(w.m.idle, set k | k in w.m.entries && IsIdle(w.m.entries, k));
  }

  // -------------------------------------------------------- activity counts

  method SegmentIdentities(handles: seq<Handle>) returns (segments: seq<string>)
    ensures NoDup(segments) && Elements(segments) == Segments(handles)
    ensures forall s :: s in segments <==> s in Segments(handles)
  {
    segments := [];
    for i := 0 to |handles|
      invariant NoDup(segments) && Elements(segments) == Segments(handles[..i])
    {
      assert handles[..i + 1] == handles[..i] + [handles[i]];
      assert Segments(handles[..i + 1]) == Segments(handles[..i]) + {handles[i].key.segment};
      if handles[i].key.segment !in segments {
        segments := segments + [handles[i].key.segment];
      }
    }
    assert handles[..|handles|] == handles;
    assert forall s :: s in segments <==> s in Elements(segments);
  }

  lemma BeginStep(w: World, t: nat, handles: seq<Handle>)
    requires Inv(w) && Enabled(w, BeginAcquire(t, handles))
    ensures Step(w, BeginAcquire(t, handles)) == if Admitted(w, handles) then Register(w, t, handles) else w
  {
    hide Core;
  }

  lemma IncrementAllMore(m: map<string, nat>, segments: seq<string>, i: nat)
    requires NoDup(segments) && i < |segments|
    ensures segments[i] !in Elements(segments[..i])
    ensures var now := IncrementAll(m, Elements(segments[..i]));
            IncrementAll(m, Elements(segments[..i + 1])) == now[segments[i] := Count(now, segments[i]) + 1]
  {
    assert segments[..i + 1] == segments[..i] + [segments[i]];
    assert Elements(segments[..i + 1]) == Elements(segments[..i]) + {segments[i]};
    IncrementOne(m, Elements(segments[..i]), segments[i]);
  }

  lemma IncrementOne(m: map<string, nat>, segs: set<string>, s: string)
    requires s !in segs
    ensures var now := IncrementAll(m, segs); IncrementAll(m, segs + {s}) == now[s := Count(now, s) + 1]
  {
  }

  lemma DecrementAllMore(m: map<string, nat>, segments: seq<string>, i: nat)
    requires NoDup(segments) && i < |segments| && segments[i] in m && m[segments[i]] > 0
    ensures var now := DecrementAll(m, Elements(segments[..i]));
            && segments[i] in now && now[segments[i]] == m[segments[i]]
            && DecrementAll(m, Elements(segments[..i + 1])) ==
                 if now[segments[i]] == 1 then now - {segments[i]} else now[segments[i] := now[segments[i]] - 1]
  {
    assert segments[..i + 1] == segments[..i] + [segments[i]];
    assert Elements(segments[..i + 1]) == Elements(segments[..i]) + {segments[i]};
  }

  /** The panic on a missing count is unreachable. */
  lemma AcquisitionCounted(w: World, t: nat, segment: string)
    requires Core(w) && t in w.acqs && segment in w.acqs[t].segs
    ensures segment in w.m.acquisitions && w.m.acquisitions[segment] > 0
  {
    assert t in AcqsIn(w.acqs, segment);
    assert Count(w.m.acquisitions, segment) == |AcqsIn(w.acqs, segment)|;
  }

  // ---------------------------------------------------------------- prepare

  /** A scan continued after a prefix that found `existing` and `missing`. */
  function Found(existing: seq<Key>, missing: seq<Handle>, rest: Scan): Scan {
    match rest
    case Scanned(e, m) => Scanned(existing + e, missing + m)
    case other => other
  }

  lemma MoreLeasesNone(entries: map<Key, Entry>, ks: seq<Key>)
    ensures MoreLeases(entries, ks[..0]) == entries
  {
  }

  lemma MoreLeasesStep(entries: map<Key, Entry>, ks: seq<Key>, i: nat)
    requires NoDup(ks) && i < |ks| && forall k :: k in ks ==> k in entries && entries[k].Open?
    ensures var now := MoreLeases(entries, ks[..i]);
            && ks[i] in now && now[ks[i]].Open?
            && now[ks[i] := Open(now[ks[i]].handle, now[ks[i]].file, now[ks[i]].leases + 1)] == MoreLeases(entries, ks[..i + 1])
  {
    assert ks[..i + 1] == ks[..i] + [ks[i]];
    assert ks[i] in ks && ks[i] !in ks[..i];
  }

  /** The detached files of `keys`, whose slots are handed over. */
  ghost predicate AreVictims(victims: seq<Victim>, keys: seq<Key>, entries: map<Key, Entry>) {
    && |victims| == |keys|
    && forall i :: 0 <= i < |keys| ==>
         keys[i] in entries && entries[keys[i]].Open? && victims[i] == Victim(keys[i], entries[keys[i]].file, Transferred)
  }

  lemma NoneLeft(entries: map<Key, Entry>, ks: seq<Key>)
    ensures entries - Elements(ks[..0]) == entries
  {
  }

  lemma KeyLeft(entries: map<Key, Entry>, ks: seq<Key>, i: nat)
    requires NoDup(ks) && i < |ks| && forall k :: k in ks ==> IsIdle(entries, k)
    ensures var now := entries - Elements(ks[..i]);
            && ks[i] in now && now[ks[i]] == entries[ks[i]] && IsIdle(entries, ks[i])
            && now - {ks[i]} == entries - Elements(ks[..i + 1])
  {
    assert ks[..i + 1] == ks[..i] + [ks[i]];
    assert Elements(ks[..i + 1]) == Elements(ks[..i]) + {ks[i]};
    assert ks[i] in ks && ks[i] !in ks[..i];
  }

  lemma PrepareStep(w: World, t: nat)
    requires Inv(w) && Enabled(w, PrepareAcquire(t))
    ensures CanPrepare(w, t) && Step(w, PrepareAcquire(t)) == Prepare(w, t)
    ensures PrepareVerdict(w, w.acqs[t].handles) != Ready ==> Prepare(w, t) == w
    ensures PrepareVerdict(w, w.acqs[t].handles) == Ready ==>
              var scan := ScanHandles(w.m, w.acqs[t].handles);
              && Prepare(w, t).m == PreparedState(w.m, w.acqs[t], t, scan, Victims(w, w.acqs[t].handles, |scan.missing|))
              && Prepare(w, t).acqs == w.acqs[t := PreparedAcq(w.m, w.acqs[t], scan)]
  {
    hide Core;
    if PrepareVerdict(w, w.acqs[t].handles) == Ready { PrepareClosed(w, t); }
  }

  lemma IdleAll(w: World)
    requires Core(w)
    ensures forall k :: k in w.m.idle ==> IsIdle(w.m.entries, k)
  {
  }

  lemma ReserveFacts(w: World, t: nat)
    requires Core(w) && CanPrepare(w, t) && ScanHandles(w.m, w.acqs[t].handles).Scanned?
    ensures var scan := ScanHandles(w.m, w.acqs[t].handles);
            var vs := Victims(w, w.acqs[t].handles, |scan.missing|);
            && NoDup(scan.existing) && NoDup(vs)
            && (forall k :: k in scan.existing ==> k in w.m.entries && w.m.entries[k].Open?)
            && (forall k :: k in vs ==> IsIdle(MoreLeases(w.m.entries, scan.existing), k))
  {
    var handles := w.acqs[t].handles;
    assert AcquisitionOk(w.m.entries, w.slots, t, w.acqs[t]);
    ScanProps(w.m, handles);
    VictimsProps(w, handles, |ScanHandles(w.m, handles).missing|);
  }

  // ---------------------------------------------------------------- publish

  ghost predicate PendingFiles(slots: map<Slot, Content>, ks: seq<Key>, files: seq<File>) {
    && |files| == |ks|
    && forall i :: 0 <= i < |ks| ==>
         KeySlot(ks[i]) in slots && slots[KeySlot(ks[i])].Pending? && slots[KeySlot(ks[i])].file == files[i]
  }

  /** The reservations turned into open entries with one lease each. */
  function Publications(entries: map<Key, Entry>, ks: seq<Key>, files: seq<File>): map<Key, Entry>
    requires |files| == |ks|
    decreases |ks|
  {
    if ks == [] || ks[0] !in entries then entries
    else Publications(entries[ks[0] := Open(entries[ks[0]].handle, files[0], 1)], ks[1..], files[1..])
  }

  lemma {:induction false} PublishClosed(w: World, t: nat, files: seq<File>)
    requires Core(w) && CanPublish(w, t) && PendingFiles(w.slots, w.acqs[t].missing, files) && NoDup(w.acqs[t].missing)
    ensures Publish(w, t).m == w.m.(entries := Publications(w.m.entries, w.acqs[t].missing, files),
                                    counts := w.m.counts.(pending := w.m.counts.pending - |files|))
    decreases |w.acqs[t].missing|
  {
    hide Core, ClaimPart, RetirePart;
    Parts(w);
    var ks := w.acqs[t].missing;
    if ks == [] {
      CanFinishPublishFiles(w, t);
    } else {
      PublishOwn(w, t);
      PublishOneCore(w, t);
      HeadTail(ks, ks[0], ks[1..]);
      PendingTail(w.slots, ks, files, PublishOne(w, t).slots[KeySlot(ks[0])]);
      PublishClosed(PublishOne(w, t), t, files[1..]);
    }
  }

  lemma PendingTail(slots: map<Slot, Content>, ks: seq<Key>, files: seq<File>, c: Content)
    requires PendingFiles(slots, ks, files) && ks != [] && NoDup(ks)
    ensures PendingFiles(slots[KeySlot(ks[0]) := c], ks[1..], files[1..])
  {
  }

  /** One descriptor per requested file: that of the file's own entry. */
  ghost predicate HandsOut(v: World, t: nat, handles: seq<Handle>, files: seq<File>) {
    && t in v.acqs && |files| == |handles|
    && forall i :: 0 <= i < |handles| ==> HoldsFile(v, t, handles[i]) && v.acqs[t].files[handles[i].key] == files[i]
  }

  /** The requested file's entry is open, and the acquisition holds its descriptor. */
  ghost predicate HoldsFile(v: World, t: nat, h: Handle) {
    && t in v.acqs && h.key in v.m.entries && v.m.entries[h.key].Open? && v.m.entries[h.key].handle == h
    && h.key in v.acqs[t].files && v.acqs[t].files[h.key] == v.m.entries[h.key].file
  }

  lemma PublishStep(w: World, t: nat, files: seq<File>)
    requires Inv(w) && CanPublish(w, t) && PendingFiles(w.slots, w.acqs[t].missing, files)
    ensures var v := Publish(w, t);
            && v.m == w.m.(entries := Publications(w.m.entries, w.acqs[t].missing, files),
                           counts := w.m.counts.(pending := w.m.counts.pending - |files|))
            && w.m.counts.pending >= |files| && t in v.acqs
            && forall h :: h in w.acqs[t].handles ==> HoldsFile(v, t, h)
  {
    hide Core, Publish, Publications;
    OwnReservations(w, t);
    PublishClosed(w, t, files);
    CountsNat(Publish(w, t));
    PublishFrame(w, t);
    forall h | h in w.acqs[t].handles ensures HoldsFile(Publish(w, t), t, h) { PublishComplete(w, t, h); }
  }

  lemma PublishEvent(w: World, t: nat)
    requires Inv(w) && Enabled(w, PublishAcquire(t))
    ensures Step(w, PublishAcquire(t)) == Publish(w, t)
  {
    hide Core;
  }

  /** Whoever reserves finds its own reservations, for the files it asked for. */
  lemma OwnReservations(w: World, t: nat)
    requires Core(w) && t in w.acqs
    ensures var a := w.acqs[t];
            && NoDup(a.missing) && NoDup(a.existing) && DistinctKeys(a.handles)
            && forall i :: 0 <= i < |a.missing| ==>
                 var k := a.missing[i];
                 && k in w.m.entries && w.m.entries[k].Opening? && w.m.entries[k].op == a.op
                 && w.m.entries[k].handle in a.handles && w.m.entries[k].handle.key == k
  {
    assert AcquisitionOk(w.m.entries, w.slots, t, w.acqs[t]);
    forall i | 0 <= i < |w.acqs[t].missing| ensures w.m.entries[w.acqs[t].missing[i]].handle.key == w.acqs[t].missing[i] {
      assert TableAt(w.m.entries, w.slots, w.nextFree, KeySlot(w.acqs[t].missing[i]));
    }
  }

  // --------------------------------------------------------------- rollback

  lemma RollbackEvent(w: World, t: nat)
    requires Inv(w) && Enabled(w, RollBack(t))
    ensures CanRollback(w, t) && Step(w, RollBack(t)) == Trim(Undo(w, t))
  {
    hide Core;
  }

  /** The shared state after each phase of a rollback. */
  lemma UndoStates(w: World, t: nat)
    requires Core(w) && CanRollback(w, t)
    ensures var a, c, v := w.acqs[t], w.m.counts, Undo(w, t);
            && v.m == Returned(UndoReservations(w, t).m, a.existing)
            && v.max == w.max && v.maxCached == w.maxCached
            && UndoReservations(w, t).m == w.m.(entries := w.m.entries - Elements(a.missing),
                 counts := c.(occupied := c.occupied - |a.missing|, live := c.live - a.openCount, pending := c.pending - a.openCount))
            && |a.missing| <= c.occupied && a.openCount <= c.live && a.openCount <= c.pending
  {
    assert AcquisitionOk(w.m.entries, w.slots, t, w.acqs[t]);
    hide Core, Returned, Elements;
    UndoReservationsClosed(w, t);
    UndoClaimsClosed(UndoReservations(w, t), t);
    CountsNat(UndoReservations(w, t));
  }

  lemma ReturnedShape(m: Manager, ks: seq<Key>)
    ensures Returned(m, ks) == m.(entries := Returned(m, ks).entries, idle := Returned(m, ks).idle)
  {
  }

  lemma KeyDropped(entries: map<Key, Entry>, ks: seq<Key>, i: nat)
    requires NoDup(ks) && i < |ks| && ks[i] in entries
    ensures var now := entries - Elements(ks[..i]);
            && ks[i] in now && now[ks[i]] == entries[ks[i]]
            && now - {ks[i]} == entries - Elements(ks[..i + 1])
  {
    assert ks[..i + 1] == ks[..i] + [ks[i]];
    assert Elements(ks[..i + 1]) == Elements(ks[..i]) + {ks[i]};
  }

  lemma ClaimsLeased(w: World, t: nat, rest: map<Key, Entry>)
    requires Core(w) && t in w.acqs && rest == w.m.entries - Elements(w.acqs[t].missing)
    ensures NoDup(w.acqs[t].existing)
    ensures forall k :: k in w.acqs[t].existing ==> k in rest && rest[k].Open? && rest[k].leases > 0
  {
    hide Core, LeaseCounts, AcqTally, IdleQueue, Owned, Leased;
    var a := w.acqs[t];
    Parts(w);
    assert AcquisitionOk(w.m.entries, w.slots, t, a);
    forall k | k in a.existing ensures k in rest && rest[k].Open? && rest[k].leases > 0 {
      ClaimedPositive(w.m.entries, w.leases, w.acqs, k);
    }
  }

  // ---------------------------------------------------------------- release

  /** The world once the lease object is gone. */
  ghost function Unleased(w: World, l: nat): World
    requires Core(w) && CanUnlease(w, l)
  {
    LeaseEntry(w, l);
    Unlease(w, l)
  }

  lemma ReleaseEvent(w: World, l: nat)
    requires Inv(w) && Enabled(w, Event.ReleaseLease(l))
    ensures CanUnlease(w, l) && Step(w, Event.ReleaseLease(l)) == Release(w, l)
  {
    hide Core;
  }

  /** The release splits on the last lease of a retiring segment's file. */
  lemma ReleaseCases(w: World, l: nat)
    requires Core(w) && CanUnlease(w, l)
    ensures var k, u := w.leases[l].key, Unleased(w, l);
            Core(u) && if IsIdle(u.m.entries, k) && k.segment in w.m.retirements
                       then Core(Evict(u, k)) && Release(w, l) == Trim(Evict(u, k))
                       else Release(w, l) == Trim(u)
  {
    LeaseEntry(w, l);
    hide Core, Trim;
    UnleaseCore(w, l);
    var k, u := w.leases[l].key, Unleased(w, l);
    if IsIdle(u.m.entries, k) && k.segment in w.m.retirements { EvictCore(u, k); }
  }

  lemma UnleasedState(w: World, l: nat)
    requires Core(w) && CanUnlease(w, l)
    ensures var k, u := w.leases[l].key, Unleased(w, l);
            && k in w.m.entries && w.m.entries[k].Open? && w.m.entries[k].leases > 0 && w.m.entries[k].file == w.leases[l].file
            && u.max == w.max && u.maxCached == w.maxCached && u.nextFree == w.nextFree && u.slots == w.slots
            && u.m == w.m.(entries := w.m.entries[k := OneLessLease(w.m.entries[k])],
                           idle := if w.m.entries[k].leases == 1 then w.m.idle + [k] else w.m.idle)
            && Without(w.m.idle + [k], k) == w.m.idle
  {
    LeasePins(w, l);
    WithoutLast(w.m.idle, w.leases[l].key);
  }

  lemma {:induction false} WithoutLast(idle: seq<Key>, k: Key)
    requires k !in idle
    ensures Without(idle + [k], k) == idle
  {
    if idle != [] {
      WithoutLast(idle[1..], k);
      assert (idle + [k])[1..] == idle[1..] + [k];
    }
  }

  lemma DetachesJoin(v: World, first: nat, victims: seq<Victim>, trimmed: seq<Victim>)
    requires Core(v) && v.nextFree == first + |victims| && Detaches(v.slots, first, victims)
    requires Detaches(Trim(v).slots, v.nextFree, trimmed)
    ensures Detaches(Trim(v).slots, first, victims + trimmed)
  {
    hide Core, Trim, Detaches;
    TrimKeepsVictims(v, first, victims);
    DetachesConcat(Trim(v).slots, first, victims, trimmed);
  }

  lemma {:induction false} TrimKeepsVictims(v: World, first: nat, victims: seq<Victim>)
    requires Core(v) && v.nextFree >= first + |victims| && Detaches(v.slots, first, victims)
    ensures Detaches(Trim(v).slots, first, victims)
    decreases |v.m.idle|
  {
    hide Core, Detaches, Trim;
    if |v.m.idle| > v.maxCached {
      TrimTurn(v);
      EvictKeepsVictims(v, v.m.idle[0], first, victims);
      TrimKeepsVictims(Evict(v, v.m.idle[0]), first, victims);
    } else {
      TrimDone(v);
    }
  }

  // ---------------------------------------------------------- detached closes

  ghost predicate ClosedVictims(slots: map<Slot, Content>, batch: seq<Slot>, victims: seq<Victim>) {
    && |batch| == |victims|
    && forall i :: 0 <= i < |batch| ==>
         && batch[i] in slots && slots[batch[i]].Closing? && slots[batch[i]].key == victims[i].key
         && (victims[i].disposition == Released <==> batch[i].FreeSlot?)
  }

  function DecrementEach(m: map<string, nat>, victims: seq<Victim>): map<string, nat>
    decreases |victims|
  {
    if victims == [] then m else DecrementEach(Decrement(m, victims[0].key.segment), victims[1..])
  }

  function ReleasedCount(victims: seq<Victim>): nat {
    if victims == [] then 0 else (if victims[0].disposition == Released then 1 else 0) + ReleasedCount(victims[1..])
  }

  lemma {:induction false} ReleasedMore(victims: seq<Victim>, i: nat)
    requires i < |victims|
    ensures ReleasedCount(victims[..i + 1]) == ReleasedCount(victims[..i]) + if victims[i].disposition == Released then 1 else 0
    decreases i
  {
    if i > 0 {
      ReleasedMore(victims[1..], i - 1);
      assert victims[..i + 1][1..] == victims[1..][..i] && victims[..i][1..] == victims[1..][..i - 1];
    }
  }

  method CountReleased(victims: seq<Victim>) returns (released: nat)
    ensures released == ReleasedCount(victims)
  {
    released := 0;
    for i := 0 to |victims|
      invariant released == ReleasedCount(victims[..i])
    {
      ReleasedMore(victims, i);
      if victims[i].disposition == Released { released := released + 1; }
    }
    assert victims[..|victims|] == victims;
  }

  lemma FinishEvent(w: World, batch: seq<Slot>)
    requires Inv(w) && Enabled(w, FinishCloses(batch))
    ensures CanFinishDetached(w, batch) && Step(w, FinishCloses(batch)) == FinishDetached(w, batch)
  {
    hide Core;
  }

  lemma FoundNothing(scan: Scan)
    ensures Found([], [], scan) == scan
  {
  }

  lemma FoundAll(m: Manager, existing: seq<Key>, missing: seq<Handle>)
    ensures Found(existing, missing, ScanHandles(m, [])) == Scanned(existing, missing)
  {
    assert existing + [] == existing && missing + [] == missing;
  }

  /** One turn of the classification, after some files have been sorted. */
  lemma FoundTurn(m: Manager, handles: seq<Handle>, i: nat, existing: seq<Key>, missing: seq<Handle>)
    requires i < |handles|
    ensures var h, found := handles[i], Found(existing, missing, ScanHandles(m, handles[i..]));
            if h.key.segment in m.retirements then found == Retiring(h.key.segment)
            else if h.key !in m.entries then found == Found(existing, missing + [h], ScanHandles(m, handles[i + 1..]))
            else if m.entries[h.key].handle != h then found == Conflict(m.entries[h.key].handle, h)
            else if m.entries[h.key].Opening? then found == Busy
            else found == Found(existing + [h.key], missing, ScanHandles(m, handles[i + 1..]))
  {
    assert handles[i..][1..] == handles[i + 1..];
    var rest := ScanHandles(m, handles[i + 1..]);
    if rest.Scanned? {
      assert missing + ([handles[i]] + rest.missing) == missing + [handles[i]] + rest.missing;
      assert existing + ([handles[i].key] + rest.existing) == existing + [handles[i].key] + rest.existing;
    }
  }

  lemma NoCandidates(requested: set<Key>)
    ensures Candidates([], requested) == []
  {
  }

  lemma CandidatesTurn(idle: seq<Key>, i: nat, requested: set<Key>, done: seq<Key>)
    requires i < |idle|
    ensures done + Candidates(idle[i..], requested) ==
            (if idle[i] in requested then done else done + [idle[i]]) + Candidates(idle[i + 1..], requested)
  {
    assert idle[i..][1..] == idle[i + 1..];
  }

  /** One close: the next victim's segment is counted, and the rest stays ready. */
  lemma CloseTurn(v: World, batch: seq<Slot>, victims: seq<Victim>)
    requires Core(v) && CanFinishDetached(v, batch) && ClosedVictims(v.slots, batch, victims) && victims != []
    ensures var segment, u := victims[0].key.segment, FinishClose(v, batch[0]);
            && segment in v.m.closings && v.m.closings[segment] > 0
            && batch[0] in v.slots && v.slots[batch[0]].Closing?
            && Core(u) && CanFinishDetached(u, batch[1..]) && ClosedVictims(u.slots, batch[1..], victims[1..])
            && u.m.closings == Decrement(v.m.closings, segment)
            && u.m == v.m.(closings := u.m.closings, counts := v.m.counts.(live := v.m.counts.live - 1,
                             occupied := v.m.counts.occupied - if victims[0].disposition == Released then 1 else 0))
  {
    hide Core;
    ClosingCounted(v, batch[0]);
    FinishDetachedNext(v, batch);
    FinishCloseCore(v, batch[0]);
  }

  lemma ClosingCounted(v: World, s: Slot)
    requires Core(v) && s in v.slots && v.slots[s].Closing?
    ensures v.slots[s].key.segment in v.m.closings && v.m.closings[v.slots[s].key.segment] > 0
  {
    var segment := v.slots[s].key.segment;
    assert s in In(v.slots, ClosingOf(segment));
    assert Count(v.m.closings, segment) == |In(v.slots, ClosingOf(segment))|;
  }

  lemma {:induction false} FinishDetachedClosed(w: World, batch: seq<Slot>, victims: seq<Victim>)
    requires Core(w) && CanFinishDetached(w, batch) && ClosedVictims(w.slots, batch, victims)
    ensures FinishDetached(w, batch).m ==
              w.m.(closings := DecrementEach(w.m.closings, victims),
                   counts := w.m.counts.(live := w.m.counts.live - |victims|, occupied := w.m.counts.occupied - ReleasedCount(victims)))
    decreases |batch|
  {
    hide Core, CanFinishDetached, Decrement;
    if batch != [] {
      CloseTurn(w, batch, victims);
      FinishDetachedClosed(FinishClose(w, batch[0]), batch[1..], victims[1..]);
    }
  }

  // ------------------------------------------------- preflight and retirement

  ghost predicate ReservationHolds(slots: map<Slot, Content>, p: nat, victim: Victim) {
    && victim.disposition == Transferred
    && PreSlot(p) in slots && slots[PreSlot(p)] == Closing(victim.key, victim.file, false)
  }

  lemma ReserveEvent(w: World, p: nat)
    requires Inv(w) && Enabled(w, ReserveSlot(p))
    ensures p in w.pres && w.pres[p].phase.PreWaiting? && Step(w, ReserveSlot(p)) == ReservePreflight(w, p)
  {
    hide Core;
  }

  lemma ReserveCases(w: World, p: nat)
    requires Core(w) && p in w.pres && w.pres[p].phase.PreWaiting?
    ensures var v, c := ReservePreflight(w, p), w.m.counts;
            if c.occupied < w.max then v.m == w.m.(counts := c.(occupied := c.occupied + 1, reserved := c.reserved + 1))
            else if w.m.idle == [] then v == w
            else var k := w.m.idle[0];
              && IsIdle(w.m.entries, k)
              && v.m == w.m.(entries := w.m.entries - {k}, idle := w.m.idle[1..],
                             closings := Increment(w.m.closings, k.segment), counts := c.(reserved := c.reserved + 1))
              && ReservationHolds(v.slots, p, Victim(k, w.m.entries[k].file, Transferred))
  {
    hide Core, Without, Increment, ReservePreflight;
    if w.m.idle != [] {
      IdleHead(w);
      HeadGone(w.m.idle);
    }
    ReserveIs(w, p);
  }

  lemma ReserveIs(w: World, p: nat)
    requires Core(w) && p in w.pres && w.pres[p].phase.PreWaiting?
    requires w.m.idle != [] ==> IsIdle(w.m.entries, w.m.idle[0])
    ensures ReservePreflight(w, p) == if w.m.counts.occupied < w.max then TakeFreeSlot(w, p)
                                      else if w.m.idle == [] then w else TakeIdleSlot(w, p, w.m.idle[0])
  {
    hide Core, TakeFreeSlot, TakeIdleSlot;
  }

  lemma HeadGone(idle: seq<Key>)
    requires idle != [] && NoDup(idle)
    ensures Without(idle, idle[0]) == idle[1..]
  {
    WithoutProps(idle, idle[0]);
  }

  lemma PreflightEvent(w: World, p: nat, segment: string)
    requires Inv(w) && Enabled(w, RequestPreflight(p, segment))
    ensures Step(w, RequestPreflight(p, segment)) == if segment in w.m.retirements then w else BeginPreflight(w, p, segment)
  {
    hide Core;
  }

  lemma EndPreflightEvent(w: World, p: nat)
    requires Inv(w) && Enabled(w, EndPreflight(p))
    ensures p in w.pres && Step(w, EndPreflight(p)) == FinishPreflight(w, p)
  {
    hide Core;
  }

  lemma PreflightCounted(w: World, p: nat)
    requires Core(w) && p in w.pres
    ensures w.pres[p].segment in w.m.preflights && w.m.preflights[w.pres[p].segment] > 0
  {
    assert p in PresIn(w.pres, w.pres[p].segment);
    assert Count(w.m.preflights, w.pres[p].segment) == |PresIn(w.pres, w.pres[p].segment)|;
  }

  lemma NoZeroCounts(w: World)
    requires Core(w)
    ensures NoZero(w.m.preflights) && NoZero(w.m.acquisitions) && NoZero(w.m.closings)
  {
  }

  lemma MarkerStands(w: World, c: nat)
    requires Core(w) && c in w.callers
    ensures w.callers[c] in w.m.retirements && w.m.retirements[w.callers[c]].callers > 0
    ensures w.m.retirements[w.callers[c]].completed ==> Quiet(w.m, w.callers[c])
  {
    var s := w.callers[c];
    assert c in CallersOf(w.callers, s);
    assert MarkerAt(w.m.retirements, w.callers, w.leader, s);
  }

  lemma LeaveEvent(w: World, c: nat)
    requires Inv(w) && c in w.callers && (CanComplete(w, c) || CanJoinedLeave(w, c))
    ensures w.callers[c] in w.m.retirements && w.m.retirements[w.callers[c]].callers > 0
    ensures Step(w, LeaveRetire(c)) == LeaveRetirement(w, c)
  {
    hide Core, LeaveRetirement, Quiet;
    MarkerStands(w, c);
  }

  lemma SweepEvent(w: World, c: nat, keys: seq<Key>)
    requires Inv(w) && c in w.callers && NoDup(keys)
    requires forall k :: k in keys ==> IsIdle(w.m.entries, k) && k.segment == w.callers[c]
    ensures Enabled(w, SweepIdle(c, keys)) && IdleOf(w, w.callers[c], keys) && Step(w, SweepIdle(c, keys)) == Sweep(w, w.callers[c], keys)
  {
    hide Core;
  }

  lemma SweepTurn(v: World, segment: string, keys: seq<Key>)
    requires Core(v) && IdleOf(v, segment, keys) && keys != []
    ensures var k := keys[0];
            && IsIdle(v.m.entries, k) && Core(Evict(v, k)) && IdleOf(Evict(v, k), segment, keys[1..])
            && Sweep(Evict(v, k), segment, keys[1..]) == Sweep(v, segment, keys)
            && Evict(v, k).max == v.max && Evict(v, k).maxCached == v.maxCached && Evict(v, k).nextFree == v.nextFree + 1
            && Evict(v, k).m == v.m.(entries := v.m.entries - {k}, idle := Without(v.m.idle, k),
                                     closings := Increment(v.m.closings, k.segment))
  {
    hide Core;
    SweepNext(v, segment, keys);
    EvictCore(v, keys[0]);
  }

  lemma SweepDone(v: World, segment: string, keys: seq<Key>)
    requires Core(v) && IdleOf(v, segment, keys) && keys == []
    ensures Sweep(v, segment, keys) == v
  {
  }
}
