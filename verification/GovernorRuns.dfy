/** The governor's locked regions as folds of elementary steps, its runs, and
    the invariant over every run. */
module GovernorRuns {
  import Common
  import opened GovernorModel
  import opened GovernorCounting
  import opened GovernorFrames
  import opened GovernorSteps
  import opened GovernorProof

  // ----------------------------------------------------------------- prepare

  datatype Scan =
    | Retiring(segment: string)
    | Conflict(first: Handle, second: Handle)
    | Busy
    | Scanned(existing: seq<Key>, missing: seq<Handle>)

  /** The classification loop at the head of `prepare_acquisition`. */
  function ScanHandles(m: Manager, handles: seq<Handle>): Scan {
    if handles == [] then Scanned([], [])
    else
      var h := handles[0];
      if h.key.segment in m.retirements then Retiring(h.key.segment)
      else if h.key in m.entries && m.entries[h.key].handle != h then Conflict(m.entries[h.key].handle, h)
      else if h.key in m.entries && m.entries[h.key].Opening? then Busy
      else
        match ScanHandles(m, handles[1..])
        case Scanned(existing, missing) =>
          if h.key in m.entries then Scanned([h.key] + existing, missing) else Scanned(existing, [h] + missing)
        case other => other
  }

  function KeySet(handles: seq<Handle>): set<Key> {
    set h | h in handles :: h.key
  }

  /** Idle files that are not requested, in eviction order. */
  function Candidates(idle: seq<Key>, requested: set<Key>): seq<Key> {
    if idle == [] then []
    else if idle[0] in requested then Candidates(idle[1..], requested)
    else [idle[0]] + Candidates(idle[1..], requested)
  }

  function Shortfall(max: nat, occupied: int, needed: nat): nat {
    var free := if occupied <= max then max - occupied else 0;
    if needed <= free then 0 else needed - free
  }

  datatype Verdict = Ready | Wait | Refused

  function PrepareVerdict(w: World, handles: seq<Handle>): Verdict {
    match ScanHandles(w.m, handles)
    case Scanned(_, missing) =>
      if Shortfall(w.max, w.m.counts.occupied, |missing|) <= |Candidates(w.m.idle, KeySet(handles))| then Ready else Wait
    case Busy => Wait
    case _ => Refused
  }

  /** What the scan found, stated without its order of tests. */
  lemma {:induction false} ScanProps(m: Manager, handles: seq<Handle>)
    requires DistinctKeys(handles)
    ensures var r := ScanHandles(m, handles);
            r.Scanned? <==> forall h :: h in handles ==>
              && h.key.segment !in m.retirements
              && (h.key in m.entries ==> m.entries[h.key].Open? && m.entries[h.key].handle == h)
    ensures var r := ScanHandles(m, handles);
            r.Scanned? ==>
              && (forall k :: k in r.existing <==> k in KeySet(handles) && k in m.entries)
              && (forall h :: h in r.missing <==> h in handles && h.key !in m.entries)
              && NoDup(r.existing) && DistinctKeys(r.missing)
              && |r.existing| + |r.missing| == |handles|
  {
    hide ScanHandles, NoDup, DistinctKeys;
    ScanSucceeds(m, handles);
    if ScanHandles(m, handles).Scanned? { ScanLists(m, handles); }
  }

  /** A file that the scan accepts. */
  predicate Scannable(m: Manager, h: Handle) {
    && h.key.segment !in m.retirements
    && (h.key in m.entries ==> m.entries[h.key].Open? && m.entries[h.key].handle == h)
  }

  lemma {:induction false} ScanSucceeds(m: Manager, handles: seq<Handle>)
    ensures ScanHandles(m, handles).Scanned? <==> forall h :: h in handles ==> Scannable(m, h)
  {
    hide Scannable;
    if handles != [] {
      var h, tail := handles[0], handles[1..];
      assert handles == [h] + tail;
      ScanSucceeds(m, tail);
      ScanTurn(m, handles);
      forall x ensures x in handles <==> x == h || x in tail { }
    }
  }

  lemma ScanTurn(m: Manager, handles: seq<Handle>)
    requires handles != []
    ensures ScanHandles(m, handles).Scanned? <==> Scannable(m, handles[0]) && ScanHandles(m, handles[1..]).Scanned?
  {
  }

  lemma {:induction false} ScanLists(m: Manager, handles: seq<Handle>)
    requires DistinctKeys(handles) && ScanHandles(m, handles).Scanned?
    ensures var r := ScanHandles(m, handles);
            && (forall k :: k in r.existing <==> k in KeySet(handles) && k in m.entries)
            && (forall h :: h in r.missing <==> h in handles && h.key !in m.entries)
            && NoDup(r.existing) && DistinctKeys(r.missing)
            && |r.existing| + |r.missing| == |handles|
  {
    if handles != [] {
      var h, tail := handles[0], handles[1..];
      assert handles == [h] + tail;
      assert DistinctKeys(tail);
      ScanLists(m, tail);
      assert KeySet(handles) == {h.key} + KeySet(tail);
      assert h.key !in KeySet(tail);
    }
  }

  /** A file whose segment is being retired, or that the table knows under another
      definition. */
  predicate Refusing(m: Manager, h: Handle) {
    h.key.segment in m.retirements || (h.key in m.entries && m.entries[h.key].handle != h)
  }

  /** The first file of the request that stops the scan is number `i`. */
  predicate StopsAt(m: Manager, handles: seq<Handle>, i: int) {
    0 <= i < |handles| && !Scannable(m, handles[i]) && forall j :: 0 <= j < i ==> Scannable(m, handles[j])
  }

  /** What the scan reports for this file. */
  function Stopped(m: Manager, h: Handle): Scan {
    if h.key.segment in m.retirements then Retiring(h.key.segment)
    else if Refusing(m, h) then assert h.key in m.entries; Conflict(m.entries[h.key].handle, h)
    else Busy
  }

  /** The scan reports the first file that stops it. */
  lemma {:induction false} ScanStops(m: Manager, handles: seq<Handle>, i: nat)
    requires StopsAt(m, handles, i)
    ensures ScanHandles(m, handles) == Stopped(m, handles[i])
    decreases i
  {
    if i > 0 {
      var tail := handles[1..];
      assert StopsAt(m, tail, i - 1) by {
        forall j | 0 <= j < i - 1 ensures Scannable(m, tail[j]) { assert tail[j] == handles[j + 1]; }
      }
      assert Scannable(m, handles[0]);
      ScanStops(m, tail, i - 1);
    }
  }

  lemma {:induction false} SomeStop(m: Manager, handles: seq<Handle>) returns (i: nat)
    requires !ScanHandles(m, handles).Scanned?
    ensures StopsAt(m, handles, i)
  {
    if !Scannable(m, handles[0]) {
      i := 0;
    } else {
      ScanTurn(m, handles);
      var k := SomeStop(m, handles[1..]);
      i := k + 1;
      forall j | 0 <= j < i ensures Scannable(m, handles[j]) { if j > 0 { assert handles[j] == handles[1..][j - 1]; } }
    }
  }

  /** A request is refused if and only if the first file that stops its scan retires or
      clashes, and has to wait for an open if and only if that file is being opened. */
  lemma RefusedIff(w: World, handles: seq<Handle>)
    ensures PrepareVerdict(w, handles) == Refused <==> exists i :: StopsAt(w.m, handles, i) && Refusing(w.m, handles[i])
    ensures ScanHandles(w.m, handles).Busy? <==> exists i :: StopsAt(w.m, handles, i) && !Refusing(w.m, handles[i])
  {
    hide ScanHandles, Refusing, Scannable;
    if !ScanHandles(w.m, handles).Scanned? {
      var i := SomeStop(w.m, handles);
      ScanStops(w.m, handles, i);
      StoppedCases(w.m, handles, i);
    }
    forall i | StopsAt(w.m, handles, i) ensures ScanHandles(w.m, handles) == Stopped(w.m, handles[i]) {
      ScanStops(w.m, handles, i);
      StoppedCases(w.m, handles, i);
    }
  }

  lemma StoppedCases(m: Manager, handles: seq<Handle>, i: nat)
    requires StopsAt(m, handles, i)
    ensures !Stopped(m, handles[i]).Scanned? && (Stopped(m, handles[i]).Busy? <==> !Refusing(m, handles[i]))
  {
  }

  /** A request for a file of a retiring segment is refused, unless another of its files is
      being opened. */
  lemma RetiringIsRefused(w: World, handles: seq<Handle>)
    requires exists h :: h in handles && h.key.segment in w.m.retirements
    requires forall h :: h in handles && h.key in w.m.entries ==> w.m.entries[h.key].Open?
    ensures PrepareVerdict(w, handles) == Refused
  {
    hide ScanHandles;
    RefusedIff(w, handles);
    ScanSucceeds(w.m, handles);
    var i := SomeStop(w.m, handles);
    assert handles[i] in handles;
    assert Refusing(w.m, handles[i]);
  }

  lemma {:induction false} CandidatesProps(idle: seq<Key>, requested: set<Key>)
    requires NoDup(idle)
    ensures NoDup(Candidates(idle, requested))
    ensures forall k :: k in Candidates(idle, requested) <==> k in idle && k !in requested
  {
    if idle != [] {
      assert idle == [idle[0]] + idle[1..];
      assert idle[0] !in idle[1..];
      CandidatesProps(idle[1..], requested);
    }
  }

  /** Acquisition `t` is reserving and has opened nothing yet. */
  ghost predicate InReservation(w: World, t: nat) {
    t in w.acqs && w.acqs[t].phase.Reserving? && w.acqs[t].openCount == 0
  }

  /** Only acquisition `t` changes. */
  ghost predicate OnlyAcq(acqs: map<nat, Acquisition>, acqs': map<nat, Acquisition>, t: nat) {
    t in acqs' && acqs' - {t} == acqs - {t}
  }

  lemma PutOnly(acqs: map<nat, Acquisition>, t: nat, a: Acquisition)
    ensures OnlyAcq(acqs, acqs[t := a], t)
  {
    assert acqs[t := a] - {t} == acqs - {t};
  }

  lemma CoveredOnly(acqs: map<nat, Acquisition>, acqs': map<nat, Acquisition>, t: nat)
    requires Covered(acqs) && OnlyAcq(acqs, acqs', t) && Covers(acqs'[t])
    ensures Covered(acqs')
  {
    forall u | u in acqs' ensures Covers(acqs'[u]) {
      if u != t { assert u in acqs' - {t}; }
    }
  }

  ghost predicate CanClaimAll(w: World, t: nat, ks: seq<Key>) {
    && InReservation(w, t) && NoDup(ks)
    && forall k :: k in ks ==>
         k.segment in w.acqs[t].segs && k in w.m.entries && w.m.entries[k].Open? && k !in w.acqs[t].existing
         && w.m.entries[k].handle in w.acqs[t].handles
  }

  function OneMoreLease(e: Entry): Entry
    requires e.Open?
  {
    Open(e.handle, e.file, e.leases + 1)
  }

  /** One more lease on each of `ks`. */
  function MoreLeases(entries: map<Key, Entry>, ks: seq<Key>): map<Key, Entry> {
    map k | k in entries :: if k in ks && entries[k].Open? then OneMoreLease(entries[k]) else entries[k]
  }

  function WithoutAll(idle: seq<Key>, ks: seq<Key>): (r: seq<Key>)
    ensures |r| <= |idle|
    decreases |ks|
  {
    if ks == [] then idle else WithoutAll(Without(idle, ks[0]), ks[1..])
  }

  /** The claims of an acquisition in one go. */
  function Claimed(w: World, t: nat, ks: seq<Key>): World
    requires t in w.acqs
  {
    w.(acqs := w.acqs[t := w.acqs[t].(existing := w.acqs[t].existing + ks)],
       m := w.m.(entries := MoreLeases(w.m.entries, ks), idle := WithoutAll(w.m.idle, ks)))
  }

  lemma ClaimNext(w: World, t: nat, ks: seq<Key>)
    requires CanClaimAll(w, t, ks) && ks != []
    ensures CanClaim(w, t, ks[0])
    ensures CanClaimAll(Claim(w, t, ks[0]), t, ks[1..])
  {
    assert ks == [ks[0]] + ks[1..];
    HeadTail(ks, ks[0], ks[1..]);
  }

  ghost function ClaimAll(w: World, t: nat, ks: seq<Key>): (v: World)
    requires Core(w) && CanClaimAll(w, t, ks)
    ensures Core(v) && |v.m.idle| <= |w.m.idle|
    decreases |ks|
  {
    if ks == [] then w
    else
      ClaimNext(w, t, ks);
      ClaimCore(w, t, ks[0]);
      ClaimAll(Claim(w, t, ks[0]), t, ks[1..])
  }

  lemma ClaimedStep(w: World, t: nat, k: Key, ks: seq<Key>)
    requires t in w.acqs && k in w.m.entries && w.m.entries[k].Open? && k !in ks
    ensures Claimed(Claim(w, t, k), t, ks) == Claimed(w, t, [k] + ks)
  {
    var v := Claim(w, t, k);
    assert MoreLeases(v.m.entries, ks) == MoreLeases(w.m.entries, [k] + ks);
    assert WithoutAll(w.m.idle, [k] + ks) == WithoutAll(v.m.idle, ks) by { assert ([k] + ks)[1..] == ks; }
    assert v.acqs[t].existing + ks == w.acqs[t].existing + ([k] + ks);
    var a := w.acqs[t].(existing := w.acqs[t].existing + ([k] + ks));
    assert v.acqs[t := a] == w.acqs[t := a];
  }

  lemma {:induction false} ClaimAllClosed(w: World, t: nat, ks: seq<Key>)
    requires Core(w) && CanClaimAll(w, t, ks)
    ensures ClaimAll(w, t, ks) == Claimed(w, t, ks)
    decreases |ks|
  {
    hide Core;
    if ks == [] {
      assert w.acqs[t].existing + ks == w.acqs[t].existing;
      assert w.acqs[t := w.acqs[t]] == w.acqs;
      assert MoreLeases(w.m.entries, ks) == w.m.entries;
    } else {
      ClaimNext(w, t, ks);
      ClaimCore(w, t, ks[0]);
      ClaimAllClosed(Claim(w, t, ks[0]), t, ks[1..]);
      assert ks == [ks[0]] + ks[1..];
      HeadTail(ks, ks[0], ks[1..]);
      ClaimedStep(w, t, ks[0], ks[1..]);
    }
  }

  ghost predicate CanReserveAll(w: World, t: nat, hs: seq<Handle>) {
    && InReservation(w, t) && DistinctKeys(hs)
    && forall h :: h in hs ==> h in w.acqs[t].handles && h.key.segment in w.acqs[t].segs && h.key !in w.m.entries
  }

  ghost predicate CanTransferAll(w: World, t: nat, vs: seq<Key>, hs: seq<Handle>) {
    && CanReserveAll(w, t, hs) && |vs| <= |hs| && NoDup(vs)
    && (forall v :: v in vs ==> IsIdle(w.m.entries, v))
    && w.m.counts.occupied + |hs| - |vs| <= w.max
  }

  lemma DistinctTail(hs: seq<Handle>)
    requires DistinctKeys(hs) && hs != []
    ensures DistinctKeys(hs[1..]) && forall h :: h in hs[1..] ==> h in hs && h.key != hs[0].key
  {
    assert forall i :: 0 <= i < |hs| - 1 ==> hs[1..][i] == hs[i + 1];
    forall h | h in hs[1..] ensures h in hs && h.key != hs[0].key {
      var i :| 0 <= i < |hs| - 1 && hs[i + 1] == h;
    }
  }

  lemma TransferNext(w: World, t: nat, vs: seq<Key>, hs: seq<Handle>)
    requires CanTransferAll(w, t, vs, hs) && vs != []
    ensures CanTransfer(w, t, vs[0], hs[0])
    ensures CanTransferAll(Transfer(w, t, vs[0], hs[0]), t, vs[1..], hs[1..])
  {
    assert vs == [vs[0]] + vs[1..];
    HeadTail(vs, vs[0], vs[1..]);
    DistinctTail(hs);
  }

  lemma ReserveNext(w: World, t: nat, hs: seq<Handle>)
    requires CanTransferAll(w, t, [], hs) && hs != []
    ensures CanReserve(w, t, hs[0]) && w.m.counts.occupied < w.max
    ensures CanTransferAll(Reserve(w, t, hs[0]), t, [], hs[1..])
  {
    DistinctTail(hs);
  }

  /** Reserves every missing file, the first ones on the slots of the victims. */
  ghost function ReserveAll(w: World, t: nat, vs: seq<Key>, hs: seq<Handle>): (v: World)
    requires Core(w) && CanTransferAll(w, t, vs, hs)
    ensures Core(v) && v.max == w.max && v.maxCached == w.maxCached && |v.m.idle| <= |w.m.idle|
    ensures t in v.acqs && |v.acqs[t].missing| == |w.acqs[t].missing| + |hs|
    ensures v.acqs[t].phase.Reserving? && v.acqs[t].existing == w.acqs[t].existing
    decreases |hs|
  {
    if vs != [] then
      TransferNext(w, t, vs, hs);
      TransferCore(w, t, vs[0], hs[0]);
      ReserveAll(Transfer(w, t, vs[0], hs[0]), t, vs[1..], hs[1..])
    else if hs != [] then
      ReserveNext(w, t, hs);
      ReserveCore(w, t, hs[0]);
      ReserveAll(Reserve(w, t, hs[0]), t, [], hs[1..])
    else w
  }

  function AddOpenings(entries: map<Key, Entry>, hs: seq<Handle>, op: nat, t: nat): map<Key, Entry>
    decreases |hs|
  {
    if hs == [] then entries else AddOpenings(entries[hs[0].key := Opening(hs[0], op, t)], hs[1..], op, t)
  }

  function IncrementEach(m: map<string, nat>, vs: seq<Key>): map<string, nat>
    decreases |vs|
  {
    if vs == [] then m else IncrementEach(Increment(m, vs[0].segment), vs[1..])
  }

  function KeysOf(hs: seq<Handle>): (ks: seq<Key>)
    ensures |ks| == |hs| && forall i :: 0 <= i < |hs| ==> ks[i] == hs[i].key
  {
    seq(|hs|, i requires 0 <= i < |hs| => hs[i].key)
  }

  function Elements<T>(s: seq<T>): set<T> {
    set x | x in s
  }

  /** The shared state after the victims have left and the reservations are in. */
  function ReservedState(m: Manager, a: Acquisition, t: nat, vs: seq<Key>, hs: seq<Handle>): Manager {
    m.(entries := AddOpenings(m.entries - Elements(vs), hs, a.op, t),
       idle := WithoutAll(m.idle, vs),
       closings := IncrementEach(m.closings, vs),
       counts := m.counts.(occupied := m.counts.occupied + |hs| - |vs|))
  }

  lemma ReservedTransfer(w: World, t: nat, vs: seq<Key>, hs: seq<Handle>)
    requires CanTransferAll(w, t, vs, hs) && vs != []
    requires CanTransfer(w, t, vs[0], hs[0])
    ensures var v := Transfer(w, t, vs[0], hs[0]);
            ReservedState(v.m, v.acqs[t], t, vs[1..], hs[1..]) == ReservedState(w.m, w.acqs[t], t, vs, hs)
  {
    var v := Transfer(w, t, vs[0], hs[0]);
    var e := Opening(hs[0], w.acqs[t].op, t);
    assert Elements(vs) == {vs[0]} + Elements(vs[1..]) by { assert vs == [vs[0]] + vs[1..]; }
    assert hs[0].key !in Elements(vs);
    assert v.m.entries - Elements(vs[1..]) == (w.m.entries - Elements(vs))[hs[0].key := e];
  }

  lemma ReservedReserve(w: World, t: nat, hs: seq<Handle>)
    requires CanReserveAll(w, t, hs) && hs != []
    ensures var v := Reserve(w, t, hs[0]);
            ReservedState(v.m, v.acqs[t], t, [], hs[1..]) == ReservedState(w.m, w.acqs[t], t, [], hs)
  {
    var v := Reserve(w, t, hs[0]);
    assert w.m.entries - Elements([]) == w.m.entries && v.m.entries - Elements([]) == v.m.entries;
  }

  lemma MissingStep(acqs: map<nat, Acquisition>, t: nat, hs: seq<Handle>)
    requires t in acqs && hs != []
    ensures var a := acqs[t];
            var b := a.(missing := a.missing + [hs[0].key]);
            acqs[t := b][t := b.(missing := b.missing + KeysOf(hs[1..]))] == acqs[t := a.(missing := a.missing + KeysOf(hs))]
  {
    assert KeysOf(hs) == [hs[0].key] + KeysOf(hs[1..]);
    assert acqs[t].missing + [hs[0].key] + KeysOf(hs[1..]) == acqs[t].missing + KeysOf(hs);
  }

  lemma {:induction false} ReserveAllClosed(w: World, t: nat, vs: seq<Key>, hs: seq<Handle>)
    requires Core(w) && CanTransferAll(w, t, vs, hs)
    ensures var v := ReserveAll(w, t, vs, hs);
            && v.m == ReservedState(w.m, w.acqs[t], t, vs, hs)
            && v.acqs == w.acqs[t := w.acqs[t].(missing := w.acqs[t].missing + KeysOf(hs))]
    decreases |hs|
  {
    hide Core;
    if vs != [] {
      TransferNext(w, t, vs, hs);
      TransferCore(w, t, vs[0], hs[0]);
      ReserveAllClosed(Transfer(w, t, vs[0], hs[0]), t, vs[1..], hs[1..]);
      ReservedTransfer(w, t, vs, hs);
      MissingStep(w.acqs, t, hs);
    } else if hs != [] {
      ReserveNext(w, t, hs);
      ReserveCore(w, t, hs[0]);
      ReserveAllClosed(Reserve(w, t, hs[0]), t, [], hs[1..]);
      ReservedReserve(w, t, hs);
      MissingStep(w.acqs, t, hs);
    } else {
      assert w.m.entries - Elements([]) == w.m.entries;
      assert w.acqs[t].missing + KeysOf([]) == w.acqs[t].missing;
      assert w.acqs[t := w.acqs[t]] == w.acqs;
    }
  }

  ghost predicate CanPrepare(w: World, t: nat) {
    t in w.acqs && w.acqs[t].phase.Waiting?
  }

  function Victims(w: World, handles: seq<Handle>, needed: nat): seq<Key> {
    var candidates := Candidates(w.m.idle, KeySet(handles));
    var n := Shortfall(w.max, w.m.counts.occupied, needed);
    if n <= |candidates| then candidates[..n] else candidates
  }

  lemma VictimsProps(w: World, handles: seq<Handle>, needed: nat)
    requires IdleQueue(w.m.entries, w.m.idle)
    ensures NoDup(Victims(w, handles, needed))
    ensures forall v :: v in Victims(w, handles, needed) ==> IsIdle(w.m.entries, v) && v !in KeySet(handles)
  {
    CandidatesProps(w.m.idle, KeySet(handles));
  }

  lemma PrepareClaims(w: World, t: nat)
    requires ClaimPart(w) && CanPrepare(w, t) && ScanHandles(w.m, w.acqs[t].handles).Scanned?
    ensures CanClaimAll(StartReserving(w, t), t, ScanHandles(w.m, w.acqs[t].handles).existing)
  {
    var handles := w.acqs[t].handles;
    assert AcquisitionOk(w.m.entries, w.slots, t, w.acqs[t]);
    ScanProps(w.m, handles);
    forall k | k in ScanHandles(w.m, handles).existing ensures k.segment in w.acqs[t].segs {
      var h :| h in handles && h.key == k;
    }
  }

  lemma OwnWellFormed(w: World, t: nat)
    requires Acquisitions(w.m.entries, w.slots, w.acqs) && t in w.acqs
    ensures WellFormed(w.acqs[t])
  {
    assert AcquisitionOk(w.m.entries, w.slots, t, w.acqs[t]);
  }

  lemma PrepareReserves(w: World, t: nat, v: World)
    requires ClaimPart(w) && CanPrepare(w, t) && PrepareVerdict(w, w.acqs[t].handles) == Ready
    requires 0 <= w.m.counts.occupied <= w.max
    requires v == Claimed(StartReserving(w, t), t, ScanHandles(w.m, w.acqs[t].handles).existing)
    ensures var missing := ScanHandles(w.m, w.acqs[t].handles).missing;
            CanTransferAll(v, t, Victims(w, w.acqs[t].handles, |missing|), missing)
  {
    hide ScanHandles, LeaseCounts, AcqTally, Leased, AcquisitionOk, Owned;
    var handles := w.acqs[t].handles;
    var scan := ScanHandles(w.m, handles);
    OwnWellFormed(w, t);
    ScanProps(w.m, handles);
    VictimsProps(w, handles, |scan.missing|);
  }

  lemma Parts(w: World)
    requires Core(w)
    ensures ClaimPart(w) && RetirePart(w) && 0 <= w.m.counts.occupied <= w.max
  {
  }

  lemma PrepareCovers(w: World, t: nat)
    requires ClaimPart(w) && CanPrepare(w, t) && ScanHandles(w.m, w.acqs[t].handles).Scanned?
    ensures var scan, a := ScanHandles(w.m, w.acqs[t].handles), w.acqs[t];
            Covers(a.(phase := Reserving, existing := a.existing + scan.existing, missing := a.missing + KeysOf(scan.missing)))
  {
    var handles := w.acqs[t].handles;
    assert AcquisitionOk(w.m.entries, w.slots, t, w.acqs[t]);
    ScanProps(w.m, handles);
    var scan := ScanHandles(w.m, handles);
    forall h | h in handles ensures h.key in scan.existing || h.key in KeysOf(scan.missing) {
      if h.key !in w.m.entries {
        var i :| 0 <= i < |scan.missing| && scan.missing[i] == h;
        assert KeysOf(scan.missing)[i] == h.key;
      }
    }
  }

  /** `prepare_acquisition` once it is granted, up to its claims. */
  ghost function PrepareClaimed(w: World, t: nat): (v: World)
    requires Core(w) && CanPrepare(w, t) && PrepareVerdict(w, w.acqs[t].handles) == Ready
    ensures Core(v) && v == Claimed(StartReserving(w, t), t, ScanHandles(w.m, w.acqs[t].handles).existing)
  {
    hide Core, ClaimPart, RetirePart, Claimed;
    Parts(w);
    var ks := ScanHandles(w.m, w.acqs[t].handles).existing;
    StartReservingCore(w, t);
    PrepareClaims(w, t);
    ClaimAllClosed(StartReserving(w, t), t, ks);
    ClaimAll(StartReserving(w, t), t, ks)
  }

  lemma PrepareReady(w: World, t: nat)
    requires Core(w) && CanPrepare(w, t) && PrepareVerdict(w, w.acqs[t].handles) == Ready
    ensures var missing := ScanHandles(w.m, w.acqs[t].handles).missing;
            CanTransferAll(PrepareClaimed(w, t), t, Victims(w, w.acqs[t].handles, |missing|), missing)
  {
    hide Core, ClaimPart, RetirePart;
    Parts(w);
    PrepareReserves(w, t, PrepareClaimed(w, t));
  }

  /** `prepare_acquisition`. */
  ghost function Prepare(w: World, t: nat): (v: World)
    requires Core(w) && CanPrepare(w, t)
    ensures Core(v) && v.max == w.max && v.maxCached == w.maxCached && |v.m.idle| <= |w.m.idle|
  {
    hide Core;
    var handles := w.acqs[t].handles;
    if PrepareVerdict(w, handles) != Ready then w
    else
      var missing := ScanHandles(w.m, handles).missing;
      PrepareReady(w, t);
      ReserveAll(PrepareClaimed(w, t), t, Victims(w, handles, |missing|), missing)
  }

  /** The acquisition as a granted `prepare_acquisition` leaves it. */
  function PreparedAcq(m: Manager, a: Acquisition, scan: Scan): Acquisition
    requires scan.Scanned?
  {
    a.(phase := Reserving, op := (m.nextOp + 1) % Common.U64, existing := a.existing + scan.existing,
       missing := a.missing + KeysOf(scan.missing))
  }

  /** The shared state as a granted `prepare_acquisition` leaves it. */
  function PreparedState(m: Manager, a: Acquisition, t: nat, scan: Scan, victims: seq<Key>): Manager
    requires scan.Scanned?
  {
    ReservedState(m.(nextOp := (m.nextOp + 1) % Common.U64, entries := MoreLeases(m.entries, scan.existing),
                     idle := WithoutAll(m.idle, scan.existing)),
                  PreparedAcq(m, a, scan), t, victims, scan.missing)
  }

  lemma PrepareClosed(w: World, t: nat)
    requires Core(w) && CanPrepare(w, t) && PrepareVerdict(w, w.acqs[t].handles) == Ready
    ensures var scan := ScanHandles(w.m, w.acqs[t].handles);
            && Prepare(w, t).m == PreparedState(w.m, w.acqs[t], t, scan, Victims(w, w.acqs[t].handles, |scan.missing|))
            && Prepare(w, t).acqs == w.acqs[t := PreparedAcq(w.m, w.acqs[t], scan)]
  {
    hide Core, ScanHandles, AddOpenings, WithoutAll, IncrementEach, MoreLeases, Victims;
    var scan := ScanHandles(w.m, w.acqs[t].handles);
    PrepareReady(w, t);
    var c := PrepareClaimed(w, t);
    ReserveAllClosed(c, t, Victims(w, w.acqs[t].handles, |scan.missing|), scan.missing);
    var b := PreparedAcq(w.m, w.acqs[t], scan);
    assert c.acqs[t := b] == w.acqs[t := b];
  }

  lemma PrepareFrame(w: World, t: nat)
    requires Core(w) && CanPrepare(w, t)
    ensures OnlyAcq(w.acqs, Prepare(w, t).acqs, t)
    ensures Covers(Prepare(w, t).acqs[t])
  {
    hide Core, ClaimPart, RetirePart;
    if PrepareVerdict(w, w.acqs[t].handles) == Ready {
      Parts(w);
      PrepareClosed(w, t);
      PrepareCovers(w, t);
      PutOnly(w.acqs, t, Prepare(w, t).acqs[t]);
    }
  }

  lemma IdleHead(w: World)
    requires Core(w) && w.m.idle != []
    ensures IsIdle(w.m.entries, w.m.idle[0]) && NoDup(w.m.idle)
  {
    assert w.m.idle[0] in w.m.idle;
  }

  // --------------------------------------------------- publish and rollback

  ghost predicate CanPublish(w: World, t: nat) {
    t in w.acqs && w.acqs[t].phase.Reserving? && w.acqs[t].openCount == |w.acqs[t].missing|
  }

  /** The locked region that publishes a fully opened acquisition. */
  ghost function Publish(w: World, t: nat): (v: World)
    requires Core(w) && CanPublish(w, t)
    ensures Core(v) && v.max == w.max && v.maxCached == w.maxCached && v.m.idle == w.m.idle
    decreases |w.acqs[t].missing|
  {
    hide Core, ClaimPart, RetirePart;
    Parts(w);
    if w.acqs[t].missing == [] then
      CanFinishPublishFiles(w, t);
      FinishPublishCore(w, t);
      FinishPublish(w, t)
    else
      PublishOwn(w, t);
      PublishOneCore(w, t);
      Publish(PublishOne(w, t), t)
  }

  lemma {:induction false} PublishFrame(w: World, t: nat)
    requires Core(w) && CanPublish(w, t)
    ensures var v := Publish(w, t); OnlyAcq(w.acqs, v.acqs, t) && v.acqs[t].phase.Published?
    decreases |w.acqs[t].missing|
  {
    hide Core, ClaimPart, RetirePart;
    Parts(w);
    if w.acqs[t].missing == [] {
      CanFinishPublishFiles(w, t);
    } else {
      PublishOwn(w, t);
      PublishOneCore(w, t);
      PublishFrame(PublishOne(w, t), t);
    }
  }

  /** `trim_idle_cache`: oldest idle files first. */
  ghost function Trim(w: World): (v: World)
    requires Core(w)
    ensures Core(v) && |v.m.idle| <= v.maxCached && v.max == w.max && v.maxCached == w.maxCached && v.acqs == w.acqs
    decreases |w.m.idle|
  {
    hide Core;
    if |w.m.idle| <= w.maxCached then w
    else
      IdleHead(w);
      EvictCore(w, w.m.idle[0]);
      WithoutProps(w.m.idle, w.m.idle[0]);
      Trim(Evict(w, w.m.idle[0]))
  }

  ghost predicate CanRollback(w: World, t: nat) {
    t in w.acqs && w.acqs[t].phase.Failing?
  }

  /** `rollback_acquisition`, first loop: the reservations. */
  ghost function UndoReservations(w: World, t: nat): (v: World)
    requires Core(w) && CanRollback(w, t)
    ensures Core(v) && v.max == w.max && v.maxCached == w.maxCached
    ensures OnlyAcq(w.acqs, v.acqs, t) && v.acqs[t].phase.Failing? && v.acqs[t].missing == []
    decreases |w.acqs[t].missing|
  {
    hide Core;
    if w.acqs[t].missing == [] then w
    else
      UnreserveCore(w, t);
      PutOnly(w.acqs, t, Unreserve(w, t).acqs[t]);
      UndoReservations(Unreserve(w, t), t)
  }

  /** Second loop: the pending leases. */
  ghost function UndoClaims(w: World, t: nat): (v: World)
    requires Core(w) && CanRollback(w, t) && w.acqs[t].missing == []
    ensures Core(v) && v.max == w.max && v.maxCached == w.maxCached
    ensures OnlyAcq(w.acqs, v.acqs, t) && CanFinishRollback(v, t)
    decreases |w.acqs[t].existing|
  {
    hide Core;
    if w.acqs[t].existing == [] then w
    else
      CanUnclaimLeases(w, t);
      UnclaimCore(w, t);
      PutOnly(w.acqs, t, Unclaim(w, t).acqs[t]);
      UndoClaims(Unclaim(w, t), t)
  }

  /** `rollback_acquisition` up to the trim. */
  ghost function Undo(w: World, t: nat): (v: World)
    requires Core(w) && CanRollback(w, t)
    ensures Core(v) && v.max == w.max && v.maxCached == w.maxCached
    ensures OnlyAcq(w.acqs, v.acqs, t) && v.acqs[t].phase.Finished?
  {
    hide Core;
    var u := UndoClaims(UndoReservations(w, t), t);
    FinishRollbackCore(u, t);
    PutOnly(u.acqs, t, FinishRollback(u, t).acqs[t]);
    FinishRollback(u, t)
  }

  function OneLessLease(e: Entry): Entry
    requires e.Open? && e.leases > 0
  {
    Open(e.handle, e.file, e.leases - 1)
  }

  /** One lease less on each of `ks`. */
  function LessLeases(entries: map<Key, Entry>, ks: seq<Key>): map<Key, Entry> {
    map k | k in entries :: if k in ks && entries[k].Open? && entries[k].leases > 0 then OneLessLease(entries[k]) else entries[k]
  }

  /** Those of `ks` whose last lease goes, in order. */
  function LastLeases(entries: map<Key, Entry>, ks: seq<Key>): seq<Key> {
    if ks == [] then []
    else (if ks[0] in entries && entries[ks[0]].Open? && entries[ks[0]].leases == 1 then [ks[0]] else [])
         + LastLeases(entries, ks[1..])
  }

  lemma {:induction false} UndoReservationsClosed(w: World, t: nat)
    requires Core(w) && CanRollback(w, t) && w.acqs[t].openCount <= |w.acqs[t].missing|
    ensures var a, v, c := w.acqs[t], UndoReservations(w, t), w.m.counts;
            && v.m == w.m.(entries := w.m.entries - Elements(a.missing),
                           counts := c.(occupied := c.occupied - |a.missing|, live := c.live - a.openCount,
                                        pending := c.pending - a.openCount))
            && v.acqs[t] == a.(missing := [], openCount := 0)
    decreases |w.acqs[t].missing|
  {
    hide Core;
    var ks := w.acqs[t].missing;
    if ks == [] {
      assert w.m.entries - Elements(ks) == w.m.entries;
    } else {
      UnreserveCore(w, t);
      UndoReservationsClosed(Unreserve(w, t), t);
      assert Elements(ks) == {ks[0]} + Elements(ks[1..]) by { assert ks == [ks[0]] + ks[1..]; }
      assert w.m.entries - {ks[0]} - Elements(ks[1..]) == w.m.entries - Elements(ks);
    }
  }

  /** The shared state once the pending leases on `ks` are returned. */
  function Returned(m: Manager, ks: seq<Key>): Manager {
    m.(entries := LessLeases(m.entries, ks), idle := m.idle + LastLeases(m.entries, ks))
  }

  lemma ReturnedStep(m: Manager, k: Key, ks: seq<Key>)
    requires k in m.entries && m.entries[k].Open? && m.entries[k].leases > 0 && k !in ks
    ensures var idle := if m.entries[k].leases == 1 then m.idle + [k] else m.idle;
            Returned(m.(entries := m.entries[k := OneLessLease(m.entries[k])], idle := idle), ks) == Returned(m, [k] + ks)
  {
    var after := m.entries[k := OneLessLease(m.entries[k])];
    assert LessLeases(after, ks) == LessLeases(m.entries, [k] + ks);
    LastLeasesOther(m.entries, k, after[k], ks);
    assert ([k] + ks)[1..] == ks;
  }

  lemma {:induction false} LastLeasesOther(entries: map<Key, Entry>, k: Key, e: Entry, ks: seq<Key>)
    requires k !in ks
    ensures LastLeases(entries[k := e], ks) == LastLeases(entries, ks)
  {
    if ks != [] { LastLeasesOther(entries, k, e, ks[1..]); }
  }

  lemma UnclaimSafe(w: World, t: nat)
    requires Core(w) && CanUnclaim(w, t)
    ensures var k := w.acqs[t].existing[0]; k in w.m.entries && w.m.entries[k].Open? && w.m.entries[k].leases > 0
  {
    CanUnclaimLeases(w, t);
  }

  lemma {:induction false} UndoClaimsClosed(w: World, t: nat)
    requires Core(w) && CanRollback(w, t) && w.acqs[t].missing == [] && NoDup(w.acqs[t].existing)
    ensures UndoClaims(w, t).m == Returned(w.m, w.acqs[t].existing)
    decreases |w.acqs[t].existing|
  {
    hide Core, Returned;
    var ks := w.acqs[t].existing;
    if ks == [] {
      ReturnedNone(w.m);
    } else {
      UnclaimSafe(w, t);
      UnclaimCore(w, t);
      assert ks == [ks[0]] + ks[1..];
      HeadTail(ks, ks[0], ks[1..]);
      UndoClaimsClosed(Unclaim(w, t), t);
      ReturnedStep(w.m, ks[0], ks[1..]);
    }
  }

  lemma ReturnedNone(m: Manager)
    ensures Returned(m, []) == m
  {
    assert LessLeases(m.entries, []) == m.entries && m.idle + [] == m.idle;
  }

  // --------------------------------------------- closing, release, retirement

  ghost predicate CanFinishDetached(w: World, batch: seq<Slot>) {
    NoDup(batch) && forall s :: s in batch ==> CanFinishClose(w, s)
  }

  lemma FinishDetachedNext(w: World, batch: seq<Slot>)
    requires CanFinishDetached(w, batch) && batch != []
    ensures CanFinishClose(w, batch[0])
    ensures CanFinishDetached(FinishClose(w, batch[0]), batch[1..])
  {
    assert batch == [batch[0]] + batch[1..];
    HeadTail(batch, batch[0], batch[1..]);
  }

  /** `finish_detached_closes` for a batch of dropped victims. */
  ghost function FinishDetached(w: World, batch: seq<Slot>): (v: World)
    requires Core(w) && CanFinishDetached(w, batch)
    ensures Core(v) && v.max == w.max && v.maxCached == w.maxCached && v.m.idle == w.m.idle && v.acqs == w.acqs
    decreases |batch|
  {
    if batch == [] then w
    else
      FinishDetachedNext(w, batch);
      FinishCloseCore(w, batch[0]);
      FinishDetached(FinishClose(w, batch[0]), batch[1..])
  }

  /** The locked region of `release_lease`. */
  ghost function Release(w: World, l: nat): (v: World)
    requires Core(w) && CanUnlease(w, l)
    ensures Core(v) && |v.m.idle| <= v.maxCached && v.max == w.max && v.maxCached == w.maxCached && v.acqs == w.acqs
  {
    LeaseEntry(w, l);
    UnleaseCore(w, l);
    var k, u := w.leases[l].key, Unlease(w, l);
    if IsIdle(u.m.entries, k) && k.segment in w.m.retirements then
      EvictCore(u, k);
      Trim(Evict(u, k))
    else
      Trim(u)
  }

  /** Idle files of a segment, in some order. */
  ghost predicate IdleOf(w: World, segment: string, ks: seq<Key>) {
    NoDup(ks) && forall k :: k in ks ==> IsIdle(w.m.entries, k) && k.segment == segment
  }

  lemma SweepNext(w: World, segment: string, ks: seq<Key>)
    requires IdleOf(w, segment, ks) && ks != []
    ensures IsIdle(w.m.entries, ks[0])
    ensures IdleOf(Evict(w, ks[0]), segment, ks[1..])
  {
    assert ks == [ks[0]] + ks[1..];
    HeadTail(ks, ks[0], ks[1..]);
  }

  /** `detach_idle_segment_files`. */
  ghost function Sweep(w: World, segment: string, ks: seq<Key>): (v: World)
    requires Core(w) && IdleOf(w, segment, ks)
    ensures Core(v) && v.max == w.max && v.maxCached == w.maxCached && |v.m.idle| <= |w.m.idle| && v.acqs == w.acqs
    decreases |ks|
  {
    if ks == [] then w
    else
      SweepNext(w, segment, ks);
      EvictCore(w, ks[0]);
      WithoutProps(w.m.idle, ks[0]);
      Sweep(Evict(w, ks[0]), segment, ks[1..])
  }

  /** `reserve_preflight_slot`: a free slot, else the oldest idle file's, else wait. */
  ghost function ReservePreflight(w: World, p: nat): (v: World)
    requires Core(w) && p in w.pres && w.pres[p].phase.PreWaiting?
    ensures Core(v) && v.max == w.max && v.maxCached == w.maxCached && |v.m.idle| <= |w.m.idle| && v.acqs == w.acqs
  {
    hide Core;
    if w.m.counts.occupied < w.max then TakeFreeSlotCore(w, p); TakeFreeSlot(w, p)
    else if w.m.idle == [] then w
    else
      IdleHead(w);
      TakeIdleSlotCore(w, p, w.m.idle[0]);
      WithoutProps(w.m.idle, w.m.idle[0]);
      TakeIdleSlot(w, p, w.m.idle[0])
  }

  // ------------------------------------------------------------------- runs

  /** Everything a thread can do: the locked regions, and the opens, closes and
      Arc operations between them. */
  datatype Event =
    | BeginAcquire(t: nat, handles: seq<Handle>)
    | PrepareAcquire(t: nat)
    | OpenFile(t: nat, file: File)
    | AccountOpen(t: nat)
    | FailedOpen(t: nat)
    | PublishAcquire(t: nat)
    | RollBack(t: nat)
    | EndAcquire(t: nat)
    | HandOutLease(t: nat, l: nat)
    | CloneArc(l: nat)
    | CloneLease(l: nat, copy: nat)
    | DropLeaseArc(l: nat)
    | ReleaseLease(l: nat)
    | CloseVictim(s: Slot)
    | FinishCloses(batch: seq<Slot>)
    | BeginRetire(c: nat, segment: string)
    | SweepIdle(c: nat, ks: seq<Key>)
    | LeaveRetire(c: nat)
    | RequestPreflight(p: nat, segment: string)
    | ReserveSlot(p: nat)
    | OpenPath(p: nat, file: File)
    | FailedPath(p: nat)
    | ObserveOpen(p: nat)
    | ClosePath(p: nat)
    | FinishOpen(p: nat)
    | ReleaseSlot(p: nat)
    | EndPreflight(p: nat)
  {
    predicate OfAcquisition() {
      BeginAcquire? || PrepareAcquire? || OpenFile? || AccountOpen? || FailedOpen?
      || PublishAcquire? || RollBack? || EndAcquire?
    }
    predicate OfPreflight() {
      RequestPreflight? || ReserveSlot? || OpenPath? || FailedPath? || ObserveOpen?
      || ClosePath? || FinishOpen? || ReleaseSlot? || EndPreflight?
    }
  }

  /** Where the thread must stand for the event. Beyond its own state it asks
      only that new identities are new; refusals and waits are part of the event. */
  ghost predicate Enabled(w: World, e: Event) {
    match e
    case BeginAcquire(t, handles) => t !in w.acqs && DistinctKeys(handles)
    case PrepareAcquire(t) => CanPrepare(w, t)
    case OpenFile(t, f) => CanOpenHand(w, t, f)
    case AccountOpen(t) => CanAccount(w, t)
    case FailedOpen(t) => CanFailOpen(w, t)
    case PublishAcquire(t) => CanPublish(w, t)
    case RollBack(t) => CanRollback(w, t)
    case EndAcquire(t) => CanUnregister(w, t)
    case HandOutLease(t, l) => CanHandOut(w, t, l)
    case CloneArc(l) => CanStartClone(w, l)
    case CloneLease(l, copy) => CanFinishClone(w, l, copy)
    case DropLeaseArc(l) => CanDropArc(w, l)
    case ReleaseLease(l) => CanUnlease(w, l)
    case CloseVictim(s) => CanDropVictim(w, s)
    case FinishCloses(batch) => CanFinishDetached(w, batch)
    case BeginRetire(c, _) => c !in w.callers
    case SweepIdle(c, ks) => c in w.callers && IdleOf(w, w.callers[c], ks)
    case LeaveRetire(c) => CanComplete(w, c) || CanJoinedLeave(w, c)
    case RequestPreflight(p, _) => p !in w.pres
    case ReserveSlot(p) => p in w.pres && w.pres[p].phase.PreWaiting?
    case OpenPath(p, f) => CanOpenPreflight(w, p, f)
    case FailedPath(p) => CanFailPreflight(w, p)
    case ObserveOpen(p) => CanObservePreflight(w, p)
    case ClosePath(p) => CanClosePreflight(w, p)
    case FinishOpen(p) => CanFinishPreflightOpen(w, p)
    case ReleaseSlot(p) => CanReleasePreflightSlot(w, p)
    case EndPreflight(p) => CanFinishPreflight(w, p)
  }

  /** Admission at the head of `acquire_many_with_mode`. */
  ghost predicate Admitted(w: World, handles: seq<Handle>) {
    && 0 < |handles| <= w.max
    && forall s :: s in Segments(handles) ==> s !in w.m.retirements
  }

  ghost function StepAcquisition(w: World, e: Event): (v: World)
    requires Inv(w) && Enabled(w, e) && e.OfAcquisition()
    ensures Inv(v) && v.max == w.max && v.maxCached == w.maxCached
  {
    hide Core;
    match e
    case BeginAcquire(t, handles) =>
      if Admitted(w, handles) then RegisterCore(w, t, handles); Register(w, t, handles) else w
    case PrepareAcquire(t) => PrepareFrame(w, t); CoveredOnly(w.acqs, Prepare(w, t).acqs, t); Prepare(w, t)
    case OpenFile(t, f) => OpenHandCore(w, t, f); OpenHand(w, t, f)
    case AccountOpen(t) => AccountCore(w, t); Account(w, t)
    case FailedOpen(t) => FailOpenCore(w, t); FailOpen(w, t)
    case PublishAcquire(t) => PublishFrame(w, t); CoveredOnly(w.acqs, Publish(w, t).acqs, t); Publish(w, t)
    case RollBack(t) => CoveredOnly(w.acqs, Undo(w, t).acqs, t); Trim(Undo(w, t))
    case EndAcquire(t) => UnregisterCore(w, t); Unregister(w, t)
  }

  ghost function StepLease(w: World, e: Event): (v: World)
    requires Inv(w) && Enabled(w, e) && !e.OfAcquisition() && !e.OfPreflight()
    ensures Inv(v) && v.max == w.max && v.maxCached == w.maxCached
  {
    hide Core, ClaimPart, RetirePart;
    match e
    case HandOutLease(t, l) => Parts(w); HandOutFile(w, t, l); HandOutCore(w, t, l); HandOut(w, t, l)
    case CloneArc(l) => StartCloneCore(w, l); StartClone(w, l)
    case CloneLease(l, copy) => Parts(w); LeaseEntry(w, l); FinishCloneCore(w, l, copy); FinishClone(w, l, copy)
    case DropLeaseArc(l) => DropArcCore(w, l); DropArc(w, l)
    case ReleaseLease(l) => Release(w, l)
    case CloseVictim(s) => DropVictimCore(w, s); DropVictim(w, s)
    case FinishCloses(batch) => FinishDetached(w, batch)
    case BeginRetire(c, segment) => BeginRetirementCore(w, c, segment); BeginRetirement(w, c, segment)
    case SweepIdle(c, ks) => Sweep(w, w.callers[c], ks)
    case LeaveRetire(c) => Parts(w); CallerMarker(w, c); LeaveRetirementCore(w, c); LeaveRetirement(w, c)
  }

  ghost function StepPreflight(w: World, e: Event): (v: World)
    requires Inv(w) && Enabled(w, e) && e.OfPreflight()
    ensures Inv(v) && v.max == w.max && v.maxCached == w.maxCached
  {
    hide Core;
    match e
    case RequestPreflight(p, segment) =>
      if segment in w.m.retirements then w
      else BeginPreflightCore(w, p, segment); BeginPreflight(w, p, segment)
    case ReserveSlot(p) => ReservePreflight(w, p)
    case OpenPath(p, f) => OpenPreflightCore(w, p, f); OpenPreflight(w, p, f)
    case FailedPath(p) => FailPreflightCore(w, p); FailPreflight(w, p)
    case ObserveOpen(p) => ObservePreflightCore(w, p); ObservePreflight(w, p)
    case ClosePath(p) => ClosePreflightCore(w, p); ClosePreflight(w, p)
    case FinishOpen(p) => FinishPreflightOpenCore(w, p); FinishPreflightOpen(w, p)
    case ReleaseSlot(p) => ReleasePreflightSlotCore(w, p); ReleasePreflightSlot(w, p)
    case EndPreflight(p) => FinishPreflightCore(w, p); FinishPreflight(w, p)
  }

  /** One event of the run. */
  ghost function Step(w: World, e: Event): (v: World)
    requires Inv(w) && Enabled(w, e)
    ensures Inv(v) && v.max == w.max && v.maxCached == w.maxCached
  {
    if e.OfAcquisition() then StepAcquisition(w, e)
    else if e.OfPreflight() then StepPreflight(w, e)
    else StepLease(w, e)
  }

  lemma InitInv(w: World)
    requires Init(w)
    ensures Inv(w)
  {
    var none: set<nat> := {};
    forall k: Kind ensures In(w.slots, k) == {} { }
    forall s: string ensures AcqsIn(w.acqs, s) == none && PresIn(w.pres, s) == none && CallersOf(w.callers, s) == none { }
  }

  /** A run from the empty governor: each state is the previous one after an enabled event. */
  ghost predicate Run(states: seq<World>, events: seq<Event>) {
    && |states| == |events| + 1 && Init(states[0])
    && forall i :: 0 <= i < |events| ==> Next(states[i], events[i], states[i + 1])
  }

  ghost predicate Next(w: World, e: Event, v: World) {
    Inv(w) ==> Enabled(w, e) && v == Step(w, e)
  }

  /** The invariant holds in every state of every run, under the configured caps. */
  lemma {:induction false} EveryRun(states: seq<World>, events: seq<Event>, i: nat)
    requires Run(states, events) && i < |states|
    ensures Inv(states[i]) && states[i].max == states[0].max && states[i].maxCached == states[0].maxCached
  {
    hide Inv, Init, Step, Enabled;
    if i == 0 {
      InitInv(states[0]);
    } else {
      EveryRun(states, events, i - 1);
      var k := i - 1;
      assert Next(states[k], events[k], states[k + 1]);
    }
  }
}
