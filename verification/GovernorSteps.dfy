/** The elementary steps of the governor. A locked region of the source is one
    such step or a fold of several; every one of them keeps `Core`. */
module GovernorSteps {
  import opened GovernorModel
  import Common

  // ------------------------------------------------------------ acquisitions

  function IncrementAll(m: map<string, nat>, segs: set<string>): map<string, nat> {
    map s | s in m.Keys + segs :: Count(m, s) + if s in segs then 1 else 0
  }

  function DecrementAll(m: map<string, nat>, segs: set<string>): map<string, nat> {
    map s | s in m && !(s in segs && m[s] == 1) :: if s in segs && m[s] > 0 then m[s] - 1 else m[s]
  }

  /** Registers an acquisition that passed the cap and retirement checks. */
  function Register(w: World, t: nat, handles: seq<Handle>): World {
    w.(acqs := w.acqs[t := Acquisition(Segments(handles), handles, Waiting, 0, [], [], 0, map[])],
       m := w.m.(acquisitions := IncrementAll(w.m.acquisitions, Segments(handles))))
  }

  ghost predicate CanRegister(w: World, t: nat, handles: seq<Handle>) {
    && t !in w.acqs && DistinctKeys(handles)
    && forall s :: s in Segments(handles) ==> s !in w.m.retirements
  }

  /** Drops the acquisition's request guard. */
  function Unregister(w: World, t: nat): World
    requires t in w.acqs
  {
    w.(acqs := w.acqs - {t},
       m := w.m.(acquisitions := DecrementAll(w.m.acquisitions, w.acqs[t].segs)))
  }

  ghost predicate CanUnregister(w: World, t: nat) {
    && t in w.acqs && w.acqs[t].existing == [] && w.acqs[t].missing == []
  }

  /** Takes the next operation number, which wraps. */
  function StartReserving(w: World, t: nat): World
    requires t in w.acqs
  {
    var op := (w.m.nextOp + 1) % Common.U64;
    w.(acqs := w.acqs[t := w.acqs[t].(phase := Reserving, op := op)],
       m := w.m.(nextOp := op))
  }

  ghost predicate CanStartReserving(w: World, t: nat) {
    t in w.acqs && w.acqs[t].phase.Waiting?
  }

  /** Takes a pending lease on an open entry. */
  function Claim(w: World, t: nat, k: Key): World
    requires t in w.acqs && k in w.m.entries && w.m.entries[k].Open?
  {
    var e := w.m.entries[k];
    w.(acqs := w.acqs[t := w.acqs[t].(existing := w.acqs[t].existing + [k])],
       m := w.m.(entries := w.m.entries[k := e.(leases := e.leases + 1)],
                 idle := Without(w.m.idle, k)))
  }

  ghost predicate CanClaim(w: World, t: nat, k: Key) {
    && t in w.acqs && w.acqs[t].phase.Reserving? && k.segment in w.acqs[t].segs
    && k in w.m.entries && w.m.entries[k].Open? && k !in w.acqs[t].existing
    && w.m.entries[k].handle in w.acqs[t].handles
  }

  /** Detaches the idle entry `v`; its slot and its descriptor, still to be
      closed, pass to the new reservation for `h`. */
  function Transfer(w: World, t: nat, v: Key, h: Handle): World
    requires t in w.acqs && v in w.m.entries && w.m.entries[v].Open?
  {
    var a := w.acqs[t];
    w.(acqs := w.acqs[t := a.(missing := a.missing + [h.key])],
       slots := (w.slots - {KeySlot(v)})[KeySlot(h.key) := Closing(v, w.m.entries[v].file, false)],
       m := w.m.(entries := (w.m.entries - {v})[h.key := Opening(h, a.op, t)],
                 idle := Without(w.m.idle, v),
                 closings := Increment(w.m.closings, v.segment)))
  }

  ghost predicate CanReserve(w: World, t: nat, h: Handle) {
    && t in w.acqs && w.acqs[t].phase.Reserving? && w.acqs[t].openCount == 0
    && h in w.acqs[t].handles && h.key.segment in w.acqs[t].segs && h.key !in w.m.entries
  }

  ghost predicate CanTransfer(w: World, t: nat, v: Key, h: Handle) {
    CanReserve(w, t, h) && IsIdle(w.m.entries, v)
  }

  /** Reserves a free slot for `h`. */
  function Reserve(w: World, t: nat, h: Handle): World
    requires t in w.acqs
  {
    var a := w.acqs[t];
    w.(acqs := w.acqs[t := a.(missing := a.missing + [h.key])],
       slots := w.slots[KeySlot(h.key) := Vacant],
       m := w.m.(entries := w.m.entries[h.key := Opening(h, a.op, t)],
                 counts := w.m.counts.(occupied := w.m.counts.occupied + 1)))
  }

  /** Opens the next reserved file; the descriptor is not accounted yet. */
  function OpenHand(w: World, t: nat, f: File): World
    requires t in w.acqs && w.acqs[t].openCount < |w.acqs[t].missing|
  {
    w.(slots := w.slots[KeySlot(w.acqs[t].missing[w.acqs[t].openCount]) := InHand(f)])
  }

  ghost predicate NoOwnClosing(w: World, a: Acquisition) {
    forall k :: k in a.missing && KeySlot(k) in w.slots ==> !w.slots[KeySlot(k)].Closing?
  }

  ghost predicate FreshFd(w: World, fd: nat) {
    forall s :: s in w.slots && HasFd(w.slots[s]) ==> w.slots[s].file.fd != fd
  }

  ghost predicate CanOpenHand(w: World, t: nat, f: File) {
    && t in w.acqs && w.acqs[t].phase.Reserving? && w.acqs[t].openCount < |w.acqs[t].missing|
    && NoOwnClosing(w, w.acqs[t]) && FreshFd(w, f.fd)
    && var s := KeySlot(w.acqs[t].missing[w.acqs[t].openCount]); s in w.slots && w.slots[s].Vacant?
  }

  /** Accounts a descriptor opened for an acquisition. */
  function Account(w: World, t: nat): World
    requires t in w.acqs && w.acqs[t].openCount < |w.acqs[t].missing|
    requires KeySlot(w.acqs[t].missing[w.acqs[t].openCount]) in w.slots
    requires w.slots[KeySlot(w.acqs[t].missing[w.acqs[t].openCount])].InHand?
  {
    var a := w.acqs[t];
    var s := KeySlot(a.missing[a.openCount]);
    w.(slots := w.slots[s := Pending(w.slots[s].file, false)],
       acqs := w.acqs[t := a.(openCount := a.openCount + 1)],
       m := w.m.(counts := w.m.counts.(live := w.m.counts.live + 1, pending := w.m.counts.pending + 1)))
  }

  ghost predicate CanAccount(w: World, t: nat) {
    && t in w.acqs && w.acqs[t].phase.Reserving? && w.acqs[t].openCount < |w.acqs[t].missing|
    && var s := KeySlot(w.acqs[t].missing[w.acqs[t].openCount]); s in w.slots && w.slots[s].InHand?
  }

  /** An open or its verification fails: everything opened so far is closed,
      the accounting follows under the lock. */
  function FailOpen(w: World, t: nat): World
    requires t in w.acqs
  {
    var a := w.acqs[t];
    w.(acqs := w.acqs[t := a.(phase := Failing)],
       slots := map s | s in w.slots ::
         if s.KeySlot? && s.key in a.missing then
           (if w.slots[s].Pending? then Pending(w.slots[s].file, true) else Vacant)
         else w.slots[s])
  }

  ghost predicate CanFailOpen(w: World, t: nat) {
    && t in w.acqs && w.acqs[t].phase.Reserving? && w.acqs[t].openCount < |w.acqs[t].missing|
    && NoOwnClosing(w, w.acqs[t])
  }

  /** Rollback of the first remaining reservation. */
  function Unreserve(w: World, t: nat): World
    requires t in w.acqs && w.acqs[t].missing != []
  {
    var a := w.acqs[t];
    var wasOpen := if a.openCount > 0 then 1 else 0;
    w.(acqs := w.acqs[t := a.(missing := a.missing[1..], openCount := a.openCount - wasOpen)],
       slots := w.slots - {KeySlot(a.missing[0])},
       m := w.m.(entries := w.m.entries - {a.missing[0]},
                 counts := w.m.counts.(occupied := w.m.counts.occupied - 1,
                                       live := w.m.counts.live - wasOpen,
                                       pending := w.m.counts.pending - wasOpen)))
  }

  ghost predicate CanUnreserve(w: World, t: nat) {
    t in w.acqs && w.acqs[t].phase.Failing? && w.acqs[t].missing != []
  }

  /** Rollback of the first remaining pending lease. */
  function Unclaim(w: World, t: nat): World
    requires t in w.acqs && w.acqs[t].existing != []
    requires w.acqs[t].existing[0] in w.m.entries && w.m.entries[w.acqs[t].existing[0]].Open?
    requires w.m.entries[w.acqs[t].existing[0]].leases > 0
  {
    var a := w.acqs[t];
    var k := a.existing[0];
    var e := w.m.entries[k];
    w.(acqs := w.acqs[t := a.(existing := a.existing[1..])],
       m := w.m.(entries := w.m.entries[k := e.(leases := e.leases - 1)],
                 idle := if e.leases == 1 then w.m.idle + [k] else w.m.idle))
  }

  ghost predicate CanUnclaim(w: World, t: nat) {
    t in w.acqs && w.acqs[t].phase.Failing? && w.acqs[t].existing != []
  }

  function FinishRollback(w: World, t: nat): World
    requires t in w.acqs
  {
    w.(acqs := w.acqs[t := w.acqs[t].(phase := Finished)])
  }

  ghost predicate CanFinishRollback(w: World, t: nat) {
    t in w.acqs && w.acqs[t].phase.Failing? && w.acqs[t].existing == [] && w.acqs[t].missing == []
  }

  /** Turns the first remaining reservation into an open entry with one lease. */
  function PublishOne(w: World, t: nat): World
    requires t in w.acqs && w.acqs[t].missing != [] && w.acqs[t].openCount > 0
    requires w.acqs[t].missing[0] in w.m.entries
    requires KeySlot(w.acqs[t].missing[0]) in w.slots
    requires w.slots[KeySlot(w.acqs[t].missing[0])].Pending?
  {
    var a := w.acqs[t];
    var k := a.missing[0];
    var f := w.slots[KeySlot(k)].file;
    w.(acqs := w.acqs[t := a.(missing := a.missing[1..], openCount := a.openCount - 1,
                              existing := a.existing + [k])],
       slots := w.slots[KeySlot(k) := InTable(f)],
       m := w.m.(entries := w.m.entries[k := Open(w.m.entries[k].handle, f, 1)],
                 counts := w.m.counts.(pending := w.m.counts.pending - 1)))
  }

  ghost predicate CanPublishOne(w: World, t: nat) {
    && t in w.acqs && w.acqs[t].phase.Reserving? && w.acqs[t].missing != []
    && w.acqs[t].openCount == |w.acqs[t].missing|
  }

  function FinishPublish(w: World, t: nat): World
    requires t in w.acqs
    requires forall k :: k in w.acqs[t].existing ==> k in w.m.entries && w.m.entries[k].Open?
  {
    var a := w.acqs[t];
    w.(acqs := w.acqs[t := a.(phase := Published, files := map k | k in a.existing :: w.m.entries[k].file)])
  }

  ghost predicate CanFinishPublish(w: World, t: nat) {
    t in w.acqs && w.acqs[t].phase.Reserving? && w.acqs[t].missing == []
  }

  // ------------------------------------------------------------------ leases

  /** The call returns: one of its claims becomes a lease object. */
  function HandOut(w: World, t: nat, l: nat): World
    requires t in w.acqs && w.acqs[t].existing != [] && w.acqs[t].existing[0] in w.acqs[t].files
  {
    var a := w.acqs[t];
    var k := a.existing[0];
    w.(acqs := w.acqs[t := a.(existing := a.existing[1..], files := a.files - {k})],
       leases := w.leases[l := Lease(k, a.files[k], true, 0)])
  }

  ghost predicate CanHandOut(w: World, t: nat, l: nat) {
    t in w.acqs && w.acqs[t].phase.Published? && w.acqs[t].existing != [] && l !in w.leases
  }

  function StartClone(w: World, l: nat): World
    requires l in w.leases
  {
    w.(leases := w.leases[l := w.leases[l].(cloning := w.leases[l].cloning + 1)])
  }

  ghost predicate CanStartClone(w: World, l: nat) { l in w.leases && w.leases[l].arc }

  function FinishClone(w: World, l: nat, copy: nat): World
    requires l in w.leases && w.leases[l].cloning > 0
    requires w.leases[l].key in w.m.entries && w.m.entries[w.leases[l].key].Open?
  {
    var x := w.leases[l];
    var e := w.m.entries[x.key];
    w.(leases := w.leases[l := x.(cloning := x.cloning - 1)][copy := Lease(x.key, x.file, true, 0)],
       m := w.m.(entries := w.m.entries[x.key := e.(leases := e.leases + 1)]))
  }

  ghost predicate CanFinishClone(w: World, l: nat, copy: nat) {
    l in w.leases && w.leases[l].cloning > 0 && copy !in w.leases
  }

  function DropArc(w: World, l: nat): World
    requires l in w.leases
  {
    w.(leases := w.leases[l := w.leases[l].(arc := false)])
  }

  ghost predicate CanDropArc(w: World, l: nat) {
    l in w.leases && w.leases[l].arc && w.leases[l].cloning == 0
  }

  /** The locked part of a release, up to queueing a last-released file. */
  function Unlease(w: World, l: nat): World
    requires l in w.leases
    requires w.leases[l].key in w.m.entries && w.m.entries[w.leases[l].key].Open?
    requires w.m.entries[w.leases[l].key].leases > 0
  {
    var k := w.leases[l].key;
    var e := w.m.entries[k];
    w.(leases := w.leases - {l},
       m := w.m.(entries := w.m.entries[k := e.(leases := e.leases - 1)],
                 idle := if e.leases == 1 then w.m.idle + [k] else w.m.idle))
  }

  ghost predicate CanUnlease(w: World, l: nat) { l in w.leases && !w.leases[l].arc }

  // -------------------------------------------------------- detached closing

  /** Detaches an idle entry whose slot is given back once it is closed. */
  function Evict(w: World, k: Key): World
    requires k in w.m.entries && w.m.entries[k].Open?
  {
    w.(slots := (w.slots - {KeySlot(k)})[FreeSlot(w.nextFree) := Closing(k, w.m.entries[k].file, false)],
       nextFree := w.nextFree + 1,
       m := w.m.(entries := w.m.entries - {k},
                 idle := Without(w.m.idle, k),
                 closings := Increment(w.m.closings, k.segment)))
  }

  ghost predicate CanEvict(w: World, k: Key) { IsIdle(w.m.entries, k) }

  /** Drops the victim's Arc outside the lock. */
  function DropVictim(w: World, s: Slot): World
    requires s in w.slots && w.slots[s].Closing?
  {
    w.(slots := w.slots[s := Closing(w.slots[s].key, w.slots[s].file, true)])
  }

  ghost predicate CanDropVictim(w: World, s: Slot) {
    s in w.slots && w.slots[s].Closing? && !w.slots[s].dropped
  }

  /** Close accounting of one dropped victim. */
  function FinishClose(w: World, s: Slot): World
    requires s in w.slots && w.slots[s].Closing?
  {
    var released := if s.FreeSlot? then 1 else 0;
    w.(slots := if s.FreeSlot? then w.slots - {s} else w.slots[s := Vacant],
       m := w.m.(counts := w.m.counts.(live := w.m.counts.live - 1, occupied := w.m.counts.occupied - released),
                 closings := Decrement(w.m.closings, w.slots[s].key.segment)))
  }

  ghost predicate CanFinishClose(w: World, s: Slot) {
    s in w.slots && w.slots[s].Closing? && w.slots[s].dropped
  }

  // -------------------------------------------------------------- preflights

  function BeginPreflight(w: World, p: nat, segment: string): World {
    w.(pres := w.pres[p := Preflight(segment, PreWaiting)],
       m := w.m.(preflights := Increment(w.m.preflights, segment)))
  }

  ghost predicate CanBeginPreflight(w: World, p: nat, segment: string) {
    p !in w.pres && segment !in w.m.retirements
  }

  function TakeFreeSlot(w: World, p: nat): World
    requires p in w.pres
  {
    w.(pres := w.pres[p := w.pres[p].(phase := PreHolding)],
       slots := w.slots[PreSlot(p) := Vacant],
       m := w.m.(counts := w.m.counts.(occupied := w.m.counts.occupied + 1, reserved := w.m.counts.reserved + 1)))
  }

  ghost predicate CanTakeFreeSlot(w: World, p: nat) {
    p in w.pres && w.pres[p].phase.PreWaiting? && w.m.counts.occupied < w.max
  }

  function TakeIdleSlot(w: World, p: nat, v: Key): World
    requires p in w.pres && v in w.m.entries && w.m.entries[v].Open?
  {
    w.(pres := w.pres[p := w.pres[p].(phase := PreHolding)],
       slots := (w.slots - {KeySlot(v)})[PreSlot(p) := Closing(v, w.m.entries[v].file, false)],
       m := w.m.(entries := w.m.entries - {v},
                 idle := Without(w.m.idle, v),
                 closings := Increment(w.m.closings, v.segment),
                 counts := w.m.counts.(reserved := w.m.counts.reserved + 1)))
  }

  ghost predicate CanTakeIdleSlot(w: World, p: nat, v: Key) {
    p in w.pres && w.pres[p].phase.PreWaiting? && IsIdle(w.m.entries, v)
  }

  function OpenPreflight(w: World, p: nat, f: File): World {
    w.(slots := w.slots[PreSlot(p) := InHand(f)])
  }

  ghost predicate CanOpenPreflight(w: World, p: nat, f: File) {
    && p in w.pres && w.pres[p].phase.PreHolding? && FreshFd(w, f.fd)
    && PreSlot(p) in w.slots && w.slots[PreSlot(p)].Vacant?
  }

  function FailPreflight(w: World, p: nat): World
    requires p in w.pres
  {
    w.(pres := w.pres[p := w.pres[p].(phase := PreSpent)])
  }

  ghost predicate CanFailPreflight(w: World, p: nat) {
    && p in w.pres && w.pres[p].phase.PreHolding?
    && PreSlot(p) in w.slots && w.slots[PreSlot(p)].Vacant?
  }

  function ObservePreflight(w: World, p: nat): World
    requires PreSlot(p) in w.slots && w.slots[PreSlot(p)].InHand?
  {
    w.(slots := w.slots[PreSlot(p) := Pending(w.slots[PreSlot(p)].file, false)],
       m := w.m.(counts := w.m.counts.(live := w.m.counts.live + 1, livePreflights := w.m.counts.livePreflights + 1)))
  }

  ghost predicate CanObservePreflight(w: World, p: nat) {
    PreSlot(p) in w.slots && w.slots[PreSlot(p)].InHand?
  }

  function ClosePreflight(w: World, p: nat): World
    requires PreSlot(p) in w.slots && w.slots[PreSlot(p)].Pending?
  {
    w.(slots := w.slots[PreSlot(p) := Pending(w.slots[PreSlot(p)].file, true)])
  }

  ghost predicate CanClosePreflight(w: World, p: nat) {
    PreSlot(p) in w.slots && w.slots[PreSlot(p)].Pending? && !w.slots[PreSlot(p)].dropped
  }

  function FinishPreflightOpen(w: World, p: nat): World
    requires p in w.pres
  {
    w.(pres := w.pres[p := w.pres[p].(phase := PreSpent)],
       slots := w.slots[PreSlot(p) := Vacant],
       m := w.m.(counts := w.m.counts.(live := w.m.counts.live - 1, livePreflights := w.m.counts.livePreflights - 1)))
  }

  ghost predicate CanFinishPreflightOpen(w: World, p: nat) {
    && p in w.pres && PreSlot(p) in w.slots
    && w.slots[PreSlot(p)].Pending? && w.slots[PreSlot(p)].dropped
  }

  function ReleasePreflightSlot(w: World, p: nat): World
    requires p in w.pres
  {
    w.(pres := w.pres[p := w.pres[p].(phase := PreFinished)],
       slots := w.slots - {PreSlot(p)},
       m := w.m.(counts := w.m.counts.(reserved := w.m.counts.reserved - 1, occupied := w.m.counts.occupied - 1)))
  }

  ghost predicate CanReleasePreflightSlot(w: World, p: nat) {
    p in w.pres && w.pres[p].phase.PreSpent?
  }

  function FinishPreflight(w: World, p: nat): World
    requires p in w.pres
  {
    w.(pres := w.pres - {p},
       m := w.m.(preflights := Decrement(w.m.preflights, w.pres[p].segment)))
  }

  ghost predicate CanFinishPreflight(w: World, p: nat) {
    p in w.pres && w.pres[p].phase.PreFinished?
  }

  // -------------------------------------------------------------- retirement

  function BeginRetirement(w: World, c: nat, segment: string): World {
    var first := segment !in w.m.retirements;
    var marker := if first then Retirement(1, false)
                  else w.m.retirements[segment].(callers := w.m.retirements[segment].callers + 1);
    w.(callers := w.callers[c := segment],
       leader := if first then w.leader[segment := c] else w.leader,
       m := w.m.(retirements := w.m.retirements[segment := marker]))
  }

  ghost predicate CanBeginRetirement(w: World, c: nat, segment: string) { c !in w.callers }

  /** `release_retirement_caller`, after setting `completed` if asked to. */
  function LeaveRetirement(w: World, c: nat): World
    requires c in w.callers && w.callers[c] in w.m.retirements
    requires w.m.retirements[w.callers[c]].callers > 0
  {
    var s := w.callers[c];
    var n := w.m.retirements[s].callers - 1;
    w.(callers := w.callers - {c},
       leader := w.leader - {s},
       m := w.m.(retirements := if n == 0 then w.m.retirements - {s}
                                else w.m.retirements[s := Retirement(n, true)]))
  }

  /** The leader finds the segment quiet and completes the retirement. */
  ghost predicate CanComplete(w: World, c: nat) {
    && c in w.callers && w.callers[c] in w.leader && w.leader[w.callers[c]] == c
    && Quiet(w.m, w.callers[c])
  }

  /** A joiner, or a late caller, finds the retirement completed. */
  ghost predicate CanJoinedLeave(w: World, c: nat) {
    && c in w.callers && w.callers[c] in w.m.retirements
    && w.m.retirements[w.callers[c]].completed
  }
}
