/** The descriptor governor of the segment store as a transition system.

    `Manager` is the state behind the governor's one mutex. `World` adds what
    the threads hold between locked regions: reserved slots and what each of
    them physically holds, acquisitions, preflights, leases and retirement
    callers. Opening and closing a descriptor happens outside the mutex, so
    both are steps of their own.

    The central observation is that a hard-cap slot carries at most one
    descriptor at any time, so the world keeps one `Content` per slot. A victim
    whose slot was handed over ("transfer") sits in the slot of its heir until
    it is closed; a victim that gives its slot back sits in a `FreeSlot`.
  */
module GovernorModel {

  datatype Key = Key(segment: string, rank: nat)

  /** A preflighted file. Handles with the same key agree on the file kind, so
      "same definition" for equal keys is equality of the whole value. */
  datatype Handle = Handle(key: Key, path: string, length: nat, identity: nat)

  /** An open descriptor: the governor's wrapping instance number and the
      operating-system descriptor, which is what uniquely identifies it. */
  datatype File = File(instance: nat, fd: nat)

  /** `owner` is auxiliary: the in-flight acquisition that made the reservation.
      The governor itself stores only the wrapping operation number `op`. */
  datatype Entry =
    | Opening(handle: Handle, op: nat, owner: nat)
    | Open(handle: Handle, file: File, leases: nat)

  datatype Retirement = Retirement(callers: nat, completed: bool)

  datatype Manager = Manager(
    entries: map<Key, Entry>,
    idle: seq<Key>,
    retirements: map<string, Retirement>,
    preflights: map<string, nat>,
    acquisitions: map<string, nat>,
    closings: map<string, nat>,
    counts: Counts,
    nextOp: nat)

  /** Occupied slots, live descriptors, descriptors pending publication,
      preflight reservations and live preflight descriptors. */
  datatype Counts = Counts(occupied: int, live: int, pending: int, reserved: int, livePreflights: int)

  datatype Slot = KeySlot(key: Key) | PreSlot(id: nat) | FreeSlot(id: nat)

  datatype Content =
    | Vacant                                             // reserved, nothing open
    | Closing(key: Key, file: File, dropped: bool)       // detached victim
    | InHand(file: File)                                 // just opened, not yet accounted
    | Pending(file: File, dropped: bool)                 // opened and accounted
    | InTable(file: File)                                // published as an open entry

  datatype Phase = Waiting | Reserving | Failing | Published | Finished

  /** One call of `acquire_many`: `existing` are the table entries it holds a
      pending lease on, `missing` the keys it has reserved (the first `openCount`
      of them are open), `files` the Arcs it clones when it publishes. */
  datatype Acquisition = Acquisition(
    segs: set<string>,
    handles: seq<Handle>,
    phase: Phase,
    op: nat,
    existing: seq<Key>,
    missing: seq<Key>,
    openCount: nat,
    files: map<Key, File>)

  datatype PrePhase = PreWaiting | PreHolding | PreSpent | PreFinished
  datatype Preflight = Preflight(segment: string, phase: PrePhase)

  /** A lease object: `arc` tells whether it still holds its Arc (release drops
      the Arc before it takes the lock) and `cloning` counts clones under way. */
  datatype Lease = Lease(key: Key, file: File, arc: bool, cloning: nat)

  datatype World = World(
    max: nat,
    maxCached: nat,
    m: Manager,
    slots: map<Slot, Content>,
    acqs: map<nat, Acquisition>,
    pres: map<nat, Preflight>,
    leases: map<nat, Lease>,
    callers: map<nat, string>,
    leader: map<string, nat>,
    nextFree: nat)

  // ---------------------------------------------------------------- counting

  /** The kinds of slot the governor counts. */
  datatype Kind = Live | PendingOpen | Reservation | LivePreflight | ClosingOf(segment: string)

  predicate Of(kind: Kind, s: Slot, c: Content) {
    match kind
    case Live => !c.Vacant? && !c.InHand?
    case PendingOpen => s.KeySlot? && c.Pending?
    case Reservation => s.PreSlot?
    case LivePreflight => s.PreSlot? && c.Pending?
    case ClosingOf(segment) => c.Closing? && c.key.segment == segment
  }

  function In(slots: map<Slot, Content>, kind: Kind): set<Slot> {
    set s | s in slots && Of(kind, s, slots[s])
  }

  function LeasesOn(leases: map<nat, Lease>, k: Key): set<nat> {
    set l | l in leases && leases[l].key == k
  }

  function AcqsOn(acqs: map<nat, Acquisition>, k: Key): set<nat> {
    set t | t in acqs && k in acqs[t].existing
  }

  function AcqsIn(acqs: map<nat, Acquisition>, segment: string): set<nat> {
    set t | t in acqs && segment in acqs[t].segs
  }

  function PresIn(pres: map<nat, Preflight>, segment: string): set<nat> {
    set p | p in pres && pres[p].segment == segment
  }

  function CallersOf(callers: map<nat, string>, segment: string): set<nat> {
    set c | c in callers && callers[c] == segment
  }

  /** The activity maps drop a segment when its count reaches zero. */
  function Count(m: map<string, nat>, segment: string): nat {
    if segment in m then m[segment] else 0
  }

  function Increment(m: map<string, nat>, segment: string): map<string, nat> {
    m[segment := Count(m, segment) + 1]
  }

  function Decrement(m: map<string, nat>, segment: string): map<string, nat> {
    if Count(m, segment) <= 1 then m - {segment} else m[segment := m[segment] - 1]
  }

  predicate NoDup<T(==)>(s: seq<T>) {
    forall i, j :: 0 <= i < j < |s| ==> s[i] != s[j]
  }

  function Without<T(==)>(s: seq<T>, x: T): (r: seq<T>)
    ensures |r| <= |s|
  {
    if s == [] then [] else if s[0] == x then s[1..] else [s[0]] + Without(s[1..], x)
  }

  predicate IsIdle(entries: map<Key, Entry>, k: Key) {
    k in entries && entries[k].Open? && entries[k].leases == 0
  }

  /** No entry, preflight, acquisition or detached close of the segment. */
  predicate Quiet(m: Manager, segment: string) {
    && segment !in m.preflights
    && segment !in m.acquisitions
    && segment !in m.closings
    && forall k :: k in m.entries ==> k.segment != segment
  }

  predicate HasFd(c: Content) {
    c.InHand? || c.InTable? || ((c.Closing? || c.Pending?) && !c.dropped)
  }

  // --------------------------------------------------------------- invariant

  /** Conservation: every counter is the size of the set of slots it counts. */
  ghost predicate Conserved(max: nat, c: Counts, slots: map<Slot, Content>) {
    && c.occupied == |slots|
    && c.occupied <= max
    && c.live == |In(slots, Live)|
    && c.pending == |In(slots, PendingOpen)|
    && c.reserved == |In(slots, Reservation)|
    && c.livePreflights == |In(slots, LivePreflight)|
  }

  ghost predicate TableAt(entries: map<Key, Entry>, slots: map<Slot, Content>, nextFree: nat, s: Slot) {
    match s
    case KeySlot(k) =>
      && (k in entries <==> s in slots)
      && (k in entries ==>
            && entries[k].handle.key == k
            && (entries[k].Open? <==> slots[s].InTable?)
            && (entries[k].Open? ==> slots[s].file == entries[k].file))
    case PreSlot(_) => s in slots ==> !slots[s].InTable?
    case FreeSlot(n) => s in slots ==> n < nextFree && slots[s].Closing?
  }

  /** The table and the slots agree. */
  ghost predicate Table(entries: map<Key, Entry>, slots: map<Slot, Content>, nextFree: nat) {
    forall s :: TableAt(entries, slots, nextFree, s)
  }

  /** The idle queue lists exactly the zero-lease open entries, once each. */
  ghost predicate IdleQueue(entries: map<Key, Entry>, idle: seq<Key>) {
    && NoDup(idle)
    && forall k :: k in idle <==> IsIdle(entries, k)
  }

  /** An entry's lease count is the number of lease objects and pending leases. */
  ghost predicate LeaseCounts(entries: map<Key, Entry>, leases: map<nat, Lease>, acqs: map<nat, Acquisition>) {
    forall k :: k in entries && entries[k].Open? ==>
      entries[k].leases == |LeasesOn(leases, k)| + |AcqsOn(acqs, k)|
  }

  /** A live lease keeps its keyed entry and the entry's descriptor. */
  ghost predicate Leased(entries: map<Key, Entry>, leases: map<nat, Lease>) {
    forall l :: l in leases ==>
      && leases[l].key in entries
      && entries[leases[l].key].Open?
      && entries[leases[l].key].file == leases[l].file
      && (leases[l].cloning > 0 ==> leases[l].arc)
  }

  /** What the slot of an acquisition's reservation number `i` may hold. */
  predicate ReservationContent(a: Acquisition, i: nat, c: Content) {
    if a.phase.Failing? then
      if i < a.openCount then c.Pending? && c.dropped else c.Vacant?
    else
      if i < a.openCount then c.Pending? && !c.dropped
      else c.Vacant? || c.Closing? || (i == a.openCount && c.InHand?)
  }

  function Segments(handles: seq<Handle>): set<string> {
    set h | h in handles :: h.key.segment
  }

  predicate DistinctKeys(handles: seq<Handle>) {
    forall i, j :: 0 <= i < j < |handles| ==> handles[i].key != handles[j].key
  }

  predicate WellFormed(a: Acquisition) {
    && a.segs == Segments(a.handles)
    && DistinctKeys(a.handles)
    && NoDup(a.existing)
    && NoDup(a.missing)
    && a.openCount <= |a.missing|
    && (a.phase.Waiting? || a.phase.Finished? ==> a.existing == [] && a.missing == [])
    && (a.phase.Published? ==> a.missing == [])
    && (forall k :: k in a.existing ==> k.segment in a.segs)
    && (forall k :: k in a.missing ==> k.segment in a.segs)
  }

  /** Its pending leases are on open entries of files it asked for; once
      published it holds their descriptors. */
  ghost predicate ClaimsOk(entries: map<Key, Entry>, a: Acquisition) {
    forall k :: k in a.existing ==>
      && k in entries && entries[k].Open? && entries[k].handle in a.handles
      && (a.phase.Published? ==> k in a.files && entries[k].file == a.files[k])
  }

  /** Its reservations are its own Opening entries, with the expected content. */
  ghost predicate ReservationsOk(entries: map<Key, Entry>, slots: map<Slot, Content>, t: nat, a: Acquisition) {
    forall i :: 0 <= i < |a.missing| ==>
      && a.missing[i] in entries && entries[a.missing[i]].Opening? && entries[a.missing[i]].handle in a.handles
      && entries[a.missing[i]].op == a.op && entries[a.missing[i]].owner == t
      && KeySlot(a.missing[i]) in slots && ReservationContent(a, i, slots[KeySlot(a.missing[i])])
  }

  ghost predicate AcquisitionOk(entries: map<Key, Entry>, slots: map<Slot, Content>, t: nat, a: Acquisition) {
    WellFormed(a) && ClaimsOk(entries, a) && ReservationsOk(entries, slots, t, a)
  }

  ghost predicate Acquisitions(entries: map<Key, Entry>, slots: map<Slot, Content>, acqs: map<nat, Acquisition>) {
    forall t :: t in acqs ==> AcquisitionOk(entries, slots, t, acqs[t])
  }

  /** Every Opening entry belongs to an acquisition in flight. */
  ghost predicate Owned(entries: map<Key, Entry>, acqs: map<nat, Acquisition>) {
    forall k :: k in entries && entries[k].Opening? ==>
      entries[k].owner in acqs && k in acqs[entries[k].owner].missing
  }

  ghost predicate PreflightAt(slots: map<Slot, Content>, pres: map<nat, Preflight>, p: nat) {
    && (PreSlot(p) in slots <==> p in pres && (pres[p].phase.PreHolding? || pres[p].phase.PreSpent?))
    && (PreSlot(p) in slots && pres[p].phase.PreSpent? ==> slots[PreSlot(p)].Vacant?)
  }

  ghost predicate Preflights(slots: map<Slot, Content>, pres: map<nat, Preflight>) {
    forall p: nat :: PreflightAt(slots, pres, p)
  }

  predicate NoZero(m: map<string, nat>) {
    forall s :: s in m ==> m[s] > 0
  }

  ghost predicate ClosingTally(m: map<string, nat>, slots: map<Slot, Content>) {
    NoZero(m) && forall s :: Count(m, s) == |In(slots, ClosingOf(s))|
  }

  ghost predicate AcqTally(m: map<string, nat>, acqs: map<nat, Acquisition>) {
    NoZero(m) && forall s :: Count(m, s) == |AcqsIn(acqs, s)|
  }

  ghost predicate PreTally(m: map<string, nat>, pres: map<nat, Preflight>) {
    NoZero(m) && forall s :: Count(m, s) == |PresIn(pres, s)|
  }

  ghost predicate MarkerAt(retirements: map<string, Retirement>, callers: map<nat, string>, leader: map<string, nat>, s: string) {
    && (s in retirements ==> retirements[s].callers > 0)
    && (if s in retirements then retirements[s].callers else 0) == |CallersOf(callers, s)|
    && (s in leader <==> s in retirements && !retirements[s].completed)
    && (s in leader ==> leader[s] in callers && callers[leader[s]] == s)
  }

  /** A marker counts its callers, and is uncompleted exactly while its leader is in flight. */
  ghost predicate Markers(retirements: map<string, Retirement>, callers: map<nat, string>, leader: map<string, nat>) {
    forall s :: MarkerAt(retirements, callers, leader, s)
  }

  /** While a marker is completed its segment is quiet. */
  ghost predicate Drained(m: Manager) {
    forall s :: s in m.retirements && m.retirements[s].completed ==> Quiet(m, s)
  }

  /** Different slots hold different descriptors. */
  ghost predicate Distinct(slots: map<Slot, Content>) {
    forall s, r :: s in slots && r in slots && s != r && HasFd(slots[s]) && HasFd(slots[r]) ==>
      slots[s].file.fd != slots[r].file.fd
  }

  /** Slots, counters, table and preflights. */
  ghost predicate SlotPart(w: World) {
    && Conserved(w.max, w.m.counts, w.slots)
    && Table(w.m.entries, w.slots, w.nextFree)
    && ClosingTally(w.m.closings, w.slots)
    && Distinct(w.slots)
    && Preflights(w.slots, w.pres)
    && PreTally(w.m.preflights, w.pres)
  }

  /** Idle queue, leases and acquisitions. */
  ghost predicate ClaimPart(w: World) {
    && IdleQueue(w.m.entries, w.m.idle)
    && LeaseCounts(w.m.entries, w.leases, w.acqs)
    && Leased(w.m.entries, w.leases)
    && Acquisitions(w.m.entries, w.slots, w.acqs)
    && Owned(w.m.entries, w.acqs)
    && AcqTally(w.m.acquisitions, w.acqs)
  }

  ghost predicate RetirePart(w: World) {
    Markers(w.m.retirements, w.callers, w.leader) && Drained(w.m)
  }

  ghost predicate Core(w: World) {
    SlotPart(w) && ClaimPart(w) && RetirePart(w)
  }

  /** Between reservation and publication or rollback an acquisition holds
      every file it asked for, as a pending lease or as a reservation. */
  ghost predicate Covers(a: Acquisition) {
    a.phase.Reserving? || a.phase.Failing? ==>
      forall h :: h in a.handles ==> h.key in a.existing || h.key in a.missing
  }

  ghost predicate Covered(acqs: map<nat, Acquisition>) {
    forall t :: t in acqs ==> Covers(acqs[t])
  }

  /** What holds whenever the mutex is free. */
  ghost predicate Inv(w: World) {
    Core(w) && |w.m.idle| <= w.maxCached && Covered(w.acqs)
  }

  ghost predicate Init(w: World) {
    && w.max > 0 && w.maxCached <= w.max
    && w.m == Manager(map[], [], map[], map[], map[], map[], Counts(0, 0, 0, 0, 0), 0)
    && w.slots == map[] && w.acqs == map[] && w.pres == map[] && w.leases == map[]
    && w.callers == map[] && w.leader == map[] && w.nextFree == 0
  }
}
