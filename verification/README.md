# Chronoxide: verified models of its hard parts

Chronoxide is an OTLP-native time-series store written in Rust. This project models, in
Dafny 4.11, the parts of it whose correctness cannot be seen from one function, and proves
what those parts promise. `dafny verify dfyconfig.toml` checks everything.

**Descriptor governor** (`Governor*.dfy`). `MetadataFileManager` hands out leases on segment
files under a hard cap on open descriptors. One mutex guards its tables, but files are
opened and closed outside it. The model is a transition system: a `World` holds the
manager's state and everything threads hold between locked regions (what each slot
physically carries, acquisitions, preflights, leases, retirement callers), and every locked
region, physical open, close and drop is an event. `GovernorSteps` has the elementary steps,
`GovernorProof` shows that each keeps the invariant, `GovernorRuns` builds locked regions
and runs from them, `GovernorTheorems` draws the consequences, `GovernorLru` shows that the
longest idle files are evicted first, and `GovernorWaking` that no wake-up is lost.
`GovernorManager` is the imperative object; each method is proved to make exactly one step
of the system. The `owner` of a reservation is auxiliary: no step reads it.

**Label sets** (`LabelOrder`, `Utf8Order`, `LabelMerge`). The full sort-and-dedup build and
the prepared three-way merge both yield *the* canonical sequence of the wanted labels, in
the byte order of their keys.

**Capture log** (`Bytes`, `Utf8Valid`, `Capture*.dfy`). Byte-level records, one file per
partition, and the heap merge that rebuilds the global order. `CaptureLayout` says where
every field of every message lies.

**Arena and blocks** (`Arena`, `Varint`, `Block`, `BlockLayout`). The transactional paged
allocator, its freeze, and the sample codecs on top. `first` in a page is auxiliary: no
method reads it.

**Symbol tables** (`SymbolTable`). Fingerprints, collision chains and one byte arena refine
the list of distinct strings, as does the plain table.

**Streaming hash** (`XxHash`, `XxHashLength`, `XxHashVectors`). Against the one-shot
algorithm of the xxHash fast digest algorithm specification, section "XXH64 Algorithm
Description", which is tied to published hashes.

**Reset tracker** (`ExpBuckets`, `ResetTracker`, `ResetHints`). When each hint is given,
prepare/commit traces, and what chains of hints mean, including exponential histograms whose
scale changes.

**PromQL text** (`Promql*.dfy`, with `Decimal`). The two textual passes before parsing: what
they do, that each is idempotent, and what both do to quoted literals. For the last,
`PromqlLexer` reads the literals of a whole text as tokens, `PromqlEdits` gives the OTLP
pass as a list of edits, `PromqlLiterals` and `PromqlClauses` say when an edit changes a
literal, and `PromqlPasses` and `PromqlQuotedLabels` draw the consequences for queries.
`PromqlFloat` is the scientific printing of float labels.

Some promises do not hold without a condition, which is stated and proved exact:

- Streaming XXH64 counts its input in a wrapping 64-bit total. From 2^64 bytes on, an input
  whose wrapped length is below 32 is finished as if it were short. It is XXH64 on all inputs
  of a length exactly when that length is below 32 or wraps to at least 32 (`LengthIff`);
  `WrongHash` gives an input for every other length, and `AgreeIff` decides each input.
- A chain of `NotCounterReset` hints bounds the sum only across samples that have one
  (`SumKeptIff`, `ExponentialSumKeptIff`, with the failing runs beside them).
- `rewrite_grouping_labels` ignores quotes. After the alias pass and the OTLP pass every
  literal of a query spells what it spelled exactly when no edit of the OTLP pass falls into a
  literal (`LiteralsSurvive`). For queries whose grouping clauses do not end inside a literal
  that is: exactly when no literal in a grouping clause holds a dotted label (`SurviveIff`).
  `QuotedLabelChanges` and `ParenLosesLiteral` give the two failing families.
- The sample count of a block saturates: a builder and its blocks decode exactly below 2^32
  samples (`DecodeSamples`, `ReadBack`).

## Model

| member | source | states |
|---|---|---|
| `GovernorRuns.InitInv` | chronoxide-core/src/storage/file_manager.rs:454-470 | A fresh manager meets the whole invariant. |
| `GovernorRuns.Step` | chronoxide-core/src/storage/file_manager.rs:595-1331 | Every step of every thread (a locked region, or a physical open, close or drop between two of them) keeps the invariant: slots, table, leases, idle queue, per-segment counts and retirement markers. |
| `GovernorRuns.EveryRun` | chronoxide-core/src/storage/file_manager.rs:374-388 | The invariant holds in every state of every run, for every interleaving of any number of threads, and the two limits never change. |
| `GovernorTheorems.HardCap` | chronoxide-core/src/storage/file_manager.rs:678-852 | The descriptors physically open, whoever holds them, never outnumber the occupied slots, and those never outnumber `max_open_files`. |
| `GovernorTheorems.OccupiedSplit` | chronoxide-core/src/storage/file_manager.rs:1061-1089 | Occupied slots are exactly table entries + preflight reservations + victims that still have to give their slot back. |
| `GovernorTheorems.LiveSplit` | chronoxide-core/src/storage/file_manager.rs:1115-1188 | Live descriptors are exactly open entries + pending opens + live preflights + every victim still closing. |
| `GovernorTheorems.SnapshotExact` | chronoxide-core/src/storage/file_manager.rs:1843-1848 | `closing_files` is exactly the number of detached victims not yet closed; no counter goes below zero, so no checked subtraction of the accounting can fail. |
| `GovernorTheorems.CallersHoldTableFiles` | chronoxide-core/src/storage/file_manager.rs:1534-1550 | Every descriptor reachable from a lease or a published acquisition is that of an open table entry. |
| `GovernorTheorems.LeasePins` | chronoxide-core/src/storage/file_manager.rs:1256-1302 | A lease keeps its entry in the table, open, with the same file, counted, and out of the idle queue. |
| `GovernorTheorems.VictimUnshared` | chronoxide-core/src/storage/file_manager.rs:1534-1550 | A detached victim's descriptor is held by no caller and by no other slot: closing it really closes it and disturbs nobody. |
| `GovernorTheorems.IdleFiles` | chronoxide-core/src/storage/file_manager.rs:1661-1729 | The idle queue lists exactly the open entries without leases, once each, never more than `max_cached_open_files`, and no caller holds their descriptors. |
| `GovernorTheorems.QuietIsGone` | chronoxide-core/src/storage/file_manager.rs:1750-1770 | A segment without activity by the four tables has no entry, descriptor, lease, acquisition, preflight or closing victim anywhere. |
| `GovernorTheorems.RetirementReturnsDrained` | chronoxide-core/src/storage/file_manager.rs:595-656 | Leader or joiner, a retirement caller returns only with the segment fully drained, still drained after its step, and the marker goes exactly with the last caller. |
| `GovernorTheorems.LastCaller` | chronoxide-core/src/storage/file_manager.rs:1802-1817 | The marker survives a leaving caller if and only if another caller of the same segment remains. |
| `GovernorTheorems.LeavesQuiet` | chronoxide-core/src/storage/file_manager.rs:854-870 | When a caller may leave, the segment is quiet before and after its step. |
| `GovernorTheorems.RetiringRefuses` | chronoxide-core/src/storage/file_manager.rs:942-953 | While a marker stands, starting an acquisition, preparing one or starting a preflight on that segment changes nothing. |
| `GovernorWaking.SilentTightens` | chronoxide-core/src/storage/file_manager.rs:595-1331 | A locked region that does not notify gives no slot back, makes no file idle, ends no reservation, publishes no file and makes no segment quiet. |
| `GovernorWaking.StillWaits` | chronoxide-core/src/storage/file_manager.rs:991-1047 | In a state that is tighter in this sense, a request that had to wait is not granted. |
| `GovernorWaking.SilentWakesNobody` | chronoxide-core/src/storage/file_manager.rs:591-1331 | No event without notification lets a waiting acquisition, preflight or retirement go on. |
| `GovernorWaking.NoLostWakeup` | chronoxide-core/src/storage/file_manager.rs:1333-1340 | Over every run, between two notifications, whoever had to wait could not have gone on at any later moment: a thread that sleeps until the next notification misses nothing. |
| `GovernorTheorems.AdmissionExact` | chronoxide-core/src/storage/file_manager.rs:1027-1047 | Prepare is granted if and only if the request is compatible and requested files + pinned other entries + preflight reservations + releasing victims fit under the cap. |
| `GovernorTheorems.AllOrNone` | chronoxide-core/src/storage/file_manager.rs:991-1047 | An attempt to prepare leaves the whole world unchanged if and only if it is not granted. |
| `GovernorTheorems.AloneIsGranted` | chronoxide-core/src/storage/file_manager.rs:929-936 | Any compatible request within the cap is granted once nothing else is leased, in flight or closing, whatever the idle cache holds. |
| `GovernorTheorems.RollbackExact` | chronoxide-core/src/storage/file_manager.rs:1204-1254 | Rollback removes exactly its own reservations, returns exactly its own pending leases and adjusts the counters by exactly these. |
| `GovernorTheorems.RollbackRestores` | chronoxide-core/src/storage/file_manager.rs:1204-1254 | Prepare followed by rollback restores every table entry and lease count except the victims evicted to make room. |
| `GovernorTheorems.PublishComplete` | chronoxide-core/src/storage/file_manager.rs:1144-1188 | Publish covers every requested handle: each ends as an open entry of that very handle and the caller gets that entry's file. |
| `GovernorTheorems.PublishKeeps` | chronoxide-core/src/storage/file_manager.rs:1144-1188 | Whatever an acquisition had claimed or reserved is claimed after publish. |
| `GovernorRuns.ScanProps` | chronoxide-core/src/storage/file_manager.rs:1001-1025 | Classification succeeds if and only if no requested file retires, is opening or has another definition, and then splits the request into present and missing files exactly. |
| `GovernorRuns.CandidatesProps` | chronoxide-core/src/storage/file_manager.rs:1030-1042 | Eviction candidates are exactly the idle files that were not requested. |
| `GovernorRuns.VictimsProps` | chronoxide-core/src/storage/file_manager.rs:1030-1042 | Victims are distinct idle files, none of them requested. |
| `GovernorRuns.PrepareClosed` | chronoxide-core/src/storage/file_manager.rs:1049-1102 | The state after a granted prepare, in closed form: leases added, victims gone, reservations in place, counters moved. |
| `GovernorRuns.PrepareFrame` | chronoxide-core/src/storage/file_manager.rs:991-1102 | Prepare touches no other acquisition, and its own then covers each requested file exactly once. |
| `GovernorRuns.ClaimAllClosed` | chronoxide-core/src/storage/file_manager.rs:1052-1059 | Claiming the present files one by one equals adding one lease to each at once. |
| `GovernorRuns.ReserveAllClosed` | chronoxide-core/src/storage/file_manager.rs:1061-1089 | Handing victims' slots over and taking fresh slots one by one equals the closed form. |
| `GovernorRuns.PublishFrame` | chronoxide-core/src/storage/file_manager.rs:1144-1188 | Publish touches no other acquisition and ends in the published phase. |
| `GovernorRuns.Publish` | chronoxide-core/src/storage/file_manager.rs:1144-1188 | Publishing keeps the core invariant and leaves the idle queue as it is. |
| `GovernorRuns.Trim` | chronoxide-core/src/storage/file_manager.rs:1661-1696 | Trimming keeps the core invariant and ends with the idle queue within its limit. |
| `GovernorRuns.UndoReservationsClosed` | chronoxide-core/src/storage/file_manager.rs:1212-1236 | Undoing reservations one by one removes exactly the missing keys and their slots. |
| `GovernorRuns.UndoClaimsClosed` | chronoxide-core/src/storage/file_manager.rs:1225-1227 | Returning pending leases one by one equals the closed form on table and idle queue. |
| `GovernorRuns.Release` | chronoxide-core/src/storage/file_manager.rs:1292-1325 | Releasing a lease keeps the core invariant and the idle limit. |
| `GovernorRuns.FinishDetached` | chronoxide-core/src/storage/file_manager.rs:803-852 | Finishing any batch of closed victims keeps the core invariant and the idle queue. |
| `GovernorRuns.Sweep` | chronoxide-core/src/storage/file_manager.rs:1698-1730 | Detaching idle files of a retiring segment keeps the core invariant. |
| `GovernorRuns.ReservePreflight` | chronoxide-core/src/storage/file_manager.rs:678-725 | Reserving a preflight slot, free or taken from the oldest idle file, keeps the core invariant. |
| `GovernorRuns.RefusedIff` | chronoxide-core/src/storage/file_manager.rs:1001-1025 | Prepare refuses if and only if the first handle that stops the scan is of a retiring segment or clashes with its registered handle; it waits without looking further if and only if that handle is still being opened. |
| `GovernorRuns.ScanStops` | chronoxide-core/src/storage/file_manager.rs:1001-1025 | The scan ends at the first handle that stops it, with the outcome of that handle. |
| `GovernorRuns.RetiringIsRefused` | chronoxide-core/src/storage/file_manager.rs:1001-1012 | A request that touches a retiring segment is refused, unless one of its files is still being opened. |
| `GovernorLru.EveryEventInOrder` | chronoxide-core/src/storage/file_manager.rs:595-1331 | No event of any thread puts a file in front of one that was idle before it. |
| `GovernorLru.LongestIdleFirst` | chronoxide-core/src/storage/file_manager.rs:374-388 | In every run, a file that stands before another in the idle queue has been idle throughout at least as long. |
| `GovernorLru.TrimTakesOldest` | chronoxide-core/src/storage/file_manager.rs:1661-1696 | Trimming takes exactly as many files as are over the limit, from the old end. |
| `GovernorLru.PrepareEvictsOldest` | chronoxide-core/src/storage/file_manager.rs:1027-1075 | Prepare evicts an idle file only when every slot is then occupied, and only with every older idle file that is not requested. |
| `GovernorLru.PreflightEvictsOldest` | chronoxide-core/src/storage/file_manager.rs:678-725 | A preflight takes a free slot if there is one, else exactly the oldest idle file, else nothing. |
| `GovernorLru.ReleaseQueues` | chronoxide-core/src/storage/file_manager.rs:1270-1331 | The last release puts a file at the young end of the queue, detaches it when its segment retires, and any other release moves nothing. |
| `GovernorLru.RollbackInOrder` | chronoxide-core/src/storage/file_manager.rs:1204-1254 | A rollback, its returned leases and its trim keep the order of the idle files. |
| `GovernorManager.MetadataFileManager.constructor` | chronoxide-core/src/storage/file_manager.rs:454-470 | The new object implements every initial world with these limits. |
| `GovernorManager.MetadataFileManager.BeginAcquisition` | chronoxide-core/src/storage/file_manager.rs:904-954 | Makes exactly the begin step; registered iff admitted, with the refusal that applies. |
| `GovernorManager.MetadataFileManager.FirstRetiring` | chronoxide-core/src/storage/file_manager.rs:942-946 | Finds the first retiring segment, if any. |
| `GovernorManager.MetadataFileManager.CountSegments` | chronoxide-core/src/storage/file_manager.rs:947-953 | Counts the request once in each of its segments and nowhere else. |
| `GovernorManager.MetadataFileManager.FinishAcquisitionRequest` | chronoxide-core/src/storage/file_manager.rs:790-801 | Makes exactly the end step: the request leaves each of its segments' counts. |
| `GovernorManager.MetadataFileManager.ClassifyHandles` | chronoxide-core/src/storage/file_manager.rs:1001-1025 | The loop computes the specified classification. |
| `GovernorManager.MetadataFileManager.SelectVictims` | chronoxide-core/src/storage/file_manager.rs:1030-1042 | The loop takes the oldest unrequested idle files, as many as needed. |
| `GovernorManager.MetadataFileManager.ClaimExisting` | chronoxide-core/src/storage/file_manager.rs:1052-1059 | Adds one lease per present file and takes them off the idle queue. |
| `GovernorManager.MetadataFileManager.DetachVictims` | chronoxide-core/src/storage/file_manager.rs:1061-1075 | Removes exactly the victims from table and queue and counts each as closing. |
| `GovernorManager.MetadataFileManager.InsertOpenings` | chronoxide-core/src/storage/file_manager.rs:1081-1089 | Adds exactly one reservation per missing file. |
| `GovernorManager.MetadataFileManager.PrepareAcquisition` | chronoxide-core/src/storage/file_manager.rs:991-1102 | Makes exactly the prepare step; a refusal names the retiring segment, or the registered and the clashing handle, that it is about; a wait asks for as many slots as handles are absent; nothing changes unless Ready. |
| `GovernorManager.MetadataFileManager.Reserve` | chronoxide-core/src/storage/file_manager.rs:1049-1102 | Leaves exactly the closed-form state of a granted prepare. |
| `GovernorManager.MetadataFileManager.AccountOpen` | chronoxide-core/src/storage/file_manager.rs:1122-1133 | Makes exactly the accounting step of one opened file. |
| `GovernorManager.MetadataFileManager.PublishAcquisition` | chronoxide-core/src/storage/file_manager.rs:1144-1188 | Makes exactly the publish step, its unreachable arms shown unreachable, and hands out the right file per handle. |
| `GovernorManager.MetadataFileManager.InsertPublished` | chronoxide-core/src/storage/file_manager.rs:1144-1170 | Replaces exactly the own reservations by open entries. |
| `GovernorManager.MetadataFileManager.RollbackAcquisition` | chronoxide-core/src/storage/file_manager.rs:1204-1254 | Makes exactly the rollback step and returns exactly the trimmed victims. |
| `GovernorManager.MetadataFileManager.RemoveReservations` | chronoxide-core/src/storage/file_manager.rs:1212-1224 | Removes exactly the own reservations and frees their slots. |
| `GovernorManager.MetadataFileManager.ReturnClaims` | chronoxide-core/src/storage/file_manager.rs:1646-1659 | Returns exactly the own pending leases; files that reach zero join the idle queue. |
| `GovernorManager.MetadataFileManager.CloneLease` | chronoxide-core/src/storage/file_manager.rs:1256-1268 | Makes exactly the clone step; its unreachable arms are shown unreachable. |
| `GovernorManager.MetadataFileManager.ReleaseLease` | chronoxide-core/src/storage/file_manager.rs:1270-1331 | Makes exactly the release step, reports zero exactly at the last lease, and returns the trimmed victims. |
| `GovernorManager.MetadataFileManager.TrimIdleCache` | chronoxide-core/src/storage/file_manager.rs:1661-1696 | Makes exactly the trim and returns one victim per evicted file. |
| `GovernorManager.MetadataFileManager.FinishDetachedCloses` | chronoxide-core/src/storage/file_manager.rs:803-852 | Makes exactly the finishing step of a batch: live, occupied and closing counts. |
| `GovernorManager.MetadataFileManager.DecrementClosings` | chronoxide-core/src/storage/file_manager.rs:803-852 | Takes each closed victim out of its segment's count. |
| `GovernorManager.MetadataFileManager.BeginPreflight` | chronoxide-core/src/storage/file_manager.rs:658-676 | Makes exactly the step; refused exactly when the segment retires. |
| `GovernorManager.MetadataFileManager.ReservePreflightSlot` | chronoxide-core/src/storage/file_manager.rs:678-725 | Makes exactly the step; no slot exactly when the cap is reached and nothing is idle; a taken idle file sits in that slot. |
| `GovernorManager.MetadataFileManager.ObservePreflightOpen` | chronoxide-core/src/storage/file_manager.rs:727-738 | Makes exactly the step of a preflight's opened file. |
| `GovernorManager.MetadataFileManager.FinishPreflightOpen` | chronoxide-core/src/storage/file_manager.rs:740-758 | Makes exactly the step of a preflight's closed file. |
| `GovernorManager.MetadataFileManager.ReleasePreflightSlot` | chronoxide-core/src/storage/file_manager.rs:765-777 | Makes exactly the step that gives the slot back. |
| `GovernorManager.MetadataFileManager.FinishPreflightRequest` | chronoxide-core/src/storage/file_manager.rs:779-788 | Makes exactly the end step of a preflight. |
| `GovernorManager.MetadataFileManager.BeginRetirement` | chronoxide-core/src/storage/file_manager.rs:604-623 | Makes exactly the step; leader exactly when no marker stood. |
| `GovernorManager.MetadataFileManager.HasActivity` | chronoxide-core/src/storage/file_manager.rs:1750-1770 | The four lookups decide exactly whether the segment is quiet. |
| `GovernorManager.MetadataFileManager.CompleteRetirement` | chronoxide-core/src/storage/file_manager.rs:633-655 | The leader leaves exactly when the segment is quiet, by exactly the leave step, and changes nothing otherwise. |
| `GovernorManager.MetadataFileManager.LeaveJoinedRetirement` | chronoxide-core/src/storage/file_manager.rs:854-870 | A joiner leaves exactly when the marker is completed, by exactly the leave step, with the segment quiet. |
| `GovernorManager.MetadataFileManager.DetachIdleSegmentFiles` | chronoxide-core/src/storage/file_manager.rs:1698-1730 | Makes exactly the sweep of all idle files of the segment and returns them as victims. |
| `GovernorManager.MetadataFileManager.IdleKeys` | chronoxide-core/src/storage/file_manager.rs:1698-1712 | Finds exactly the idle files of the segment, once each. |
| `GovernorManager.NewManager` | chronoxide-core/src/storage/metadata_governor.rs:32-48 | A manager exactly for a valid configuration, with the error of the first check that fails; it stands for every initial world with these limits. |
| `GovernorManager.SegmentIdentities` | chronoxide-core/src/storage/file_manager.rs:912-917 | The distinct segments of a request. |
| `LabelOrder.LessIs` | chronoxide-core/src/otlp_labelset.rs:526-528 | One name is before another if and only if it is a proper prefix of it, or has the smaller character where they first differ. |
| `Utf8Order.LessIsByteOrder` | chronoxide-core/src/otlp_labelset.rs:526-528 | That is exactly the lexicographic order of the UTF-8 bytes, the order that the source compares names by, on all strings. |
| `LabelOrder.LessTotal` | chronoxide-core/src/otlp_labelset.rs:525-546 | Any two different names are ordered, one way only; which way is `LessIs`. |
| `LabelOrder.LessTrans` | chronoxide-core/src/otlp_labelset.rs:525-546 | The label order is transitive. |
| `LabelOrder.CanonicalUnique` | chronoxide-core/src/otlp_labelset.rs:525-546 | Two strictly key-sorted sequences with the same labels are the same sequence. |
| `LabelMerge.Render` | chronoxide-core/src/otlp_labelset.rs:548-603 | A value is rendered exactly when it is scalar, and reads back as its text. |
| `LabelMerge.NoMetricName` | chronoxide-core/src/otlp_labelset.rs:548-603 | No supported attribute has the metric-name key or an empty key. |
| `LabelMerge.PushKvs` | chronoxide-core/src/otlp_labelset.rs:548-603 | Appends exactly the supported attributes in order, with rank and running ordinal, and counts exactly the skipped ones. |
| `LabelMerge.SortLabels` | chronoxide-core/src/otlp_labelset.rs:525-529 | A sorted permutation by key, rank and ordinal. |
| `LabelMerge.SortAndDedup` | chronoxide-core/src/otlp_labelset.rs:525-546 | The in-place compaction keeps exactly the last of every run of equal keys of the sorted labels. |
| `LabelMerge.DedupKeepsLast` | chronoxide-core/src/otlp_labelset.rs:525-546 | What is kept is strictly key-sorted and holds, per key, exactly the last label before sorting. |
| `LabelMerge.LastIsWanted` | chronoxide-core/src/otlp_labelset.rs:330-373 | The last label of a key in push order is the datapoint's last, else the resource's last, else the metric name. |
| `LabelMerge.WantedIs` | chronoxide-core/src/otlp_labelset.rs:330-373 | What is wanted: `__name__` is the metric name; any other non-empty key has the last scalar value of the datapoint, else the last of the resource. |
| `LabelMerge.SkippedIs` | chronoxide-core/src/otlp_labelset.rs:586-592 | The skipped count is the number of attributes with a value that is no scalar and a key that is neither empty nor `__name__`. |
| `LabelMerge.TextForms` | chronoxide-core/src/otlp_labelset.rs:573-585 | How each kind of scalar is written. |
| `LabelMerge.BuildFullSort` | chronoxide-core/src/otlp_labelset.rs:330-373 | The full build yields the wanted labels (`WantedIs`) in ascending byte order of their keys (`LessIs`), one per key, and the exact skipped count, for all inputs. |
| `LabelMerge.SortedAttributes` | chronoxide-core/src/otlp_labelset.rs:377-434 | Push, sort and dedup of one attribute list: its last supported value per key, strictly sorted. |
| `LabelMerge.PrepareResource` | chronoxide-core/src/otlp_labelset.rs:238-257 | The cached resource part is exactly the resource's own canonical labels and skipped count. |
| `LabelMerge.MergeOne` | chronoxide-core/src/otlp_labelset.rs:436-498 | One output label extends a correct partial merge. |
| `LabelMerge.MergeTurn` | chronoxide-core/src/otlp_labelset.rs:436-498 | Each of the merge's branches writes the next label of the wanted sequence. |
| `LabelMerge.MergePrepared` | chronoxide-core/src/otlp_labelset.rs:436-498 | The three-cursor merge writes resource, metric name and datapoint labels in strict order with datapoint over resource, and marks cached symbols soundly. |
| `LabelMerge.BuildPrepared` | chronoxide-core/src/otlp_labelset.rs:377-434 | The prepared build yields the same labels in the same order, the same skipped count, and sound cache marks. |
| `LabelMerge.BuildBoth` | chronoxide-core/src/otlp_labelset.rs:330-498 | Both builds, run on the same resource attributes, metric name and datapoint attributes, give the same label sequence and the same skipped count. |
| `LabelMerge.MergedIsWanted` | chronoxide-core/src/otlp_labelset.rs:436-498 | The finished merge is the canonical sequence of the wanted labels. |
| `Bytes.U32RoundTrip` | chronoxide-capture/src/lib.rs:745-764 | Little-endian 32-bit values are read back. |
| `Bytes.U64RoundTrip` | chronoxide-capture/src/lib.rs:724-770 | Little-endian 64-bit values are read back. |
| `Bytes.I32RoundTrip` | chronoxide-capture/src/lib.rs:733-754 | Little-endian signed 32-bit values are read back. |
| `Bytes.I64RoundTrip` | chronoxide-capture/src/lib.rs:739-759 | Little-endian signed 64-bit values are read back. |
| `Bytes.BytesOf` | chronoxide-capture/src/lib.rs:751-770 | Byte `i` of a written number is its digit `i` in base 256, least significant first. |
| `CaptureLayout.RecordLaid` | chronoxide-capture/src/lib.rs:612-646 | A written record at any place of a file: sequence at 0, offset at 8, timestamp at 16, capture time at 24, each 8 bytes little-endian; then the lengths, 4 bytes each, and the stored payload; and how long it is. |
| `CaptureLayout.LaidRecordReads` | chronoxide-capture/src/lib.rs:470-506 | Conversely, from any bytes that are laid out so, reading gives exactly that record and goes on behind it. |
| `CaptureLayout.HeaderLaid` | chronoxide-capture/src/lib.rs:592-600 | A written header: the magic line, the compression flag at 37, the topic length at 38, the topic at 42, and the partition behind it. |
| `CaptureLayout.MagicText` | chronoxide-capture/src/lib.rs:16-16 | The magic bytes spell the magic line. |
| `CaptureLayout.FileLaid` | chronoxide-capture/src/lib.rs:581-646 | In a partition file the header is at 0 and record `i` is where the sizes of the records before it end. |
| `CaptureLayout.MessageLaid` | chronoxide-capture/src/lib.rs:120-176 | In a captured directory message `k` lies in the file of its partition, named after it, behind the header and exactly the earlier messages of that partition, with sequence `k` and its own stamps and payload. |
| `Utf8Valid.ValidIff` | chronoxide-capture/src/lib.rs:454-458 | The test for a readable topic accepts exactly the bytes that are the UTF-8 form of some text. |
| `CaptureFormat.ReadsRecord` | chronoxide-capture/src/lib.rs:470-506 | Reading a written record returns it and leaves exactly the bytes after it, in both modes; where each field lies is `RecordLaid`. |
| `CaptureFormat.ReadsTruncated` | chronoxide-capture/src/lib.rs:470-506 | Every proper prefix of a record is a clean end below 8 bytes and an unexpected end of file from 8 on. |
| `CaptureFormat.WholeIsExact` | chronoxide-capture/src/lib.rs:470-506 | The number of whole records in a prefix is the largest that fits. |
| `CaptureFormat.PrefixReads` | chronoxide-capture/src/lib.rs:724-731 | For every prefix of a run of records, reading returns exactly the whole records, then a clean end or an unexpected end of file by the 8-byte rule. |
| `CaptureFormat.FilePrefixReads` | chronoxide-capture/src/lib.rs:430-506 | Every prefix of a partition file that keeps the header reads as that header and exactly the records wholly inside, then a clean end or an unexpected end of file by the 8-byte rule. |
| `CaptureFormat.ReadsHeader` | chronoxide-capture/src/lib.rs:430-468 | A written header is read back, whatever follows it. |
| `CaptureFormat.StoredIsLossless` | chronoxide-capture/src/lib.rs:612-646 | Storing payloads as they are is an instance of the lossless codec the theorems speak of. |
| `CaptureLog.FirstRecord` | chronoxide-capture/src/lib.rs:530-548 | The first pending record of a partition carries the next global sequence exactly when the next message is that partition's. |
| `CaptureLog.RecordsAppend` | chronoxide-capture/src/lib.rs:120-176 | One more message adds one record at the end of its own partition and changes no other. |
| `CaptureLog.EncodeAppend` | chronoxide-capture/src/lib.rs:612-646 | Appending a record appends its bytes. |
| `CaptureLog.FileNameInjective` | chronoxide-capture/src/lib.rs:695-697 | Different partitions never share a file name. |
| `CaptureWriter.HoldsAppended` | chronoxide-capture/src/lib.rs:612-646 | Appending keeps a partition's bytes, count and both byte totals exactly those of the run. |
| `CaptureWriter.FinishedCaptures` | chronoxide-capture/src/lib.rs:205-233 | A finished directory captures exactly the run: every partition once, with its bytes, count and byte totals. |
| `CaptureWriter.OtlpCaptureWriter.constructor` | chronoxide-capture/src/lib.rs:91-109 | A new writer stands for the empty run. |
| `CaptureWriter.OtlpCaptureWriter.Append` | chronoxide-capture/src/lib.rs:120-176 | Succeeds exactly when open and the record fits, and then the run grows by exactly this message under the next sequence; which failures change nothing. |
| `CaptureWriter.OtlpCaptureWriter.Close` | chronoxide-capture/src/lib.rs:205-217 | Closing once leaves a directory that captures the run, and closing again changes nothing. |
| `CaptureWriter.FinishAll` | chronoxide-capture/src/lib.rs:205-217 | The loop over partitions in ascending order leaves one file and one exact manifest entry each. |
| `CaptureReader.PartitionReader.ReadExact` | chronoxide-capture/src/lib.rs:470-506 | Takes exactly `n` bytes, or runs out at the end of the file. |
| `CaptureReader.PartitionReader.NextWithSequence` | chronoxide-capture/src/lib.rs:470-506 | The reads step by step agree with the record grammar (`LaidRecordReads`, `ReadsTruncated`): end, error, or record and rest. |
| `CaptureReader.PartitionReader.ReadPayload` | chronoxide-capture/src/lib.rs:478-503 | Length, optional compressed length, payload and decompression agree with the record grammar. |
| `CaptureReader.PopIsNext` | chronoxide-capture/src/lib.rs:552-578 | The least heap item is the message with the next global sequence. |
| `CaptureReader.EmptyIsEnd` | chronoxide-capture/src/lib.rs:530-548 | The heap is empty exactly when every message has been delivered. |
| `CaptureReader.HeapAdvances` | chronoxide-capture/src/lib.rs:530-548 | Replacing the popped item by its partition's next record keeps the heap invariant. |
| `CaptureReader.MultiPartitionReader.NextWithSequence` | chronoxide-capture/src/lib.rs:530-548 | After `i` deliveries the next call returns exactly message `i`, and the end exactly after the last. |
| `CaptureReader.OpenPartition` | chronoxide-capture/src/lib.rs:253-315 | A partition opens exactly when its file is there and its header agrees with the manifest, with the error of each mismatch. |
| `CaptureReader.OpenAll` | chronoxide-capture/src/lib.rs:253-315 | All partitions of a captured directory open at their first record. |
| `CaptureReader.FirstItem` | chronoxide-capture/src/lib.rs:515-528 | The first read of a partition yields its first pending item, if any. |
| `CaptureReader.FillHeap` | chronoxide-capture/src/lib.rs:515-528 | The initial heap holds exactly each partition's first record. |
| `CaptureReader.NewMulti` | chronoxide-capture/src/lib.rs:515-528 | The merge starts before the first message. |
| `CaptureReader.OpenDirectory` | chronoxide-capture/src/lib.rs:253-315 | Opening a captured directory succeeds and stands before message 0; missing manifest and other version fail. |
| `CaptureReader.ReadCapture` | chronoxide-capture/src/lib.rs:400-420 | Opening and reading to the end delivers exactly the run, in order, numbered from zero. |
| `CaptureRoundTrip.WriteThenRead` | chronoxide-capture/src/lib.rs:120-217 | For every message list over any partitions: writing all, closing, opening and reading back succeeds exactly when every message fits its record and the topic its header, and delivers exactly the list in append order with sequences 0 to n-1. |
| `Arena.FreezeKeepsReads` | chronoxide-core/src/storage/arena.rs:441-469 | Every reference, valid or malformed, reads the same bytes or is rejected alike before and after freeze. |
| `Arena.TargetIsGeometric` | chronoxide-core/src/storage/arena.rs:82-92 | The page size after k growths is min(initial * 2^k, max). |
| `Arena.SlackIsPaid` | chronoxide-core/src/storage/arena.rs:113-172 | Unused bytes of closed pages are paid for by the first allocation of the page after them. |
| `Arena.SpaceBound` | chronoxide-core/src/storage/arena.rs:113-172 | Total capacity < 2 * used bytes + capacity of the last page whenever a page exists. |
| `Arena.SeenKeepsLive` | chronoxide-core/src/storage/arena.rs:232-238 | Live references depend only on the used prefixes. |
| `Arena.ExtendsKeepsLive` | chronoxide-core/src/storage/arena.rs:104-192 | An allocation overlaps no live reference and changes no live bytes. |
| `Arena.CopyKeeps` | chronoxide-core/src/storage/arena.rs:180-192 | Copying into the fresh reference makes it read back its data and keeps pages well formed. |
| `Arena.RestoredKeeps` | chronoxide-core/src/storage/arena.rs:232-238 | After a rollback every earlier live reference still reads its bytes and pages are well formed. |
| `Arena.GrantsIff` | chronoxide-core/src/storage/arena.rs:113-172 | An allocation is granted if and only if the place after the last one, in the last page if it has room and in a new page otherwise, fits 32 bits and memory is there for a new page. |
| `Arena.BlockArena.constructor` | chronoxide-core/src/storage/arena.rs:69-80 | Fixed page size, at least one byte, no page. |
| `Arena.BlockArena.Growing` | chronoxide-core/src/storage/arena.rs:82-92 | Geometric growth with clamped initial and maximal size. |
| `Arena.BlockArena.TryAlloc` | chronoxide-core/src/storage/arena.rs:104-172 | Succeeds exactly when representable and memory is there; the new reference covers fresh bytes only; a failure changes nothing. |
| `Arena.BlockArena.TryWrite` | chronoxide-core/src/storage/arena.rs:180-192 | As TryAlloc, and non-empty data reads back; every live reference keeps its bytes. |
| `Arena.BlockArena.TryWritePair` | chronoxide-core/src/storage/arena.rs:194-230 | Both writes or none: exact condition of success, and a failure restores pages, used prefixes, next page size and live references. |
| `Arena.BlockArena.Rollback` | chronoxide-core/src/storage/arena.rs:232-238 | Cutting back to the recorded page count, used length and page size restores what readers see. |
| `Arena.BlockArena.TryFreeze` | chronoxide-core/src/storage/arena.rs:290-353 | Succeeds exactly when representable with memory, and keeps exactly the used prefixes. |
| `Varint.EncodedProps` | chronoxide-core/src/storage/encoding/varint.rs:3-9 | Codes are self-delimiting and carry their number. |
| `Varint.EncodedLength` | chronoxide-core/src/storage/encoding/varint.rs:47-54 | A number takes at most k bytes exactly when it is below 128^k. |
| `Varint.CanonicalIffShort` | chronoxide-core/src/storage/encoding/varint.rs:11-45 | A delimited code is the canonical one exactly when it has the canonical length, which is the decoder's check. |
| `Varint.EncodeVarint` | chronoxide-core/src/storage/encoding/varint.rs:3-9 | The loop appends the code. |
| `Varint.VarintLen` | chronoxide-core/src/storage/encoding/varint.rs:47-54 | The loop computes the code's length. |
| `Varint.DecodeVarint` | chronoxide-core/src/storage/encoding/varint.rs:11-45 | Accepts exactly canonical codes of 64-bit numbers and consumes exactly the code; input that ends inside a code is truncated, one beyond ten bytes or 64 bits exceeds them, and overlong codes are refused, each with its error. |
| `Varint.ZigzagRoundTrip` | chronoxide-core/src/storage/encoding/zigzag.rs:1-7 | The arithmetic reading of zigzag is a bijection between signed and unsigned 64-bit numbers. |
| `Varint.ZigzagBitsRoundTrip` | chronoxide-core/src/storage/encoding/zigzag.rs:1-7 | The shift-and-xor forms are inverse on all 64-bit words and compute, in two's complement, exactly the arithmetic reading. |
| `Varint.PrefixUnique` | chronoxide-core/src/storage/encoding/varint.rs:11-45 | At most one number's code starts a text. |
| `Block.WrapBack` | chronoxide-core/src/storage/block.rs:758-813 | A wrapping delta added back with wrap-around gives the value again, for all i64 pairs. |
| `Block.DeltasInjective` | chronoxide-core/src/storage/block.rs:795-813 | Equal delta streams of equal length come from equal values. |
| `Block.NewCodec` | chronoxide-core/src/storage/block.rs:696-769 | A new codec holds its first value. |
| `Block.PushValue` | chronoxide-core/src/storage/block.rs:702-774 | Pushing extends the held values by one, for both codecs and all i64 values. |
| `Block.SnapshotBytes` | chronoxide-core/src/storage/block.rs:715-785 | The bytes are exactly those of the held values. |
| `Block.DecodeAll` | chronoxide-core/src/storage/block.rs:207-230 | Decoding a varint stream returns exactly the numbers it encodes and refuses a wrong count or leftover bytes. |
| `Block.EncodingsInjective` | chronoxide-core/src/storage/block.rs:207-230 | No two varint streams are the same bytes, whatever their lengths. |
| `Block.DecodeDeltas` | chronoxide-core/src/storage/block.rs:795-813 | Decoding a delta stream returns exactly the values it encodes. |
| `Block.DecodeRaw` | chronoxide-core/src/storage/block.rs:731-756 | Decoding fixed 8-byte values returns exactly the values, exactly when the length fits the count. |
| `Block.DecodeValues` | chronoxide-core/src/storage/block.rs:731-813 | Either codec decodes what it encoded. |
| `Block.DecodeBuffers` | chronoxide-core/src/storage/block.rs:207-230 | Both streams together give the samples back, and any other count is refused. |
| `BlockLayout.CodeLaid` | chronoxide-core/src/storage/encoding/varint.rs:3-9 | A code has seven bits of the number per byte, lowest first, the high bit on all bytes but the last, and the least length that holds it. |
| `BlockLayout.StreamLaid` | chronoxide-core/src/storage/block.rs:207-230 | In a stream, code `k` starts where the codes before it end. |
| `BlockLayout.TimestampsLaid` | chronoxide-core/src/storage/block.rs:133-159 | The timestamp stream holds, at its place, the code of timestamp `k` minus the base. |
| `BlockLayout.DeltaIs` | chronoxide-core/src/storage/block.rs:758-813 | Delta `k` reads, as a signed number, as value `k` minus the value before it, modulo 2^64. |
| `BlockLayout.ValuesLaid` | chronoxide-core/src/storage/block.rs:696-785 | The value stream holds the codes of the deltas, or every value in 8 bytes little-endian at 8 times its index. |
| `Block.OverlapsIff` | chronoxide-core/src/storage/block.rs:183-185 | A block overlaps a half-open range that is not empty if and only if they share a moment. |
| `Block.OverlapsMissesNothing` | chronoxide-core/src/storage/block.rs:183-185 | A block whose bounds do not overlap a range holds no sample in it. |
| `Block.NewBuilder` | chronoxide-core/src/storage/block.rs:104-131 | A builder with the given base and codec starts with exactly one sample, exactly when it is not before the window. |
| `Block.BlockBuilder.constructor` | chronoxide-core/src/storage/block.rs:104-131 | The new builder stands for its first sample. |
| `Block.BlockBuilder.PushSample` | chronoxide-core/src/storage/block.rs:133-159 | Accepts exactly samples not before the window, appends them, and changes nothing on refusal. |
| `Block.BlockBuilder.DecodeSamples` | chronoxide-core/src/storage/block.rs:207-230 | Decoding the builder gives every accepted sample in order exactly below 2^32 of them; from there on the saturated count makes it fail. |
| `Block.BlockBuilder.TrySeal` | chronoxide-core/src/storage/block.rs:251-263 | Succeeds exactly when the arena has room and memory for both buffers; otherwise arena and builder are as they were. |
| `Block.BlockBuilder.Seal` | chronoxide-core/src/storage/block.rs:232-249 | Succeeds exactly when the arena has room and memory for one buffer after the other; the sealed block stands for the samples. |
| `Block.SealsKept` | chronoxide-core/src/storage/block.rs:232-263 | A sealed block stays valid under every later growth of the arena. |
| `Block.SealedReads` | chronoxide-core/src/storage/block.rs:306-340 | Both references of a sealed block read the exact streams, before and after freeze. |
| `Block.DecodeBlock` | chronoxide-core/src/storage/block.rs:312-340 | Decoding a block from its slices gives the samples; a failing slice of either buffer, or another count, fails it with its error. |
| `Block.ReadBack` | chronoxide-core/src/storage/block.rs:312-340 | At any later time a sealed block decodes alike from the live and the frozen arena: to exactly its samples, or to the error of a saturated count. |
| `SymbolTable.IdUnique` | chronoxide-core/src/labels/symbol_table.rs:885-891 | An id resolves to a string if and only if it is that string's id. |
| `SymbolTable.IndexedFirst` | chronoxide-core/src/labels/symbol_table.rs:849-883 | A new fingerprint keeps the index exact, for any hash function. |
| `SymbolTable.IndexedMore` | chronoxide-core/src/labels/symbol_table.rs:849-883 | A collision appended to the chain keeps the index exact, for any hash function. |
| `SymbolTable.ArenaSymbolTable.constructor` | chronoxide-core/src/labels/symbol_table.rs:757-769 | The new table holds no symbol. |
| `SymbolTable.ArenaSymbolTable.Resolve` | chronoxide-core/src/labels/symbol_table.rs:885-891 | Resolves every id to its string. |
| `SymbolTable.ArenaSymbolTable.Lookup` | chronoxide-core/src/labels/symbol_table.rs:826-843 | Finds a string exactly when interned, with its id, whatever the hash function. |
| `SymbolTable.ArenaSymbolTable.TryIntern` | chronoxide-core/src/labels/symbol_table.rs:849-883 | Succeeds if and only if the symbol is known or count, length and the joined bytes of all symbols stay in their limits; then gives the first-seen id, and old ids keep their meaning; otherwise names the limit and changes nothing. |
| `SymbolTable.ArenaSymbolTable.InternNew` | chronoxide-core/src/labels/symbol_table.rs:893-937 | Appends bytes, location and symbol, with offset and length inside their widths, or changes nothing. |
| `SymbolTable.ArcSymbolTable.constructor` | chronoxide-core/src/labels/symbol_table.rs:278-282 | The new table holds no symbol. |
| `SymbolTable.ArcSymbolTable.Intern` | chronoxide-core/src/labels/symbol_table.rs:316-330 | The first-seen id narrowed to 32 bits, on every trace. |
| `SymbolTable.RunBoth` | chronoxide-core/src/labels/symbol_table.rs:307-334 | On every trace the arena table does not refuse, both tables give the same ids, those of the list of distinct strings. |
| `XxHashVectors.EmptyInput` | chronoxide-core/src/hash.rs:61-106 | XXH64 of the empty input is the published 0xEF46DB3751D8E999. |
| `XxHashVectors.OneByte` | chronoxide-core/src/hash.rs:95-99 | The published hash of "a", by the byte step. |
| `XxHashVectors.FiveBytes` | chronoxide-core/src/hash.rs:87-99 | The published hash of "hello", by the 4-byte and the byte step. |
| `XxHashVectors.FourteenBytes` | chronoxide-core/src/hash.rs:77-99 | The published hash of the first 14 bytes of the reference sanity buffer, by the 8-byte, 4-byte and byte steps. |
| `XxHashVectors.WholeStripe` | chronoxide-core/src/hash.rs:61-114 | The published hash of a 39-byte text, by a whole stripe, the convergence of the lanes and all three tail steps. |
| `XxHash.StripesPrefix` | chronoxide-core/src/hash.rs:108-114 | Full stripes depend only on the bytes they cover. |
| `XxHash.NextStripe` | chronoxide-core/src/hash.rs:108-114 | One more block is one more stripe of the one-shot algorithm. |
| `XxHash.XxHash64.constructor` | chronoxide-core/src/hash.rs:17-31 | The initial lanes are those of the empty input, whatever the buffer holds. |
| `XxHash.XxHash64.ConsumeBlock` | chronoxide-core/src/hash.rs:108-114 | Consumes one stripe. |
| `XxHash.XxHash64.Update` | chronoxide-core/src/hash.rs:34-59 | After any update the state is that of the concatenated input, whatever stale bytes the buffer holds. |
| `XxHash.XxHash64.BufferMore` | chronoxide-core/src/hash.rs:37-44 | Short pieces only extend the buffered part. |
| `XxHash.XxHash64.CompleteBlock` | chronoxide-core/src/hash.rs:45-50 | A completed buffer becomes one stripe. |
| `XxHash.XxHash64.ConsumeAll` | chronoxide-core/src/hash.rs:52-58 | Whole blocks are consumed in place and the remainder is buffered. |
| `XxHash.XxHash64.CopyIn` | chronoxide-core/src/hash.rs:34-59 | The buffer changes in exactly the copied part: the bytes before and after it are kept. |
| `XxHash.XxHash64.Finish` | chronoxide-core/src/hash.rs:61-106 | Returns `Streamed` of the whole input: the one-shot XXH64 with the choice of accumulator and the added length taken from the wrapped length. `AgreeIff` and `LengthIff` say when that is the one-shot XXH64, and `XxHashVectors` that the one-shot algorithm is XXH64 on the published inputs of every branch. |
| `XxHash.FinishTail` | chronoxide-core/src/hash.rs:77-99 | The three loops over the remainder compute the one-shot tail. |
| `XxHash.HashPieces` | chronoxide-core/src/hash.rs:116-120 | For every way of splitting an input into updates, empty ones included, the result is `Streamed` of the concatenation, which depends on the concatenation alone (`AgreeIff`, `LengthIff` and `XxHashVectors` tie it to XXH64). |
| `XxHashLength.AgreeIff` | chronoxide-core/src/hash.rs:61-106 | On every input the streamed hash is the one-shot XXH64 if and only if the input has fewer than 32 bytes, or its wrapped length is at least 32, or its converged lanes happen to equal the accumulator of a short input: every later stage of the hash is injective in the accumulator. |
| `XxHashLength.WrongHash` | chronoxide-core/src/hash.rs:35-75 | The failing input: for every length of at least 32 whose wrapped length is below 32, a concrete input of that length (zeros, with a last whole block that takes all four lanes to zero) gets another hash than XXH64. |
| `XxHashLength.LengthIff` | chronoxide-core/src/hash.rs:35-75 | The streamed hash is XXH64 on all inputs of a length if and only if the length is below 32 or wraps to at least 32. |
| `XxHashLength.RemainingInjective` | chronoxide-core/src/hash.rs:77-99 | The three loops over the remainder never take two accumulators to one. |
| `XxHashLength.AvalancheInjective` | chronoxide-core/src/hash.rs:100-106 | Nor does the final avalanche. |
| `ExpBuckets.FloorDivIsFloor` | chronoxide-core/src/storage/mod.rs:24-33 | Truncating division with its correction is floor division by the power of two, also for negative indices. |
| `ExpBuckets.FloorTwice` | chronoxide-core/src/storage/head/projection.rs:763-803 | Coarsening in two steps lands in the same bucket as in one. |
| `ExpBuckets.TotalIsRange` | chronoxide-core/src/storage/head/projection.rs:763-803 | A bucket at a coarser scale is the sum of its range at the finer scale. |
| `ExpBuckets.CoarserGrows` | chronoxide-core/src/storage/head/projection.rs:763-803 | Bucket-wise growth at one scale implies it at every coarser scale. |
| `ExpBuckets.Downscale` | chronoxide-core/src/storage/head/projection.rs:763-803 | Succeeds exactly when representable, and then every bucket holds exactly the sum of its source buckets; a higher target scale and a shift over 63 are refused, each with its error. |
| `ExpBuckets.Fold` | chronoxide-core/src/storage/head/projection.rs:785-802 | The loop accumulates exactly these sums, with its overflow checks. |
| `ResetTracker.ComputeExponentialHint` | chronoxide-core/src/otlp_reset.rs:310-364 | The computed hint is the hint defined by bucket totals at the common scale. |
| `ResetTracker.OtlpResetTracker.constructor` | chronoxide-core/src/otlp_reset.rs:16-25 | The new tracker remembers nothing. |
| `ResetTracker.OtlpResetTracker.Stamp` | chronoxide-core/src/otlp_reset.rs:44-94 | Stamps the hint against the remembered state and remembers the sample; which hint that is in a run: `HistogramRunHint`, `ExponentialRunHint`, `UntrackedHint`. |
| `ResetTracker.OtlpResetTracker.Prepare` | chronoxide-core/src/otlp_reset.rs:96-164 | Changes nothing; gives the hint that stamping gives (`HistogramRunHint`, `ExponentialRunHint`, `UntrackedHint`) and a token whose commit leads to the same state as stamping; fails only without memory. |
| `ResetTracker.RunPrepared` | chronoxide-core/src/otlp_reset.rs:96-171 | For every trace of prepares, commits and drops, hints and state equal immediate stamping of only the committed samples. |
| `ResetHints.FellIff` | chronoxide-core/src/otlp_reset.rs:370-372 | A sum has decreased if and only if both are there, neither is NaN, and the later one is smaller in the order of the extended reals. |
| `ResetHints.HistogramVerdict` | chronoxide-core/src/otlp_reset.rs:283-308 | CounterReset if and only if the start moved later, or with equal bounds the count, the sum or one of equally many buckets fell; Unknown if and only if otherwise the bounds differ or are NaN, or the numbers of buckets differ. |
| `ResetHints.ExponentialVerdict` | chronoxide-core/src/otlp_reset.rs:310-364 | CounterReset if and only if the start moved later, or with equal zero thresholds the count, the zero count, the sum or, at the common scale, a bucket total fell; Unknown if and only if otherwise the thresholds differ or the buckets cannot be represented at the common scale. |
| `ResetHints.HistogramRemembered` | chronoxide-core/src/otlp_reset.rs:44-63 | After any run the tracker compares with the last cumulative, fresh histogram of the series, whatever else came between. |
| `ResetHints.ExponentialRemembered` | chronoxide-core/src/otlp_reset.rs:65-94 | The same for exponential histograms. |
| `ResetHints.HistogramRunHint` | chronoxide-core/src/otlp_reset.rs:44-63 | So in every run a histogram sample is stamped CounterReset, or Unknown, if and only if the verdict against that sample is. |
| `ResetHints.ExponentialRunHint` | chronoxide-core/src/otlp_reset.rs:65-94 | The same for exponential histograms. |
| `ResetHints.UntrackedHint` | chronoxide-core/src/otlp_reset.rs:44-94 | Delta samples are stamped NotCounterReset; samples of unspecified temporality, stale samples and the first of a series Unknown. |
| `ResetHints.RunHints` | chronoxide-core/src/otlp_reset.rs:44-94 | The hints of a run are, one by one, the hints against the samples before. |
| `ResetTracker.NotResetGrew` | chronoxide-core/src/otlp_reset.rs:283-308 | One NotCounterReset hint means equal bounds and no decrease of count or any bucket. |
| `ResetTracker.HistogramChain` | chronoxide-core/src/otlp_reset.rs:283-308 | Along a chain of NotCounterReset hints, other series and stale or delta samples interleaved, the remembered state has grown from the first sample. |
| `ResetTracker.HistogramChainEnds` | chronoxide-core/src/otlp_reset.rs:283-308 | Such a chain implies equal bounds and non-decreasing count and buckets from first to last. |
| `ResetTracker.NotResetGrewExponential` | chronoxide-core/src/otlp_reset.rs:310-364 | One NotCounterReset hint means growth of count, zero count and every bucket at every common scale. |
| `ResetTracker.GrewCoarser` | chronoxide-core/src/otlp_reset.rs:310-364 | Growth carries over to coarser scales. |
| `ResetTracker.ExponentialChain` | chronoxide-core/src/otlp_reset.rs:310-364 | Along a chain of NotCounterReset hints with changing scales, every bucket has grown at any scale not above the chain's. |
| `ResetTracker.ExponentialChainEnds` | chronoxide-core/src/otlp_reset.rs:310-364 | Such a chain implies growth from the first to the last sample. |
| `ResetTracker.SumChain` | chronoxide-core/src/otlp_reset.rs:283-308 | Along a chain of NotCounterReset hints the remembered sum has not decreased, provided the samples after the first have a sum. |
| `ResetTracker.SumChainEnds` | chronoxide-core/src/otlp_reset.rs:283-308 | From first to last the sum does not decrease, provided the samples between have a sum that is a number. |
| `ResetTracker.SumKeptIff` | chronoxide-core/src/otlp_reset.rs:283-308 | A histogram keeps sums from decreasing across two NotCounterReset hints if and only if it has a sum that is a number, or a NaN bound makes every hint unknown. |
| `ResetTracker.SumMayDecrease` | chronoxide-core/src/otlp_reset.rs:370-372 | The failing runs: through every histogram whose sum is missing or NaN goes a run of three samples, hinted NotCounterReset twice, whose sum decreases. |
| `ResetTracker.ExponentialSumChain` | chronoxide-core/src/otlp_reset.rs:310-364 | The same chain property of sums for exponential histograms. |
| `ResetTracker.ExponentialSumChainEnds` | chronoxide-core/src/otlp_reset.rs:310-364 | From first to last the sum does not decrease, provided the samples between have a sum that is a number. |
| `ResetTracker.ExponentialSumKeptIff` | chronoxide-core/src/otlp_reset.rs:310-364 | The same if-and-only-if, the other way out being buckets that fit no scale. |
| `ResetTracker.ExponentialSumMayDecrease` | chronoxide-core/src/otlp_reset.rs:310-364 | The failing runs of exponential histograms, also through buckets that only fit a coarser scale. |
| `ExpBuckets.Coarsened` | chronoxide-core/src/storage/head/projection.rs:763-803 | Representable buckets have a form at the coarser scale that holds the same in every bucket. |
| `PromqlText.CopyQuoted` | chronoxide-core/src/promql/parser.rs:260-295 | The cursor loop copies the literal as specified and consumes exactly it. |
| `PromqlText.OpenTakesAll` | chronoxide-core/src/promql/parser.rs:260-295 | An unterminated literal takes the rest of the text. |
| `PromqlText.CopyAgain` | chronoxide-core/src/promql/parser.rs:260-295 | Copying a copied literal again, terminated or not, changes nothing and consumes exactly it, whatever follows. |
| `PromqlText.MeaningKept` | chronoxide-core/src/promql/parser.rs:260-295 | The copied literal has only standard escapes, and read strictly it spells what the original spells leniently, terminated or not. |
| `PromqlText.StrictIsLenient` | chronoxide-core/src/promql/parser.rs:260-295 | Where the strict reading exists, both readings agree. |
| `PromqlText.BodyKept` | chronoxide-core/src/promql/parser.rs:260-295 | A literal is copied unchanged exactly when its escapes are standard. |
| `PromqlText.WrittenIsQuiet` | chronoxide-core/src/promql/parser.rs:260-295 | A copied literal, terminated or not, needs no further change. |
| `PromqlRewrite.RewriteAliases` | chronoxide-core/src/promql/parser.rs:56-103 | The cursor loop makes exactly the alias pass and terminates. |
| `PromqlRewrite.AliasKept` | chronoxide-core/src/promql/parser.rs:56-103 | From every cursor, the alias pass leaves the rest unchanged exactly when it has no alias call and no non-standard escape on the way. |
| `PromqlRewrite.RewriteMatchers` | chronoxide-core/src/promql/parser.rs:182-218 | The cursor loop makes exactly the matcher rewriting. |
| `PromqlRewrite.MatchersKept` | chronoxide-core/src/promql/parser.rs:182-218 | Matchers are unchanged exactly when no dotted label stands before an operator and literals are standard. |
| `PromqlRewrite.RewriteGrouping` | chronoxide-core/src/promql/parser.rs:220-258 | The cursor loop makes exactly the grouping rewriting. |
| `PromqlRewrite.GroupKept` | chronoxide-core/src/promql/parser.rs:220-258 | Grouping labels are unchanged exactly when none is dotted. |
| `PromqlRewrite.NormalizedHasNoDot` | chronoxide-core/src/promql/normalize.rs:147-178 | A normalized label name has no dot and is not shorter. |
| `PromqlRewrite.RewriteOtlp` | chronoxide-core/src/promql/parser.rs:105-151 | The cursor loop makes exactly the OTLP pass and terminates. |
| `PromqlRewrite.OtlpKept` | chronoxide-core/src/promql/parser.rs:105-151 | From every cursor, the OTLP pass leaves the rest unchanged exactly when nothing dotted is to be rewritten and literals are standard. |
| `PromqlRewrite.IdentityIff` | chronoxide-core/src/promql/parser.rs:56-151 | Either pass is the identity on a text if and only if its quiet condition holds. |
| `PromqlRewrite.PlainTextKept` | chronoxide-core/src/promql/parser.rs:56-151 | Both passes are the identity on text without dots, without alias calls and with standard escapes only. |
| `PromqlAgain.CallComesFromText` | chronoxide-core/src/promql/parser.rs:84-103 | A call of the old name in the output of the alias pass was one in its input. |
| `PromqlAgain.AliasedIsQuiet` | chronoxide-core/src/promql/parser.rs:56-82 | Nothing that the alias pass writes, from any cursor, calls for another alias pass. |
| `PromqlAgain.AliasTwice` | chronoxide-core/src/promql/parser.rs:56-82 | The alias pass is idempotent on every text. |
| `PromqlOtlpAgain.OperatorComes` | chronoxide-core/src/promql/parser.rs:322-327 | An operator after a name in rewritten matchers was there in the text. |
| `PromqlOtlpAgain.MatchersAgain` | chronoxide-core/src/promql/parser.rs:182-218 | Rewritten matchers, closed or not, need no further change and end where they ended. |
| `PromqlOtlpAgain.GroupAgain` | chronoxide-core/src/promql/parser.rs:220-258 | A rewritten grouping clause, closed or not, needs no further change and ends where it ended. |
| `PromqlOtlpAgain.NameMatcherAgain` | chronoxide-core/src/promql/parser.rs:153-180 | The name matcher written for a dotted metric is read again as a matcher that needs no change. |
| `PromqlOtlpAgain.PieceSettles` | chronoxide-core/src/promql/parser.rs:105-151 | Every turn of the OTLP pass writes what a second run leaves alone, turn by turn. |
| `PromqlOtlpAgain.OtlpTwice` | chronoxide-core/src/promql/parser.rs:105-151 | The OTLP pass is idempotent on every text, for fingerprints made of label characters. |
| `PromqlLexer.ReadsLiteral` | chronoxide-core/src/promql/parser.rs:260-295 | Reading the literals of a text from left to right agrees with reading each literal by itself, then the text behind it. |
| `PromqlLexer.StandardLiteral` | chronoxide-core/src/promql/parser.rs:333-338 | Every escape is standard if and only if each literal can be read strictly. |
| `PromqlLexer.BodySame` | chronoxide-core/src/promql/parser.rs:260-295 | A copied literal, terminated or not, spells what it spelled, with standard escapes only, and ends as it ended. |
| `PromqlLexer.AliasSpells` | chronoxide-core/src/promql/parser.rs:56-82 | After the alias pass the literals of every text spell, token by token, what they spelled before, and every escape in them is standard. |
| `PromqlEdits.OtlpTurns` | chronoxide-core/src/promql/parser.rs:105-258 | The OTLP pass is a list of edits: carried out on the text they give exactly what the pass writes, on every text. |
| `PromqlLiterals.KeptSame` | chronoxide-core/src/promql/parser.rs:105-258 | A rewritten name outside literals, and a rewritten escape outside them or in a literal that has escapes, leave all literals as they were, up to the name that is put into quotes. |
| `PromqlLiterals.LostShows` | chronoxide-core/src/promql/parser.rs:105-258 | Any other edit inside a literal shows in the tokens of the output, whatever follows. |
| `PromqlLiterals.KeptIff` | chronoxide-core/src/promql/parser.rs:105-258 | For every list of edits and every state: the literals of the output are those of the text, with the quoted names between them, if and only if no edit falls into a literal. |
| `PromqlLiterals.OtlpLiterals` | chronoxide-core/src/promql/parser.rs:105-258 | For every text, after the OTLP pass: its literals, with the names that the pass quotes at their places, if and only if no edit falls into a literal; then standard escapes stay standard. |
| `PromqlClauses.TurnSafe` | chronoxide-core/src/promql/parser.rs:105-218 | A turn of the pass that is no grouping clause never edits inside a literal, and goes on outside literals. |
| `PromqlClauses.GroupKeptIff` | chronoxide-core/src/promql/parser.rs:220-258 | A grouping clause is rewritten outside literals if and only if none of its literals holds a dotted label. |
| `PromqlClauses.KeptIffOutside` | chronoxide-core/src/promql/parser.rs:105-258 | Where no grouping clause ends inside a literal, no edit falls into a literal if and only if no literal in a clause holds a dotted label. |
| `PromqlClauses.OtlpLiteralsIff` | chronoxide-core/src/promql/parser.rs:105-258 | On such a text the literals survive the OTLP pass if and only if no literal in a grouping clause holds a dotted label. |
| `PromqlPasses.StepClause` | chronoxide-core/src/promql/parser.rs:56-258 | The alias pass moves no dotted label and no end of a grouping clause into a literal or out of one, although it changes escapes inside them. |
| `PromqlPasses.AliasKeepsClauses` | chronoxide-core/src/promql/parser.rs:56-258 | So both conditions can be checked on the query itself. |
| `PromqlPasses.LiteralsSurvive` | chronoxide-core/src/promql/parser.rs:29-54 | For every query, after both passes: the literals of the query, spelling what they spelled, with the quoted names between them and only standard escapes, if and only if no edit of the OTLP pass falls into a literal. |
| `PromqlPasses.SurviveIff` | chronoxide-core/src/promql/parser.rs:29-54 | For every query whose grouping clauses do not end inside literals: its literals survive both passes if and only if no literal in a grouping clause holds a dotted label. |
| `PromqlQuotedLabels.QuotedLabelStays` | chronoxide-core/src/promql/parser.rs:220-258 | `by ("job")`: a quoted label without a dot goes through both passes unchanged. |
| `PromqlQuotedLabels.QuotedLabelChanges` | chronoxide-core/src/promql/parser.rs:220-258 | A failing family: around a quoted dotted label the OTLP pass rewrites inside the quotes, so the literal spells another label. |
| `PromqlQuotedLabels.ParenLosesLiteral` | chronoxide-core/src/promql/parser.rs:220-258 | The other failing family, `by ("a)b.c")`: the parenthesis ends the clause inside the literal, and the dotted name behind it is taken for a metric, so a name matcher is written into the literal. |
| `PromqlQuotedLabels.ParenKeepsLiteral` | chronoxide-core/src/promql/parser.rs:220-258 | `by ("a)b")`: the clause ends inside the literal too, but with no dot behind it nothing is changed. |
| `PromqlForms.OldCallRenamed` | chronoxide-core/src/promql/parser.rs:56-82 | A call of `holt_winters` becomes one of `double_exponential_smoothing`. |
| `PromqlForms.OtherNamesStay` | chronoxide-core/src/promql/parser.rs:84-103 | Inside a longer name, or without a parenthesis behind it, the old name stays. |
| `PromqlForms.EscapeForms` | chronoxide-core/src/promql/parser.rs:260-338 | Which escapes are kept, which get a second backslash, and that an escaped slash becomes a slash. |
| `PromqlForms.MetricAlone` | chronoxide-core/src/promql/parser.rs:153-180 | For every dotted name `v`: `v` becomes `{__name__="v"}`. |
| `PromqlForms.MetricWithBraces` | chronoxide-core/src/promql/parser.rs:153-180 | So does `v{}`. |
| `PromqlForms.MetricWithMatchers` | chronoxide-core/src/promql/parser.rs:153-180 | `v{m` becomes `{__name__="v",` with the rewritten matchers. |
| `PromqlForms.CalledNameStays` | chronoxide-core/src/promql/parser.rs:153-180 | A dotted name that is called stays. |
| `PromqlForms.MatcherQuoted` | chronoxide-core/src/promql/parser.rs:182-218 | A dotted label before any of the four operators is put into quotes, and nothing else of it changes. |
| `PromqlForms.OtherWordStays` | chronoxide-core/src/promql/parser.rs:182-218 | Without an operator behind it, it stays. |
| `PromqlForms.NormalizedIs` | chronoxide-core/src/promql/normalize.rs:147-178 | The normalized label: dots become underscores, `_x` and the fingerprint follow, and `otel_` is put before a double underscore. |
| `PromqlForms.GroupingLabel` | chronoxide-core/src/promql/parser.rs:220-258 | After each of the six grouping keywords a dotted label in parentheses is normalized. |
| `PromqlForms.OtherCall` | chronoxide-core/src/promql/parser.rs:105-151 | After any other plain name it is rewritten as a metric. |
| `PromqlFloat.ScientificForms` | chronoxide-core/src/promql/normalize.rs:87-115 | Two printed numbers, with their signs, points and exponents. |
| `PromqlFloat.SameNumber` | chronoxide-core/src/promql/normalize.rs:50-76 | For every plain decimal of a non-zero number, the scientific form denotes exactly the same rational number. |
| `PromqlFloat.Shape` | chronoxide-core/src/promql/normalize.rs:87-105 | One non-zero leading digit, no trailing zero in the fraction, and an exponent with sign and at least two digits. |
| `PromqlFloat.ExponentReads` | chronoxide-core/src/promql/normalize.rs:107-115 | A printed exponent reads back as itself. |
| `PromqlFloat.ScientificReads` | chronoxide-core/src/promql/normalize.rs:87-105 | What a scientific text spells: the trimmed digits and the adjusted power of ten. |
| `PromqlFloat.SciParts` | chronoxide-core/src/promql/normalize.rs:50-76 | The digits and exponent chosen from the plain form stand for its number, with no leading zero. |
| `PromqlFloat.TrimScaled` | chronoxide-core/src/promql/normalize.rs:87-90 | Dropping trailing zeros is paid for by the exponent. |

## Left out

- HTTP interface, Kafka source, configuration, telemetry, query lowering and the external PromQL parser: plumbing, or code outside the repository.
- Waiting and waking: a thread that must wait takes no step, and the condition variable itself is not modelled; that waiting threads are eventually served is not stated.
- Statistics and peak counters of the governor: bookkeeping that no decision reads.
- Overflow of the governor's 32-bit lease, caller and activity counts: the model counts without bound where the source panics on overflow.
- Opening a file: success or failure is free, inode identity and errno classification are not modelled; instance ids are arbitrary.
- `normalize_handles`: requests are taken with distinct keys, in any order; conflicting duplicates are refused before the model starts.
- GovernorManager.MetadataFileManager.constructor: takes a valid configuration; `NewManager` makes the checks.
- GovernorTheorems.RollbackRestores: speaks of a table that no other thread has changed between prepare and rollback; `RollbackExact` covers every state.
- GovernorRuns.Step: a sweep event may detach any set of idle files of a retiring segment; the method detaches all of them.
- LabelMerge.SortLabels: stands in for the standard library's unstable sort; the keys it sorts by are distinct, so the result is the same.
- LabelMerge.Render: a double carries its rendered text.
- LabelMerge.SortAndDedup: labels are sequences that the loop reassigns, not buffers reused across calls.
- Series interning after the label set is built: adds only lookups of the symbol table.
- CaptureWriter.OtlpCaptureWriter.Append: run for fewer than 2^64 messages; byte totals do not wrap, and file system errors are not modelled, so a directory is a map from names to bytes. With a topic of 2^32 bytes or more the source has already created the partition file and written its first bytes when it refuses; the model keeps nothing of it.
- CaptureReader.MultiPartitionReader.NextWithSequence: the binary heap is a set from which the least item is taken; its array layout is not modelled.
- CaptureFormat.ReadsRecord: zstd is any lossless codec; the JSON text of the manifest is a value.
- Opening a single partition of a capture by number: the same reader without the merge.
- Arena.BlockArena.TryAlloc: whether memory is available is an argument.
- Float block codecs (Gorilla, ELF, Chimp, ALP) and raw doubles: raw doubles take the same 8-byte path as raw integers; capacity reservation has no effect on values.
- German, SmolStr and Lasso symbol tables: the same algorithm over foreign string types.
- ExpBuckets.FloorDivIsFloor: the debug assertion that the divisor is positive, which panics at a shift of 63 in debug builds, is not modelled; the release build is.
- ExpBuckets.Downscale: likewise follows the release build at a shift of 63.
- ResetTracker.OtlpResetTracker.Prepare: whether memory is available is an argument; doubles are unrounded reals with infinities and NaN.
- PromqlRewrite.RewriteOtlp: the hexadecimal fingerprint appended to a normalized name is a parameter made of label characters, and cursors count characters where the source counts bytes.
- The grammar of PromQL: what a rewritten text means is stated of its literals and quoted names, not of a parsed expression, because the parser is outside the repository.
- PromqlFloat.SameNumber: covers every plain decimal of a non-zero number; special values, zero and the thresholds between plain and scientific form are single branches, and the standard library's shortest decimal of a float is not modelled.
