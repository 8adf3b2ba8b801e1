/** The capture writer: one growing file per partition under one global sequence. */
module CaptureWriter {
  import opened Common
  import opened Bytes
  import opened CaptureFormat
  import opened CaptureLog

  /** A partition's file so far and its running totals. */
  datatype PartitionWriter = PartitionWriter(data: seq<byte>, messageCount: nat, uncompressedBytes: nat, compressedBytes: nat)

  /** The partition's file and totals are exactly those of the run. */
  ghost predicate Holds(w: PartitionWriter, z: Codec, topic: seq<byte>, mode: Compression, log: seq<Message>, p: i32) {
    && |topic| < U32 && |log| <= U64 && Encodable(z, mode, log)
    && w.data == FileBytes(z, topic, mode, log, p)
    && var meta := MetadataOf(z, mode, log, p);
       w.messageCount == meta.messageCount && w.uncompressedBytes == meta.uncompressedBytes && w.compressedBytes == meta.compressedBytes
  }

  function Appended(w: PartitionWriter, z: Codec, mode: Compression, r: Record): PartitionWriter
    requires Fits(z, mode, r.payload)
  {
    PartitionWriter(w.data + RecordBytes(z, mode, r), w.messageCount + 1, w.uncompressedBytes + |r.payload|,
                    w.compressedBytes + |Stored(z, mode, r.payload)|)
  }

  lemma TotalsAppend(z: Codec, mode: Compression, rs: seq<Record>, r: Record)
    ensures PayloadTotal(rs + [r]) == PayloadTotal(rs) + |r.payload|
    ensures StoredTotal(z, mode, rs + [r]) == StoredTotal(z, mode, rs) + |Stored(z, mode, r.payload)|
  {
    assert (rs + [r])[..|rs|] == rs;
  }

  lemma FileBytesAppend(z: Codec, topic: seq<byte>, mode: Compression, log: seq<Message>, m: Message)
    requires |topic| < U32 && |log| < U64 && Encodable(z, mode, log) && Fits(z, mode, m.payload)
    ensures Encodable(z, mode, log + [m])
    ensures FileBytes(z, topic, mode, log + [m], m.partition) ==
            FileBytes(z, topic, mode, log, m.partition) + RecordBytes(z, mode, RecordOf(|log|, m))
  {
    hide RecordBytes, Encode, HeaderBytes, Fits, Records;
    var p, r, rs := m.partition, RecordOf(|log|, m), Records(log, m.partition, 0);
    RecordsFit(z, mode, log, p, 0);
    RecordsAppend(log, m, p, 0);
    EncodeAppend(z, mode, rs, r);
    var header := HeaderBytes(Header(topic, mode, p));
    assert header + Encode(z, mode, rs) + RecordBytes(z, mode, r) == header + (Encode(z, mode, rs) + RecordBytes(z, mode, r));
  }

  lemma HoldsAppended(w: PartitionWriter, z: Codec, topic: seq<byte>, mode: Compression, log: seq<Message>, m: Message)
    requires Holds(w, z, topic, mode, log, m.partition) && |log| < U64 && Fits(z, mode, m.payload)
    ensures Holds(Appended(w, z, mode, RecordOf(|log|, m)), z, topic, mode, log + [m], m.partition)
  {
    hide RecordBytes, FileBytes, Fits, Stored, Records, PayloadTotal, StoredTotal, FileName;
    FileBytesAppend(z, topic, mode, log, m);
    RecordsAppend(log, m, m.partition, 0);
    TotalsAppend(z, mode, Records(log, m.partition, 0), RecordOf(|log|, m));
  }

  lemma HoldsOther(w: PartitionWriter, z: Codec, topic: seq<byte>, mode: Compression, log: seq<Message>, m: Message, p: i32)
    requires Holds(w, z, topic, mode, log, p) && |log| < U64 && Fits(z, mode, m.payload) && m.partition != p
    ensures Holds(w, z, topic, mode, log + [m], p)
  {
    hide Encode, HeaderBytes, Fits, Records;
    RecordsAppend(log, m, p, 0);
    assert Records(log, p, 0) + [] == Records(log, p, 0);
  }

  lemma {:induction false} NoRecords(log: seq<Message>, p: i32, i: nat)
    requires |log| <= U64 && forall k :: 0 <= k < |log| ==> log[k].partition != p
    ensures Records(log, p, i) == []
    decreases |log| - i
  {
    if i < |log| { NoRecords(log, p, i + 1); }
  }

  lemma HoldsNew(z: Codec, topic: seq<byte>, mode: Compression, log: seq<Message>, p: i32)
    requires |topic| < U32 && |log| <= U64 && Encodable(z, mode, log)
    requires forall k :: 0 <= k < |log| ==> log[k].partition != p
    ensures Holds(PartitionWriter(HeaderBytes(Header(topic, mode, p)), 0, 0, 0), z, topic, mode, log, p)
  {
    hide HeaderBytes, Fits;
    NoRecords(log, p, 0);
    var header := HeaderBytes(Header(topic, mode, p));
    assert header + [] == header;
  }

  /** All partitions hold the run, and every message's partition is open. */
  ghost predicate AllHold(ws: map<i32, PartitionWriter>, z: Codec, topic: seq<byte>, mode: Compression, log: seq<Message>) {
    && |log| <= U64 && Encodable(z, mode, log)
    && (forall p :: p in ws ==> Holds(ws[p], z, topic, mode, log, p))
    && (forall k :: 0 <= k < |log| ==> log[k].partition in ws)
  }

  lemma AllHoldAppended(ws: map<i32, PartitionWriter>, z: Codec, topic: seq<byte>, mode: Compression, log: seq<Message>, m: Message)
    requires AllHold(ws, z, topic, mode, log) && |log| < U64 && m.partition in ws && Fits(z, mode, m.payload)
    ensures AllHold(ws[m.partition := Appended(ws[m.partition], z, mode, RecordOf(|log|, m))], z, topic, mode, log + [m])
  {
    hide Holds, Appended, Fits;
    HoldsAppended(ws[m.partition], z, topic, mode, log, m);
    forall p | p in ws && p != m.partition ensures Holds(ws[p], z, topic, mode, log + [m], p) {
      HoldsOther(ws[p], z, topic, mode, log, m, p);
    }
  }

  class OtlpCaptureWriter {
    const topic: seq<byte>
    const mode: Compression
    const zstd: Codec
    var writers: Option<map<i32, PartitionWriter>>
    var messagesWritten: nat
    var directory: Directory
    /** The messages whose append succeeded, and whether no append failed half-way. */
    ghost var log: seq<Message>
    ghost var intact: bool

    ghost predicate Valid()
      reads this
    {
      && ValidUtf8(topic) && messagesWritten == |log| < U64
      && (intact && writers.Some? ==> AllHold(writers.value, zstd, topic, mode, log))
      && (intact && writers.None? ==> Captures(directory, zstd, topic, mode, log))
    }

    constructor (topic: seq<byte>, mode: Compression, zstd: Codec)
      requires ValidUtf8(topic)
      ensures Valid() && intact && log == [] && writers == Some(map[]) && this.topic == topic && this.mode == mode && this.zstd == zstd
    {
      this.topic, this.mode, this.zstd := topic, mode, zstd;
      writers, messagesWritten := Some(map[]), 0;
      directory := Directory(map[], None);
      log, intact := [], true;
    }

    /** Appends one message to its partition under the next global sequence
        number. A message too long for its record leaves the record's first 32
        bytes behind; every other failure changes nothing of the run. */
    method Append(partition: i32, offset: i64, timestamp: i64, capturedAt: i64, payload: seq<byte>) returns (r: Result<(), Error>)
      requires Valid() && messagesWritten + 1 < U64
      modifies this
      ensures Valid()
      ensures r.Ok? <==> old(writers).Some? && (partition in old(writers).value || |topic| < U32) && Fits(zstd, mode, payload)
      ensures r.Ok? ==> log == old(log) + [Message(partition, offset, timestamp, capturedAt, payload)] && intact == old(intact)
      ensures r.Err? ==> log == old(log)
      ensures writers.Some? <==> old(writers).Some?
      ensures r.Err? && (old(writers).None? || (partition !in old(writers).value && |topic| >= U32)) ==> unchanged(this)
    {
      hide Holds, AllHold, Captures, Fits, HeaderBytes, RecordBytes, ValidUtf8, Stamp, Appended;
      if writers.None? {
        return Err(Closed);
      }
      var ws := writers.value;
      if partition !in ws {
        if |topic| >= U32 {
          return Err(TooLong);
        }
        ws := ws[partition := PartitionWriter(HeaderBytes(Header(topic, mode, partition)), 0, 0, 0)];
        if intact { OpensPartition(writers.value, zstd, topic, mode, log, partition); }
      }
      var record := Record(messagesWritten, offset, timestamp, capturedAt, payload);
      var w := ws[partition];
      var fits := FitsRecord(payload);
      if !fits {
        writers := Some(ws[partition := w.(data := w.data + Stamp(record))]);
        intact := false;
        return Err(TooLong);
      }
      ghost var m := Message(partition, offset, timestamp, capturedAt, payload);
      if intact { AllHoldAppended(ws, zstd, topic, mode, log, m); }
      writers := Some(ws[partition := Appended(w, zstd, mode, record)]);
      log := log + [m];
      messagesWritten := messagesWritten + 1;
      r := Ok(());
    }

    /** The two length checks of a record. */
    method FitsRecord(payload: seq<byte>) returns (ok: bool)
      ensures ok <==> Fits(zstd, mode, payload)
    {
      if |payload| >= U32 { return false; }
      if mode.Uncompressed? { return true; }
      var compressed := zstd.compress(payload);
      ok := |compressed| < U32;
    }

    /** Finishes every partition in ascending order and writes the manifest.
        Closing twice changes nothing. */
    method Close()
      requires Valid()
      modifies this
      ensures Valid() && writers.None? && log == old(log) && intact == old(intact)
      ensures old(writers).None? ==> unchanged(this)
    {
      hide AllHold, Captures, Finished;
      if writers.None? { return; }
      var ws := writers.value;
      var partitions, files := FinishAll(ws, directory.files);
      if intact { FinishedCaptures(partitions, files, ws, zstd, topic, mode, log); }
      writers := None;
      directory := Directory(files, Some(Manifest(MANIFEST_VERSION, topic, mode, partitions)));
    }
  }

  /** Finishes the partitions in ascending order. */
  method FinishAll(ws: map<i32, PartitionWriter>, before: map<string, seq<byte>>)
      returns (partitions: seq<PartitionMetadata>, files: map<string, seq<byte>>)
    ensures Finished(partitions, files, ws, {})
  {
    hide FinishedAt, FileName;
    var left := ws.Keys;
    partitions, files := [], before;
    while left != {}
      invariant left <= ws.Keys
      invariant Finished(partitions, files, ws, left)
      decreases |left|
    {
      LeastExists(left);
      var p :| p in left && forall q :: q in left ==> p <= q;
      FinishedMore(partitions, files, ws, left, p);
      partitions := partitions + [FinishedMeta(p, ws[p])];
      files := files[FileName(p) := ws[p].data];
      left := left - {p};
    }
  }

  function FinishedMeta(p: i32, w: PartitionWriter): PartitionMetadata {
    PartitionMetadata(p, FileName(p), w.messageCount, w.uncompressedBytes, w.compressedBytes)
  }

  lemma OpensPartition(ws: map<i32, PartitionWriter>, z: Codec, topic: seq<byte>, mode: Compression, log: seq<Message>, p: i32)
    requires AllHold(ws, z, topic, mode, log) && p !in ws && |topic| < U32
    ensures AllHold(ws[p := PartitionWriter(HeaderBytes(Header(topic, mode, p)), 0, 0, 0)], z, topic, mode, log)
  {
    hide Holds, Fits;
    HoldsNew(z, topic, mode, log, p);
  }

  // ------------------------------------------------------------------ closing

  /** The partitions outside `left` are listed in ascending order, before all of
      `left`, and their files are written. */
  ghost predicate Finished(partitions: seq<PartitionMetadata>, files: map<string, seq<byte>>, ws: map<i32, PartitionWriter>, left: set<i32>) {
    && Ascending(partitions, left)
    && (forall i :: 0 <= i < |partitions| ==> FinishedAt(partitions[i], files, ws))
    && (forall p :: p in ws && p !in left ==> Listed(partitions, p))
  }

  predicate FinishedAt(m: PartitionMetadata, files: map<string, seq<byte>>, ws: map<i32, PartitionWriter>) {
    && m.partition in ws && m.fileName == FileName(m.partition) && m.fileName in files
    && var w := ws[m.partition];
       && files[m.fileName] == w.data && m.messageCount == w.messageCount
       && m.uncompressedBytes == w.uncompressedBytes && m.compressedBytes == w.compressedBytes
  }

  lemma {:induction false} Least(s: set<i32>) returns (p: i32)
    requires s != {}
    ensures p in s && forall q :: q in s ==> p <= q
    decreases |s|
  {
    var x :| x in s;
    p := x;
    var rest := s - {x};
    assert forall q :: q in s ==> q == x || q in rest;
    if rest != {} {
      var least := Least(rest);
      if least < p { p := least; }
    }
  }

  lemma LeastExists(s: set<i32>)
    requires s != {}
    ensures exists p :: p in s && forall q :: q in s ==> p <= q
  {
    var p := Least(s);
  }

  /** The partitions finished so far are in ascending order, below those that are left. */
  ghost predicate Ascending(partitions: seq<PartitionMetadata>, left: set<i32>) {
    && (forall i, j :: 0 <= i < j < |partitions| ==> partitions[i].partition < partitions[j].partition)
    && (forall i, q :: 0 <= i < |partitions| && q in left ==> partitions[i].partition < q)
  }

  lemma AscendingMore(partitions: seq<PartitionMetadata>, left: set<i32>, m: PartitionMetadata)
    requires Ascending(partitions, left) && m.partition in left && forall q :: q in left ==> m.partition <= q
    ensures Ascending(partitions + [m], left - {m.partition})
  {
  }

  lemma FinishedMore(partitions: seq<PartitionMetadata>, files: map<string, seq<byte>>, ws: map<i32, PartitionWriter>, left: set<i32>, p: i32)
    requires Finished(partitions, files, ws, left) && p in left && p in ws && forall q :: q in left ==> p <= q
    ensures Finished(partitions + [FinishedMeta(p, ws[p])], files[FileName(p) := ws[p].data], ws, left - {p})
  {
    var more, after := partitions + [FinishedMeta(p, ws[p])], files[FileName(p) := ws[p].data];
    hide FileName, FinishedAt, Listed;
    AscendingMore(partitions, left, FinishedMeta(p, ws[p]));
    forall i | 0 <= i < |more| ensures FinishedAt(more[i], after, ws) {
      if i < |partitions| {
        assert more[i] == partitions[i];
        FinishedKept(partitions[i], files, ws, p);
      } else {
        FinishedNew(files, ws, p);
      }
    }
    forall q | q in ws && q !in left - {p} ensures Listed(more, q) {
      ListedMore(partitions, FinishedMeta(p, ws[p]), q);
    }
  }

  lemma FinishedKept(m: PartitionMetadata, files: map<string, seq<byte>>, ws: map<i32, PartitionWriter>, p: i32)
    requires FinishedAt(m, files, ws) && p in ws && m.partition != p
    ensures FinishedAt(m, files[FileName(p) := ws[p].data], ws)
  {
    hide FileName;
    if m.fileName == FileName(p) { FileNameInjective(m.partition, p); }
  }

  lemma FinishedNew(files: map<string, seq<byte>>, ws: map<i32, PartitionWriter>, p: i32)
    requires p in ws
    ensures FinishedAt(FinishedMeta(p, ws[p]), files[FileName(p) := ws[p].data], ws)
  {
    hide FileName;
  }

  lemma ListedMore(partitions: seq<PartitionMetadata>, m: PartitionMetadata, q: i32)
    requires Listed(partitions, q) || m.partition == q
    ensures Listed(partitions + [m], q)
  {
    var more := partitions + [m];
    if m.partition == q {
      assert more[|partitions|].partition == q;
    } else {
      var i :| 0 <= i < |partitions| && partitions[i].partition == q;
      assert more[i].partition == q;
    }
  }

  lemma FinishedCaptures(partitions: seq<PartitionMetadata>, files: map<string, seq<byte>>, ws: map<i32, PartitionWriter>,
                         z: Codec, topic: seq<byte>, mode: Compression, log: seq<Message>)
    requires Finished(partitions, files, ws, {}) && AllHold(ws, z, topic, mode, log) && ValidUtf8(topic)
    ensures Captures(Directory(files, Some(Manifest(MANIFEST_VERSION, topic, mode, partitions))), z, topic, mode, log)
  {
    hide FileBytes, Fits, ValidUtf8, FileName;
    forall i | 0 <= i < |partitions| ensures CapturedAt(partitions[i], files, z, topic, mode, log) {
      assert FinishedAt(partitions[i], files, ws);
      assert Holds(ws[partitions[i].partition], z, topic, mode, log, partitions[i].partition);
    }
    forall k | 0 <= k < |log| ensures Listed(partitions, log[k].partition) {
      assert log[k].partition in ws;
    }
  }
}
