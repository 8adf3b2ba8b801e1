/** The records of a capture run, partition by partition. */
module CaptureLog {
  import opened Common
  import opened Bytes
  import opened CaptureFormat
  import Decimal

  datatype Message = Message(partition: i32, offset: i64, timestamp: i64, capturedAt: i64, payload: seq<byte>)

  function RecordOf(sequence: u64, m: Message): Record {
    Record(sequence, m.offset, m.timestamp, m.capturedAt, m.payload)
  }

  /** The records of partition `p` among the messages from number `i` on, with
      their global sequence numbers. */
  function Records(log: seq<Message>, p: i32, i: nat): seq<Record>
    requires |log| <= U64
    decreases |log| - i
  {
    if i >= |log| then []
    else (if log[i].partition == p then [RecordOf(i, log[i])] else []) + Records(log, p, i + 1)
  }

  /** The first record still to come: number `i` itself, or a later one. */
  lemma {:induction false} FirstRecord(log: seq<Message>, p: i32, i: nat)
    requires |log| <= U64 && Records(log, p, i) != []
    ensures i < |log| && Records(log, p, i)[0].sequence >= i
    ensures Records(log, p, i)[0].sequence == i <==> log[i].partition == p
    decreases |log| - i
  {
    if i < |log| && log[i].partition != p {
      assert Records(log, p, i) == Records(log, p, i + 1);
      FirstRecord(log, p, i + 1);
    }
  }

  lemma RecordsStep(log: seq<Message>, p: i32, i: nat)
    requires |log| <= U64 && i < |log|
    ensures Records(log, p, i) == if log[i].partition == p then [RecordOf(i, log[i])] + Records(log, p, i + 1)
                                  else Records(log, p, i + 1)
  {
  }

  lemma {:induction false} RecordsAppend(log: seq<Message>, m: Message, p: i32, i: nat)
    requires |log| < U64 && i <= |log|
    ensures Records(log + [m], p, i) == Records(log, p, i) + if m.partition == p then [RecordOf(|log|, m)] else []
    decreases |log| - i
  {
    var more := log + [m];
    if i == |log| {
      assert Records(more, p, i + 1) == [];
    } else {
      RecordsAppend(log, m, p, i + 1);
      assert more[i] == log[i];
    }
  }

  /** Every message fits its record. */
  ghost predicate Encodable(z: Codec, mode: Compression, log: seq<Message>) {
    forall i :: 0 <= i < |log| ==> Fits(z, mode, log[i].payload)
  }

  lemma {:induction false} RecordsFit(z: Codec, mode: Compression, log: seq<Message>, p: i32, i: nat)
    requires |log| <= U64 && Encodable(z, mode, log)
    ensures AllFit(z, mode, Records(log, p, i))
    decreases |log| - i
  {
    if i < |log| { RecordsFit(z, mode, log, p, i + 1); }
  }

  lemma {:induction false} EncodeAppend(z: Codec, mode: Compression, rs: seq<Record>, r: Record)
    requires AllFit(z, mode, rs) && Fits(z, mode, r.payload)
    ensures AllFit(z, mode, rs + [r])
    ensures Encode(z, mode, rs + [r]) == Encode(z, mode, rs) + RecordBytes(z, mode, r)
  {
    hide RecordBytes, Fits;
    if rs == [] {
      assert rs + [r] == [r] && [r][1..] == [];
      assert Encode(z, mode, []) == [];
      assert Encode(z, mode, [r]) == RecordBytes(z, mode, r) + [];
    } else {
      EncodeAppend(z, mode, rs[1..], r);
      assert (rs + [r])[1..] == rs[1..] + [r];
    }
  }

  /** Bytes of a complete partition file. */
  ghost function FileBytes(z: Codec, topic: seq<byte>, mode: Compression, log: seq<Message>, p: i32): seq<byte>
    requires |topic| < U32 && |log| <= U64 && Encodable(z, mode, log)
  {
    RecordsFit(z, mode, log, p, 0);
    HeaderBytes(Header(topic, mode, p)) + Encode(z, mode, Records(log, p, 0))
  }

  function PayloadTotal(rs: seq<Record>): nat {
    if rs == [] then 0 else PayloadTotal(rs[..|rs| - 1]) + |rs[|rs| - 1].payload|
  }

  function StoredTotal(z: Codec, mode: Compression, rs: seq<Record>): nat {
    if rs == [] then 0 else StoredTotal(z, mode, rs[..|rs| - 1]) + |Stored(z, mode, rs[|rs| - 1].payload)|
  }

  function FileName(partition: i32): string {
    "partition-" + Decimal.Text(partition) + ".capture"
  }

  /** Partitions never share a file. */
  lemma FileNameInjective(p: i32, q: i32)
    requires FileName(p) == FileName(q)
    ensures p == q
  {
    hide Decimal.Text;
    var head, tail := "partition-", ".capture";
    assert FileName(p)[|head|..|FileName(p)| - |tail|] == Decimal.Text(p);
    assert FileName(q)[|head|..|FileName(q)| - |tail|] == Decimal.Text(q);
    Decimal.TextInjective(p, q);
  }

  // ---------------------------------------------------------------- directory

  datatype PartitionMetadata = PartitionMetadata(
    partition: i32, fileName: string, messageCount: nat, uncompressedBytes: nat, compressedBytes: nat)

  datatype Manifest = Manifest(version: nat, topic: seq<byte>, compression: Compression, partitions: seq<PartitionMetadata>)

  /** A capture directory: its partition files and its manifest, once written. */
  datatype Directory = Directory(files: map<string, seq<byte>>, manifest: Option<Manifest>)

  const MANIFEST_VERSION := 2

  function MetadataOf(z: Codec, mode: Compression, log: seq<Message>, p: i32): PartitionMetadata
    requires |log| <= U64
  {
    var rs := Records(log, p, 0);
    PartitionMetadata(p, FileName(p), |rs|, PayloadTotal(rs), StoredTotal(z, mode, rs))
  }

  predicate Listed(partitions: seq<PartitionMetadata>, p: i32) {
    exists i :: 0 <= i < |partitions| && partitions[i].partition == p
  }

  /** The partition's totals and file are exactly those of the run. */
  ghost predicate CapturedAt(m: PartitionMetadata, files: map<string, seq<byte>>, z: Codec, topic: seq<byte>, mode: Compression, log: seq<Message>) {
    && |topic| < U32 && |log| <= U64 && Encodable(z, mode, log) && m == MetadataOf(z, mode, log, m.partition)
    && m.fileName in files && files[m.fileName] == FileBytes(z, topic, mode, log, m.partition)
  }

  /** The directory holds exactly the run `log`: every partition of the run once,
      in ascending order, with its file and its exact totals. */
  ghost predicate Captures(d: Directory, z: Codec, topic: seq<byte>, mode: Compression, log: seq<Message>) {
    && ValidUtf8(topic) && |log| <= U64 && Encodable(z, mode, log)
    && d.manifest.Some?
    && var m := d.manifest.value;
       && m.version == MANIFEST_VERSION && m.topic == topic && m.compression == mode
       && (forall i, j :: 0 <= i < j < |m.partitions| ==> m.partitions[i].partition < m.partitions[j].partition)
       && (forall i :: 0 <= i < |m.partitions| ==> CapturedAt(m.partitions[i], d.files, z, topic, mode, log))
       && (forall k :: 0 <= k < |log| ==> Listed(m.partitions, log[k].partition))
  }
}
