/** The capture readers: a cursor over one partition file, and the merge of all
    partitions back into the order in which they were captured. */
module CaptureReader {
  import opened Common
  import opened Bytes
  import opened CaptureFormat
  import opened CaptureLog

  class PartitionReader {
    const header: Header
    const data: seq<byte>
    var pos: nat

    ghost predicate Valid()
      reads this
    { pos <= |data| }

    ghost function Rest(): seq<byte>
      requires Valid()
      reads this
    { data[pos..] }

    constructor (header: Header, data: seq<byte>)
      ensures Valid() && this.header == header && Rest() == data
    {
      this.header, this.data, this.pos := header, data, 0;
    }

    method ReadExact(n: nat) returns (r: Option<seq<byte>>)
      requires Valid()
      modifies this
      ensures Valid()
      ensures if n <= |old(Rest())| then r == Some(old(Rest())[..n]) && Rest() == old(Rest())[n..] else r.None? && Rest() == []
    {
      if pos + n <= |data| {
        assert data[pos..][..n] == data[pos..pos + n] && data[pos..][n..] == data[pos + n..];
        r := Some(data[pos..pos + n]);
        pos := pos + n;
      } else {
        pos := |data|;
        r := None;
      }
    }

    /** Reads the next record, field by field, as the format prescribes. */
    method NextWithSequence(z: Codec) returns (r: Result<Option<Record>, Error>)
      requires Valid()
      modifies this
      ensures Valid()
      ensures match ReadNext(z, header.mode, old(Rest()))
              case End => r == Ok(None) && Rest() == []
              case Failed(error) => r == Err(error)
              case Got(record, rest) => r == Ok(Some(record)) && Rest() == rest
    {
      hide GetU32, GetU64, GetI64;
      ghost var s := Rest();
      var sequence := ReadExact(8);
      if sequence.None? { return Ok(None); }
      var offset := ReadExact(8);
      if offset.None? { return Err(UnexpectedEof); }
      var timestamp := ReadExact(8);
      if timestamp.None? { return Err(UnexpectedEof); }
      var capturedAt := ReadExact(8);
      if capturedAt.None? { return Err(UnexpectedEof); }
      assert s[8..][..8] == s[8..16] && s[16..][..8] == s[16..24] && s[24..][..8] == s[24..32];
      assert s[8..][8..] == s[16..] && s[16..][8..] == s[24..] && s[24..][8..] == s[32..];
      var payload, error := ReadPayload(z, s);
      if payload.None? { return Err(error); }
      r := Ok(Some(Record(GetU64(sequence.value), GetI64(offset.value), GetI64(timestamp.value), GetI64(capturedAt.value), payload.value)));
    }

    /** The lengths and the payload, after the 32 bytes of a record's stamp. */
    method ReadPayload(z: Codec, ghost s: seq<byte>) returns (payload: Option<seq<byte>>, error: Error)
      requires Valid() && |s| >= 32 && Rest() == s[32..]
      modifies this
      ensures Valid()
      ensures match ReadNext(z, header.mode, s)
              case End => false
              case Failed(e) => payload.None? && error == e
              case Got(record, rest) => payload == Some(record.payload) && Rest() == rest
    {
      hide GetU32, GetU64, GetI64;
      error := UnexpectedEof;
      var length := ReadExact(4);
      if length.None? { return None, error; }
      assert s[32..][..4] == s[32..36] && s[32..][4..] == s[36..];
      if header.mode.Uncompressed? {
        payload := ReadExact(GetU32(length.value));
        ghost var n := GetU32(s[32..36]);
        if payload.Some? { assert s[36..][..n] == s[36..36 + n] && s[36..][n..] == s[36 + n..]; }
      } else {
        var stored := ReadExact(4);
        if stored.None? { return None, error; }
        assert s[36..][..4] == s[36..40] && s[36..][4..] == s[40..];
        var compressed := ReadExact(GetU32(stored.value));
        if compressed.None? { return None, error; }
        ghost var n := GetU32(s[36..40]);
        assert s[40..][..n] == s[40..40 + n] && s[40..][n..] == s[40 + n..];
        payload := z.decompress(compressed.value, GetU32(length.value));
        error := InvalidData;
      }
    }
  }

  lemma ReadsFirst(z: Codec, mode: Compression, rs: seq<Record>)
    requires Lossless(z) && AllFit(z, mode, rs)
    ensures ReadNext(z, mode, Encode(z, mode, rs)) == if rs == [] then End else Got(rs[0], Encode(z, mode, rs[1..]))
  {
    hide ReadNext, RecordBytes;
    if rs == [] { NothingToRead(z, mode); } else { ReadsRecord(z, mode, rs[0], Encode(z, mode, rs[1..])); }
  }

  lemma NothingToRead(z: Codec, mode: Compression)
    ensures ReadNext(z, mode, []) == End
  {
  }

  // -------------------------------------------------------------------- merge

  datatype HeapItem = HeapItem(sequence: u64, reader: nat, record: Record)

  /** The heap's order: sequence number, then reader. */
  predicate Smaller(a: HeapItem, b: HeapItem) {
    a.sequence < b.sequence || (a.sequence == b.sequence && a.reader < b.reader)
  }

  predicate Smallest(heap: set<HeapItem>, item: HeapItem) {
    item in heap && forall o :: o in heap ==> !Smaller(o, item)
  }

  lemma {:induction false} SmallestOf(heap: set<HeapItem>) returns (item: HeapItem)
    requires heap != {}
    ensures Smallest(heap, item)
    decreases |heap|
  {
    var x :| x in heap;
    item := x;
    var rest := heap - {x};
    assert forall o :: o in heap ==> o == x || o in rest;
    if rest != {} {
      var least := SmallestOf(rest);
      if Smaller(least, x) { item := least; }
    }
  }

  method Pop(heap: set<HeapItem>) returns (item: HeapItem)
    requires heap != {}
    ensures item in heap && Smallest(heap, item)
  {
    ghost var least := SmallestOf(heap);
    item :| item in heap && Smallest(heap, item);
  }

  /** The item that a partition's next record makes. */
  ghost predicate IsNext(item: HeapItem, log: seq<Message>, p: i32, i: nat)
    requires |log| <= U64
  {
    var rs := Records(log, p, i);
    rs != [] && item.record == rs[0] && item.sequence == rs[0].sequence
  }

  /** The heap holds exactly the next record of every partition. */
  ghost predicate HeapStands(heap: set<HeapItem>, ps: seq<i32>, log: seq<Message>, i: nat)
    requires |log| <= U64
  {
    forall item :: item in heap <==> item.reader < |ps| && IsNext(item, log, ps[item.reader], i)
  }

  predicate DistinctAndListed(ps: seq<i32>, log: seq<Message>) {
    && (forall a, b :: 0 <= a < b < |ps| ==> ps[a] != ps[b])
    && (forall k :: 0 <= k < |log| ==> log[k].partition in ps)
  }

  /** The smallest item is the message captured next. */
  lemma PopIsNext(heap: set<HeapItem>, ps: seq<i32>, log: seq<Message>, i: nat, item: HeapItem)
    requires |log| <= U64 && HeapStands(heap, ps, log, i) && DistinctAndListed(ps, log) && Smallest(heap, item)
    ensures i < |log| && item.reader < |ps| && ps[item.reader] == log[i].partition
    ensures item == HeapItem(i, item.reader, RecordOf(i, log[i]))
  {
    hide Records;
    var p := ps[item.reader];
    FirstRecord(log, p, i);
    var j :| 0 <= j < |ps| && ps[j] == log[i].partition;
    RecordsStep(log, ps[j], i);
    var first := HeapItem(i, j, RecordOf(i, log[i]));
    assert IsNext(first, log, ps[first.reader], i);
    assert !Smaller(first, item);
    RecordsStep(log, p, i);
  }

  /** An empty heap means that everything has been read. */
  lemma EmptyIsEnd(heap: set<HeapItem>, ps: seq<i32>, log: seq<Message>, i: nat)
    requires |log| <= U64 && i <= |log| && HeapStands(heap, ps, log, i) && DistinctAndListed(ps, log)
    ensures heap == {} <==> i == |log|
  {
    hide Records;
    if i < |log| {
      var j :| 0 <= j < |ps| && ps[j] == log[i].partition;
      RecordsStep(log, ps[j], i);
      var first := HeapItem(i, j, RecordOf(i, log[i]));
      assert IsNext(first, log, ps[first.reader], i);
      assert first in heap;
    } else {
      forall item | item in heap ensures false { FirstRecord(log, ps[item.reader], i); }
    }
  }

  ghost function NextItems(log: seq<Message>, p: i32, i: nat, reader: nat): set<HeapItem>
    requires |log| <= U64
  {
    var rs := Records(log, p, i);
    if rs == [] then {} else {HeapItem(rs[0].sequence, reader, rs[0])}
  }

  /** Replacing the popped item by its partition's next one. */
  lemma HeapAdvances(heap: set<HeapItem>, ps: seq<i32>, log: seq<Message>, i: nat, item: HeapItem)
    requires |log| <= U64 && i < |log| && HeapStands(heap, ps, log, i) && DistinctAndListed(ps, log)
    requires item in heap && item.reader < |ps| && ps[item.reader] == log[i].partition
    ensures HeapStands(heap - {item} + NextItems(log, ps[item.reader], i + 1, item.reader), ps, log, i + 1)
  {
    hide Records;
    var after := heap - {item} + NextItems(log, ps[item.reader], i + 1, item.reader);
    forall x ensures x in after <==> x.reader < |ps| && IsNext(x, log, ps[x.reader], i + 1) {
      if x.reader < |ps| && x.reader != item.reader { RecordsStep(log, ps[x.reader], i); }
      if x.reader == item.reader && x in heap {
        assert IsNext(x, log, ps[x.reader], i) && IsNext(item, log, ps[x.reader], i);
      }
    }
  }

  lemma HeapGrows(heap: set<HeapItem>, ps: seq<i32>, log: seq<Message>, p: i32)
    requires |log| <= U64 && HeapStands(heap, ps, log, 0)
    ensures HeapStands(heap + NextItems(log, p, 0, |ps|), ps + [p], log, 0)
  {
    hide Records;
    var more := ps + [p];
    forall x ensures x in heap + NextItems(log, p, 0, |ps|) <==> x.reader < |more| && IsNext(x, log, more[x.reader], 0) {
      if x.reader < |ps| { assert more[x.reader] == ps[x.reader]; }
    }
  }

  /** A message as the reader hands it out. */
  datatype Delivered = Delivered(sequence: nat, topic: seq<byte>, message: Message)

  /** What reading a run from the start must deliver. */
  function Deliveries(topic: seq<byte>, log: seq<Message>): (r: seq<Delivered>)
    ensures |r| == |log| && forall i :: 0 <= i < |r| ==> r[i] == Delivered(i, topic, log[i])
  {
    seq(|log|, i requires 0 <= i < |log| => Delivered(i, topic, log[i]))
  }

  /** The reader's bytes are the records of its partition from number `i` on
      without the first, which is in the heap. */
  ghost predicate StandsAfter(rest: seq<byte>, z: Codec, mode: Compression, log: seq<Message>, p: i32, i: nat) {
    && |log| <= U64 && Encodable(z, mode, log)
    && var rs := Records(log, p, i);
       var later := if rs == [] then [] else rs[1..];
       AllFit(z, mode, later) && rest == Encode(z, mode, later)
  }

  class MultiPartitionReader {
    const readers: seq<PartitionReader>
    const zstd: Codec
    var heap: set<HeapItem>

    ghost predicate Valid()
      reads this, readers
    {
      && (forall a, b :: 0 <= a < b < |readers| ==> readers[a] != readers[b])
      && (forall j :: 0 <= j < |readers| ==> readers[j].Valid())
      && (forall item :: item in heap ==> item.reader < |readers|)
    }

    ghost function Partitions(): (ps: seq<i32>)
      ensures |ps| == |readers|
    {
      seq(|readers|, j requires 0 <= j < |readers| => readers[j].header.partition)
    }

    /** `i` messages of the run have been handed out. */
    ghost predicate Stands(topic: seq<byte>, mode: Compression, log: seq<Message>, i: nat)
      requires Valid()
      reads this, readers
    {
      && Lossless(zstd) && |log| <= U64 && i <= |log| && Encodable(zstd, mode, log)
      && DistinctAndListed(Partitions(), log) && HeapStands(heap, Partitions(), log, i)
      && forall j :: 0 <= j < |readers| ==>
           && readers[j].header.topic == topic && readers[j].header.mode == mode
           && StandsAfter(readers[j].Rest(), zstd, mode, log, readers[j].header.partition, i)
    }

    constructor (readers: seq<PartitionReader>, zstd: Codec, heap: set<HeapItem>)
      ensures this.readers == readers && this.zstd == zstd && this.heap == heap
    {
      this.readers, this.zstd, this.heap := readers, zstd, heap;
    }

    /** Pops the smallest item and refills the heap from its reader. On the files
        of a run it hands out exactly the next message of the run. */
    method NextWithSequence(ghost topic: seq<byte>, ghost mode: Compression, ghost log: seq<Message>, ghost i: nat)
        returns (r: Result<Option<Delivered>, Error>)
      requires Valid()
      modifies this, readers
      ensures Valid()
      ensures old(Stands(topic, mode, log, i)) ==>
                if i < |log| then r == Ok(Some(Delivered(i, topic, log[i]))) && Stands(topic, mode, log, i + 1)
                else r == Ok(None) && Stands(topic, mode, log, i)
    {
      hide Records, HeapStands, StandsAfter, ReadNext, Smallest, DistinctAndListed, Lossless, Encodable, NextItems;
      ghost var stands := Stands(topic, mode, log, i);
      ghost var ps := Partitions();
      if stands { EmptyIsEnd(heap, ps, log, i); }
      if heap == {} {
        return Ok(None);
      }
      var item := Pop(heap);
      if stands {
        PopIsNext(heap, ps, log, i, item);
        ReaderNext(readers[item.reader].Rest(), zstd, mode, log, ps[item.reader], i);
        HeapAdvances(heap, ps, log, i, item);
        OthersElsewhere(ps, log, i, item.reader);
        RefillIs(log, ps[item.reader], i + 1, item.reader);
      }
      var header := readers[item.reader].header;
      heap := heap - {item};
      var next := readers[item.reader].NextWithSequence(zstd);
      if next.Err? {
        return Err(next.error);
      }
      if next.value.Some? {
        heap := heap + {HeapItem(next.value.value.sequence, item.reader, next.value.value)};
      }
      var record := item.record;
      r := Ok(Some(Delivered(item.sequence, header.topic,
                             Message(header.partition, record.offset, record.timestamp, record.capturedAt, record.payload))));
      if stands {
        assert heap == old(heap) - {item} + NextItems(log, ps[item.reader], i + 1, item.reader);
        forall j | 0 <= j < |readers| && j != item.reader
          ensures StandsAfter(readers[j].Rest(), zstd, mode, log, readers[j].header.partition, i + 1)
        {
          StandsStill(old(readers[j].Rest()), zstd, mode, log, ps[j], i);
        }
      }
    }
  }

  /** What the heap is refilled with: the first pending record, if any. */
  lemma RefillIs(log: seq<Message>, p: i32, i: nat, reader: nat)
    requires |log| <= U64
    ensures var rs := Records(log, p, i);
            NextItems(log, p, i, reader) == if rs == [] then {} else {HeapItem(rs[0].sequence, reader, rs[0])}
  {
    hide Records;
  }

  lemma OthersElsewhere(ps: seq<i32>, log: seq<Message>, i: nat, r: nat)
    requires DistinctAndListed(ps, log) && i < |log| && r < |ps| && ps[r] == log[i].partition
    ensures forall j :: 0 <= j < |ps| && j != r ==> ps[j] != log[i].partition
  {
  }

  /** What the reader of message `i`'s partition finds next. */
  lemma ReaderNext(rest: seq<byte>, z: Codec, mode: Compression, log: seq<Message>, p: i32, i: nat)
    requires Lossless(z) && StandsAfter(rest, z, mode, log, p, i) && i < |log| && log[i].partition == p
    ensures var rs := Records(log, p, i + 1);
            var next := ReadNext(z, mode, rest);
            if rs == [] then next.End? && StandsAfter([], z, mode, log, p, i + 1)
            else next.Got? && next.record == rs[0] && StandsAfter(next.rest, z, mode, log, p, i + 1)
  {
    hide Records, ReadNext, RecordBytes;
    RecordsStep(log, p, i);
    var rs := Records(log, p, i + 1);
    RecordsFit(z, mode, log, p, i + 1);
    assert ([RecordOf(i, log[i])] + rs)[1..] == rs;
    ReadsFirst(z, mode, rs);
  }

  lemma StandsStill(rest: seq<byte>, z: Codec, mode: Compression, log: seq<Message>, p: i32, i: nat)
    requires StandsAfter(rest, z, mode, log, p, i) && i < |log| && log[i].partition != p
    ensures StandsAfter(rest, z, mode, log, p, i + 1)
  {
    hide Records, Encode;
    RecordsStep(log, p, i);
  }

  // --------------------------------------------------------- opening, reading

  /** Opens one partition file and checks it against the manifest. */
  method OpenPartition(d: Directory, m: Manifest, entry: PartitionMetadata) returns (r: Result<PartitionReader, Error>)
    ensures r.Ok? ==> fresh(r.value) && r.value.Valid() && r.value.header == Header(m.topic, m.compression, entry.partition)
    ensures entry.fileName in d.files ==>
              var found := ReadHeader(d.files[entry.fileName]);
              if found.Err? then r == Err(found.error)
              else if found.value.0 != Header(m.topic, m.compression, entry.partition) then r == Err(InvalidData)
              else r.Ok? && r.value.Rest() == found.value.1
    ensures entry.fileName !in d.files ==> r == Err(NotFound)
  {
    hide ReadHeader;
    if entry.fileName !in d.files { return Err(NotFound); }
    var opening := ReadHeader(d.files[entry.fileName]);
    if opening.Err? { return Err(opening.error); }
    var header := opening.value.0;
    if header.partition != entry.partition || header.topic != m.topic || header.mode != m.compression {
      return Err(InvalidData);
    }
    var reader := new PartitionReader(header, opening.value.1);
    r := Ok(reader);
  }

  lemma OpensCaptured(z: Codec, topic: seq<byte>, mode: Compression, log: seq<Message>, entry: PartitionMetadata, files: map<string, seq<byte>>)
    requires CapturedAt(entry, files, z, topic, mode, log) && ValidUtf8(topic)
    ensures entry.fileName in files && AllFit(z, mode, Records(log, entry.partition, 0))
    ensures ReadHeader(files[entry.fileName]) ==
            Ok((Header(topic, mode, entry.partition), Encode(z, mode, Records(log, entry.partition, 0))))
  {
    hide ReadHeader, HeaderBytes, Encode, Records, ValidUtf8, MetadataOf, Fits;
    RecordsFit(z, mode, log, entry.partition, 0);
    ReadsHeader(Header(topic, mode, entry.partition), Encode(z, mode, Records(log, entry.partition, 0)));
  }

  /** What the first read from a partition finds. */
  lemma ReaderFirst(z: Codec, mode: Compression, log: seq<Message>, p: i32)
    requires Lossless(z) && |log| <= U64 && Encodable(z, mode, log)
    ensures AllFit(z, mode, Records(log, p, 0))
    ensures var rs := Records(log, p, 0);
            var next := ReadNext(z, mode, Encode(z, mode, rs));
            if rs == [] then next.End? && StandsAfter([], z, mode, log, p, 0)
            else next.Got? && next.record == rs[0] && StandsAfter(next.rest, z, mode, log, p, 0)
  {
    hide Records, ReadNext, RecordBytes, Fits;
    RecordsFit(z, mode, log, p, 0);
    ReadsFirst(z, mode, Records(log, p, 0));
  }

  function PartitionsOf(m: Manifest): (ps: seq<i32>)
    ensures |ps| == |m.partitions| && forall j :: 0 <= j < |ps| ==> ps[j] == m.partitions[j].partition
  {
    seq(|m.partitions|, j requires 0 <= j < |m.partitions| => m.partitions[j].partition)
  }

  /** Distinct readers, one per manifest entry, each checked against it. */
  ghost predicate Opened(readers: seq<PartitionReader>, m: Manifest)
    reads readers
  {
    && |readers| <= |m.partitions|
    && (forall a, b :: 0 <= a < b < |readers| ==> readers[a] != readers[b])
    && forall j :: 0 <= j < |readers| ==>
         readers[j].Valid() && readers[j].header == Header(m.topic, m.compression, m.partitions[j].partition)
  }

  /** The reader stands before the first record of its partition. */
  ghost predicate AtStart(reader: PartitionReader, z: Codec, mode: Compression, log: seq<Message>)
    requires reader.Valid() && |log| <= U64
    reads reader
  {
    var rs := Records(log, reader.header.partition, 0);
    AllFit(z, mode, rs) && reader.Rest() == Encode(z, mode, rs)
  }

  method OpenAll(d: Directory, m: Manifest, ghost z: Codec, ghost log: seq<Message>) returns (r: Result<seq<PartitionReader>, Error>)
    ensures r.Ok? ==> Opened(r.value, m) && |r.value| == |m.partitions| && fresh(set x | x in r.value)
    ensures d.manifest == Some(m) && Captures(d, z, m.topic, m.compression, log) ==>
              r.Ok? && forall j :: 0 <= j < |r.value| ==> AtStart(r.value[j], z, m.compression, log)
  {
    hide Records, ReadHeader, Encode, CapturedAt;
    var readers := [];
    ghost var captured := d.manifest == Some(m) && Captures(d, z, m.topic, m.compression, log);
    for i := 0 to |m.partitions|
      invariant |readers| == i && Opened(readers, m) && fresh(set x | x in readers)
      invariant captured ==> forall j :: 0 <= j < i ==> AtStart(readers[j], z, m.compression, log)
    {
      if captured { OpensCaptured(z, m.topic, m.compression, log, m.partitions[i], d.files); }
      var opening := OpenPartition(d, m, m.partitions[i]);
      if opening.Err? { return Err(opening.error); }
      readers := readers + [opening.value];
    }
    r := Ok(readers);
  }

  /** A run that the manifest's partitions cover. */
  ghost predicate Readable(z: Codec, m: Manifest, log: seq<Message>) {
    Lossless(z) && |log| <= U64 && Encodable(z, m.compression, log) && DistinctAndListed(PartitionsOf(m), log)
  }

  /** `MultiPartitionReader::new`: takes the first record of every partition. */
  method NewMulti(readers: seq<PartitionReader>, z: Codec, m: Manifest, ghost log: seq<Message>)
      returns (r: Result<MultiPartitionReader, Error>)
    requires Opened(readers, m) && |readers| == |m.partitions|
    modifies readers
    ensures r.Ok? ==> fresh(r.value) && r.value.readers == readers && r.value.Valid()
    ensures Readable(z, m, log) && old(forall j :: 0 <= j < |readers| ==> AtStart(readers[j], z, m.compression, log)) ==>
              r.Ok? && r.value.Stands(m.topic, m.compression, log, 0)
  {
    hide Records, StandsAfter, HeapStands, DistinctAndListed, AtStart;
    var heap := FillHeap(readers, z, m, log);
    if heap.Err? { return Err(heap.error); }
    var multi := new MultiPartitionReader(readers, z, heap.value);
    assert multi.Partitions() == PartitionsOf(m);
    r := Ok(multi);
  }

  method FillHeap(readers: seq<PartitionReader>, z: Codec, m: Manifest, ghost log: seq<Message>) returns (r: Result<set<HeapItem>, Error>)
    requires Opened(readers, m) && |readers| == |m.partitions|
    modifies readers
    ensures Opened(readers, m) && (r.Ok? ==> forall item :: item in r.value ==> item.reader < |readers|)
    ensures Readable(z, m, log) && old(forall j :: 0 <= j < |readers| ==> AtStart(readers[j], z, m.compression, log)) ==>
              && r.Ok? && HeapStands(r.value, PartitionsOf(m), log, 0)
              && forall j :: 0 <= j < |readers| ==> StandsAfter(readers[j].Rest(), z, m.compression, log, m.partitions[j].partition, 0)
  {
    hide Records, StandsAfter, HeapStands, DistinctAndListed, NextItems, AtStart, Encodable, Lossless;
    var heap: set<HeapItem> := {};
    ghost var ps := PartitionsOf(m);
    ghost var ready := Readable(z, m, log) && forall j :: 0 <= j < |readers| ==> AtStart(readers[j], z, m.compression, log);
    if ready { NoHeap(log); }
    for i := 0 to |readers|
      invariant Opened(readers, m)
      invariant forall item :: item in heap ==> item.reader < i
      invariant ready ==> HeapStands(heap, ps[..i], log, 0)
      invariant ready ==> forall j :: 0 <= j < i ==> StandsAfter(readers[j].Rest(), z, m.compression, log, m.partitions[j].partition, 0)
      invariant ready ==> forall j :: i <= j < |readers| ==> AtStart(readers[j], z, m.compression, log)
    {
      if ready {
        HeapGrows(heap, ps[..i], log, ps[i]);
        assert ps[..i + 1] == ps[..i] + [ps[i]];
      }
      var first := FirstItem(readers[i], i, z, log);
      if first.Err? { return Err(first.error); }
      heap := heap + first.value;
    }
    assert ps[..|readers|] == ps;
    r := Ok(heap);
  }

  /** The first record of a partition, as a heap item if there is one. */
  method FirstItem(reader: PartitionReader, i: nat, z: Codec, ghost log: seq<Message>) returns (r: Result<set<HeapItem>, Error>)
    requires reader.Valid()
    modifies reader
    ensures reader.Valid() && (r.Ok? ==> forall item :: item in r.value ==> item.reader == i)
    ensures Lossless(z) && |log| <= U64 && Encodable(z, reader.header.mode, log) && old(AtStart(reader, z, reader.header.mode, log)) ==>
              && r == Ok(NextItems(log, reader.header.partition, 0, i))
              && StandsAfter(reader.Rest(), z, reader.header.mode, log, reader.header.partition, 0)
  {
    hide Records, ReadNext, Encode, StandsAfter;
    if Lossless(z) && |log| <= U64 && Encodable(z, reader.header.mode, log) {
      ReaderFirst(z, reader.header.mode, log, reader.header.partition);
    }
    var first := reader.NextWithSequence(z);
    if first.Err? { return Err(first.error); }
    r := Ok(if first.value.None? then {} else {HeapItem(first.value.value.sequence, i, first.value.value)});
  }

  lemma NoHeap(log: seq<Message>)
    requires |log| <= U64
    ensures HeapStands({}, [], log, 0)
  {
  }

  /** `OtlpCaptureReader::open` of a directory. */
  method OpenDirectory(d: Directory, z: Codec, ghost log: seq<Message>) returns (r: Result<MultiPartitionReader, Error>)
    ensures r.Ok? ==> fresh(r.value) && fresh(set x | x in r.value.readers) && r.value.Valid()
    ensures d.manifest.None? ==> r == Err(NotFound)
    ensures d.manifest.Some? && d.manifest.value.version != MANIFEST_VERSION ==> r == Err(InvalidData)
    ensures Lossless(z) && d.manifest.Some? && Captures(d, z, d.manifest.value.topic, d.manifest.value.compression, log) ==>
              r.Ok? && r.value.Stands(d.manifest.value.topic, d.manifest.value.compression, log, 0)
  {
    hide CapturedAt, HeapStands, StandsAfter, Records;
    if d.manifest.None? { return Err(NotFound); }
    var m := d.manifest.value;
    if m.version != MANIFEST_VERSION { return Err(InvalidData); }
    var opening := OpenAll(d, m, z, log);
    if opening.Err? { return Err(opening.error); }
    if Captures(d, z, m.topic, m.compression, log) { ListsPartitions(d, z, m, log); }
    r := NewMulti(opening.value, z, m, log);
  }

  lemma ListsPartitions(d: Directory, z: Codec, m: Manifest, log: seq<Message>)
    requires d.manifest == Some(m) && Captures(d, z, m.topic, m.compression, log)
    ensures DistinctAndListed(PartitionsOf(m), log)
  {
    hide CapturedAt;
    forall k | 0 <= k < |log| ensures log[k].partition in PartitionsOf(m) {
      var i :| 0 <= i < |m.partitions| && m.partitions[i].partition == log[k].partition;
      assert PartitionsOf(m)[i] == log[k].partition;
    }
  }

  lemma ListsManifest(d: Directory, z: Codec, topic: seq<byte>, mode: Compression, log: seq<Message>)
    requires Captures(d, z, topic, mode, log)
    ensures d.manifest.Some? && d.manifest.value.topic == topic && d.manifest.value.compression == mode
  {
    hide CapturedAt;
  }

  /** Opening a captured directory and reading to the end delivers exactly the
      run: every message, in capture order, numbered from zero. */
  method ReadCapture(d: Directory, z: Codec, topic: seq<byte>, mode: Compression, ghost log: seq<Message>) returns (out: seq<Delivered>, ok: bool)
    requires Lossless(z) && Captures(d, z, topic, mode, log)
    ensures ok && out == Deliveries(topic, log)
  {
    hide Captures, Lossless, Deliveries, MultiPartitionReader.Stands;
    ListsManifest(d, z, topic, mode, log);
    out, ok := [], true;
    var opening := OpenDirectory(d, z, log);
    if opening.Err? { return [], false; }
    var reader := opening.value;
    ghost var i := 0;
    while true
      invariant reader.Valid() && i <= |log| && reader.Stands(topic, mode, log, i)
      invariant fresh(reader) && fresh(set x | x in reader.readers)
      invariant out == Deliveries(topic, log)[..i]
      decreases |log| - i
    {
      var next := reader.NextWithSequence(topic, mode, log, i);
      if next.Err? { return [], false; }
      if next.value.None? { break; }
      out := out + [next.value.value];
      i := i + 1;
    }
  }
}
