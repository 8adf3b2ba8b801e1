/** The bytes of a capture: what stands where in a partition file. */
module CaptureLayout {
  import opened Common
  import opened Bytes
  import opened CaptureFormat
  import opened CaptureLog
  import Decimal

  // ------------------------------------------------------------------ records

  /** Sequence number, offset, timestamp and capture time, eight bytes each; the payload's
      length and, if it is compressed, the stored length, four bytes each; the payload. */
  predicate RecordAt(file: seq<byte>, at: nat, z: Codec, mode: Compression, r: Record) {
    && NumberAt(file, at, 8, r.sequence) && NumberAt(file, at + 8, 8, r.offset % U64)
    && NumberAt(file, at + 16, 8, r.timestamp % U64) && NumberAt(file, at + 24, 8, r.capturedAt % U64)
    && NumberAt(file, at + 32, 4, |r.payload|)
    && match mode {
         case Uncompressed => BytesAt(file, at + 36, r.payload)
         case Zstd => NumberAt(file, at + 36, 4, |z.compress(r.payload)|) && BytesAt(file, at + 40, z.compress(r.payload))
       }
  }

  function RecordSize(z: Codec, mode: Compression, r: Record): nat {
    match mode
    case Uncompressed => 36 + |r.payload|
    case Zstd => 40 + |z.compress(r.payload)|
  }

  lemma StampLaid(file: seq<byte>, at: nat, r: Record)
    requires BytesAt(file, at, Stamp(r))
    ensures NumberAt(file, at, 8, r.sequence) && NumberAt(file, at + 8, 8, r.offset % U64)
    ensures NumberAt(file, at + 16, 8, r.timestamp % U64) && NumberAt(file, at + 24, 8, r.capturedAt % U64)
  {
    hide NumberAt, BytesAt, LE;
    var a, b, c, d := PutU64(r.sequence), PutI64(r.offset), PutI64(r.timestamp), PutI64(r.capturedAt);
    assert Stamp(r) == a + (b + (c + d));
    BytesSplit(file, at, a, b + (c + d));
    BytesSplit(file, at + 8, b, c + d);
    BytesSplit(file, at + 16, c, d);
    InTwosComplement(r.offset);
    InTwosComplement(r.timestamp);
    InTwosComplement(r.capturedAt);
    LaidOut(file, at, r.sequence, 8);
    LaidOut(file, at + 8, r.offset % U64, 8);
    LaidOut(file, at + 16, r.timestamp % U64, 8);
    LaidOut(file, at + 24, r.capturedAt % U64, 8);
  }

  /** A written record, byte by byte. */
  lemma RecordLaid(file: seq<byte>, at: nat, z: Codec, mode: Compression, r: Record)
    requires Fits(z, mode, r.payload) && BytesAt(file, at, RecordBytes(z, mode, r))
    ensures RecordAt(file, at, z, mode, r) && |RecordBytes(z, mode, r)| == RecordSize(z, mode, r)
  {
    hide NumberAt, BytesAt, Stamp, LE;
    var s, l, p := Stamp(r), Lengths(z, mode, r.payload), Stored(z, mode, r.payload);
    assert RecordBytes(z, mode, r) == s + (l + p);
    BytesSplit(file, at, s, l + p);
    StampLaid(file, at, r);
    BytesSplit(file, at + 32, l, p);
    var n := PutU32(|r.payload|);
    if mode.Zstd? {
      BytesSplit(file, at + 32, n, PutU32(|z.compress(r.payload)|));
      LaidOut(file, at + 36, |z.compress(r.payload)|, 4);
    }
    LaidOut(file, at + 32, |r.payload|, 4);
  }

  lemma StampRead(file: seq<byte>, at: nat, r: Record)
    requires NumberAt(file, at, 8, r.sequence) && NumberAt(file, at + 8, 8, r.offset % U64)
    requires NumberAt(file, at + 16, 8, r.timestamp % U64) && NumberAt(file, at + 24, 8, r.capturedAt % U64)
    ensures BytesAt(file, at, Stamp(r))
  {
    hide NumberAt, BytesAt, LE;
    var a, b, c, d := PutU64(r.sequence), PutI64(r.offset), PutI64(r.timestamp), PutI64(r.capturedAt);
    InTwosComplement(r.offset);
    InTwosComplement(r.timestamp);
    InTwosComplement(r.capturedAt);
    NumberHeld(file, at, r.sequence, 8);
    NumberHeld(file, at + 8, r.offset % U64, 8);
    NumberHeld(file, at + 16, r.timestamp % U64, 8);
    NumberHeld(file, at + 24, r.capturedAt % U64, 8);
    BytesJoin(file, at + 16, c, d);
    BytesJoin(file, at + 8, b, c + d);
    BytesJoin(file, at, a, b + (c + d));
    assert Stamp(r) == a + (b + (c + d));
  }

  lemma RecordHeld(file: seq<byte>, at: nat, z: Codec, mode: Compression, r: Record)
    requires Fits(z, mode, r.payload) && RecordAt(file, at, z, mode, r)
    ensures BytesAt(file, at, RecordBytes(z, mode, r)) && |RecordBytes(z, mode, r)| == RecordSize(z, mode, r)
  {
    hide NumberAt, BytesAt, Stamp, LE;
    var s, l, p := Stamp(r), Lengths(z, mode, r.payload), Stored(z, mode, r.payload);
    StampRead(file, at, r);
    NumberHeld(file, at + 32, |r.payload|, 4);
    if mode.Zstd? {
      NumberHeld(file, at + 36, |z.compress(r.payload)|, 4);
      BytesJoin(file, at + 32, PutU32(|r.payload|), PutU32(|z.compress(r.payload)|));
    }
    BytesJoin(file, at + 32, l, p);
    BytesJoin(file, at, s, l + p);
    assert RecordBytes(z, mode, r) == s + (l + p);
  }

  /** The partition reader reads exactly this layout: wherever a record stands in a file, it
      is read, and the reader goes on behind it. */
  lemma LaidRecordReads(file: seq<byte>, at: nat, z: Codec, mode: Compression, r: Record)
    requires Lossless(z) && Fits(z, mode, r.payload) && RecordAt(file, at, z, mode, r)
    ensures at + RecordSize(z, mode, r) <= |file|
    ensures ReadNext(z, mode, file[at..]) == Got(r, file[at + RecordSize(z, mode, r)..])
  {
    hide RecordAt, ReadNext, RecordBytes, Lossless, RecordSize;
    RecordHeld(file, at, z, mode, r);
    var n := RecordSize(z, mode, r);
    ReadsRecord(z, mode, r, file[at + n..]);
    assert file[at..] == file[at..at + n] + file[at + n..];
  }

  // --------------------------------------------------------------------- files

  function TotalSize(z: Codec, mode: Compression, rs: seq<Record>): nat {
    if rs == [] then 0 else TotalSize(z, mode, rs[..|rs| - 1]) + RecordSize(z, mode, rs[|rs| - 1])
  }

  const MAGIC := "CHRONOXIDE_OTLP_CAPTURE_PARTITION_V2\n"

  /** The magic text, the compression flag, the topic with its length, and the partition. */
  predicate HeaderAt(file: seq<byte>, h: Header) {
    && |file| >= 42 && (forall i :: 0 <= i < 37 ==> file[i] == MAGIC[i] as int)
    && file[37] == (if h.mode.Uncompressed? then 0 else 1)
    && NumberAt(file, 38, 4, |h.topic|) && BytesAt(file, 42, h.topic)
    && NumberAt(file, 42 + |h.topic|, 4, h.partition % U32)
  }

  lemma MagicPart1()
    ensures |PARTITION_MAGIC| == 37 && |MAGIC| == 37 && forall i :: 0 <= i < 10 ==> PARTITION_MAGIC[i] == MAGIC[i] as int
  {
    assert MAGIC[0] == 'C' && MAGIC[1] == 'H' && MAGIC[2] == 'R' && MAGIC[3] == 'O' && MAGIC[4] == 'N' &&
           MAGIC[5] == 'O' && MAGIC[6] == 'X' && MAGIC[7] == 'I' && MAGIC[8] == 'D' && MAGIC[9] == 'E';
  }

  lemma MagicPart2()
    ensures |PARTITION_MAGIC| == 37 && |MAGIC| == 37 && forall i :: 10 <= i < 19 ==> PARTITION_MAGIC[i] == MAGIC[i] as int
  {
    assert MAGIC[10] == '_' && MAGIC[11] == 'O' && MAGIC[12] == 'T' && MAGIC[13] == 'L' && MAGIC[14] == 'P' &&
           MAGIC[15] == '_' && MAGIC[16] == 'C' && MAGIC[17] == 'A' && MAGIC[18] == 'P';
  }

  lemma MagicPart3()
    ensures |PARTITION_MAGIC| == 37 && |MAGIC| == 37 && forall i :: 19 <= i < 28 ==> PARTITION_MAGIC[i] == MAGIC[i] as int
  {
    assert MAGIC[19] == 'T' && MAGIC[20] == 'U' && MAGIC[21] == 'R' && MAGIC[22] == 'E' && MAGIC[23] == '_' &&
           MAGIC[24] == 'P' && MAGIC[25] == 'A' && MAGIC[26] == 'R' && MAGIC[27] == 'T';
  }

  lemma MagicPart4()
    ensures |PARTITION_MAGIC| == 37 && |MAGIC| == 37 && forall i :: 28 <= i < 37 ==> PARTITION_MAGIC[i] == MAGIC[i] as int
  {
    assert MAGIC[28] == 'I' && MAGIC[29] == 'T' && MAGIC[30] == 'I' && MAGIC[31] == 'O' && MAGIC[32] == 'N' &&
           MAGIC[33] == '_' && MAGIC[34] == 'V' && MAGIC[35] == '2' && MAGIC[36] == '\n';
  }

  lemma MagicText()
    ensures |PARTITION_MAGIC| == 37 && |MAGIC| == 37
    ensures forall i :: 0 <= i < 37 ==> PARTITION_MAGIC[i] == MAGIC[i] as int
  {
    hide *;
    MagicPart1();
    MagicPart2();
    MagicPart3();
    MagicPart4();
  }

  lemma HeaderLaid(file: seq<byte>, h: Header)
    requires |h.topic| < U32 && HeaderBytes(h) <= file
    ensures HeaderAt(file, h) && |HeaderBytes(h)| == 46 + |h.topic|
  {
    hide NumberAt, BytesAt, LE;
    MagicText();
    var n, p := PutU32(|h.topic|), PutI32(h.partition);
    var head := PARTITION_MAGIC + [Flag(h.mode)];
    assert HeaderBytes(h) == head + (n + (h.topic + p));
    StartHolds(file, head + (n + (h.topic + p)));
    BytesSplit(file, 0, head, n + (h.topic + p));
    BytesSplit(file, 38, n, h.topic + p);
    BytesSplit(file, 42, h.topic, p);
    LaidOut(file, 38, |h.topic|, 4);
    InTwosComplement32(h.partition);
    LaidOut(file, 42 + |h.topic|, h.partition % U32, 4);
    forall i | 0 <= i < 38 ensures file[i] == head[i] { assert file[i] == HeaderBytes(h)[i]; }
  }

  lemma StartHolds(file: seq<byte>, s: seq<byte>)
    requires s <= file
    ensures BytesAt(file, 0, s)
  {
  }

  lemma {:induction false} EncodeSplit(z: Codec, mode: Compression, a: seq<Record>, b: seq<Record>)
    requires AllFit(z, mode, a) && AllFit(z, mode, b)
    ensures AllFit(z, mode, a + b) && Encode(z, mode, a + b) == Encode(z, mode, a) + Encode(z, mode, b)
    decreases |a|
  {
    hide RecordBytes, Fits;
    if a == [] {
      assert a + b == b;
    } else {
      EncodeSplit(z, mode, a[1..], b);
      assert (a + b)[1..] == a[1..] + b;
    }
  }

  lemma {:induction false} EncodeSize(z: Codec, mode: Compression, rs: seq<Record>)
    requires AllFit(z, mode, rs)
    ensures |Encode(z, mode, rs)| == TotalSize(z, mode, rs)
    decreases |rs|
  {
    hide RecordBytes, Fits, RecordSize;
    if rs != [] {
      var init, r := rs[..|rs| - 1], rs[|rs| - 1];
      EncodeSize(z, mode, init);
      EncodeAppend(z, mode, init, r);
      assert init + [r] == rs;
      BytesSize(z, mode, r);
    }
  }

  lemma BytesSize(z: Codec, mode: Compression, r: Record)
    requires Fits(z, mode, r.payload)
    ensures |RecordBytes(z, mode, r)| == RecordSize(z, mode, r)
  {
  }

  /** A partition file: its header, then each record right behind the one before it. */
  lemma FileLaid(z: Codec, h: Header, rs: seq<Record>, i: nat)
    requires |h.topic| < U32 && AllFit(z, h.mode, rs) && i < |rs|
    ensures var file := HeaderBytes(h) + Encode(z, h.mode, rs);
            && HeaderAt(file, h) && |file| == 46 + |h.topic| + TotalSize(z, h.mode, rs)
            && RecordAt(file, 46 + |h.topic| + TotalSize(z, h.mode, rs[..i]), z, h.mode, rs[i])
  {
    hide HeaderBytes, Encode, RecordBytes, HeaderAt, RecordAt, BytesAt, TotalSize;
    var head, body := HeaderBytes(h), Encode(z, h.mode, rs);
    HeaderLaid(head + body, h);
    EncodeSize(z, h.mode, rs);
    RecordIn(z, h.mode, rs, i, head);
    RecordLaid(head + body, 46 + |h.topic| + TotalSize(z, h.mode, rs[..i]), z, h.mode, rs[i]);
  }

  lemma RecordIn(z: Codec, mode: Compression, rs: seq<Record>, i: nat, head: seq<byte>)
    requires AllFit(z, mode, rs) && i < |rs|
    ensures BytesAt(head + Encode(z, mode, rs), |head| + TotalSize(z, mode, rs[..i]), RecordBytes(z, mode, rs[i]))
  {
    hide Encode, RecordBytes, TotalSize, Fits;
    var a, r, b := rs[..i], rs[i], rs[i + 1..];
    assert rs == a + ([r] + b);
    ConsEncodes(z, mode, r, b);
    EncodeSplit(z, mode, a, [r] + b);
    EncodeSize(z, mode, a);
    Middle(head + Encode(z, mode, a), RecordBytes(z, mode, r), Encode(z, mode, b));
    assert head + Encode(z, mode, rs) == head + Encode(z, mode, a) + (RecordBytes(z, mode, r) + Encode(z, mode, b));
  }

  lemma Middle(a: seq<byte>, b: seq<byte>, c: seq<byte>)
    ensures BytesAt(a + (b + c), |a|, b)
  {
  }

  // -------------------------------------------------------------- a whole run

  /** The bytes of the messages of partition `p` before message `k`. */
  function SizeBefore(z: Codec, mode: Compression, log: seq<Message>, p: i32, k: nat): nat
    requires k <= |log| <= U64
  {
    if k == 0 then 0
    else SizeBefore(z, mode, log, p, k - 1) + if log[k - 1].partition == p then RecordSize(z, mode, RecordOf(k - 1, log[k - 1])) else 0
  }

  lemma {:induction false} RecordsSplit(log: seq<Message>, p: i32, i: nat, k: nat)
    requires i <= k <= |log| <= U64
    ensures Records(log, p, i) == Records(log[..k], p, i) + Records(log, p, k)
    decreases k - i
  {
    hide Records;
    if i == k {
      NoRecords(log[..k], p);
    } else {
      RecordsSplit(log, p, i + 1, k);
      RecordsStep(log, p, i);
      RecordsStep(log[..k], p, i);
      assert log[..k][i] == log[i];
      assert [RecordOf(i, log[i])] + (Records(log[..k], p, i + 1) + Records(log, p, k)) ==
             [RecordOf(i, log[i])] + Records(log[..k], p, i + 1) + Records(log, p, k);
    }
  }

  lemma NoRecords(log: seq<Message>, p: i32)
    requires |log| <= U64
    ensures Records(log, p, |log|) == []
  {
  }

  lemma {:induction false} SizeOfBefore(z: Codec, mode: Compression, log: seq<Message>, p: i32, k: nat)
    requires k <= |log| <= U64
    ensures TotalSize(z, mode, Records(log[..k], p, 0)) == SizeBefore(z, mode, log, p, k)
    decreases k
  {
    hide RecordSize, Records, TotalSize;
    if k == 0 {
      NoRecords(log[..0], p);
      NoSize(z, mode);
    } else {
      SizeOfBefore(z, mode, log, p, k - 1);
      RecordsAppend(log[..k - 1], log[k - 1], p, 0);
      assert log[..k - 1] + [log[k - 1]] == log[..k];
      var rs := Records(log[..k - 1], p, 0);
      OneMoreSize(z, mode, rs, RecordOf(k - 1, log[k - 1]));
      assert rs + [] == rs;
    }
  }

  lemma NoSize(z: Codec, mode: Compression)
    ensures TotalSize(z, mode, []) == 0
  {
  }

  lemma OneMoreSize(z: Codec, mode: Compression, rs: seq<Record>, r: Record)
    ensures TotalSize(z, mode, rs + [r]) == TotalSize(z, mode, rs) + RecordSize(z, mode, r)
  {
    hide RecordSize;
    assert (rs + [r])[..|rs|] == rs;
  }

  /** In a captured run, message number `k` stands in the file that is named after its
      partition, under the run's header, with sequence number `k`, right behind the earlier
      messages of that partition. */
  lemma MessageLaid(d: Directory, z: Codec, topic: seq<byte>, mode: Compression, log: seq<Message>, k: nat)
    requires Captures(d, z, topic, mode, log) && k < |log|
    ensures var m := log[k];
            var name := "partition-" + Decimal.Text(m.partition) + ".capture";
            && d.manifest.Some? && d.manifest.value.version == 2 && name in d.files
            && HeaderAt(d.files[name], Header(topic, mode, m.partition))
            && RecordAt(d.files[name], 46 + |topic| + SizeBefore(z, mode, log, m.partition, k), z, mode,
                        Record(k, m.offset, m.timestamp, m.capturedAt, m.payload))
  {
    hide HeaderAt, RecordAt, Encode, HeaderBytes, TotalSize, Records, Decimal.Text, Encodable, ValidUtf8, PayloadTotal, StoredTotal;
    var p := log[k].partition;
    var ms := d.manifest.value.partitions;
    assert Listed(ms, p);
    var j :| 0 <= j < |ms| && ms[j].partition == p;
    assert CapturedAt(ms[j], d.files, z, topic, mode, log);
    RecordsFit(z, mode, log, p, 0);
    SplitAt(log, p, k);
    SizeOfBefore(z, mode, log, p, k);
    var rs, i := Records(log, p, 0), |Records(log[..k], p, 0)|;
    FileLaid(z, Header(topic, mode, p), rs, i);
  }

  lemma SplitAt(log: seq<Message>, p: i32, k: nat)
    requires k < |log| <= U64 && log[k].partition == p
    ensures var rs, before := Records(log, p, 0), Records(log[..k], p, 0);
            |before| < |rs| && rs[..|before|] == before && rs[|before|] == RecordOf(k, log[k])
  {
    hide Records;
    RecordsSplit(log, p, 0, k);
    RecordsStep(log, p, k);
  }
}
