/** The byte format of a capture partition file: header, records, and what a
    reader makes of any prefix of them. */
module CaptureFormat {
  import opened Common
  import opened Bytes

  datatype Compression = Uncompressed | Zstd

  datatype Error = UnexpectedEof | InvalidData | TooLong | Closed | NotFound

  /** The compression library, of which only losslessness is used. */
  datatype Codec = Codec(compress: seq<byte> -> seq<byte>, decompress: (seq<byte>, nat) -> Option<seq<byte>>)

  ghost predicate Lossless(z: Codec) {
    forall p: seq<byte> :: |p| < U32 ==> z.decompress(z.compress(p), |p|) == Some(p)
  }

  /** Losslessness can be met. */
  lemma StoredIsLossless()
    ensures Lossless(Codec((p: seq<byte>) => p, (p: seq<byte>, n: nat) => Some(p)))
  {
  }

  datatype Record = Record(sequence: u64, offset: i64, timestamp: i64, capturedAt: i64, payload: seq<byte>)

  /** The lengths that `append` checks. */
  predicate Fits(z: Codec, mode: Compression, payload: seq<byte>) {
    |payload| < U32 && (mode.Zstd? ==> |z.compress(payload)| < U32)
  }

  function Stored(z: Codec, mode: Compression, payload: seq<byte>): seq<byte> {
    if mode.Uncompressed? then payload else z.compress(payload)
  }

  function Stamp(r: Record): (s: seq<byte>)
    ensures |s| == 32
  {
    PutU64(r.sequence) + PutI64(r.offset) + PutI64(r.timestamp) + PutI64(r.capturedAt)
  }

  function Lengths(z: Codec, mode: Compression, payload: seq<byte>): (s: seq<byte>)
    requires Fits(z, mode, payload)
    ensures |s| == if mode.Uncompressed? then 4 else 8
  {
    if mode.Uncompressed? then PutU32(|payload|) else PutU32(|payload|) + PutU32(|z.compress(payload)|)
  }

  function RecordBytes(z: Codec, mode: Compression, r: Record): seq<byte>
    requires Fits(z, mode, r.payload)
  {
    Stamp(r) + Lengths(z, mode, r.payload) + Stored(z, mode, r.payload)
  }

  // ------------------------------------------------------------------ reading

  datatype Next = End | Failed(error: Error) | Got(record: Record, rest: seq<byte>)

  /** Size of the part before the payload, and of the payload as stored. */
  function Before(mode: Compression): nat { if mode.Uncompressed? then 36 else 40 }

  function StoredSize(mode: Compression, s: seq<byte>): nat
    requires |s| >= Before(mode)
  {
    if mode.Uncompressed? then GetU32(s[32..36]) else GetU32(s[36..40])
  }

  function ReadStamp(s: seq<byte>, payload: seq<byte>): Record
    requires |s| >= 32
  {
    Record(GetU64(s[..8]), GetI64(s[8..16]), GetI64(s[16..24]), GetI64(s[24..32]), payload)
  }

  /** One call of the partition reader: fewer than eight bytes are a clean end,
      any later shortage is an error. */
  function ReadNext(z: Codec, mode: Compression, s: seq<byte>): (r: Next)
    ensures r.Got? ==> |r.rest| < |s|
  {
    if |s| < 8 then End
    else if |s| < Before(mode) then Failed(UnexpectedEof)
    else
      var from := Before(mode);
      var size := StoredSize(mode, s);
      if |s| < from + size then Failed(UnexpectedEof)
      else
        var stored := s[from..from + size];
        var payload := if mode.Uncompressed? then Some(stored) else z.decompress(stored, GetU32(s[32..36]));
        if payload.None? then Failed(InvalidData)
        else Got(ReadStamp(s, payload.value), s[from + size..])
  }

  lemma StampParts(r: Record, s: seq<byte>)
    requires Stamp(r) <= s
    ensures |s| >= 32 && ReadStamp(s, r.payload) == r
  {
    hide PutU64, PutI64, GetU64, GetI64;
    assert s[..8] == PutU64(r.sequence) && s[8..16] == PutI64(r.offset);
    assert s[16..24] == PutI64(r.timestamp) && s[24..32] == PutI64(r.capturedAt);
    U64RoundTrip(r.sequence);
    I64RoundTrip(r.offset);
    I64RoundTrip(r.timestamp);
    I64RoundTrip(r.capturedAt);
  }

  lemma SizeParts(z: Codec, mode: Compression, payload: seq<byte>, head: seq<byte>, s: seq<byte>)
    requires Fits(z, mode, payload) && |head| == 32 && head + Lengths(z, mode, payload) <= s
    ensures |s| >= Before(mode) && StoredSize(mode, s) == |Stored(z, mode, payload)|
    ensures GetU32(s[32..36]) == |payload|
  {
    hide PutU32, GetU32;
    U32RoundTrip(|payload|);
    assert s[32..36] == PutU32(|payload|);
    if mode.Zstd? {
      U32RoundTrip(|z.compress(payload)|);
      assert s[36..40] == PutU32(|z.compress(payload)|);
    }
  }

  /** A record that is there is read back, and the reader stands right after it. */
  lemma ReadsRecord(z: Codec, mode: Compression, r: Record, rest: seq<byte>)
    requires Lossless(z) && Fits(z, mode, r.payload)
    ensures ReadNext(z, mode, RecordBytes(z, mode, r) + rest) == Got(r, rest)
  {
    hide Stamp, ReadStamp, Lengths, StoredSize, GetU32;
    var s := RecordBytes(z, mode, r) + rest;
    StampParts(r, s);
    SizeParts(z, mode, r.payload, Stamp(r), s);
    var from, size := Before(mode), |Stored(z, mode, r.payload)|;
    assert s[from..from + size] == Stored(z, mode, r.payload);
    assert s[from + size..] == rest;
  }

  /** A record cut short is a clean end inside its sequence number and an error after. */
  lemma ReadsTruncated(z: Codec, mode: Compression, r: Record, n: nat)
    requires Fits(z, mode, r.payload) && n < |RecordBytes(z, mode, r)|
    ensures ReadNext(z, mode, RecordBytes(z, mode, r)[..n]) == if n < 8 then End else Failed(UnexpectedEof)
  {
    hide Stamp, ReadStamp, Lengths, StoredSize, GetU32;
    if n >= Before(mode) { SizeParts(z, mode, r.payload, Stamp(r), RecordBytes(z, mode, r)[..n]); }
  }

  ghost predicate AllFit(z: Codec, mode: Compression, rs: seq<Record>) {
    forall i :: 0 <= i < |rs| ==> Fits(z, mode, rs[i].payload)
  }

  ghost function Encode(z: Codec, mode: Compression, rs: seq<Record>): seq<byte>
    requires AllFit(z, mode, rs)
  {
    if rs == [] then [] else RecordBytes(z, mode, rs[0]) + Encode(z, mode, rs[1..])
  }

  datatype Ending = Clean | Broken(error: Error)

  /** Reading to the end: the records, and how it ends. */
  function ReadAll(z: Codec, mode: Compression, s: seq<byte>): (seq<Record>, Ending)
    decreases |s|
  {
    match ReadNext(z, mode, s)
    case End => ([], Clean)
    case Failed(error) => ([], Broken(error))
    case Got(r, rest) => var (more, ending) := ReadAll(z, mode, rest); ([r] + more, ending)
  }

  /** How many of the records lie wholly inside the first `m` bytes. */
  ghost function Whole(z: Codec, mode: Compression, rs: seq<Record>, m: nat): (k: nat)
    requires AllFit(z, mode, rs)
    ensures k <= |rs|
  {
    if rs == [] || m < |RecordBytes(z, mode, rs[0])| then 0
    else 1 + Whole(z, mode, rs[1..], m - |RecordBytes(z, mode, rs[0])|)
  }

  lemma {:induction false} WholeIsExact(z: Codec, mode: Compression, rs: seq<Record>, m: nat)
    requires AllFit(z, mode, rs)
    ensures var k := Whole(z, mode, rs, m);
            && |Encode(z, mode, rs[..k])| <= m
            && (k < |rs| ==> m < |Encode(z, mode, rs[..k + 1])|)
    decreases |rs|
  {
    hide RecordBytes;
    var k := Whole(z, mode, rs, m);
    if k > 0 {
      WholeIsExact(z, mode, rs[1..], m - |RecordBytes(z, mode, rs[0])|);
      EncodePrefix(z, mode, rs, k);
      if k < |rs| { EncodePrefix(z, mode, rs, k + 1); }
    } else if rs != [] {
      EncodePrefix(z, mode, rs, 1);
    }
  }

  lemma EncodePrefix(z: Codec, mode: Compression, rs: seq<Record>, k: nat)
    requires AllFit(z, mode, rs) && 0 < k <= |rs|
    ensures Encode(z, mode, rs[..k]) == RecordBytes(z, mode, rs[0]) + Encode(z, mode, rs[1..][..k - 1])
  {
    hide RecordBytes;
    assert rs[..k][1..] == rs[1..][..k - 1];
  }

  /** The first `m` bytes read as the records wholly inside, then a clean end if
      fewer than eight bytes are left and an error otherwise. */
  ghost predicate PrefixIsRead(z: Codec, mode: Compression, rs: seq<Record>, m: nat)
    requires AllFit(z, mode, rs) && m <= |Encode(z, mode, rs)|
  {
    var k := Whole(z, mode, rs, m);
    var left := m - |Encode(z, mode, rs[..k])|;
    left >= 0 && ReadAll(z, mode, Encode(z, mode, rs)[..m]) == (rs[..k], if left < 8 then Clean else Broken(UnexpectedEof))
  }

  /** This holds of every prefix of every run of records. */
  lemma {:induction false} PrefixReads(z: Codec, mode: Compression, rs: seq<Record>, m: nat)
    requires Lossless(z) && AllFit(z, mode, rs) && m <= |Encode(z, mode, rs)|
    ensures PrefixIsRead(z, mode, rs, m)
    decreases |rs|
  {
    hide RecordBytes, ReadAll, PrefixIsRead;
    if rs == [] || m < |RecordBytes(z, mode, rs[0])| {
      PrefixCut(z, mode, rs, m);
    } else {
      var n := m - |RecordBytes(z, mode, rs[0])|;
      PrefixReads(z, mode, rs[1..], n);
      PrefixMore(z, mode, rs[0], rs[1..], n, rs, m);
    }
  }

  lemma PrefixCut(z: Codec, mode: Compression, rs: seq<Record>, m: nat)
    requires AllFit(z, mode, rs) && m <= |Encode(z, mode, rs)|
    requires rs == [] || m < |RecordBytes(z, mode, rs[0])|
    ensures PrefixIsRead(z, mode, rs, m)
  {
    hide RecordBytes, ReadAll;
    if rs == [] {
      ReadsNothing(z, mode);
    } else {
      AllOfTruncated(z, mode, rs[0], m);
      assert Encode(z, mode, rs)[..m] == RecordBytes(z, mode, rs[0])[..m];
    }
  }

  lemma PrefixMore(z: Codec, mode: Compression, r: Record, tail: seq<Record>, n: nat, rs: seq<Record>, m: nat)
    requires Lossless(z) && AllFit(z, mode, rs) && rs == [r] + tail && m <= |Encode(z, mode, rs)|
    requires AllFit(z, mode, tail) && n <= |Encode(z, mode, tail)| && PrefixIsRead(z, mode, tail, n)
    requires m == |RecordBytes(z, mode, r)| + n
    ensures PrefixIsRead(z, mode, rs, m)
  {
    hide RecordBytes, ReadAll, Encode, Whole;
    assert rs[0] == r;
    var rest := Encode(z, mode, tail);
    var k := Whole(z, mode, tail, n);
    ConsEncodes(z, mode, r, tail);
    ConsWhole(z, mode, r, tail, n);
    AllOfMore(z, mode, r, rest[..n]);
    assert Encode(z, mode, rs)[..m] == RecordBytes(z, mode, r) + rest[..n];
    assert rs[..k + 1] == [r] + tail[..k];
    ConsEncodes(z, mode, r, tail[..k]);
  }

  lemma ConsEncodes(z: Codec, mode: Compression, r: Record, tail: seq<Record>)
    requires Fits(z, mode, r.payload) && AllFit(z, mode, tail)
    ensures AllFit(z, mode, [r] + tail)
    ensures Encode(z, mode, [r] + tail) == RecordBytes(z, mode, r) + Encode(z, mode, tail)
  {
    hide RecordBytes;
    assert ([r] + tail)[1..] == tail;
  }

  lemma ConsWhole(z: Codec, mode: Compression, r: Record, tail: seq<Record>, n: nat)
    requires Fits(z, mode, r.payload) && AllFit(z, mode, tail) && AllFit(z, mode, [r] + tail)
    ensures Whole(z, mode, [r] + tail, |RecordBytes(z, mode, r)| + n) == 1 + Whole(z, mode, tail, n)
  {
    hide RecordBytes;
    assert ([r] + tail)[1..] == tail;
  }

  lemma AllOfTruncated(z: Codec, mode: Compression, r: Record, n: nat)
    requires Fits(z, mode, r.payload) && n < |RecordBytes(z, mode, r)|
    ensures ReadAll(z, mode, RecordBytes(z, mode, r)[..n]) == ([], if n < 8 then Clean else Broken(UnexpectedEof))
  {
    ReadsTruncated(z, mode, r, n);
  }

  lemma AllOfMore(z: Codec, mode: Compression, r: Record, rest: seq<byte>)
    requires Lossless(z) && Fits(z, mode, r.payload)
    ensures ReadAll(z, mode, RecordBytes(z, mode, r) + rest) ==
            ([r] + ReadAll(z, mode, rest).0, ReadAll(z, mode, rest).1)
  {
    hide RecordBytes, ReadNext;
    ReadsRecord(z, mode, r, rest);
  }

  lemma ReadsNothing(z: Codec, mode: Compression)
    ensures ReadAll(z, mode, []) == ([], Clean)
  {
  }

  // ------------------------------------------------------------------- header

  const PARTITION_MAGIC: seq<byte> := [
    67, 72, 82, 79, 78, 79, 88, 73, 68, 69, 95, 79, 84, 76, 80, 95, 67, 65, 80, 84, 85, 82, 69, 95,
    80, 65, 82, 84, 73, 84, 73, 79, 78, 95, 86, 50, 10]

  predicate Tail(b: byte) { 0x80 <= b <= 0xBF }

  /** Well-formed UTF-8 (Unicode Standard, section 3.9, table 3-7). */
  predicate ValidUtf8(s: seq<byte>) {
    if s == [] then true
    else if s[0] <= 0x7F then ValidUtf8(s[1..])
    else if 0xC2 <= s[0] <= 0xDF && |s| >= 2 && Tail(s[1]) then ValidUtf8(s[2..])
    else if |s| >= 3 && Tail(s[2])
         && ((s[0] == 0xE0 && 0xA0 <= s[1] <= 0xBF) || (s[0] == 0xED && 0x80 <= s[1] <= 0x9F)
             || (0xE1 <= s[0] <= 0xEF && s[0] != 0xED && Tail(s[1]))) then ValidUtf8(s[3..])
    else if |s| >= 4 && Tail(s[2]) && Tail(s[3])
         && ((s[0] == 0xF0 && 0x90 <= s[1] <= 0xBF) || (s[0] == 0xF4 && 0x80 <= s[1] <= 0x8F)
             || (0xF1 <= s[0] <= 0xF3 && Tail(s[1]))) then ValidUtf8(s[4..])
    else false
  }

  datatype Header = Header(topic: seq<byte>, mode: Compression, partition: i32)

  function Flag(mode: Compression): byte { if mode.Uncompressed? then 0 else 1 }

  function HeaderBytes(h: Header): seq<byte>
    requires |h.topic| < U32
  {
    PARTITION_MAGIC + [Flag(h.mode)] + PutU32(|h.topic|) + h.topic + PutI32(h.partition)
  }

  /** `PartitionReader::open`. */
  function ReadHeader(s: seq<byte>): Result<(Header, seq<byte>), Error> {
    var n := |PARTITION_MAGIC|;
    if |s| < n then Err(UnexpectedEof)
    else if s[..n] != PARTITION_MAGIC then Err(InvalidData)
    else if |s| < n + 1 then Err(UnexpectedEof)
    else if s[n] > 1 then Err(InvalidData)
    else if |s| < n + 5 then Err(UnexpectedEof)
    else
      var end := n + 5 + GetU32(s[n + 1..n + 5]);
      if |s| < end then Err(UnexpectedEof)
      else if !ValidUtf8(s[n + 5..end]) then Err(InvalidData)
      else if |s| < end + 4 then Err(UnexpectedEof)
      else Ok((Header(s[n + 5..end], if s[n] == 0 then Uncompressed else Zstd, GetI32(s[end..end + 4])), s[end + 4..]))
  }

  lemma ReadsHeader(h: Header, rest: seq<byte>)
    requires |h.topic| < U32 && ValidUtf8(h.topic)
    ensures ReadHeader(HeaderBytes(h) + rest) == Ok((h, rest))
  {
    hide PutU32, PutI32, GetU32, GetI32, ValidUtf8;
    var s := HeaderBytes(h) + rest;
    var n := |PARTITION_MAGIC|;
    U32RoundTrip(|h.topic|);
    I32RoundTrip(h.partition);
    assert s[..n] == PARTITION_MAGIC && s[n] == Flag(h.mode);
    assert s[n + 1..n + 5] == PutU32(|h.topic|);
    var end := n + 5 + |h.topic|;
    assert s[n + 5..end] == h.topic && s[end..end + 4] == PutI32(h.partition) && s[end + 4..] == rest;
  }

  /** A whole partition file: its header, its records and how they end. */
  function ReadFile(z: Codec, s: seq<byte>): Result<(Header, seq<Record>, Ending), Error> {
    match ReadHeader(s)
    case Err(error) => Err(error)
    case Ok((h, rest)) => var (rs, ending) := ReadAll(z, h.mode, rest); Ok((h, rs, ending))
  }

  /** The file reads as its header and the records wholly inside its first `n` record bytes,
      then a clean end if fewer than eight bytes are left and an error otherwise. */
  ghost predicate FileIsRead(z: Codec, h: Header, rs: seq<Record>, file: seq<byte>, n: nat)
    requires AllFit(z, h.mode, rs)
  {
    var k := Whole(z, h.mode, rs, n);
    var left := n - |Encode(z, h.mode, rs[..k])|;
    left >= 0 && ReadFile(z, file) == Ok((h, rs[..k], if left < 8 then Clean else Broken(UnexpectedEof)))
  }

  lemma FileReads(z: Codec, h: Header, rs: seq<Record>, n: nat)
    requires Lossless(z) && AllFit(z, h.mode, rs) && |h.topic| < U32 && ValidUtf8(h.topic) && n <= |Encode(z, h.mode, rs)|
    ensures FileIsRead(z, h, rs, HeaderBytes(h) + Encode(z, h.mode, rs)[..n], n)
  {
    hide HeaderBytes, Encode, ReadHeader, ReadAll, Whole, ValidUtf8, RecordBytes;
    ReadsHeader(h, Encode(z, h.mode, rs)[..n]);
    PrefixReads(z, h.mode, rs, n);
  }

  /** This holds of every prefix of a file that keeps the header. */
  lemma FilePrefixReads(z: Codec, h: Header, rs: seq<Record>, file: seq<byte>, m: nat)
    requires Lossless(z) && AllFit(z, h.mode, rs) && |h.topic| < U32 && ValidUtf8(h.topic)
    requires file == HeaderBytes(h) + Encode(z, h.mode, rs) && |HeaderBytes(h)| <= m <= |file|
    ensures FileIsRead(z, h, rs, file[..m], m - |HeaderBytes(h)|)
  {
    hide *;
    var head, body := HeaderBytes(h), Encode(z, h.mode, rs);
    var n := m - |head|;
    FileReads(z, h, rs, n);
    assert file[..m] == head + body[..n];
  }
}
