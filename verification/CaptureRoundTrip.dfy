/** A whole capture, written and read back. */
module CaptureRoundTrip {
  import opened Common
  import opened Bytes
  import opened CaptureFormat
  import opened CaptureLog
  import CaptureWriter
  import CaptureReader

  /** Appends every message, closes the writer, opens what it left and reads to the
      end. The run goes through exactly when every message fits its record and the
      topic, once a partition needs it, fits the header; then it delivers the messages
      in the order they were appended. */
  method WriteThenRead(topic: seq<byte>, mode: Compression, zstd: Codec, messages: seq<Message>)
      returns (out: seq<CaptureReader.Delivered>, ok: bool)
    requires Lossless(zstd) && ValidUtf8(topic) && |messages| < U64
    ensures ok <==> Encodable(zstd, mode, messages) && (|topic| < U32 || messages == [])
    ensures ok ==> out == CaptureReader.Deliveries(topic, messages)
  {
    hide Fits, Captures, Lossless, CaptureWriter.AllHold;
    var writer := new CaptureWriter.OtlpCaptureWriter(topic, mode, zstd);
    var i := 0;
    while i < |messages|
      invariant fresh(writer) && writer.Valid() && writer.intact && writer.writers.Some?
      invariant writer.topic == topic && writer.mode == mode && writer.zstd == zstd
      invariant i <= |messages| && writer.log == messages[..i]
      invariant forall k :: 0 <= k < i ==> Fits(zstd, mode, messages[k].payload)
      invariant i == 0 ==> writer.writers.value == map[]
      invariant i > 0 ==> |topic| < U32
    {
      var m := messages[i];
      var appended := writer.Append(m.partition, m.offset, m.timestamp, m.capturedAt, m.payload);
      if appended.Err? {
        return [], false;
      }
      assert messages[..i + 1] == messages[..i] + [m];
      i := i + 1;
    }
    assert writer.log == messages;
    writer.Close();
    out, ok := CaptureReader.ReadCapture(writer.directory, zstd, topic, mode, messages);
  }
}
