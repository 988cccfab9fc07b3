/** internal/protocol/codec/compression.go: the compressed packet envelope. */
module Compression {
  import opened Bytes
  import opened Frame
  import VarInt

  /** zlib, left uninterpreted: `inflate` gives None for a stream that does not decompress. */
  datatype Zlib = Zlib(compress: bytes -> bytes, inflate: bytes -> Option<bytes>)

  /** The laws used of zlib: it is invertible, never writes nothing, and expands its input only slightly. */
  ghost predicate Lawful(z: Zlib) {
    forall x: bytes :: z.inflate(z.compress(x)) == Some(x) && 0 < |z.compress(x)| <= |x| + |x| / 1000 + 64
  }

  datatype CompressionState = CompressionState(threshold: nat, maxPacketSize: nat)

  function NewCompressionState(threshold: int, maxPacketSize: int): (r: Result<CompressionState, Error>) {
    if threshold < 0 then Err(InvalidCompressionThreshold)
    else Ok(CompressionState(threshold, FramerLimit(maxPacketSize)))
  }

  /** The limit of the framer below the envelope. */
  function WireLimit(c: CompressionState): (limit: nat) {
    c.maxPacketSize + c.maxPacketSize / 1000 + 64 + VarInt.MAX_VARINT_BYTES
  }

  function Envelope(z: Zlib, c: CompressionState, payload: bytes): (wire: bytes) {
    if |payload| < c.threshold then VarInt.Encode(0) + payload
    else VarInt.Encode(TruncateInt32(|payload|)) + z.compress(payload)
  }

  /** The decoding of one envelope. */
  function Open(z: Zlib, c: CompressionState, wire: bytes): (r: Result<bytes, Error>) {
    var length := VarInt.Consume(wire);
    if length.Err? || length.value.0 < 0 then Err(InvalidCompressedPacket)
    else
      var (dataLength, used) := length.value;
      var data := wire[used..];
      if dataLength == 0 then
        if data == [] || |data| >= c.threshold then Err(InvalidCompressedPacket) else Ok(data)
      else if dataLength > c.maxPacketSize then Err(PacketTooLarge(dataLength, c.maxPacketSize))
      else if dataLength < c.threshold || data == [] then Err(InvalidCompressedPacket)
      else match z.inflate(data)
        case None => Err(InvalidCompressedPacket)
        case Some(payload) => if |payload| == dataLength then Ok(payload) else Err(InvalidCompressedPacket)
  }

  function ReadCompressed(z: Zlib, c: CompressionState, stream: bytes, ending: Ending): (r: (Result<bytes, Error>, nat))
    ensures r.1 <= |stream|
  {
    var (wire, used) := ReadFrame(WireLimit(c), stream, ending);
    (if wire.Err? then wire else Open(z, c, wire.value), used)
  }

  // ---- Main results ----

  /** The framer under the envelope never rejects a payload the compressor accepted. */
  lemma EnvelopeFits(z: Zlib, c: CompressionState, payload: bytes)
    requires Lawful(z) && WriteError(c.maxPacketSize, payload).None?
    ensures WriteError(WireLimit(c), Envelope(z, c, payload)).None?
  {
    var n := |z.compress(payload)|;
    assert z.inflate(z.compress(payload)) == Some(payload);
    assert |payload| / 1000 <= c.maxPacketSize / 1000;
  }

  lemma OpenInvertsEnvelope(z: Zlib, c: CompressionState, payload: bytes)
    requires Lawful(z) && WriteError(c.maxPacketSize, payload).None? && |payload| < 0x8000_0000
    ensures Open(z, c, Envelope(z, c, payload)) == Ok(payload)
  {
    var wire := Envelope(z, c, payload);
    var length := if |payload| < c.threshold then 0 else |payload|;
    var body := if |payload| < c.threshold then payload else z.compress(payload);
    assert z.inflate(z.compress(payload)) == Some(payload);
    VarInt.RoundTrip(length, body);
    assert wire[|VarInt.Encode(length)|..] == body;
  }

  /** The payload lengths and envelope lengths that an int32 can carry. */
  predicate Representable(z: Zlib, c: CompressionState, payload: bytes) {
    |payload| < 0x8000_0000 && |Envelope(z, c, payload)| < 0x8000_0000
  }

  /**
   An accepted payload is read back, and exactly its bytes are taken, if and only if both length
   fields can be represented.
   */
  lemma CompressedRoundTrip(z: Zlib, c: CompressionState, payload: bytes, rest: bytes, ending: Ending)
    requires Lawful(z) && WriteError(c.maxPacketSize, payload).None?
    ensures var wire := FrameBytes(Envelope(z, c, payload));
            ReadCompressed(z, c, wire + rest, ending) == (Ok(payload), |wire|) <==> Representable(z, c, payload)
  {
    var envelope := Envelope(z, c, payload);
    var wire := FrameBytes(envelope);
    EnvelopeFits(z, c, payload);
    FrameRoundTrip(WireLimit(c), envelope, rest, ending);
    if Representable(z, c, payload) {
      OpenInvertsEnvelope(z, c, payload);
    } else if ReadCompressed(z, c, wire + rest, ending) == (Ok(payload), |wire|) {
      TakingAllMeansReadingAll(WireLimit(c), envelope, rest, ending);
      OpenIsRepresentable(z, c, envelope);
      assert false;
    }
  }

  /** An envelope is accepted exactly if it is uncompressed and below the threshold, or compressed at or above it. */
  lemma OpenAccepts(z: Zlib, c: CompressionState, wire: bytes, payload: bytes)
    ensures Open(z, c, wire) == Ok(payload) <==>
            && VarInt.Consume(wire).Ok?
            && var (n, used) := VarInt.Consume(wire).value;
            var data := wire[used..];
            || (n == 0 && payload == data && 0 < |data| < c.threshold)
            || (n > 0 && c.threshold <= n <= c.maxPacketSize && data != []
                && z.inflate(data) == Some(payload) && |payload| == n)
  {
    hide VarInt.Consume;
  }

  /** What Open returns is never longer than the int32 length field, or than the envelope it came in. */
  lemma OpenIsRepresentable(z: Zlib, c: CompressionState, wire: bytes)
    requires Open(z, c, wire).Ok?
    ensures |Open(z, c, wire).value| < 0x8000_0000 || |Open(z, c, wire).value| < |wire|
  {
  }

  /** A read that takes all bytes of a frame returns all of its payload. */
  lemma TakingAllMeansReadingAll(limit: nat, payload: bytes, rest: bytes, ending: Ending)
    requires WriteError(limit, payload).None?
    requires var r := ReadFrame(limit, FrameBytes(payload) + rest, ending); r.0.Ok? && r.1 == |FrameBytes(payload)|
    ensures |payload| < 0x8000_0000
    ensures ReadFrame(limit, FrameBytes(payload) + rest, ending).0 == Ok(payload)
  {
    var header := VarInt.Encode(TruncateInt32(|payload|));
    var stream := FrameBytes(payload) + rest;
    assert stream == header + (payload + rest);
    VarInt.RoundTrip(TruncateInt32(|payload|), payload + rest);
    StreamReaderAgrees(stream, ending);
    assert stream[|header|..] == payload + rest;
    assert (payload + rest)[..|payload|] == payload;
  }

  /** Packet limits small enough that every accepted payload is representable. */
  lemma SmallLimitsAreRepresentable(z: Zlib, c: CompressionState, payload: bytes)
    requires Lawful(z) && WriteError(c.maxPacketSize, payload).None?
    requires WireLimit(c) < 0x8000_0000
    ensures Representable(z, c, payload)
  {
    EnvelopeFits(z, c, payload);
  }

  /**
   With a threshold and a packet limit below 2^31, as the login path sets them, an uncompressed payload is
   always representable, and a compressed one exactly when its envelope is.
   */
  lemma Int32LimitsRepresentable(z: Zlib, c: CompressionState, payload: bytes)
    requires WriteError(c.maxPacketSize, payload).None?
    requires c.threshold < 0x8000_0000 && c.maxPacketSize < 0x8000_0000
    ensures Representable(z, c, payload) <==>
            |payload| < c.threshold || |VarInt.Encode(|payload|)| + |z.compress(payload)| < 0x8000_0000
  {
    VarInt.OneGroup(0);
  }

  /** A lawful compressor that only stores. */
  const STORING := Zlib((x: bytes) => [0] + x, (d: bytes) => if d == [] then None else Some(d[1..]))

  lemma StoringIsLawful()
    ensures Lawful(STORING) && forall x: bytes :: |STORING.compress(x)| == |x| + 1
  {
    forall x: bytes ensures STORING.inflate(STORING.compress(x)) == Some(x) && |STORING.compress(x)| == |x| + 1 {
      assert ([0] + x)[1..] == x;
    }
  }

  /**
   A packet limit below 2^31 is not enough, whatever int32 threshold is set: a payload at the limit that does not
   shrink is written but cannot be read back.
   */
  lemma LimitJustBelowInt32Fails(z: Zlib, threshold: nat, payload: bytes, rest: bytes, ending: Ending)
    requires Lawful(z) && threshold <= 0x7fff_ffff && |payload| == 0x7fff_ffff && |z.compress(payload)| >= 0x7fff_ffff
    ensures var c := CompressionState(threshold, 0x7fff_ffff);
            var wire := FrameBytes(Envelope(z, c, payload));
            && WriteError(c.maxPacketSize, payload).None?
            && ReadCompressed(z, c, wire + rest, ending) != (Ok(payload), |wire|)
  {
    CompressedRoundTrip(z, CompressionState(threshold, 0x7fff_ffff), payload, rest, ending);
  }
}
