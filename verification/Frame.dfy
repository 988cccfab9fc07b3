/** internal/protocol/codec/frame.go: length-prefixed packets on a byte stream. */
module Frame {
  import opened Bytes
  import VarInt

  const DEFAULT_MAX_PACKET_SIZE: nat := 0x20_0000

  /** How the stream stops once its bytes are used up. */
  datatype Ending = Closed | Broken

  datatype Error =
    | EmptyPacket
    | NegativeLength
    | PacketTooLarge(length: nat, limit: nat)
    | BadVarInt(cause: VarInt.Error)
    | EndOfStream
    | UnexpectedEnd
    | ReadFailed
    | ShortWrite
    | WriteFailed
    | InvalidCompressedPacket
    | InvalidCompressionThreshold

  /** NewFramer: a limit that is not positive means the default. */
  function FramerLimit(maxPacketSize: int): (limit: nat)
    ensures limit > 0 && (maxPacketSize > 0 ==> limit == maxPacketSize)
  {
    if maxPacketSize <= 0 then DEFAULT_MAX_PACKET_SIZE else maxPacketSize
  }

  function EndError(ending: Ending): (e: Error) {
    if ending.Closed? then EndOfStream else ReadFailed
  }

  // ---- Specification: what a read of `stream` returns, and how many bytes it takes ----

  function ReadVarInt(stream: bytes, ending: Ending): (r: (Result<int32, Error>, nat))
    ensures r.1 <= |stream|
  {
    var n := VarInt.Continuations(stream);
    if n >= VarInt.MAX_VARINT_BYTES then (Err(BadVarInt(VarInt.TooLong)), VarInt.MAX_VARINT_BYTES)
    else if n == |stream| then
      (Err(if n > 0 && ending.Closed? then BadVarInt(VarInt.Partial) else EndError(ending)), n)
    else
      (match VarInt.Consume(stream)
       case Ok(value) => Ok(value.0)
       case Err(e) => Err(BadVarInt(e)),
       n + 1)
  }

  function ReadFull(stream: bytes, ending: Ending, n: nat): (r: (Result<bytes, Error>, nat))
    ensures r.1 <= |stream|
  {
    if n <= |stream| then (Ok(stream[..n]), n)
    else if ending.Broken? then (Err(ReadFailed), |stream|)
    else (Err(if stream == [] then EndOfStream else UnexpectedEnd), |stream|)
  }

  function ReadFrame(limit: nat, stream: bytes, ending: Ending): (r: (Result<bytes, Error>, nat))
    ensures r.1 <= |stream|
    ensures r.0.Ok? ==> 0 < |r.0.value| <= limit && |r.0.value| < 0x8000_0000
  {
    var (length, used) := ReadVarInt(stream, ending);
    if length.Err? then (Err(length.error), used)
    else if length.value < 0 then (Err(NegativeLength), used)
    else if length.value == 0 then (Err(EmptyPacket), used)
    else if length.value > limit then (Err(PacketTooLarge(length.value, limit)), used)
    else
      var (body, more) := ReadFull(stream[used..], ending, length.value);
      (body, used + more)
  }

  /** The bytes written for a payload the framer accepts: int32(len) keeps only 32 bits of the length. */
  function FrameBytes(payload: bytes): (b: bytes) {
    VarInt.Encode(TruncateInt32(|payload|)) + payload
  }

  function WriteError(limit: nat, payload: bytes): (e: Option<Error>) {
    if payload == [] then Some(EmptyPacket)
    else if |payload| > limit then Some(PacketTooLarge(|payload|, limit))
    else None
  }

  // ---- Main results ----

  /** The stream reader and the slice reader accept the same prefixes, with the same value and size. */
  lemma StreamReaderAgrees(stream: bytes, ending: Ending)
    ensures ReadVarInt(stream, ending).0.Ok? <==> VarInt.Consume(stream).Ok?
    ensures VarInt.Consume(stream).Ok? ==>
              ReadVarInt(stream, ending) == (Ok(VarInt.Consume(stream).value.0), VarInt.Consume(stream).value.1)
    ensures
      && VarInt.Consume(stream).Err?
      && !(VarInt.Consume(stream).error.Partial? && (stream == [] || ending.Broken?)) ==>
              ReadVarInt(stream, ending).0 == Err(BadVarInt(VarInt.Consume(stream).error))
  {
  }

  /** The outcomes of the byte-at-a-time loop, by where it stops. */
  lemma ReadVarIntStops(stream: bytes, ending: Ending, position: nat)
    requires position <= |stream| && position <= VarInt.MAX_VARINT_BYTES
    requires forall i | 0 <= i < position :: stream[i] >= 0x80
    ensures position == VarInt.MAX_VARINT_BYTES
        ==> ReadVarInt(stream, ending) == (Err(BadVarInt(VarInt.TooLong)), position)
    ensures position < VarInt.MAX_VARINT_BYTES && position == |stream| ==>
              var error := if position > 0 && ending.Closed? then BadVarInt(VarInt.Partial) else EndError(ending);
              ReadVarInt(stream, ending) == (Err(error), position)
    ensures position < VarInt.MAX_VARINT_BYTES && position < |stream| && stream[position] < 0x80 ==>
              if position == VarInt.MAX_VARINT_BYTES - 1 && stream[position] >= 0x10 then
                ReadVarInt(stream, ending) == (Err(BadVarInt(VarInt.Overflow)), position + 1)
              else
                VarInt.Value(stream[..position + 1]) < 0x1_0000_0000
                && ReadVarInt(stream, ending) == (Ok(ToInt32(VarInt.Value(stream[..position + 1]))), position + 1)
  {
    VarInt.ContinuationsIs(stream, position);
    if position < VarInt.MAX_VARINT_BYTES && position < |stream| && stream[position] < 0x80
       && !(position == VarInt.MAX_VARINT_BYTES - 1 && stream[position] >= 0x10) {
      VarInt.ValueBound(stream[..position + 1]);
    }
  }

  /** A payload is accepted exactly if it is not empty and within the limit. */
  lemma WriteAccepts(limit: nat, payload: bytes)
    ensures WriteError(limit, payload).None? <==> 0 < |payload| <= limit
    ensures payload == [] <==> WriteError(limit, payload) == Some(EmptyPacket)
    ensures payload != [] && |payload| > limit ==> WriteError(limit, payload) == Some(PacketTooLarge(|payload|, limit))
  {
  }

  /** A frame is read exactly if its length is positive, within the limit, and followed by that many bytes. */
  lemma FrameAccepts(limit: nat, stream: bytes, ending: Ending, payload: bytes)
    ensures ReadFrame(limit, stream, ending).0 == Ok(payload) <==>
            && VarInt.Consume(stream).Ok?
            && var (n, used) := VarInt.Consume(stream).value;
            0 < n <= limit && used + n <= |stream| && payload == stream[used..used + n]
    ensures ReadFrame(limit, stream, ending).0.Ok? ==>
              ReadFrame(limit, stream, ending).1 == VarInt.Consume(stream).value.1 + VarInt.Consume(stream).value.0
  {
    StreamReaderAgrees(stream, ending);
    hide VarInt.Consume, ReadVarInt;
    if VarInt.Consume(stream).Ok? {
      var (n, used) := VarInt.Consume(stream).value;
      if n > 0 && used + n <= |stream| {
        assert stream[used..][..n] == stream[used..used + n];
      }
    }
  }

  /** A written frame is read back, and exactly its bytes are taken, if and only if its length fits an int32. */
  lemma FrameRoundTrip(limit: nat, payload: bytes, rest: bytes, ending: Ending)
    requires WriteError(limit, payload).None?
    ensures ReadFrame(limit, FrameBytes(payload) + rest, ending) == (Ok(payload), |FrameBytes(payload)|)
            <==> |payload| < 0x8000_0000
  {
    if |payload| < 0x8000_0000 {
      var header := VarInt.Encode(|payload|);
      var stream := FrameBytes(payload) + rest;
      assert stream == header + (payload + rest);
      VarInt.RoundTrip(|payload|, payload + rest);
      StreamReaderAgrees(stream, ending);
      assert stream[|header|..] == payload + rest;
      assert (payload + rest)[..|payload|] == payload;
    }
  }
}
