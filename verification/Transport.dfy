/**
 internal/transport/transport.go: one connection with its framing, compression and cipher state.

 The socket is modelled by what it does: reads deliver the peer's bytes in arbitrary chunks, and
 writes accept an arbitrary part of what they are given, or fail.
 */
module Transport {
  import opened Bytes
  import opened Cipher
  import opened Compression
  import Frame
  import VarInt

  // ---- Specification ----

  /** The packet format in force. */
  datatype Codec = Plain(limit: nat) | Compressed(state: CompressionState)

  /** Codec errors reported before anything is written. */
  function Refusal(codec: Codec, payload: bytes): (e: Option<Frame.Error>) {
    match codec
    case Plain(limit) => Frame.WriteError(limit, payload)
    case Compressed(c) => Frame.WriteError(c.maxPacketSize, payload)
  }

  /** What is handed to the framer for an accepted payload. */
  function Body(z: Zlib, codec: Codec, payload: bytes): (b: bytes) {
    match codec
    case Plain(_) => payload
    case Compressed(c) => Envelope(z, c, payload)
  }

  function PacketBytes(z: Zlib, codec: Codec, payload: bytes): (b: bytes) {
    Frame.FrameBytes(Body(z, codec, payload))
  }

  function ReadPacket(z: Zlib, codec: Codec, stream: bytes,
        ending: Frame.Ending): (r: (Result<bytes, Frame.Error>, nat))
    ensures r.1 <= |stream|
  {
    match codec
    case Plain(limit) => Frame.ReadFrame(limit, stream, ending)
    case Compressed(c) => ReadCompressed(z, c, stream, ending)
  }

  /** Payloads the writer accepts and whose lengths fit the int32 fields of the format. */
  predicate Sendable(z: Zlib, codec: Codec, payload: bytes) {
    && Refusal(codec, payload).None?
    && |payload| < 0x8000_0000
    && |Body(z, codec, payload)| < 0x8000_0000
  }

  function PacketsBytes(z: Zlib, codec: Codec, payloads: seq<bytes>): (b: bytes) {
    if payloads == [] then [] else PacketBytes(z, codec, payloads[0]) + PacketsBytes(z, codec, payloads[1..])
  }

  /** The next n packets of a stream, and what is left of it. */
  function ReadPackets(z: Zlib, codec: Codec, n: nat, stream: bytes,
        ending: Frame.Ending): (r: Option<(seq<bytes>, bytes)>) {
    if n == 0 then Some(([], stream))
    else
      var (packet, used) := ReadPacket(z, codec, stream, ending);
      if packet.Err? then None
      else
        match ReadPackets(z, codec, n - 1, stream[used..], ending)
        case None => None
        case Some((packets, rest)) => Some(([packet.value] + packets, rest))
  }

  // ---- Main results ----

  lemma PacketRoundTrip(z: Zlib, codec: Codec, payload: bytes, rest: bytes, ending: Frame.Ending)
    requires Lawful(z) && Sendable(z, codec, payload)
    ensures ReadPacket(z, codec, PacketBytes(z, codec, payload) + rest, ending)
        == (Ok(payload), |PacketBytes(z, codec, payload)|)
  {
    match codec
    case Plain(limit) => Frame.FrameRoundTrip(limit, payload, rest, ending);
    case Compressed(c) => CompressedRoundTrip(z, c, payload, rest, ending);
  }

  lemma ReadPacketsStep(z: Zlib, codec: Codec, n: nat, first: bytes, more: bytes, ending: Frame.Ending, p: bytes,
        ps: seq<bytes>, rest: bytes)
    requires n > 0
    requires ReadPacket(z, codec, first + more, ending) == (Ok(p), |first|)
    requires ReadPackets(z, codec, n - 1, more, ending) == Some((ps, rest))
    ensures ReadPackets(z, codec, n, first + more, ending) == Some(([p] + ps, rest))
  {
    hide ReadPacket;
    assert (first + more)[|first|..] == more;
  }

  lemma {:induction false} PacketsRoundTrip(z: Zlib, codec: Codec, payloads: seq<bytes>, rest: bytes,
        ending: Frame.Ending)
    requires Lawful(z) && forall p | p in payloads :: Sendable(z, codec, p)
    ensures ReadPackets(z, codec, |payloads|, PacketsBytes(z, codec, payloads) + rest, ending) == Some((payloads, rest))
    decreases |payloads|
  {
    hide ReadPacket, PacketBytes, Lawful, Sendable;
    if payloads == [] {
      assert [] + rest == rest;
    } else {
      var first := PacketBytes(z, codec, payloads[0]);
      var more := PacketsBytes(z, codec, payloads[1..]) + rest;
      Regroup(first, PacketsBytes(z, codec, payloads[1..]), rest);
      hide ReadPackets;
      PacketRoundTrip(z, codec, payloads[0], more, ending);
      PacketsRoundTrip(z, codec, payloads[1..], rest, ending);
      ReadPacketsStep(z, codec, |payloads|, first, more, ending, payloads[0], payloads[1..], rest);
      assert [payloads[0]] + payloads[1..] == payloads;
    }
  }

  /**
   The whole stack: packets are enveloped, framed, handed to the cipher in any pieces, cut by the
   network into any chunks, deciphered chunk by chunk and parsed. The same packets come out.
   */
  lemma LayeredRoundTrip(z: Zlib, codec: Codec, ks: Keystream, iv: bytes, payloads: seq<bytes>,
                         pieces: seq<bytes>, chunks: seq<bytes>, ending: Frame.Ending)
    requires Lawful(z) && iv != [] && forall p | p in payloads :: Sendable(z, codec, p)
    requires Flatten(pieces) == PacketsBytes(z, codec, payloads)
    requires Flatten(chunks) == Flatten(EncryptCalls(ks, iv, pieces))
    ensures ReadPackets(z, codec, |payloads|, Flatten(DecryptCalls(ks, iv, chunks)), ending) == Some((payloads, []))
  {
    IndependentChunking(ks, iv, pieces, chunks);
    PacketsRoundTrip(z, codec, payloads, [], ending);
    assert Flatten(pieces) + [] == Flatten(pieces);
  }

  // ---- The connection ----

  /** One call of the socket's Write: how many bytes it takes, and whether it then fails. */
  datatype WriteOutcome = WriteOutcome(count: nat, fails: bool)

  /** One direction of a connection: in clear, or enciphered from a shift register. */
  datatype Side = Clear | Ciphered(ks: Keystream, register: bytes)

  predicate ValidSide(side: Side) { side.Ciphered? ==> side.register != [] }

  /** What `data` looks like on the wire, and what bytes from the wire stand for. */
  function Seal(side: Side, data: bytes): (wire: bytes)
    requires ValidSide(side)
  {
    if side.Clear? then data else Encrypt(side.ks, side.register, data)
  }

  function Unseal(side: Side, wire: bytes): (data: bytes)
    requires ValidSide(side)
  {
    if side.Clear? then wire else Decrypt(side.ks, side.register, wire)
  }

  /** The side after these bytes went by on the wire. */
  function Past(side: Side, wire: bytes): (next: Side)
    requires ValidSide(side)
    ensures ValidSide(next)
  {
    if side.Clear? then side else Ciphered(side.ks, After(side.register, wire))
  }

  lemma UnsealInvertsSeal(side: Side, data: bytes)
    requires ValidSide(side)
    ensures Unseal(side, Seal(side, data)) == data
  {
    if side.Ciphered? {
      DecryptInvertsEncrypt(side.ks, side.register, data);
    }
  }

  lemma SealConcat(side: Side, a: bytes, b: bytes)
    requires ValidSide(side)
    ensures var next := Past(side, Seal(side, a));
            && Seal(side, a + b) == Seal(side, a) + Seal(next, b)
            && Past(side, Seal(side, a + b)) == Past(next, Seal(next, b))
  {
    if side.Ciphered? {
      EncryptConcat(side.ks, side.register, a, b);
      var next := After(side.register, Encrypt(side.ks, side.register, a));
      AfterConcat(side.register, Encrypt(side.ks, side.register, a), Encrypt(side.ks, next, b));
    }
  }

  lemma UnsealConcat(side: Side, a: bytes, b: bytes)
    requires ValidSide(side)
    ensures Unseal(side, a + b) == Unseal(side, a) + Unseal(Past(side, a), b)
  {
    if side.Ciphered? {
      DecryptConcat(side.ks, side.register, a, b);
    }
  }

  lemma PastConcat(side: Side, a: bytes, b: bytes)
    requires ValidSide(side)
    ensures Past(side, a + b) == Past(Past(side, a), b)
  {
    if side.Ciphered? {
      AfterConcat(side.register, a, b);
    }
  }

  lemma SealNothing(side: Side)
    requires ValidSide(side)
    ensures Seal(side, []) == [] && Past(side, []) == side
  {
    if side.Ciphered? {
      assert After(side.register, []) == side.register;
    }
  }

  lemma TakeFront(buffer: bytes, pending: bytes, count: nat)
    requires count <= |buffer|
    ensures (buffer + pending)[..count] == buffer[..count]
    ensures (buffer + pending)[count..] == buffer[count..] + pending
  {
  }

  /** A socket that always makes progress. */
  predicate Healthy(outcomes: seq<WriteOutcome>) {
    forall i | 0 <= i < |outcomes| :: outcomes[i].count > 0 && !outcomes[i].fails
  }

  /** Errors of the socket, as opposed to refusals of the codec. */
  predicate SocketError(e: Frame.Error) { e.WriteFailed? || e.ShortWrite? }

  class CipherState {
    const ks: Keystream
    const encryptIV: array<byte>
    const decryptIV: array<byte>

    ghost predicate Valid() {
      encryptIV.Length == decryptIV.Length == BLOCK_SIZE && encryptIV != decryptIV
    }

    constructor (ks: Keystream, iv: bytes)
      requires |iv| == BLOCK_SIZE
      ensures Valid() && fresh(encryptIV) && fresh(decryptIV) && this.ks == ks
      ensures encryptIV[..] == decryptIV[..] == iv
    {
      this.ks := ks;
      encryptIV := new byte[BLOCK_SIZE](i requires 0 <= i < BLOCK_SIZE => iv[i]);
      decryptIV := new byte[BLOCK_SIZE](i requires 0 <= i < BLOCK_SIZE => iv[i]);
    }

    /** Encrypt(dst, src) into a fresh buffer, as the connection's writer calls it. */
    method Encrypt(data: bytes) returns (out: bytes)
      requires Valid()
      modifies encryptIV
      ensures out == Cipher.Encrypt(ks, old(encryptIV[..]), data)
      ensures encryptIV[..] == After(old(encryptIV[..]), out)
    {
      var src := new byte[|data|](i requires 0 <= i < |data| => data[i]);
      var dst := new byte[|data|];
      assert src[..] == data;
      Cfb8(ks, encryptIV, dst, src, true);
      out := dst[..];
      assert out == dst[..|data|];
    }

    /** Decrypt(data, data): the buffer the socket filled is deciphered in place. */
    method Decrypt(data: array<byte>)
      requires Valid() && data != decryptIV
      modifies decryptIV, data
      ensures data[..] == Cipher.Decrypt(ks, old(decryptIV[..]), old(data[..]))
      ensures decryptIV[..] == After(old(decryptIV[..]), old(data[..]))
    {
      Cfb8(ks, decryptIV, data, data, false);
      assert data[..] == data[..data.Length];
    }
  }

  class Connection {
    const z: Zlib
    const maxPacketSize: int
    var compression: Option<CompressionState>
    var encryption: CipherState?
    // the read side: bytes the buffered reader holds, chunks still to come from the socket
    var buffer: bytes
    var chunks: seq<bytes>
    const ending: Frame.Ending
    // the write side: bytes the socket accepted, and how its coming Write calls behave
    var sent: bytes
    var outcomes: seq<WriteOutcome>

    // everything a reader of this connection will see from now on, and the read side once it has
    ghost var incoming: bytes
    ghost var final: Side

    ghost predicate CipherValid()
      reads this`encryption
    {
      encryption != null ==> encryption.Valid()
    }

    ghost predicate Valid()
      reads this`encryption, this`chunks, this`buffer, this`incoming, this`final
      reads if encryption == null then {} else {encryption.decryptIV}
    {
      && CipherValid()
      && incoming == buffer + Pending() && final == Past(ReadSide(), Flatten(chunks))
    }

    ghost function ReadSide(): (side: Side)
      requires CipherValid()
      reads this`encryption, if encryption == null then {} else {encryption.decryptIV}
      ensures ValidSide(side)
    {
      if encryption == null then Clear else Ciphered(encryption.ks, encryption.decryptIV[..])
    }

    ghost function WriteSide(): (side: Side)
      requires CipherValid()
      reads this`encryption, if encryption == null then {} else {encryption.encryptIV}
      ensures ValidSide(side)
    {
      if encryption == null then Clear else Ciphered(encryption.ks, encryption.encryptIV[..])
    }

    /** The plaintext of the chunks still to come. */
    ghost function Pending(): (s: bytes)
      requires CipherValid()
      reads this`encryption, this`chunks, if encryption == null then {} else {encryption.decryptIV}
    {
      Unseal(ReadSide(), Flatten(chunks))
    }

    function Codec(): (c: Codec)
      reads this`compression
    {
      match compression
      case None => Plain(Frame.FramerLimit(maxPacketSize))
      case Some(c) => Compressed(c)
    }

    constructor (z: Zlib, maxPacketSize: int, chunks: seq<bytes>, ending: Frame.Ending, outcomes: seq<WriteOutcome>)
      ensures Valid() && incoming == Flatten(chunks) && sent == [] && encryption == null && compression == None
      ensures this.z == z && this.maxPacketSize == maxPacketSize && this.ending == ending
    {
      this.z, this.maxPacketSize, this.ending := z, maxPacketSize, ending;
      compression, encryption, buffer, sent := None, null, [], [];
      this.chunks, this.outcomes := chunks, outcomes;
      incoming, final := Flatten(chunks), Clear;
    }

    method EnableCompression(threshold: int) returns (r: Result<(), Frame.Error>)
      modifies this`compression
      ensures r.Err? <==> threshold < 0
      ensures compression == if r.Ok? then Some(CompressionState(threshold, Frame.FramerLimit(maxPacketSize)))
          else old(compression)
    {
      match NewCompressionState(threshold, maxPacketSize)
      case Err(e) => return Err(e);
      case Ok(c) =>
        compression := Some(c);
        return Ok(());
    }

    /** Succeeds only with nothing buffered, and then deciphers exactly the bytes not yet taken from the socket. */
    method EnableEncryption(ks: Keystream, key: bytes, iv: bytes) returns (ok: bool)
      requires Valid()
      modifies this`encryption, this`incoming, this`final
      ensures Valid()
      ensures ok <==> buffer == [] && |key| == |iv| == BLOCK_SIZE
      ensures !ok ==> encryption == old(encryption) && incoming == old(incoming)
      ensures ok ==> encryption != null && incoming == Decrypt(ks, iv, Flatten(chunks))
      ensures ok ==> WriteSide() == ReadSide() == Ciphered(ks, iv)
      ensures ok ==> fresh(encryption) && fresh(encryption.encryptIV) && fresh(encryption.decryptIV)
    {
      if buffer != [] {
        return false;
      }
      if |key| != BLOCK_SIZE || |iv| != BLOCK_SIZE {
        return false;
      }
      encryption := new CipherState(ks, iv);
      incoming, final := Pending(), Past(ReadSide(), Flatten(chunks));
      return true;
    }

    // ---- Reading ----

    /** What cipherReader.Read makes of one chunk, in place. */
    method Decipher(chunk: bytes) returns (plain: bytes)
      requires CipherValid()
      modifies if encryption == null then {} else {encryption.decryptIV}
      ensures plain == Unseal(old(ReadSide()), chunk) && ReadSide() == Past(old(ReadSide()), chunk)
    {
      if encryption == null {
        return chunk;
      }
      var data := new byte[|chunk|](i requires 0 <= i < |chunk| => chunk[i]);
      assert data[..] == chunk;
      encryption.Decrypt(data);
      return data[..];
    }

    /** One Read of the socket into the empty buffer of the buffered reader. */
    method Fill()
      requires Valid() && buffer == [] && chunks != []
      modifies this`buffer, this`chunks, if encryption == null then {} else {encryption.decryptIV}
      ensures Valid()
      ensures chunks == old(chunks)[1..]
    {
      assert Flatten(chunks) == chunks[0] + Flatten(chunks[1..]);
      hide Flatten, Unseal, Past;
      assert [] + Pending() == Pending();
      UnsealConcat(ReadSide(), chunks[0], Flatten(chunks[1..]));
      PastConcat(ReadSide(), chunks[0], Flatten(chunks[1..]));
      buffer := Decipher(chunks[0]);
      chunks := chunks[1..];
    }

    /** The network delivers more chunks to the socket. */
    method Arrive(more: seq<bytes>)
      requires Valid()
      modifies this`chunks, this`incoming, this`final
      ensures Valid() && final == Past(old(final), Flatten(more))
      ensures incoming == old(incoming) + Unseal(old(final), Flatten(more))
    {
      FlattenConcat(chunks, more);
      UnsealConcat(ReadSide(), Flatten(chunks), Flatten(more));
      PastConcat(ReadSide(), Flatten(chunks), Flatten(more));
      Regroup(buffer, Pending(), Unseal(final, Flatten(more)));
      hide Flatten, Unseal, Past;
      incoming, final := incoming + Unseal(final, Flatten(more)), Past(final, Flatten(more));
      chunks := chunks + more;
    }

    /** Hands out the front of the buffer. */
    method Take(count: nat) returns (out: bytes)
      requires Valid() && count <= |buffer|
      modifies this`buffer, this`incoming
      ensures Valid() && |out| == count && out <= old(incoming) && incoming == old(incoming)[count..]
    {
      TakeFront(buffer, Pending(), count);
      hide Flatten, Unseal;
      out := buffer[..count];
      buffer := buffer[count..];
      incoming := incoming[count..];
    }

    /** One Read of the buffered reader: some of the next `max` bytes, and nothing only at the end of the stream. */
    method Read(max: nat) returns (part: bytes)
      requires Valid() && max > 0
      modifies this`buffer, this`chunks, this`incoming, if encryption == null then {} else {encryption.decryptIV}
      ensures Valid()
      ensures |part| <= max && part <= old(incoming) && incoming == old(incoming)[|part|..]
      ensures part == [] ==> old(incoming) == []
    {
      while buffer == [] && chunks != []
        invariant Valid() && incoming == old(incoming)
        decreases |chunks|
      {
        Fill();
      }
      part := Take(if |buffer| < max then |buffer| else max);
    }

    method ReadByte() returns (r: Option<byte>)
      requires Valid()
      modifies this`buffer, this`chunks, this`incoming, if encryption == null then {} else {encryption.decryptIV}
      ensures Valid()
      ensures r == if old(incoming) == [] then None else Some(old(incoming)[0])
      ensures incoming == if r.None? then old(incoming) else old(incoming)[1..]
    {
      hide Valid;
      var part := Read(1);
      r := if part == [] then None else Some(part[0]);
    }

    /** io.ReadFull. */
    method ReadFull(n: nat) returns (r: Result<bytes, Frame.Error>)
      requires Valid()
      modifies this`buffer, this`chunks, this`incoming, if encryption == null then {} else {encryption.decryptIV}
      ensures Valid()
      ensures var (result, used) := Frame.ReadFull(old(incoming), ending, n);
              r == result && incoming == old(incoming)[used..]
    {
      hide Valid;
      var out: bytes := [];
      while |out| < n
        invariant Valid() && |out| <= n
        invariant out <= old(incoming) && incoming == old(incoming)[|out|..]
        decreases n - |out|
      {
        var part := Read(n - |out|);
        if part == [] {
          return Err(if ending.Broken? then Frame.ReadFailed else if out == [] then Frame.EndOfStream
              else Frame.UnexpectedEnd);
        }
        out := out + part;
      }
      assert out == old(incoming)[..n];
      return Ok(out);
    }

    /** codec.ReadVarInt over the buffered reader. */
    method ReadVarInt() returns (r: Result<int32, Frame.Error>)
      requires Valid()
      modifies this`buffer, this`chunks, this`incoming, if encryption == null then {} else {encryption.decryptIV}
      ensures Valid()
      ensures var (result, used) := Frame.ReadVarInt(old(incoming), ending);
              r == result && incoming == old(incoming)[used..]
    {
      hide Valid, Frame.ReadVarInt, VarInt.Value, VarInt.Accumulate;
      VarInt.EmptyValue();
      var value: uint32 := 0;
      ghost var stream := incoming;
      for position := 0 to VarInt.MAX_VARINT_BYTES
        invariant Valid() && position <= |stream| && incoming == stream[position..]
        invariant forall i | 0 <= i < position :: stream[i] >= 0x80
        invariant position < VarInt.MAX_VARINT_BYTES ==> value == VarInt.Value(stream[..position])
      {
        Frame.ReadVarIntStops(stream, ending, position);
        var next := ReadByte();
        if next.None? {
          return Err(if position > 0 && ending.Closed? then Frame.BadVarInt(VarInt.Partial)
              else Frame.EndError(ending));
        }
        var current := next.value;
        assert incoming == stream[position + 1..];
        if position == VarInt.MAX_VARINT_BYTES - 1 && current < 0x80 && current >= 0x10 {
          return Err(Frame.BadVarInt(VarInt.Overflow));
        }
        if position < VarInt.MAX_VARINT_BYTES - 1 || current < 0x80 {
          VarInt.AccumulateIsPush(stream[..position], current);
          assert stream[..position + 1] == stream[..position] + [current];
        }
        value := VarInt.Accumulate(value, current, position);
        if current < 0x80 {
          return Ok(ToInt32(value));
        }
      }
      Frame.ReadVarIntStops(stream, ending, VarInt.MAX_VARINT_BYTES);
      return Err(Frame.BadVarInt(VarInt.TooLong));
    }

    /** Framer.ReadFrame over the buffered reader. */
    method ReadFramed(limit: nat) returns (r: Result<bytes, Frame.Error>)
      requires Valid()
      modifies this`buffer, this`chunks, this`incoming, if encryption == null then {} else {encryption.decryptIV}
      ensures Valid()
      ensures var (result, used) := Frame.ReadFrame(limit, old(incoming), ending);
              r == result && incoming == old(incoming)[used..]
    {
      hide Valid, Frame.ReadVarInt, Frame.ReadFull;
      var length := ReadVarInt();
      if length.Err? {
        return Err(length.error);
      }
      if length.value < 0 {
        return Err(Frame.NegativeLength);
      }
      if length.value == 0 {
        return Err(Frame.EmptyPacket);
      }
      if length.value > limit {
        return Err(Frame.PacketTooLarge(length.value, limit));
      }
      r := ReadFull(length.value);
    }

    method ReadFrame() returns (r: Result<bytes, Frame.Error>)
      requires Valid()
      modifies this`buffer, this`chunks, this`incoming, if encryption == null then {} else {encryption.decryptIV}
      ensures Valid()
      ensures var (result, used) := ReadPacket(z, Codec(), old(incoming), ending);
              r == result && incoming == old(incoming)[used..]
    {
      hide Valid, Frame.ReadFrame, Open;
      match compression
      case None =>
        r := ReadFramed(Frame.FramerLimit(maxPacketSize));
      case Some(c) =>
        r := ReadFramed(WireLimit(c));
        if r.Ok? {
          r := Open(z, c, r.value);
        }
    }

    // ---- Writing ----

    /** The socket's own Write. */
    method SocketWrite(data: bytes) returns (count: nat, failed: bool)
      modifies this`sent, this`outcomes
      ensures count <= |data| && sent == old(sent) + data[..count]
      ensures Healthy(old(outcomes)) ==> Healthy(outcomes) && !failed && (data != [] ==> count > 0)
    {
      if outcomes == [] {
        count, failed := |data|, false;
      } else {
        count := if outcomes[0].count < |data| then outcomes[0].count else |data|;
        failed := outcomes[0].fails;
        outcomes := outcomes[1..];
      }
      sent := sent + data[..count];
    }

    /** What a finished write of `data` leaves behind. */
    twostate predicate Wrote(data: bytes)
      requires old(CipherValid()) && CipherValid()
      reads this, if encryption == null then {} else {encryption.encryptIV}
    {
      && sent == old(sent) + Seal(old(WriteSide()), data)
      && WriteSide() == Past(old(WriteSide()), Seal(old(WriteSide()), data))
    }

    /** The partial-write loop of cipherWriter.Write. */
    method Push(encrypted: bytes) returns (written: nat, failed: Option<Frame.Error>)
      modifies this`sent, this`outcomes
      ensures written <= |encrypted| && sent == old(sent) + encrypted[..written]
      ensures failed.None? ==> written == |encrypted| && sent == old(sent) + encrypted
      ensures failed.Some? ==> SocketError(failed.value)
      ensures Healthy(old(outcomes)) ==> Healthy(outcomes) && failed.None?
    {
      written := 0;
      while written < |encrypted|
        invariant written <= |encrypted| && sent == old(sent) + encrypted[..written]
        invariant Healthy(old(outcomes)) ==> Healthy(outcomes)
        decreases |encrypted| - written
      {
        var n, fails := SocketWrite(encrypted[written..]);
        assert encrypted[..written + n] == encrypted[..written] + encrypted[written..][..n];
        written := written + n;
        if fails {
          return written, Some(Frame.WriteFailed);
        }
        if n == 0 {
          return written, Some(Frame.ShortWrite);
        }
      }
      assert encrypted[..written] == encrypted;
      return written, None;
    }

    /** cipherWriter.Write: enciphers all of `data` first, then pushes it through partial writes. */
    method Write(data: bytes) returns (count: nat, failed: Option<Frame.Error>)
      requires CipherValid()
      modifies this`sent, this`outcomes, if encryption == null then {} else {encryption.encryptIV}
      ensures count <= |data|
      ensures failed.None? && count == |data| ==> Wrote(data)
      ensures failed.None? && count < |data| ==> encryption == null && sent == old(sent) + data[..count]
      ensures failed.Some? ==> SocketError(failed.value)
      ensures Healthy(old(outcomes)) ==> Healthy(outcomes) && failed.None? && (data != [] ==> count > 0)
    {
      if encryption == null {
        var fails;
        count, fails := SocketWrite(data);
        assert count == |data| ==> data[..count] == data;
        failed := if fails then Some(Frame.WriteFailed) else None;
        return;
      }
      hide Encrypt, After;
      var encrypted := encryption.Encrypt(data);
      count, failed := Push(encrypted);
    }

    /** codec.writeAll. */
    method WriteAll(data: bytes) returns (failed: Option<Frame.Error>)
      requires CipherValid()
      modifies this`sent, this`outcomes, if encryption == null then {} else {encryption.encryptIV}
      ensures failed.None? ==> Wrote(data)
      ensures failed.Some? ==> SocketError(failed.value)
      ensures Healthy(old(outcomes)) ==> Healthy(outcomes) && failed.None?
    {
      var rest := data;
      SealNothing(WriteSide());
      while rest != []
        invariant encryption == null ==> sent + rest == old(sent) + data
        invariant encryption != null && rest != [] ==>
                    rest == data && sent == old(sent) && WriteSide() == old(WriteSide())
        invariant rest == [] ==> Wrote(data)
        invariant Healthy(old(outcomes)) ==> Healthy(outcomes)
        decreases |rest|
      {
        var n, err := Write(rest);
        if err.Some? {
          return err;
        }
        if n == 0 {
          return Some(Frame.ShortWrite);
        }
        rest := rest[n..];
      }
      return None;
    }

    /** WriteFrame: on success exactly the packet's bytes, enciphered from the current register, were sent. */
    method WriteFrame(payload: bytes) returns (failed: Option<Frame.Error>)
      requires CipherValid() && Lawful(z)
      modifies this`sent, this`outcomes, if encryption == null then {} else {encryption.encryptIV}
      ensures Refusal(Codec(), payload).Some? ==> failed == Refusal(Codec(), payload) && sent == old(sent)
      ensures failed.None? ==> Wrote(PacketBytes(z, Codec(), payload))
      ensures Refusal(Codec(), payload).None? && failed.Some? ==> SocketError(failed.value)
      ensures Healthy(old(outcomes)) ==> Healthy(outcomes) && failed == Refusal(Codec(), payload)
    {
      hide Healthy;
      var body := payload;
      var limit := Frame.FramerLimit(maxPacketSize);
      if compression.Some? {
        var c := compression.value;
        if payload == [] {
          return Some(Frame.EmptyPacket);
        }
        if |payload| > c.maxPacketSize {
          return Some(Frame.PacketTooLarge(|payload|, c.maxPacketSize));
        }
        body, limit := Envelope(z, c, payload), WireLimit(c);
        EnvelopeFits(z, c, payload);
      }
      if body == [] {
        return Some(Frame.EmptyPacket);
      }
      if |body| > limit {
        return Some(Frame.PacketTooLarge(|body|, limit));
      }
      assert body == Body(z, Codec(), payload);
      failed := WriteFramed(body);
    }

    /** The two writes of Framer.WriteFrame. */
    method WriteFramed(body: bytes) returns (failed: Option<Frame.Error>)
      requires CipherValid()
      modifies this`sent, this`outcomes, if encryption == null then {} else {encryption.encryptIV}
      ensures failed.None? ==> Wrote(Frame.FrameBytes(body))
      ensures failed.Some? ==> SocketError(failed.value)
      ensures Healthy(old(outcomes)) ==> Healthy(outcomes) && failed.None?
    {
      hide Healthy, Seal, Past, VarInt.Encode;
      var header := VarInt.AppendVarInt([], TruncateInt32(|body|));
      assert header == VarInt.Encode(TruncateInt32(|body|));
      SealConcat(WriteSide(), header, body);
      failed := WriteAll(header);
      if failed.None? {
        failed := WriteAll(body);
      }
    }

    // ---- Successive calls ----

    /** n successive ReadFrame calls, up to the first that fails: what the packet reader makes of the incoming
        plaintext. */
    method ReceiveAll(n: nat) returns (payloads: seq<bytes>, failed: Option<Frame.Error>)
      requires Valid()
      modifies this`buffer, this`chunks, this`incoming, if encryption == null then {} else {encryption.decryptIV}
      ensures Valid()
      ensures failed.None? <==> ReadPackets(z, Codec(), n, old(incoming), ending).Some?
      ensures failed.None? ==> ReadPackets(z, Codec(), n, old(incoming), ending) == Some((payloads, incoming))
      decreases n
    {
      hide Valid, ReadPacket;
      if n == 0 {
        return [], None;
      }
      var first := ReadFrame();
      if first.Err? {
        return [], Some(first.error);
      }
      var rest;
      rest, failed := ReceiveAll(n - 1);
      payloads := [first.value] + rest;
    }

    /** When the plaintext to come starts with the packets of `payloads`, they are received and nothing behind them
        is. */
    method Receive(n: nat, ghost payloads: seq<bytes>, ghost rest: bytes) returns (received: seq<bytes>)
      requires Valid() && Lawful(z) && n == |payloads| && (forall p | p in payloads :: Sendable(z, Codec(), p))
      requires incoming == PacketsBytes(z, Codec(), payloads) + rest
      modifies this`buffer, this`chunks, this`incoming, if encryption == null then {} else {encryption.decryptIV}
      ensures Valid() && received == payloads && incoming == rest
    {
      PacketsRoundTrip(z, Codec(), payloads, rest, ending);
      hide Valid, ReadPackets, PacketsBytes, Lawful, Sendable;
      var failed;
      received, failed := ReceiveAll(n);
    }

    /** All read so far, and the chunks of some sealed packets arrive: those are received, and all is read again. */
    method Collect(more: seq<bytes>, n: nat, ghost payloads: seq<bytes>) returns (received: seq<bytes>)
      requires Valid() && Lawful(z) && incoming == [] && ValidSide(final)
      requires n == |payloads| && (forall p | p in payloads :: Sendable(z, Codec(), p))
      requires Flatten(more) == Seal(final, PacketsBytes(z, Codec(), payloads))
      modifies this`buffer, this`chunks, this`incoming, this`final
      modifies if encryption == null then {} else {encryption.decryptIV}
      ensures Valid() && received == payloads && incoming == [] && final == Past(old(final), Flatten(more))
    {
      ghost var plain := PacketsBytes(z, Codec(), payloads);
      UnsealInvertsSeal(final, plain);
      assert [] + plain == plain && plain + [] == plain;
      hide Valid, PacketsBytes, Seal, Unseal, Past, Flatten, Lawful, Sendable;
      Arrive(more);
      received := Receive(n, payloads, []);
    }

    /** Successive WriteFrame calls, up to the first that fails. */
    method SendAll(payloads: seq<bytes>) returns (failed: Option<Frame.Error>)
      requires CipherValid() && Lawful(z)
      modifies this`sent, this`outcomes, if encryption == null then {} else {encryption.encryptIV}
      ensures failed.None? ==> Wrote(PacketsBytes(z, Codec(), payloads))
      ensures Healthy(old(outcomes)) && (forall p | p in payloads :: Refusal(Codec(), p).None?) ==>
                Healthy(outcomes) && failed.None?
      decreases |payloads|
    {
      hide Healthy, Seal, Past, PacketBytes, Lawful, Refusal;
      if payloads == [] {
        SealNothing(WriteSide());
        return None;
      }
      SealConcat(WriteSide(), PacketBytes(z, Codec(), payloads[0]), PacketsBytes(z, Codec(), payloads[1..]));
      failed := WriteFrame(payloads[0]);
      if failed.None? {
        failed := SendAll(payloads[1..]);
      }
    }
  }

  // ---- Connections end to end ----

  /**
   Switching ciphers in mid-stream. The peer sent `before` in clear and everything behind it enciphered
   from the IV. The connection reads as many frames as `before` has, in whatever chunks they come, and
   switches: it has received `before`, EnableEncryption succeeds exactly with nothing buffered and a
   16-byte key and IV, and if it does, the plaintext still to come is exactly what the peer enciphered.
   */
  method SwitchEncryption(c: Connection, ghost before: seq<bytes>, n: nat, ks: Keystream, key: bytes, iv: bytes,
        ghost tail: bytes)
      returns (received: seq<bytes>, buffered: nat, ok: bool)
    requires c.Valid() && c.encryption == null && Lawful(c.z) && iv != []
    requires n == |before| && forall p | p in before :: Sendable(c.z, c.Codec(), p)
    requires c.incoming == PacketsBytes(c.z, c.Codec(), before) + Encrypt(ks, iv, tail)
    modifies c`buffer, c`chunks, c`incoming, c`final, c`encryption
    ensures c.Valid() && received == before
    ensures ok <==> buffered == 0 && |key| == |iv| == BLOCK_SIZE
    ensures buffered == |c.buffer|
    ensures ok ==> c.incoming == tail && c.encryption != null && fresh(c.encryption) && fresh(c.encryption.decryptIV)
    ensures !ok ==> c.incoming == Encrypt(ks, iv, tail) && c.encryption == null
  {
    hide PacketsBytes, Encrypt, Decrypt, Flatten, Lawful, Sendable;
    received := c.Receive(n, before, Encrypt(ks, iv, tail));
    buffered := |c.buffer|;
    assert c.buffer == [] ==> c.incoming == Flatten(c.chunks);
    DecryptInvertsEncrypt(ks, iv, tail);
    ok := c.EnableEncryption(ks, key, iv);
  }

  /** Hence every frame the peer sends behind the switch is received as sent. */
  method SwitchDelivers(c: Connection, ghost before: seq<bytes>, n: nat, ks: Keystream, key: bytes, iv: bytes,
        ghost after: seq<bytes>, m: nat)
      returns (received: seq<bytes>, buffered: nat, ok: bool, later: seq<bytes>)
    requires c.Valid() && c.encryption == null && Lawful(c.z) && iv != []
    requires n == |before| && forall p | p in before :: Sendable(c.z, c.Codec(), p)
    requires m == |after| && forall p | p in after :: Sendable(c.z, c.Codec(), p)
    requires c.incoming == PacketsBytes(c.z, c.Codec(), before) + Encrypt(ks, iv, PacketsBytes(c.z, c.Codec(), after))
    modifies c`buffer, c`chunks, c`incoming, c`final, c`encryption
    ensures c.Valid() && received == before
    ensures ok <==> buffered == 0 && |key| == |iv| == BLOCK_SIZE
    ensures ok ==> later == after && c.incoming == []
  {
    ghost var plain := PacketsBytes(c.z, c.Codec(), after);
    assert plain + [] == plain;
    hide c.Valid, PacketsBytes, Encrypt, Lawful, Sendable;
    received, buffered, ok := SwitchEncryption(c, before, n, ks, key, iv, plain);
    later := [];
    if ok {
      later := c.Receive(m, after, []);
    }
  }

  /** Switching to compression in mid-stream: whatever is buffered already, frames on both sides are received as
      sent. */
  method SwitchCompression(c: Connection, ghost before: seq<bytes>, n: nat, threshold: nat, ghost after: seq<bytes>,
        m: nat)
      returns (received: seq<bytes>, later: seq<bytes>)
    requires c.Valid() && Lawful(c.z)
    requires n == |before| && forall p | p in before :: Sendable(c.z, c.Codec(), p)
    requires m == |after|
    requires var next := Compressed(CompressionState(threshold, Frame.FramerLimit(c.maxPacketSize)));
             && (forall p | p in after :: Sendable(c.z, next, p))
             && c.incoming == PacketsBytes(c.z, c.Codec(), before) + PacketsBytes(c.z, next, after)
    modifies c`buffer, c`chunks, c`incoming, c`compression, if c.encryption == null then {}
        else {c.encryption.decryptIV}
    ensures c.Valid() && received == before && later == after && c.incoming == []
  {
    ghost var next := Compressed(CompressionState(threshold, Frame.FramerLimit(c.maxPacketSize)));
    ghost var plain := PacketsBytes(c.z, next, after);
    assert plain + [] == plain;
    hide c.Valid, c.CipherValid, PacketsBytes, Lawful, Sendable, Frame.FramerLimit;
    received := c.Receive(n, before, plain);
    var switched := c.EnableCompression(threshold);
    assert c.Codec() == next && c.Valid();
    later := c.Receive(m, after, []);
  }

  /** The network loses, adds and reorders nothing; it only cuts. */
  ghost predicate OnlyCuts(network: bytes -> seq<bytes>) {
    forall wire :: Flatten(network(wire)) == wire
  }

  lemma CutsAt(network: bytes -> seq<bytes>, wire: bytes)
    requires OnlyCuts(network)
    ensures Flatten(network(wire)) == wire
  {
    hide Flatten;
  }

  /** Two different connections that share no register. */
  ghost predicate Apart(sender: Connection, receiver: Connection)
    reads sender`encryption, receiver`encryption
  {
    && sender != receiver
    && (sender.encryption != null && receiver.encryption != null ==>
          sender.encryption.encryptIV != receiver.encryption.decryptIV)
  }

  /** The two ends are in step: same format, all read, and the receiver deciphers on from where the sender enciphers. */
  ghost predicate InStep(sender: Connection, receiver: Connection)
    requires sender.CipherValid()
    reads sender, receiver, if sender.encryption == null then {} else {sender.encryption.encryptIV}
  {
    && sender.z == receiver.z && sender.Codec() == receiver.Codec()
    && receiver.incoming == [] && sender.WriteSide() == receiver.final
  }

  /**
   The layered round trip on two connections. The sender's socket takes any part of every write; `network`
   cuts what was sent into any chunks. If no write fails, and none does on a socket that makes progress, the
   receiver receives exactly the payloads, and the two ends are in step for what comes next.
   */
  method Exchange(sender: Connection, receiver: Connection, payloads: seq<bytes>, network: bytes -> seq<bytes>)
      returns (failed: Option<Frame.Error>, received: seq<bytes>)
    requires Apart(sender, receiver) && sender.CipherValid() && receiver.Valid() && Lawful(sender.z)
    requires InStep(sender, receiver) && OnlyCuts(network)
    requires forall p | p in payloads :: Sendable(sender.z, sender.Codec(), p)
    modifies sender`sent, sender`outcomes, if sender.encryption == null then {} else {sender.encryption.encryptIV}
    modifies receiver`buffer, receiver`chunks, receiver`incoming, receiver`final
    modifies if receiver.encryption == null then {} else {receiver.encryption.decryptIV}
    ensures receiver.Valid()
    ensures failed.None? ==> received == payloads && InStep(sender, receiver)
    ensures failed.None? ==>
              sender.sent ==
              old(sender.sent) + Seal(old(sender.WriteSide()), PacketsBytes(sender.z, sender.Codec(), payloads))
    ensures Healthy(old(sender.outcomes)) ==> Healthy(sender.outcomes) && failed.None?
  {
    hide receiver.Valid, sender.WriteSide, sender.Codec, Healthy, OnlyCuts, PacketsBytes, Seal, Past, Flatten, Lawful,
      Sendable, Refusal;
    received := [];
    ghost var side, codec := sender.WriteSide(), sender.Codec();
    ghost var wire := Seal(side, PacketsBytes(sender.z, codec, payloads));
    NothingRefused(sender.z, codec, payloads);
    var before := |sender.sent|;
    failed := sender.SendAll(payloads);
    if failed.None? {
      assert receiver.Valid() && receiver.final == side && sender.WriteSide() == Past(side, wire);
      assert sender.sent[before..] == wire;
      CutsAt(network, wire);
      received := receiver.Collect(network(sender.sent[before..]), |payloads|, payloads);
    }
  }

  lemma NothingRefused(z: Zlib, codec: Codec, payloads: seq<bytes>)
    requires forall p | p in payloads :: Sendable(z, codec, p)
    ensures forall p | p in payloads :: Refusal(codec, p).None?
  {
  }

  /** Hence exchanges compose: any number of batches, one after the other. */
  method ExchangeAll(sender: Connection, receiver: Connection, batches: seq<seq<bytes>>, network: bytes -> seq<bytes>)
      returns (failed: Option<Frame.Error>, received: seq<seq<bytes>>)
    requires Apart(sender, receiver) && sender.CipherValid() && receiver.Valid() && Lawful(sender.z)
    requires InStep(sender, receiver) && OnlyCuts(network)
    requires forall batch, p | batch in batches && p in batch :: Sendable(sender.z, sender.Codec(), p)
    modifies sender`sent, sender`outcomes, if sender.encryption == null then {} else {sender.encryption.encryptIV}
    modifies receiver`buffer, receiver`chunks, receiver`incoming, receiver`final
    modifies if receiver.encryption == null then {} else {receiver.encryption.decryptIV}
    ensures receiver.Valid()
    ensures failed.None? ==> received == batches && InStep(sender, receiver)
    ensures Healthy(old(sender.outcomes)) ==> Healthy(sender.outcomes) && failed.None?
    decreases |batches|
  {
    hide receiver.Valid, sender.WriteSide, sender.Codec, Healthy, OnlyCuts, PacketsBytes, Seal, Lawful, Sendable;
    if batches == [] {
      return None, [];
    }
    var first, rest;
    failed, first := Exchange(sender, receiver, batches[0], network);
    received := [first];
    if failed.None? {
      failed, rest := ExchangeAll(sender, receiver, batches[1..], network);
      received := [first] + rest;
    }
  }
}
