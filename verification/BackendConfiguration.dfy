/**
 internal/backend/configuration.go: draining a backend's Configuration state. The connection is
 given by the frames it will deliver before a read fails, and by how many writes will succeed.
 */
module BackendConfiguration {
  import opened Bytes
  import opened Play
  import VarInt

  const DISCONNECT: int32 := 0x01
  const FINISH: int32 := 0x02
  const KEEP_ALIVE: int32 := 0x03
  const PING: int32 := 0x04

  const DEFAULT_MAX_PACKETS := 128
  const DEFAULT_MAX_BYTES := 0x80_0000

  datatype Error = Disconnected | Cancelled | UnexpectedPacket | TooLarge | WriteFailed

  function FinishPayload(): (b: bytes) { VarInt.Encode(FINISH) }

  /** Serverbound: the same number as the clientbound packet it answers. */
  function FinishAcknowledgedPayload(): (b: bytes) { VarInt.Encode(FINISH) }

  predicate IsFinish(frame: bytes) { PacketId(frame) == Some((FINISH, [])) }

  /** A keepalive or a ping, which the gateway answers itself. */
  predicate IsEchoed(frame: bytes) {
    match PacketId(frame)
    case None => false
    case Some((id, body)) => (id == KEEP_ALIVE && |body| == 8) || (id == PING && |body| == 4)
  }

  /** A packet meant for the client. */
  predicate IsPassed(frame: bytes) {
    match PacketId(frame)
    case None => false
    case Some((id, _)) => id !in {DISCONNECT, FINISH, KEEP_ALIVE, PING}
  }

  function Echo(frame: bytes): (b: bytes)
    requires IsEchoed(frame)
  {
    var (id, body) := PacketId(frame).value;
    VarInt.Encode(id) + body
  }

  // ---- Specification ----

  function Passed(frames: seq<bytes>): (packets: seq<bytes>) {
    if frames == [] then []
    else Passed(frames[..|frames| - 1]) + if IsPassed(frames[|frames| - 1]) then [frames[|frames| - 1]] else []
  }

  function Echoes(frames: seq<bytes>): (answers: seq<bytes>) {
    if frames == [] then []
    else Echoes(frames[..|frames| - 1]) + if IsEchoed(frames[|frames| - 1]) then [Echo(frames[|frames| - 1])] else []
  }

  function TotalSize(frames: seq<bytes>): (n: nat) {
    if frames == [] then 0 else TotalSize(frames[..|frames| - 1]) + |frames[|frames| - 1]|
  }

  datatype Limits = Limits(maxPackets: int, maxBytes: int)

  function Defaulted(config: Limits): (l: Limits)
    ensures l.maxPackets > 0 && l.maxBytes > 0
    ensures (config.maxPackets > 0 ==> l.maxPackets == config.maxPackets)
    ensures (config.maxBytes > 0 ==> l.maxBytes == config.maxBytes)
  {
    Limits(if config.maxPackets <= 0 then DEFAULT_MAX_PACKETS else config.maxPackets,
           if config.maxBytes <= 0 then DEFAULT_MAX_BYTES else config.maxBytes)
  }

  ghost predicate Clean(frames: seq<bytes>) {
    forall i | 0 <= i < |frames| :: IsEchoed(frames[i]) || IsPassed(frames[i])
  }

  ghost predicate WithinLimits(packets: seq<bytes>, l: Limits) {
    |packets| <= l.maxPackets && TotalSize(packets) <= l.maxBytes
  }

  /** Frame n is the Finish that ends a configuration the gateway accepts. */
  ghost predicate Completes(incoming: seq<bytes>, writes: nat, l: Limits, n: nat) {
    && n < |incoming| && IsFinish(incoming[n]) && Clean(incoming[..n])
    && WithinLimits(Passed(incoming[..n]), l)
    && |Echoes(incoming[..n])| < writes
  }

  ghost predicate Completable(incoming: seq<bytes>, writes: nat, l: Limits) {
    exists n :: Completes(incoming, writes, l, n)
  }

  // ---- Growing prefixes ----

  lemma {:induction false} PrefixGrows(incoming: seq<bytes>, i: nat, n: nat)
    requires i <= n <= |incoming|
    ensures |Passed(incoming[..i])| <= |Passed(incoming[..n])|
    ensures TotalSize(Passed(incoming[..i])) <= TotalSize(Passed(incoming[..n]))
    ensures |Echoes(incoming[..i])| <= |Echoes(incoming[..n])|
    decreases n
  {
    hide Passed, Echoes, TotalSize, IsPassed, IsEchoed;
    if i == n {
    } else {
      PrefixGrows(incoming, i, n - 1);
      StepAt(incoming, n - 1);
    }
  }

  /** What one more frame adds. */
  lemma StepAt(incoming: seq<bytes>, i: nat)
    requires i < |incoming|
    ensures Passed(incoming[..i + 1]) == Passed(incoming[..i]) + if IsPassed(incoming[i]) then [incoming[i]] else []
    ensures Echoes(incoming[..i + 1]) ==
              Echoes(incoming[..i]) + if IsEchoed(incoming[i]) then [Echo(incoming[i])] else []
    ensures TotalSize(Passed(incoming[..i + 1])) ==
              TotalSize(Passed(incoming[..i])) + if IsPassed(incoming[i]) then |incoming[i]| else 0
  {
    hide IsPassed, IsEchoed, Echo;
    assert incoming[..i + 1][..i] == incoming[..i] && incoming[..i + 1][i] == incoming[i];
    var packets := Passed(incoming[..i]);
    assert (packets + [incoming[i]])[..|packets|] == packets;
    assert packets + [] == packets;
  }

  /** Frame i ends the loop without success: it is malformed, cannot be answered, or goes over a limit. */
  ghost predicate Stops(incoming: seq<bytes>, writes: nat, l: Limits, i: nat)
    requires i < |incoming|
  {
    || (!IsFinish(incoming[i]) && !IsEchoed(incoming[i]) && !IsPassed(incoming[i]))
    || (IsFinish(incoming[i]) && |Echoes(incoming[..i])| >= writes)
    || (IsEchoed(incoming[i]) && |Echoes(incoming[..i])| >= writes)
    || (IsPassed(incoming[i]) && !WithinLimits(Passed(incoming[..i + 1]), l))
  }

  /** What the ID and body of a frame make of it. */
  lemma KindOf(frame: bytes)
    ensures PacketId(frame).None? ==> !IsFinish(frame) && !IsEchoed(frame) && !IsPassed(frame)
    ensures PacketId(frame).Some? ==>
              var (id, body) := PacketId(frame).value;
              && (IsFinish(frame) <==> id == FINISH && body == [])
              && (IsEchoed(frame) <==> (id == KEEP_ALIVE && |body| == 8) || (id == PING && |body| == 4))
              && (IsPassed(frame) <==> id !in {DISCONNECT, FINISH, KEEP_ALIVE, PING})
              && (IsEchoed(frame) ==> Echo(frame) == VarInt.Encode(id) + body)
  {
    hide PacketId, VarInt.Encode;
    if PacketId(frame).Some? {
      var (id, body) := PacketId(frame).value;
      assert PacketId(frame) == Some((id, body));
    }
  }

  /** The three kinds of frames exclude each other. */
  lemma KindsExclude(frame: bytes)
    ensures !(IsFinish(frame) && (IsEchoed(frame) || IsPassed(frame))) && !(IsEchoed(frame) && IsPassed(frame))
  {
    hide PacketId;
  }

  lemma CleanAt(incoming: seq<bytes>, i: nat, n: nat)
    requires i < n <= |incoming| && Clean(incoming[..n])
    ensures IsEchoed(incoming[i]) || IsPassed(incoming[i])
  {
    hide IsEchoed, IsPassed;
    assert incoming[..n][i] == incoming[i];
  }

  lemma NotBefore(incoming: seq<bytes>, writes: nat, l: Limits, i: nat, n: nat)
    requires i <= |incoming| && Clean(incoming[..i]) && n < i
    ensures !Completes(incoming, writes, l, n)
  {
    CleanAt(incoming, n, i);
    KindsExclude(incoming[n]);
    hide IsFinish, IsEchoed, IsPassed, Passed, Echoes, WithinLimits;
  }

  lemma NotAt(incoming: seq<bytes>, writes: nat, l: Limits, i: nat)
    requires i < |incoming| && Stops(incoming, writes, l, i)
    ensures !Completes(incoming, writes, l, i)
  {
    KindsExclude(incoming[i]);
    hide IsFinish, IsEchoed, IsPassed, Passed, Echoes, WithinLimits, Clean;
  }

  lemma NotAfter(incoming: seq<bytes>, writes: nat, l: Limits, i: nat, n: nat)
    requires i < n < |incoming| && Stops(incoming, writes, l, i)
    ensures !Completes(incoming, writes, l, n)
  {
    if Completes(incoming, writes, l, n) {
      CleanAt(incoming, i, n);
      KindsExclude(incoming[i]);
      PrefixGrows(incoming, i, n);
      PrefixGrows(incoming, i + 1, n);
      hide IsFinish, IsEchoed, IsPassed, Passed, Echoes, TotalSize, Clean;
    }
  }

  /** A frame that is neither echoed, nor passed on within the limits, nor the awaited Finish, rules out success. */
  lemma NothingCompletes(incoming: seq<bytes>, writes: nat, l: Limits, i: nat)
    requires i <= |incoming| && Clean(incoming[..i])
    requires i < |incoming| ==> Stops(incoming, writes, l, i)
    ensures !Completable(incoming, writes, l)
  {
    forall n: nat ensures !Completes(incoming, writes, l, n) {
      if n < i {
        NotBefore(incoming, writes, l, i, n);
      } else if n < |incoming| {
        hide Stops, Completes, Clean;
        if n == i {
          NotAt(incoming, writes, l, i);
        } else {
          NotAfter(incoming, writes, l, i, n);
        }
      }
    }
  }

  // ---- The loop ----

  /** The error of the frame that ends the loop: what it is itself, or what went wrong in dealing with it. */
  function FrameError(frame: bytes): (e: Error) {
    if IsFinish(frame) || IsEchoed(frame) then WriteFailed
    else if IsPassed(frame) then TooLarge
    else if PacketId(frame).Some? && PacketId(frame).value.0 == DISCONNECT then Disconnected
    else UnexpectedPacket
  }

  lemma ErrorOf(frame: bytes)
    ensures PacketId(frame).None? ==> FrameError(frame) == UnexpectedPacket
    ensures PacketId(frame).Some? ==>
              var (id, body) := PacketId(frame).value;
              FrameError(frame) ==
              if id == DISCONNECT then Disconnected
              else if id !in {FINISH, KEEP_ALIVE, PING} then TooLarge
              else if |body| == (if id == FINISH then 0 else if id == KEEP_ALIVE then 8 else 4) then WriteFailed
              else UnexpectedPacket
  {
    KindOf(frame);
    hide IsFinish, IsEchoed, IsPassed, PacketId;
  }

  /** The loop's variables after `read` frames. */
  ghost predicate Drained(incoming: seq<bytes>, read: nat, packets: seq<bytes>, buffered: nat, written: seq<bytes>,
        writes: nat, l: Limits) {
    && read <= |incoming| && Clean(incoming[..read])
    && packets == Passed(incoming[..read]) && buffered == TotalSize(packets)
    && written == Echoes(incoming[..read]) && |written| <= writes
    && WithinLimits(packets, l)
  }

  lemma CleanPush(incoming: seq<bytes>, i: nat)
    requires i < |incoming| && Clean(incoming[..i]) && (IsEchoed(incoming[i]) || IsPassed(incoming[i]))
    ensures Clean(incoming[..i + 1])
  {
    assert forall k | 0 <= k < i :: incoming[..i + 1][k] == incoming[..i][k];
  }

  lemma DrainEcho(incoming: seq<bytes>, read: nat, packets: seq<bytes>, buffered: nat, written: seq<bytes>,
        writes: nat, l: Limits)
    requires Drained(incoming, read, packets, buffered, written, writes, l)
    requires read < |incoming| && IsEchoed(incoming[read]) && |written| < writes
    ensures Drained(incoming, read + 1, packets, buffered, written + [Echo(incoming[read])], writes, l)
  {
    StepAt(incoming, read);
    CleanPush(incoming, read);
    assert packets + [] == packets;
  }

  lemma DrainPass(incoming: seq<bytes>, read: nat, packets: seq<bytes>, buffered: nat, written: seq<bytes>,
        writes: nat, l: Limits)
    requires Drained(incoming, read, packets, buffered, written, writes, l)
    requires read < |incoming| && IsPassed(incoming[read])
    requires |packets| < l.maxPackets && buffered + |incoming[read]| <= l.maxBytes
    ensures Drained(incoming, read + 1, packets + [incoming[read]], buffered + |incoming[read]|, written, writes, l)
  {
    StepAt(incoming, read);
    CleanPush(incoming, read);
    hide IsPassed;
    assert written + [] == written;
  }

  /** A frame on which the loop gives up. */
  ghost predicate Fatal(frame: bytes, packets: seq<bytes>, buffered: nat, written: seq<bytes>, writes: nat, l: Limits) {
    || (!IsFinish(frame) && !IsEchoed(frame) && !IsPassed(frame))
    || ((IsFinish(frame) || IsEchoed(frame)) && |written| >= writes)
    || (IsPassed(frame) && (|packets| >= l.maxPackets || buffered + |frame| > l.maxBytes))
  }

  lemma GivingUp(incoming: seq<bytes>, read: nat, packets: seq<bytes>, buffered: nat, written: seq<bytes>, writes: nat,
        l: Limits)
    requires Drained(incoming, read, packets, buffered, written, writes, l)
    requires read < |incoming| ==> Fatal(incoming[read], packets, buffered, written, writes, l)
    ensures !Completable(incoming, writes, l)
    ensures written == Echoes(incoming[..read])
  {
    if read < |incoming| {
      StepAt(incoming, read);
    }
    NothingCompletes(incoming, writes, l, read);
  }

  lemma Finishing(incoming: seq<bytes>, read: nat, packets: seq<bytes>, buffered: nat, written: seq<bytes>,
        writes: nat, l: Limits)
    requires Drained(incoming, read, packets, buffered, written, writes, l)
    requires read < |incoming| && IsFinish(incoming[read]) && |written| < writes
    ensures Completes(incoming, writes, l, read) && Completable(incoming, writes, l)
    ensures packets == Passed(incoming[..read]) && written == Echoes(incoming[..read])
  {
    hide Passed, Echoes, TotalSize, IsFinish, Clean;
    assert Completes(incoming, writes, l, read);
  }

  /**
   Success is exactly the existence of a completing Finish. Then the result is every packet before
   it that is neither keepalive nor ping, in order, and what was written is the answer to every
   keepalive and ping, in order, followed by one acknowledgement. `handled` counts the frames before
   the one that ended the loop.
   */
  method CompleteConfiguration(incoming: seq<bytes>, cancelled: bool, writes: nat, config: Limits)
    returns (r: Result<seq<bytes>, Error>, written: seq<bytes>, handled: nat)
    ensures r.Ok? <==> Completable(incoming, writes, Defaulted(config))
    ensures r.Ok? ==>
              && Completes(incoming, writes, Defaulted(config), handled)
              && r.value == Passed(incoming[..handled])
              && written == Echoes(incoming[..handled]) + [FinishAcknowledgedPayload()]
    ensures r.Err? ==> handled <= |incoming| && written == Echoes(incoming[..handled])
    ensures r.Err? && handled == |incoming| ==> r.error == if cancelled then Cancelled else Disconnected
    ensures r.Err? && handled < |incoming| ==> r.error == FrameError(incoming[handled])
  {
    var limits := Defaulted(config);
    var packets: seq<bytes> := [];
    var buffered: nat := 0;
    written, handled := [], 0;
    assert Drained(incoming, handled, packets, buffered, written, writes, limits);
    hide FrameError, Passed, Echoes, PacketId, Drained, Completes, Completable, IsFinish, IsEchoed, IsPassed, Echo,
      VarInt.Encode;
    while true
      invariant handled <= |incoming| && |written| <= writes
      invariant Drained(incoming, handled, packets, buffered, written, writes, limits)
      decreases |incoming| - handled
    {
      if handled == |incoming| {
        GivingUp(incoming, handled, packets, buffered, written, writes, limits);
        return Err(if cancelled then Cancelled else Disconnected), written, handled;
      }
      var frame := incoming[handled];
      KindOf(frame);
      ErrorOf(frame);
      if Fatal(frame, packets, buffered, written, writes, limits) {
        GivingUp(incoming, handled, packets, buffered, written, writes, limits);
      }
      var packet := PacketId(frame);
      if packet.None? {
        return Err(UnexpectedPacket), written, handled;
      }
      var (id, body) := packet.value;
      if id == FINISH {
        if |body| != 0 {
          return Err(UnexpectedPacket), written, handled;
        }
        if |written| == writes {
          return Err(WriteFailed), written, handled;
        }
        Finishing(incoming, handled, packets, buffered, written, writes, limits);
        return Ok(packets), written + [FinishAcknowledgedPayload()], handled;
      } else if id == KEEP_ALIVE || id == PING {
        if |body| != (if id == KEEP_ALIVE then 8 else 4) {
          return Err(UnexpectedPacket), written, handled;
        }
        if |written| == writes {
          return Err(WriteFailed), written, handled;
        }
        DrainEcho(incoming, handled, packets, buffered, written, writes, limits);
        written := written + [VarInt.Encode(id) + body];
      } else if id == DISCONNECT {
        return Err(Disconnected), written, handled;
      } else {
        if |packets| >= limits.maxPackets || buffered + |frame| > limits.maxBytes {
          return Err(TooLarge), written, handled;
        }
        DrainPass(incoming, handled, packets, buffered, written, writes, limits);
        packets := packets + [frame];
        buffered := buffered + |frame|;
      }
      handled := handled + 1;
    }
  }
}
