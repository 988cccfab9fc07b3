# RegionGate: a verified model

RegionGate is a Minecraft 1.20.4 gateway. It keeps a player in a local world ("Limbo") and moves the
player to a backend server when one is ready. This project models its hard parts in Dafny and proves what
they promise.

- **The transfer protocol** (`Session`, `Transfer`, `ReplayFrames`, `LimboLoop`, `LimboAnswers`, `LimboRun`). Every section
  that the code runs under a mutex is one atomic step of a state machine. `Transfer` lets any number of
  Prepare calls, barrier timers, client writes (which drop the mutex and check again), acknowledgements,
  releases and rollbacks interleave freely on one session. `LimboLoop` puts the server's event loop on top,
  cut into sections at every point where a goroutine or timer can get in between, down to the frames that
  client and backend receive. `LimboAnswers` says what each event brings about, `LimboRun` that transfers complete.
- **The wire stack** (`VarInt`, `Frame`, `Compression`, `Cipher`, `Transport`). A connection is the chunks
  its socket will deliver and the outcomes of its coming writes. Each layer is specified on whole byte
  strings; the methods work byte by byte, chunk by chunk and in place, and are proved equal to that.
- **The sliding windows** (`Windows`, `RateLimit`, `BotFilter`). Stores that forget are proved to answer like
  specifications that remember everything.
- **The queue and the packet loops** (`AdmissionQueue`, `BackendConfiguration`, `Bridge`, `LimboGate`).
- **Two encoders** (`Nbt` and `Play`, `ServerHash`).

Each stateful object of the program is a class whose methods are proved equal to functions on values. The
results over whole runs are lemmas about those functions.

## What the code does not quite promise

- A frame's length is cast to a 32-bit integer. Framing round-trips exactly below 2^31 bytes
  (`Frame.FrameRoundTrip`), and with compression exactly when payload and envelope are both below 2^31
  (`Compression.CompressedRoundTrip`). With a packet limit below 2^31 and a threshold as the login path sets it,
  an int32 (internal/backend/login.go:96-101), only compressed payloads can fail
  (`Compression.Int32LimitsRepresentable`), and one at the limit that does not shrink does
  (`Compression.LimitJustBelowInt32Fails`). A wire limit below 2^31 is enough
  (`Compression.SmallLimitsAreRepresentable`).
- The public `Session.Transition` alone does not keep the barrier and the state together.
  `Session.TransitionKeepsConsistency` says exactly when it does. The transfer results therefore use the raw
  transitions of the login path only.
- String lengths in NBT are cast to 16 bits and list lengths to 32. `Nbt.RoundTrip` is exact.
- The limiter answers like the full history exactly on times that never go back
  (`RateLimit.FullHistoryIffOrdered`). Its caller reads the clock before the limiter takes its mutex
  (internal/server/server.go:214), so two logins can arrive out of order. `RateLimit.OutOfOrderOverfills` is an
  input on which a window then holds more than the limit. For that consequence,
  `RateLimit.WindowNeverOverfull`, ordered times are sufficient; some unordered ones do no harm. The bot filter
  reads its clock under its own mutex (internal/botfilter/filter.go:216-223), so for it ordered times ask only
  that the clock itself does not go back.

## Model

| member | source | states |
|---|---|---|
| `Transfer.BarrierIffOneLive` | internal/transfer/coordinator.go:58-277 | In every interleaving of any number of Prepare calls, barrier timers, client writes, acknowledgements, releases and rollbacks, the session is in TransferBarrier exactly while some transfer is live, and two live transfers are the same one; a barrier exists exactly in that state. |
| `Transfer.ExactlyOnce` | internal/transfer/coordinator.go:69-127 | In every run each transfer closes `done` at most once, closes its backend connection or hands it over but never both and never twice; every connection it opened is held, closed or handed over; a finalized one did exactly one of the last two, a timed-out one never handed over, an ended one holds no connection, and every rollback error that is thrown away is no error. |
| `Transfer.EndedForever` | internal/transfer/coordinator.go:149-277 | From any state, once a transfer has ended no later step changes it, and no step taken on its behalf, not even the second half of a client write it was blocked in, changes the session. |
| `Transfer.EndedIsInert` | internal/transfer/coordinator.go:149-277 | The one-step form of EndedForever, for every state and step. |
| `Transfer.OthersKeepOut` | internal/transfer/coordinator.go:58-277 | While one transfer is live, no step of another transfer changes the session or its barrier phase. |
| `Transfer.EndingIsClean` | internal/transfer/coordinator.go:108-277 | A transfer stops being live only by ending; it then leaves the session in LimboPlay without a barrier, except by Release, which happens only in phase Ready and leaves BackendPlay. |
| `Transfer.TimerEnds` | internal/transfer/coordinator.go:108-127 | In every reachable state the barrier timer ends an unfinalized transfer: finalized and timed out, its connection closed once, `done` closed, the session back in LimboPlay without a barrier. |
| `Transfer.RollbackEnds` | internal/transfer/coordinator.go:262-277 | So does a rollback, which succeeds and does not count as a timeout. |
| `Transfer.ReleaseEnds` | internal/transfer/coordinator.go:243-260 | In every reachable state a release of an unfinalized transfer succeeds exactly in phase Ready, and then hands the connection over unclosed and leaves BackendPlay; otherwise it changes nothing. |
| `Transfer.PhasesInOrder` | internal/transfer/coordinator.go:76-103 | While a transfer stays live its barrier phase never goes back and moves at most one phase per step; the three advances of Prepare itself never fail. |
| `Transfer.ReleaseReplaysTheInputs` | internal/transfer/coordinator.go:243-277 | In every reachable state what Release returns is the fold of exactly the inputs this barrier took, from its own keepalive IDs and command limit; a Rollback that finds the transfer unfinalized succeeds. |
| `Transfer.LoginKeeps` | internal/server/server.go:228-271 | Each of the three raw transitions of the login path succeeds, in order, and no transfer gets in between. |
| `Transfer.StepKeeps` | internal/transfer/coordinator.go:58-277 | Every atomic step keeps the ownership invariant: one owner of the barrier, in a phase that fits its stage, with the barrier equal to the fold of its inputs, and every transfer accounted for. |
| `Transfer.PrepareTransfer` | internal/transfer/coordinator.go:58-106 | Coordinator.Prepare with nothing else acting on the session: it leaves the session and its result as the chain of atomic Prepare steps does, returns a Prepared exactly when the chain publishes one, and closes the dialled connection exactly when the chain closes it. |
| `Transfer.PrepareAloneIsRun` | internal/transfer/coordinator.go:58-106 | From every state of the interleaved system, that chain is what the steps of this one Prepare do there when no other step comes in between. |
| `Transfer.PrepareOutcome` | internal/transfer/coordinator.go:58-106 | What one Prepare call comes to, for every session and backend: refused with nothing touched; published in phase AwaitingClientStart with the backend's packets exactly if dial, login and configuration all succeed; or failed, with the connection it opened closed and the session in LimboPlay. |
| `Transfer.Prepared.constructor` | internal/transfer/coordinator.go:103-105 | A new Prepared is the published transfer, unfinalized, holding the connection. |
| `Transfer.Prepared.CloseBackend` | internal/transfer/coordinator.go:116-119 | Closes the connection if it is still held, and counts it. |
| `Transfer.Prepared.Timeout` | internal/transfer/coordinator.go:108-127 | The timer branch is the atomic timer step: nothing if finalized, otherwise finalize, close, roll back, close `done`. |
| `Transfer.Prepared.CheckPhaseLocked` | internal/transfer/coordinator.go:149-201 | The locked check before and after the client writes: finalized, inactive barrier or wrong phase are errors. |
| `Transfer.CheckMeans` | internal/transfer/coordinator.go:149-241 | The checks pass exactly for an unfinalized transfer in the right phase, acknowledgements succeed exactly when the barrier advances, and a finalized transfer always says so. |
| `Transfer.Prepared.FinishWriting` | internal/transfer/coordinator.go:210-222 | The locked end of WriteClientConfiguration checks again and advances to AwaitingClientConfigurationFinish. |
| `Transfer.Prepared.AcknowledgeClient` | internal/transfer/coordinator.go:225-241 | Both acknowledgements are refused once finalized and otherwise advance the barrier. |
| `Transfer.Prepared.Release` | internal/transfer/coordinator.go:243-260 | Release is the atomic release step and returns the connection exactly when it succeeds. |
| `Transfer.Prepared.Rollback` | internal/transfer/coordinator.go:262-277 | Rollback is the atomic rollback step: finalized even when the session refuses. |
| `Session.ReplayDescribesInputs` | internal/session/barrier.go:101-136 | For every input sequence the replay has a position exactly if there was a movement, with the coordinates and ground flag of the last movement and the look of the last movement with look (of the first if none had look), and then the first maxCommands commands in order. |
| `Session.DescribesStep` | internal/session/barrier.go:101-127 | One more input keeps that description. |
| `Session.LookSourceUnique` | internal/session/barrier.go:109-117 | The movement that decides the look is unique. |
| `Session.BarrierAnswers` | internal/session/barrier.go:101-127 | After any inputs, a keepalive is consumed exactly if it was pending when the barrier began and was not answered since, and is an error otherwise; a command is queued exactly while fewer than maxCommands came before it; movements and unsafe packets never fail. |
| `Session.TransitionGraph` | internal/session/state.go:53-78 | A connection goes to the next state, back to Limbo from the states of a transfer, from play into a new transfer, and to Closing from anything but Closing; nowhere else. |
| `Session.TransitionKeepsConsistency` | internal/session/session.go:99-108 | Transition keeps "a barrier exists exactly in TransferBarrier" if and only if it does not enter or leave TransferBarrier (leaving to Closing is fine). |
| `Session.RawTransitionBreaksConsistency` | internal/session/session.go:24-28 | A raw transition from TransferBarrier to LimboPlay succeeds and leaves a stale barrier. |
| `Session.BarrierState.constructor` | internal/session/barrier.go:83-99 | A new barrier holds exactly the given keepalive IDs, drains, and clamps a negative command limit to zero. |
| `Session.BarrierState.HandleInput` | internal/session/barrier.go:101-127 | handle changes the barrier, and answers, as the input function says, in every case. |
| `Session.SessionState.constructor` | internal/session/session.go:14-16 | A new session is in Handshake without a barrier. |
| `Session.SessionState.Transition` | internal/session/session.go:24-28 | Refused exactly when canTransition is false; Closing drops the barrier. |
| `Session.SessionState.BeginTransfer` | internal/session/session.go:30-39 | Enters TransferBarrier with a fresh barrier, or changes nothing. |
| `Session.SessionState.HandleBarrierInput` | internal/session/session.go:41-48 | Passes the input to an active barrier; otherwise BarrierInactive and no change. |
| `Session.SessionState.BarrierPhase` | internal/session/session.go:50-57 | The phase of an active barrier, or BarrierInactive. |
| `Session.SessionState.AdvanceBarrier` | internal/session/session.go:59-70 | Only the successor of the current phase (as a byte) is accepted. |
| `Session.SessionState.ReleaseTransfer` | internal/session/session.go:72-86 | Only in phase Ready; returns the replay, drops the barrier, enters BackendPlay. |
| `Session.SessionState.RollbackTransfer` | internal/session/session.go:88-97 | Drops an active barrier and returns to LimboPlay. |
| `Session.InactiveRefuses` | internal/session/session.go:41-97 | Without an active barrier all five barrier operations give BarrierInactive and change nothing. |
| `Session.AdvanceMeans` | internal/session/session.go:59-70 | An active barrier that is not Ready advances exactly to the next phase, and only its phase changes. |
| `ReplayFrames.ReplayRoundTrip` | internal/session/barrier.go:101-136 | For every input sequence that came through the decoders, the replay frames are accepted by the gateway's own decoders, decode to the replay, and the replay describes the inputs. |
| `ReplayFrames.FramesDecode` | internal/transfer/replay.go:8-21 | The frames of a replay decode back to it if and only if its position is finite and its commands are acceptable. |
| `ReplayFrames.ReplayPayloads` | internal/transfer/replay.go:8-21 | The loop yields the position frame, if any, then one frame per command, in order. |
| `LimboLoop.ReleasedTraffic` | internal/server/server.go:451-559 | In every run of the server loop against any interleaving of goroutines, timers and client frames: once a transfer is released, its connection belongs to the bridge; the client has received from Start Configuration on exactly Start, the buffered packets, Finish, then what the bridge forwarded; the backend has received the frames of the replay of exactly the inputs taken, which decode to it, then what the bridge forwarded; while it plays, these are all frames read so far. |
| `LimboLoop.NothingInBetween` | internal/server/server.go:517-559 | In every run, while a client is being reconfigured it has received nothing since Start Configuration but a prefix of Start, packets, Finish: no Limbo keepalive, no queue position, no frame of another transfer. |
| `LimboLoop.AdmissionIsEarned` | internal/server/server.go:431-627 | In every run of the whole loop, transfers included, the session enqueues itself at most once, and only with its challenge passed and enough keepalives answered; the answered IDs are distinct, server-issued and in order, as many as counted and no more than issued; the pending ID is 0 or the latest, and so are the IDs given to a transfer. |
| `LimboLoop.NextKeeps` | internal/server/server.go:494-643 | Every event keeps the traffic invariant, at every point inside the loop at which a goroutine or timer can act. |
| `LimboLoop.OutsideKeeps` | internal/server/server.go:646-666 | A step of a Prepare goroutine (its rollback on a cancelled context included) or of a timer keeps the invariant. |
| `LimboLoop.ReleasingKeeps` | internal/server/server.go:464-478 | Release succeeds only with everything up to Finish delivered, and starts the replay of the inputs. |
| `LimboLoop.FrameMeaning` | internal/server/server.go:668-720 | For every phase and frame: the barrier advances exactly on the right acknowledgement in the right phase; exactly the frames the decoders accept carry their keepalive, movement or command; settings are ignored exactly while the finish is awaited; exactly the remaining unknown packets are the unsafe input; everything else is rejected. |
| `LimboLoop.HandleBarrierFrame` | internal/server/server.go:668-721 | handleBarrierFrame, with nothing else acting on the session meanwhile, changes it and answers as the frame function says, in every phase and for every frame. |
| `LimboLoop.SectionsMakeFrame` | internal/server/server.go:668-721 | The sections into which the loop cuts that call make up exactly the call when nothing comes in between. |
| `LimboRun.TransferCanComplete` | internal/server/server.go:506-643 | For every list of configuration packets and all input the barrier takes there is a run from a fresh Limbo session to play, in which the client received exactly Start, the packets, Finish, and the backend exactly the replay of that input. |
| `LimboRun.TakesInput` | internal/server/server.go:544-554 | Every decodable input that the barrier answers without error gets through the loop into the barrier. |
| `LimboAnswers.LimboFrames` | internal/server/server.go:536-617 | In Limbo a connection survives a client frame exactly if it is a well-formed movement, or the exact answer to the pending keepalive while the queue, if asked now, accepts; nothing else of the session changes. |
| `LimboAnswers.KeepAliveTicks` | internal/server/server.go:618-627 | In Limbo a tick sends a new keepalive exactly if none is pending, and then that one is pending. |
| `LimboAnswers.QueueTicks` | internal/server/server.go:630-641 | In Limbo a queued player is shown the position the queue knows, and nobody else is shown anything; a text that does not fit ends the connection. |
| `LimboAnswers.TickersKeepQuiet` | internal/server/server.go:618-641 | Outside Limbo neither ticker does anything. |
| `LimboAnswers.AdmissionStarts` | internal/server/server.go:505-514 | An admission starts a transfer exactly in Limbo with none held, with the pending keepalive, if any. |
| `LimboAnswers.RetryAfterTimeout` | internal/server/server.go:534-543 | When the held transfer times out, the loop drops it, the pending keepalive with it, and the next admission starts another transfer from Limbo. |
| `LimboAnswers.FailureIsReported` | internal/server/server.go:515-523 | When a Prepare fails, the loop takes the result, drops the pending keepalive and is free again. |
| `LimboAnswers.FailedStartIsUndone` | internal/server/server.go:527-533 | When Start Configuration cannot be written, the transfer is rolled back and the loop is back at its select in Limbo. |
| `LimboAnswers.AbandonedIsUndone` | internal/server/server.go:655-663 | A prepared transfer that nobody takes any more is rolled back, wherever the loop is. |
| `LimboAnswers.BridgeInLoop` | internal/server/server.go:487-489 | The loop plays on exactly as long as the bridge runs, and what the bridge forwards reaches the other side. |
| `LimboAnswers.HookDecides` | internal/server/server.go:565-582 | In every run of the whole loop, what the hook asks for at the first answered keepalive is how many distinct keepalives must be answered before the session enqueues itself. |
| `LimboGate.AdmissionIsEarned` | internal/server/server.go:408-627 | In every run the session enqueues at most once, and only after the challenge passed (or there is none) and at least the required number of keepalives were answered; while it lasts and there is a queue it is enqueued as soon as that is so; the answered IDs are distinct, server-issued and in order; the pending ID is 0 or the latest; answers never outnumber IDs. |
| `LimboGate.HookDecides` | internal/server/server.go:565-582 | Over every run: the required number is what the hook asked for at the first answer (one if it asked for less or nothing, or there is no hook), and an enqueued session has answered that many. |
| `LimboGate.StepMeans` | internal/server/server.go:494-627 | Exactly when each event ends the session, when an answer counts, when the session enqueues, and when a new keepalive is issued. |
| `LimboGate.StepKeeps` | internal/server/server.go:494-627 | Every event of the gate keeps its invariant. |
| `LimboGate.IssuedCount` | internal/server/server.go:562-566 | Strictly increasing answered IDs up to n are at most n many. |
| `LimboGate.Limbo.Enqueue` | internal/server/server.go:431-443 | enqueue, on the loop's variables: once, only with a queue, and a refusal ends the session. |
| `LimboGate.Limbo.MaybeEnqueue` | internal/server/server.go:444-449 | Enqueues only with the challenge passed and enough valid answers. |
| `LimboGate.Limbo.StartChallenge` | internal/server/server.go:567-598 | The first answer starts the challenge, or passes it when there is none; requirements below one become one. |
| `LimboGate.Limbo.OnKeepAlive` | internal/server/server.go:560-601 | A keepalive frame in Limbo acts on the variables as the gate's answer event does. |
| `LimboGate.Limbo.OnChallengeResult` | internal/server/server.go:496-504 | A challenge result acts as the gate's event does. |
| `LimboGate.Limbo.Serve` | internal/server/server.go:494-627 | The loop over any event list ends with the variables of the gate's run. |
| `VarInt.RoundTrip` | internal/protocol/codec/varint.go:41-71 | For every int32 and every suffix, consuming its encoding gives that value and length. |
| `VarInt.EncodeIsShortest` | internal/protocol/codec/varint.go:41-71 | Whatever is accepted for a value is at least as long as its encoding, and the accepted groups are the value, with nothing above bit 32 lost. |
| `VarInt.AcceptedPrefix` | internal/protocol/codec/varint.go:41-59 | An accepted value depends on its own bytes only. |
| `VarInt.AccumulateIsPush` | internal/protocol/codec/varint.go:48-56 | The shift-and-or accumulator adds one group exactly, without losing bits, whenever the overflow check lets it through. |
| `VarInt.ConsumeVarInt` | internal/protocol/codec/varint.go:41-59 | The loop, with its shifts, ors and checks, computes the specified value, length or error. |
| `VarInt.AppendVarInt` | internal/protocol/codec/varint.go:62-71 | The loop appends exactly the specified encoding. |
| `Frame.StreamReaderAgrees` | internal/protocol/codec/varint.go:17-38 | The stream reader accepts the same prefixes as the slice reader, with the same value and bytes consumed, and gives the same error except where the stream ends. |
| `Frame.ReadVarIntStops` | internal/protocol/codec/varint.go:17-38 | After any number of continuation bytes, what the next byte, or the end of the stream, makes of the read. |
| `Frame.FrameRoundTrip` | internal/protocol/codec/frame.go:38-78 | A payload the writer accepts is read back, and nothing behind it is touched, if and only if it is shorter than 2^31 bytes (the length is cast to int32). |
| `Frame.FrameAccepts` | internal/protocol/codec/frame.go:38-62 | A frame is read exactly if its length is positive, within the limit and followed by that many bytes, which are the result. |
| `Frame.WriteAccepts` | internal/protocol/codec/frame.go:64-78 | A payload is accepted exactly if it is not empty and within the limit. |
| `Compression.EnvelopeFits` | internal/protocol/codec/compression.go:36-49 | The computed wire limit never rejects the envelope of an in-limit payload. |
| `Compression.OpenInvertsEnvelope` | internal/protocol/codec/compression.go:53-135 | Opening the envelope of an accepted payload shorter than 2^31 bytes gives the payload, on both sides of the threshold. |
| `Compression.OpenAccepts` | internal/protocol/codec/compression.go:53-104 | An envelope is accepted exactly if it is uncompressed and below the threshold, or compressed at or above it and inflates to the announced length. |
| `Compression.CompressedRoundTrip` | internal/protocol/codec/compression.go:53-135 | An accepted payload survives the compressed round trip if and only if it and its envelope are shorter than 2^31 bytes. |
| `Compression.SmallLimitsAreRepresentable` | internal/protocol/codec/compression.go:36-49 | With a wire limit below 2^31 that condition always holds. |
| `Compression.Int32LimitsRepresentable` | internal/protocol/codec/compression.go:36-135 | With a threshold and a packet limit below 2^31, as the login path sets them, an uncompressed payload always survives, and a compressed one if and only if its length field and compressed bytes together stay below 2^31. |
| `Compression.LimitJustBelowInt32Fails` | internal/protocol/codec/compression.go:106-135 | A packet limit below 2^31 is not enough: at 2^31-1, for every int32 threshold, a payload of that size that does not shrink is accepted and not read back. |
| `Compression.StoringIsLawful` | internal/protocol/codec/compression.go:115-128 | The laws asked of zlib are satisfiable, by a compressor under which that payload does not shrink. |
| `Cipher.DecryptInvertsEncrypt` | internal/protocol/codec/cipher.go:31-55 | For every block function, IV and byte stream. |
| `Bytes.XorAt` | internal/protocol/codec/cipher.go:46 | Bit by bit, the cipher's exclusive or is set exactly where its operands differ. |
| `Cipher.EncryptChunking` | internal/protocol/codec/cipher.go:31-55 | Enciphering in any pieces equals enciphering the whole. |
| `Cipher.DecryptChunking` | internal/protocol/codec/cipher.go:31-55 | Deciphering in any pieces equals deciphering the whole. |
| `Cipher.IndependentChunking` | internal/protocol/codec/cipher.go:31-55 | With independent pieces on both sides the plaintext arrives, and both shift registers agree afterwards. |
| `Cipher.RegistersAgree` | internal/protocol/codec/cipher.go:39-55 | After equal byte counts the two registers are the same, in the middle of any stream. |
| `Cipher.ShiftIn` | internal/protocol/codec/cipher.go:52-53 | The in-place shift drops the oldest register byte and appends the newest. |
| `Cipher.Cfb8` | internal/protocol/codec/cipher.go:39-55 | The in-place loop, also with dst and src the same array, computes the specified output and register and leaves the rest of dst alone. |
| `Transport.PacketRoundTrip` | internal/transport/transport.go:56-107 | One packet, compressed or not, is read back with any bytes behind it left over. |
| `Transport.PacketsRoundTrip` | internal/transport/transport.go:56-107 | The same for every list of packets. |
| `Transport.LayeredRoundTrip` | internal/transport/transport.go:126-180 | On byte strings: every list of sendable payloads, enveloped, framed, enciphered in any pieces and deciphered in any chunks, is read back with nothing left over. Exchange is this on two connections. |
| `Transport.SwitchEncryption` | internal/transport/transport.go:80-90 | On a connection whose peer sent some frames in clear and everything behind them enciphered, for any chunking: after reading those frames they were received as sent, EnableEncryption succeeds exactly with nothing buffered and a 16-byte key and IV, and then the plaintext still to come is exactly what the peer enciphered. |
| `Transport.SwitchDelivers` | internal/transport/transport.go:56-90 | Hence, after a successful switch, every frame the peer sends behind it is received as sent, and nothing is left over. |
| `Transport.SwitchCompression` | internal/transport/transport.go:56-70 | Switching to compression between two frames loses nothing, whatever is buffered: frames before and behind it are received as sent. |
| `Transport.Exchange` | internal/transport/transport.go:94-180 | Two connections in step, in clear or enciphered, compressed or not: whatever part of each write the sender's socket takes and whatever way the network cuts what was sent, if no write fails then exactly the packets were sent, the receiver receives exactly the payloads, and both are in step again; on a socket that makes progress no write fails. |
| `Transport.ExchangeAll` | internal/transport/transport.go:94-180 | Hence any number of batches, one after the other, arrive as sent. |
| `Transport.UnsealInvertsSeal` | internal/transport/transport.go:146-180 | What one side of a connection puts on the wire, the other side in the same state reads back. |
| `Transport.SealConcat` | internal/transport/transport.go:161-180 | Two writes put on the wire what one write of both would, and leave the same register. |
| `Transport.CipherState.Encrypt` | internal/protocol/codec/cipher.go:31-33 | Enciphers a whole write into a fresh buffer and leaves the register after it. |
| `Transport.CipherState.Decrypt` | internal/protocol/codec/cipher.go:35-37 | Deciphers the read buffer in place and leaves the register after it. |
| `Transport.Connection.EnableCompression` | internal/transport/transport.go:63-70 | Fails exactly for a negative threshold. |
| `Transport.Connection.EnableEncryption` | internal/transport/transport.go:80-90 | Succeeds exactly with nothing buffered and a 16-byte key and IV; from then on the reader sees the deciphered rest of the socket and every write is enciphered from the IV. |
| `Transport.Connection.Fill` | internal/transport/transport.go:146-154 | Filling the read buffer from the socket, deciphered in place, does not change what the reader will see. |
| `Transport.Connection.Arrive` | internal/transport/transport.go:146-154 | More chunks on the socket extend the incoming plaintext by what they stand for behind everything before them. |
| `Transport.Connection.Decipher` | internal/transport/transport.go:146-154 | One chunk from the socket, deciphered in place, with the register moved past it. |
| `Transport.Connection.Read` | internal/transport/transport.go:146-154 | A buffered read hands out a prefix of the incoming plaintext, and nothing only at its end. |
| `Transport.Connection.ReadVarInt` | internal/protocol/codec/varint.go:17-38 | The byte-wise loop over the connection returns, and consumes, what the specification says of the incoming plaintext, whatever the chunks. |
| `Transport.Connection.ReadFull` | internal/protocol/codec/frame.go:58-60 | Reads exactly n bytes over any chunks, or gives the specified error. |
| `Transport.Connection.ReadFramed` | internal/protocol/codec/frame.go:38-62 | Framer.ReadFrame on the connection equals the specification. |
| `Transport.Connection.ReadFrame` | internal/transport/transport.go:56-61 | Transport.ReadFrame on the connection equals the packet reader on the incoming plaintext, in either mode. |
| `Transport.Connection.ReceiveAll` | internal/transport/transport.go:56-61 | Successive ReadFrame calls return, consume and fail exactly as the packet reader does on the incoming plaintext. |
| `Transport.Connection.Receive` | internal/transport/transport.go:56-61 | When the incoming plaintext starts with the packets of some payloads, those are received and nothing behind them is consumed. |
| `Transport.Connection.Collect` | internal/transport/transport.go:56-61 | When all was read and the chunks of some sealed packets arrive, those are received, all is read again and the read register is past them. |
| `Transport.Connection.Write` | internal/transport/transport.go:161-180 | cipherWriter.Write enciphers everything first and pushes it through partial writes; a full count means the whole ciphertext was sent and the register moved past it; on a socket that makes progress it succeeds and takes something. |
| `Transport.Connection.Push` | internal/transport/transport.go:167-180 | The partial-write loop has sent exactly the count it reports, and everything on success; it fails only with a socket error, and never on a socket that makes progress. |
| `Transport.Connection.WriteAll` | internal/protocol/codec/frame.go:88-100 | writeAll on success has sent exactly the data, enciphered; on a socket that makes progress it succeeds. |
| `Transport.Connection.WriteFramed` | internal/protocol/codec/frame.go:64-78 | Header and payload, in two writes, are one frame on the wire; on a socket that makes progress it succeeds. |
| `Transport.Connection.WriteFrame` | internal/transport/transport.go:94-107 | Refuses exactly the empty and the oversized payloads, without sending anything; an in-limit payload fails only with a socket error, never at the wire framer, and not at all on a socket that makes progress; on success exactly the packet's bytes were sent, enciphered from the current register. |
| `Transport.Connection.SendAll` | internal/transport/transport.go:94-107 | Successive WriteFrame calls that succeed have sent exactly the packets, enciphered as one stream, through any partial writes; if nothing is refused and the socket makes progress, they succeed. |
| `RateLimit.AnswersAreFullHistory` | internal/ratelimit/limiter.go:16-58 | For every request sequence with nondecreasing times, the answers, cleanup on every 1024th request included, are those of a specification that remembers everything. |
| `RateLimit.WindowNeverOverfull` | internal/ratelimit/limiter.go:26-50 | No interval (t-window, t] holds more than `limit` allowed events of a key, at any t. |
| `RateLimit.FullHistoryIffOrdered` | internal/ratelimit/limiter.go:26-58 | A sequence of times is answered like the full history, for every limit, window and choice of keys, if and only if it never goes back. |
| `RateLimit.OutOfOrderDiffers` | internal/ratelimit/limiter.go:26-50 | For every sequence with a time earlier than one before it, two requests of one key under limit 1 that the store and the full history answer differently. |
| `RateLimit.OutOfOrderOverfills` | internal/ratelimit/limiter.go:26-50 | With limit 2 and window 10, requests of one key at 100, 100, 111 and 104 are all allowed, and (94, 104] then holds three. |
| `RateLimit.StepRefines` | internal/ratelimit/limiter.go:26-58 | One request, with or without cleanup, keeps the pruned store equivalent to the full history of every key. |
| `RateLimit.Limiter.Allow` | internal/ratelimit/limiter.go:26-50 | Allow, with its pruning loop, request counter and cleanup, is the step function. |
| `RateLimit.Limiter.Cleanup` | internal/ratelimit/limiter.go:52-58 | The loop removes exactly the keys whose last event is not after the cutoff. |
| `Windows.KeepsCount` | internal/ratelimit/limiter.go:29-46 | A time list whose dropped entries are all before a cutoff counts the same as the full list in every later window. |
| `BotFilter.DecisionsAreDeserved` | internal/botfilter/filter.go:215-287 | Under a fixed enabled policy and a nondecreasing clock, every decision, with cleanups anywhere, is the one the full history of the address deserves: blocked within DenyTTL of a triggering violation, violation, burst or username churn, or allowed. |
| `BotFilter.VerdictIs` | internal/botfilter/filter.go:215-250 | Blocked and violating calls are denied, bursts and username churn observed for the configured time, all others allowed. |
| `BotFilter.CleanupIsInvisible` | internal/botfilter/filter.go:175-190 | Two runs with the same calls and different cleanups decide the same. |
| `BotFilter.DisabledAllows` | internal/botfilter/filter.go:219-222 | A disabled policy allows every call and remembers nothing. |
| `BotFilter.BlockLastsExactly` | internal/botfilter/filter.go:215-270 | In every run and whatever follows: after a triggering violation every Evaluate of the address less than DenyTTL later is denied as blocked, and the first one at or after DenyTTL is not. |
| `BotFilter.EvaluateRefines` | internal/botfilter/filter.go:215-250 | One Evaluate gives the deserved decision and keeps the pruned entries equivalent to the full history. |
| `BotFilter.CleanupRefines` | internal/botfilter/filter.go:175-190 | One cleanup keeps them equivalent. |
| `BotFilter.Manager.Evaluate` | internal/botfilter/filter.go:215-250 | Evaluate on the map of entries is the step function, in every branch. |
| `BotFilter.Manager.Cleanup` | internal/botfilter/filter.go:175-190 | The loop over the map prunes every entry and deletes exactly the useless ones; a disabled policy empties the map. |
| `BotFilter.Manager.Prune` | internal/botfilter/filter.go:272-287 | Drops exactly what is older than its window. |
| `BotFilter.Manager.KeepTimes` | internal/botfilter/filter.go:272-287 | The loop drops the leading times before the cutoff. |
| `BotFilter.Manager.RecordViolation` | internal/botfilter/filter.go:265-270 | Appends the violation and blocks once the limit is reached. |
| `AdmissionQueue.FirstInFirstOut` | internal/queue/queue.go:35-85 | In every run the queue stays within its size with distinct IDs, popped items then queued items are in enqueue order, and accepted items are exactly the popped, cancelled and queued ones. |
| `AdmissionQueue.PositionFalls` | internal/queue/queue.go:35-102 | While an item stays queued, its position falls by at least one for every Pop and never rises. |
| `AdmissionQueue.LeavesWithinItsPosition` | internal/queue/queue.go:72-102 | An item at position k does not stay queued through k Pops. |
| `AdmissionQueue.EnqueueAccepts` | internal/queue/queue.go:35-53 | A well-formed item with a new ID is accepted exactly while there is room, and goes last, with its context or the background one. |
| `AdmissionQueue.EnqueueRefuses` | internal/queue/queue.go:35-43 | A malformed item, and then a duplicate, is refused whatever room there is. |
| `AdmissionQueue.CancelTakesOut` | internal/queue/queue.go:55-70 | After a cancellation the ID is gone, and only it. |
| `AdmissionQueue.PositionMeans` | internal/queue/queue.go:93-102 | Position is zero exactly for IDs that are not queued, and otherwise names the first match. |
| `AdmissionQueue.FIFO.constructor` | internal/queue/queue.go:28-33 | An empty queue of the given size, 1024 for a size that is not positive. |
| `AdmissionQueue.FIFO.Enqueue` | internal/queue/queue.go:35-53 | The three refusals in order, or the item appended and its position; the shadow set stays the queued IDs. |
| `AdmissionQueue.FIFO.ShiftDown` | internal/queue/queue.go:62 | The in-place shift removes exactly one element. |
| `AdmissionQueue.FIFO.RemoveAt` | internal/queue/queue.go:62-66 | Removing an element clears the freed slot and its ID. |
| `AdmissionQueue.FIFO.Cancel` | internal/queue/queue.go:55-70 | Removes the item with that ID, wherever it is, or reports that there is none. |
| `AdmissionQueue.FIFO.Pop` | internal/queue/queue.go:72-85 | Takes the first item, in place. |
| `AdmissionQueue.FIFO.FindPosition` | internal/queue/queue.go:93-102 | The loop finds the position. |
| `BackendConfiguration.CompleteConfiguration` | internal/backend/configuration.go:30-102 | Succeeds if and only if some Finish is preceded only by keepalives, pings and packets within both limits, with enough successful writes; then the result is exactly those packets in order, and what was written is exactly the echoes in order and one finish acknowledgement; on failure exactly the echoes so far, with the error of the frame that ended the loop, or of the read. |
| `BackendConfiguration.ErrorOf` | internal/backend/configuration.go:55-100 | Which error a frame that ends the loop gives: an unreadable or malformed one, a disconnect, one that could not be answered, one over the limits. |
| `BackendConfiguration.NothingCompletes` | internal/backend/configuration.go:49-101 | A frame that is neither echoed, passed on within the limits, nor an awaited Finish rules out success. |
| `Bridge.BridgeIsFaithful` | internal/bridge/play.go:52-104 | In every interleaving each direction forwards an unmodified prefix of what it read (all of it while running), the pending set stays within its maximum, and forwarded responses with an ID never outnumber forwarded backend keepalives with that ID. |
| `Bridge.BridgeGoesOn` | internal/bridge/play.go:52-104 | A running bridge goes on, and forwards the frame, exactly in these cases: a client keepalive if and only if it answers one that the backend sent and that was not answered since; a backend keepalive if and only if it is well-formed and fewer than the maximum are open; every other packet with a readable ID. |
| `Bridge.PendingIsOpen` | internal/bridge/play.go:66-100 | While the bridge runs, the pending set is exactly the backend keepalives without an answer since. |
| `Bridge.StepKeeps` | internal/bridge/play.go:52-104 | Every event keeps the ledger of every keepalive ID. |
| `Bridge.RunPlay` | internal/bridge/play.go:29-104 | The event loop forwards exactly what the run says. |
| `Nbt.RoundTrip` | internal/protocol/configuration/nbt.go:38-119 | For every tree and suffix, a reference decoder returns the tree and the suffix if and only if every string is shorter than 65536 bytes and every list shorter than 2^31. |
| `Nbt.SmallDocumentsRoundTrip` | internal/protocol/configuration/nbt.go:101-135 | Every document Encode accepts under a limit of at most 64 KiB has no truncated length and decodes to its tree. |
| `Nbt.DecodedFieldsFit` | internal/protocol/configuration/nbt.go:110-135 | The decoder returns only such trees. |
| `Nbt.CompoundBuilder.constructor` | internal/protocol/configuration/nbt.go:34-36 | An empty compound. |
| `Nbt.CompoundBuilder.PutByte` | internal/protocol/configuration/nbt.go:38-40 | Appends one field to the tree the builder stands for. |
| `Nbt.CompoundBuilder.PutInt` | internal/protocol/configuration/nbt.go:42-46 | Appends one field to the tree the builder stands for. |
| `Nbt.CompoundBuilder.PutLong` | internal/protocol/configuration/nbt.go:48-52 | Appends one field to the tree the builder stands for. |
| `Nbt.CompoundBuilder.PutFloat` | internal/protocol/configuration/nbt.go:54-58 | Appends one field to the tree the builder stands for. |
| `Nbt.CompoundBuilder.PutDouble` | internal/protocol/configuration/nbt.go:60-64 | Appends one field to the tree the builder stands for. |
| `Nbt.CompoundBuilder.PutText` | internal/protocol/configuration/nbt.go:66-68 | Appends one field to the tree the builder stands for. |
| `Nbt.CompoundBuilder.PutCompound` | internal/protocol/configuration/nbt.go:70-72 | Appends a compound as it is when it is called. |
| `Nbt.CompoundBuilder.PutCompounds` | internal/protocol/configuration/nbt.go:74-82 | Appends a list of compounds as they are when it is called. |
| `Nbt.CompoundBuilder.PutTexts` | internal/protocol/configuration/nbt.go:84-92 | Appends a list of strings. |
| `Nbt.CompoundBuilder.Add` | internal/protocol/configuration/nbt.go:94-99 | The kind goes in front of the payload. |
| `Nbt.CompoundBuilder.EncodePayload` | internal/protocol/configuration/nbt.go:110-119 | The loop yields the encoding of the tree. |
| `Nbt.CompoundBuilder.Encode` | internal/protocol/configuration/nbt.go:101-108 | The document, or an error exactly when it exceeds the limit. |
| `Play.ActionBarDecodes` | internal/protocol/play/play.go:167-174 | A payload is made for exactly the texts of at most 65525 bytes, and decodes to its text. |
| `Play.PositionLookRoundTrip` | internal/protocol/play/play.go:192-282 | A position encodes to a packet that decodes to it if finite and is rejected if not. |
| `Play.PositionRoundTrip` | internal/protocol/play/play.go:184-282 | The same for positions without look, which decode with a zero look. |
| `Play.DecodedMovementReencodes` | internal/protocol/play/play.go:254-282 | Whatever is accepted is finite and is, byte for byte, the encoding of what it is decoded to. |
| `Play.PlayerCommandRoundTrip` | internal/protocol/play/play.go:202-227 | A command encodes to a packet that decodes to it if acceptable and is rejected if not. |
| `Play.PlayerCommandParts` | internal/protocol/play/play.go:202-207 | Entity, action and data go out in this order. |
| `Play.KeepAliveRoundTrip` | internal/protocol/play/play.go:241-247 | A client's keepalive answer is read back as its ID. |
| `Play.ParsePlayerCommandLoop` | internal/protocol/play/play.go:209-227 | The loop over three VarInts equals the specification. |
| `Play.PacketIdOf` | internal/protocol/codec/frame.go:80-86 | A packet made of an ID and a body splits into them. |
| `ServerHash.Print` | internal/auth/challenge.go:120-139 | For a digest of any length of at least one byte, the result is the canonical numeral of its two's-complement value. |
| `ServerHash.Negate` | internal/auth/challenge.go:122-131 | The backwards carry loop computes 256^n minus the value, in place, for every non-zero digest. |
| `ServerHash.NumeralIsCanonical` | internal/auth/challenge.go:132-139 | The numeral determines its number, has no leading zero except in "0", and is never "-0". |
| `ServerHash.TrimmedHex` | internal/auth/challenge.go:132-135 | Hex encoding without leading zeros is the digits of the big-endian value. |

## Left out

- Sockets, deadlines, contexts, dialing, logging, HTTP endpoints, environment and YAML configuration: timeouts, cancellations and failures are arbitrary steps or parameters instead.
- AES, RSA, SHA-1 and zlib: uninterpreted. The block function is any function of the register; zlib is any pair of functions that inverts, never yields nothing and expands by at most n/1000 + 64 bytes.
- Floating-point arithmetic: coordinates are bit patterns, and finite means that the exponent is not all ones.
- Handshake, login, status, registry and client settings parsers: straight-line field codecs; the verdict of the client settings parser is a parameter of the server loop.
- The single writer goroutine of the transport and its channel: WriteFrame is modelled as the call that the writer makes, one at a time.
- The capacity of the buffered reader: a chunk of the socket is buffered whole, whatever its size.
- Go's `int` is unbounded here, as are the limiter's request counter and the Limbo keepalive counter, which is reduced to 64 bits where it is sent or handed to a barrier.
- Transfer.PrepareTransfer: is the call alone on its session, so the error branches of its own barrier advances do not occur in it; PrepareStep, the interleaved form, has them, and PrepareAloneIsRun joins the two.
- LimboLoop.HandleBarrierFrame: is the call alone on its session, with the verdict of the client settings parser as a parameter; the interleaved form is in the loop's sections, and SectionsMakeFrame joins the two.
- LimboGate.Limbo.Serve: has the keepalive, challenge and tick cases of the select only; the transfer cases are in LimboLoop, as a state machine on values rather than as mutable variables.
- LimboLoop.ReleasedTraffic: says nothing about what a client does after a timed-out transfer, nor about arming the keepalive timer across a rollback.
- LimboRun.TransferCanComplete: gives a run in which the input comes before the client acknowledges Start Configuration; input in later phases is taken the same way.
- RateLimit.WindowNeverOverfull: one way only; which unordered times still respect every window is not characterised.
- BotFilter.DecisionsAreDeserved: leaves out Record, which counts without pruning, and policy changes while entries exist.
- The queue's Scheduler: it pops one item at a time and calls its Admit; the server loop takes admissions as arbitrary events.
- Health snapshots, the challenge chain, metrics counters and per-address connection counting: too simple to add anything.
