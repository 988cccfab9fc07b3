/**
 internal/server/server.go, serveLimbo with prepareTransfer and handleBarrierFrame: one connection's
 event loop driving transfers, together with the Prepare goroutines it starts and the barrier timers.

 The loop is a program counter over its atomic sections, so that goroutines and timers can act
 between any two of them.
 */
module LimboLoop {
  import opened Bytes
  import opened Session
  import T = Transfer
  import Play
  import BackendConfiguration
  import Bridge
  import LimboGate
  import ReplayFrames

  const CLIENT_INFORMATION: int32 := 0x00
  const PLUGIN_MESSAGE: int32 := 0x01

  const START_FRAME := Play.StartConfigurationPayload()
  const FINISH_FRAME := BackendConfiguration.FinishPayload()

  // ---- handleBarrierFrame ----

  /** What a client frame asks for in a barrier phase. */
  datatype Action = Advance(phase: byte) | Take(input: Input) | Ignore | Reject

  /** The packets that carry input, whatever the phase. */
  function InputAction(id: int32, frame: bytes): (a: Action)
    ensures a.Reject? || (a.Take? && ReplayFrames.AcceptableInput(a.input))
  {
    if id == Play.SERVERBOUND_KEEP_ALIVE then
      var k := Play.ParseKeepAlive(frame);
      if k.None? then Reject else Take(KeepAlive(k.value))
    else if id == Play.SERVERBOUND_POSITION || id == Play.SERVERBOUND_POSITION_LOOK then
      var m := Play.DecodeMovement(frame);
      if m.None? then Reject else Take(Move(m.value))
    else if id == Play.SERVERBOUND_PLAYER_COMMAND then
      var c := Play.ParsePlayerCommand(frame);
      if c.None? then Reject else Take(Command(c.value))
    else Take(Unsafe)
  }

  /** `setup` is the verdict of the client settings parsers, which are not part of this model. */
  function BarrierAction(phase: byte, id: int32, frame: bytes, setup: bool): (a: Action)
    ensures a.Take? ==> ReplayFrames.AcceptableInput(a.input)
    ensures a.Advance? ==> a.phase in {CLIENT_CONFIGURATION, READY} && a.phase == phase + 1
  {
    if phase == AWAITING_CLIENT_START && id == Play.SERVERBOUND_CONFIGURATION_ACKNOWLEDGED then
      if Play.IsConfigurationAcknowledged(frame) then Advance(CLIENT_CONFIGURATION) else Reject
    else if phase == AWAITING_CLIENT_FINISH && id == BackendConfiguration.FINISH then
      if BackendConfiguration.IsFinish(frame) then Advance(READY) else Reject
    else if phase == AWAITING_CLIENT_FINISH && (id == CLIENT_INFORMATION || id == PLUGIN_MESSAGE) then
      if setup then Ignore else Reject
    else if id == Play.SERVERBOUND_CONFIGURATION_ACKNOWLEDGED || id == BackendConfiguration.FINISH then Reject
    else InputAction(id, frame)
  }

  /** Which packets, in which phase, advance the barrier, carry input, are ignored, or end the connection. */
  lemma FrameMeaning(phase: byte, frame: bytes, setup: bool)
    requires Play.PacketId(frame).Some?
    ensures var (id, body) := Play.PacketId(frame).value;
            var a := BarrierAction(phase, id, frame, setup);
            var started := phase == AWAITING_CLIENT_START && Play.IsConfigurationAcknowledged(frame);
            var finished := phase == AWAITING_CLIENT_FINISH && BackendConfiguration.IsFinish(frame);
            var settings := phase == AWAITING_CLIENT_FINISH && id in {CLIENT_INFORMATION, PLUGIN_MESSAGE};
            && (a == Advance(CLIENT_CONFIGURATION) <==> started)
            && (a == Advance(READY) <==> finished)
            && (a.Advance? <==> started || finished)
            && (a.Ignore? <==> settings && setup)
            && (forall k: int64 :: a == Take(KeepAlive(k)) <==> Play.ParseKeepAlive(frame) == Some(k))
            && (forall m :: a == Take(Move(m)) <==> Play.DecodeMovement(frame) == Some(m))
            && (forall c :: a == Take(Command(c)) <==> Play.ParsePlayerCommand(frame) == Some(c))
            && (a == Take(Unsafe) <==>
                  && !settings && id !in {Play.SERVERBOUND_CONFIGURATION_ACKNOWLEDGED, BackendConfiguration.FINISH}
                  && id !in {Play.SERVERBOUND_KEEP_ALIVE, Play.SERVERBOUND_POSITION, Play.SERVERBOUND_POSITION_LOOK}
                  && id != Play.SERVERBOUND_PLAYER_COMMAND)
  {
    hide Play.PacketId, Play.Read64, Play.MovementOf, Play.ConsumeVarInts;
  }

  /** One frame when nothing else acts on the session meanwhile, and whether the connection goes on. */
  function FrameStep(s: View, id: int32, frame: bytes, setup: bool): (r: (View, bool)) {
    if Phase(s).Err? then (s, false)
    else
      match BarrierAction(Phase(s).value, id, frame, setup)
      case Advance(p) => (AdvanceStep(s, p).0, AdvanceStep(s, p).1.None?)
      case Take(input) => (InputStep(s, input).0, InputStep(s, input).2.None?)
      case Ignore => (s, true)
      case Reject => (s, false)
  }

  method HandleBarrierFrame(session: SessionState, id: int32, frame: bytes, setup: bool) returns (ok: bool)
    modifies session.barrier
    ensures (session.Value(), ok) == FrameStep(old(session.Value()), id, frame, setup)
  {
    hide Play.PacketId, Play.ParseKeepAlive, Play.DecodeMovement, Play.ParsePlayerCommand, Handle;
    var phase := session.BarrierPhase();
    if phase.Err? {
      return false;
    }
    if phase.value == AWAITING_CLIENT_START && id == Play.SERVERBOUND_CONFIGURATION_ACKNOWLEDGED {
      if !Play.IsConfigurationAcknowledged(frame) {
        return false;
      }
      var err := session.AdvanceBarrier(CLIENT_CONFIGURATION);
      return err.None?;
    }
    if phase.value == AWAITING_CLIENT_FINISH && id == BackendConfiguration.FINISH {
      if !BackendConfiguration.IsFinish(frame) {
        return false;
      }
      var err := session.AdvanceBarrier(READY);
      return err.None?;
    }
    if phase.value == AWAITING_CLIENT_FINISH && (id == CLIENT_INFORMATION || id == PLUGIN_MESSAGE) {
      return setup;
    }
    if id == Play.SERVERBOUND_CONFIGURATION_ACKNOWLEDGED || id == BackendConfiguration.FINISH {
      return false;
    }
    var action := InputAction(id, frame);
    if action.Reject? {
      return false;
    }
    var _, err := session.HandleBarrierInput(action.input);
    return err.None?;
  }

  // ---- The loop ----

  datatype Pc =
    | Select
    | Beginning                      // about to call BeginClientConfiguration
    | BeginWriting(w: nat)           // inside it, between its two sections
    | Undoing                        // it failed: about to roll back
    | LimboWrite(frame: bytes)       // a keepalive or action bar, decided on in LimboPlay
    | Handling(id: int32, frame: bytes)
    | AdvancingTo(phase: byte)
    | Taking(input: Input)
    | Progressing
    | Configuring                    // about to call WriteClientConfiguration
    | ConfigureWriting(w: nat)       // inside it, between its two sections
    | Releasing
    | Replaying(todo: seq<bytes>)
    | Playing
    | Ended

  /** What Release returned, and the inputs the barrier had taken by then. */
  datatype Handover = Handover(replay: Replay, inputs: seq<Input>)

  /**
   `outstanding` is the transfer whose result the loop waits for. `start` is where the last Start
   Configuration frame stands in the client's log.
   */
  datatype Loop = Loop(
    sys: T.System, pc: Pc, prepared: Option<nat>, outstanding: Option<nat>, sent: bool, gate: LimboGate.Gate,
    start: nat, released: Option<Handover>, backendLog: seq<bytes>, bridge: Bridge.State)

  const LIMBO := T.System(View(LimboPlay, None), [], [], [], 3, [])

  const START := Loop(LIMBO, Select, None, None, false, LimboGate.START, 0, None, [], Bridge.START)

  datatype Event =
    | Goroutine(transfer: nat, ok: bool, packets: seq<bytes>)  // a Prepare goroutine takes a step
    | Abandon(transfer: nat)                                   // its context is done: it rolls back instead
    | Timer(transfer: nat)
    | Admit(maxCommands: int)
    | PrepareReturned
    | TransferDone
    | ClientFrame(frame: bytes, asked: Option<int>, accepted: bool)
    | ChallengeDone(passed: bool, accepted: bool)
    | KeepAliveTick
    | QueueTick(position: Option<bytes>)                       // the text to show, if the queue knows a position
    | Continue(ok: bool, setup: bool)                          // the next section; `ok` is how its write ends
    | Bridged(event: Bridge.Event)
    | Disconnect

  function End(l: Loop): (r: Loop) { l.(pc := Ended) }

  function Do(l: Loop, step: T.Step): (r: Loop) { l.(sys := T.Apply(l.sys, step)) }

  function GateStep(c: LimboGate.Config, l: Loop, e: LimboGate.Event): (r: Loop) {
    var g := LimboGate.Step(c, l.gate, e);
    l.(gate := g, pc := if g.ended then Ended else l.pc)
  }

  function PendingIDs(pending: int): (ids: seq<int64>) {
    if pending == 0 then [] else [ToInt64(pending % 0x1_0000_0000_0000_0000)]
  }

  /** One client frame at the select. */
  function OnFrame(c: LimboGate.Config, l: Loop, frame: bytes, asked: Option<int>, accepted: bool): (r: Loop) {
    match Play.PacketId(frame)
    case None => End(l)
    case Some((id, _)) =>
      if l.sys.session.state.TransferBarrier? then l.(pc := Handling(id, frame))
      else if id == Play.SERVERBOUND_KEEP_ALIVE then
        var k := Play.ParseKeepAlive(frame);
        GateStep(c, l, LimboGate.Answer(if k.None? then None else Some(k.value as int), asked, accepted))
      else if id in {Play.SERVERBOUND_POSITION, Play.SERVERBOUND_POSITION_LOOK}
          && Play.DecodeMovement(frame).Some? then l
      else End(l)
  }

  function OnPrepared(c: LimboGate.Config, l: Loop): (r: Loop) {
    if l.outstanding.None? || l.outstanding.value >= |l.sys.transfers| then l
    else
      match l.sys.transfers[l.outstanding.value].stage
      case Published => l.(prepared := l.outstanding, outstanding := None, sent := false, pc := Beginning)
      case Failed => GateStep(c, l.(outstanding := None), LimboGate.TransferFailed)
      case Refused => GateStep(c, l.(outstanding := None), LimboGate.TransferFailed)
      case _ => l
  }

  /** The cases of the select. */
  function OnSelect(c: LimboGate.Config, l: Loop, e: Event): (r: Loop) {
    match e
    case Admit(max) =>
      if l.prepared.Some? || !l.sys.session.state.LimboPlay? then l
      else Do(l, T.Spawn(PendingIDs(l.gate.pending), max)).(outstanding := Some(|l.sys.transfers|))
    case PrepareReturned => OnPrepared(c, l)
    case TransferDone =>
      if l.prepared.Some? && l.prepared.value < |l.sys.transfers| && l.sys.transfers[l.prepared.value].timedOut
      then GateStep(c, l.(prepared := None), LimboGate.TransferFailed) else l
    case ClientFrame(frame, asked, accepted) => OnFrame(c, l, frame, asked, accepted)
    case ChallengeDone(passed, accepted) => GateStep(c, l, LimboGate.ChallengeDone(passed, accepted))
    case KeepAliveTick =>
      if l.sys.session.state.LimboPlay? && l.gate.pending == 0 then
        var l' := GateStep(c, l, LimboGate.Tick);
        l'.(pc := LimboWrite(Play.KeepAlivePayload(ToInt64(l'.gate.keepAliveID % 0x1_0000_0000_0000_0000))))
      else l
    case QueueTick(position) =>
      if l.gate.queued && l.sys.session.state.LimboPlay? && position.Some? then
        var payload := Play.ActionBarPayload(position.value);
        if payload.Err? then End(l) else l.(pc := LimboWrite(payload.value))
      else l
    case _ => l
  }

  /** BeginClientConfiguration, whose failure the loop answers with a rollback. */
  function OnBegin(l: Loop, ok: bool): (r: Loop)
    requires l.prepared.Some?
  {
    match l.pc
    case Beginning =>
      var l' := Do(l, T.Begin(l.prepared.value));
      l'.(pc := if |l'.sys.writers| > |l.sys.writers| then BeginWriting(|l.sys.writers|) else Undoing)
    case BeginWriting(w) =>
      if w >= |l.sys.writers| then l
      else if l.sys.writers[w].todo != [] then
        if ok then Do(l, T.WriteFrame(w)).(start := |l.sys.clientLog|) else Do(l, T.WriteFails(w)).(pc := Undoing)
      else
        var i := l.prepared.value;
        var fine := i < |l.sys.transfers|
                    && T.CheckPhase(l.sys.session, l.sys.transfers[i], AWAITING_CLIENT_START).None?;
        Do(l, T.Resume(w)).(pc := if fine then Select else Undoing)
    case Undoing => Do(l, T.Rollback(l.prepared.value)).(prepared := None, pc := Select)
    case _ => l
  }

  /** A client frame in the barrier, section by section. */
  function OnHandling(l: Loop, id: int32, frame: bytes, setup: bool): (r: Loop) {
    var phase := Phase(l.sys.session);
    if phase.Err? then End(l)
    else
      l.(pc := match BarrierAction(phase.value, id, frame, setup)
               case Advance(p) => AdvancingTo(p)
               case Take(input) => Taking(input)
               case Ignore => Progressing
               case Reject => Ended)
  }

  function OnAdvancing(l: Loop, p: byte): (r: Loop) {
    Do(l, T.ClientAcknowledges(p)).(pc := if AdvanceStep(l.sys.session, p).1.None? then Progressing else Ended)
  }

  function OnTaking(l: Loop, input: Input): (r: Loop) {
    Do(l, T.BarrierInput(input)).(pc := if InputStep(l.sys.session, input).2.None? then Progressing else Ended)
  }

  /** The progress closure up to its first call. */
  function OnProgressing(l: Loop): (r: Loop) {
    var phase := Phase(l.sys.session);
    l.(pc := if l.prepared.None? then Select
             else if phase.Err? then Ended
             else if phase.value == CLIENT_CONFIGURATION && !l.sent then Configuring
             else if phase.value == READY then Releasing
             else Select)
  }

  /** WriteClientConfiguration, whose failure ends the session. */
  function OnConfigure(l: Loop, ok: bool): (r: Loop)
    requires l.prepared.Some?
  {
    match l.pc
    case Configuring =>
      var l' := Do(l, T.Configure(l.prepared.value));
      l'.(pc := if |l'.sys.writers| > |l.sys.writers| then ConfigureWriting(|l.sys.writers|) else Ended)
    case ConfigureWriting(w) =>
      if w >= |l.sys.writers| then l
      else if l.sys.writers[w].todo != [] then
        if ok then Do(l, T.WriteFrame(w)) else End(Do(l, T.WriteFails(w)))
      else
        var i := l.prepared.value;
        var fine := i < |l.sys.transfers| && T.ConfiguredStep(l.sys.session, l.sys.transfers[i]).1.None?;
        Do(l, T.Resume(w)).(sent := fine, pc := if fine then Select else Ended)
    case _ => l
  }

  /** Release, then the replay to the backend, then the bridge. */
  function OnRelease(l: Loop, ok: bool): (r: Loop) {
    match l.pc
    case Releasing =>
      if l.prepared.None? || !T.HasPrepared(l.sys, l.prepared.value) then End(l)
      else
        var i := l.prepared.value;
        var replay := T.PreparedReleaseStep(l.sys.session, l.sys.transfers[i]).2;
        var l' := Do(l, T.Release(i));
        if replay.Err? then End(l')
        else l'.(released := Some(Handover(replay.value, l.sys.inputs)),
            pc := Replaying(ReplayFrames.Frames(replay.value)))
    case Replaying(todo) =>
      if todo == [] then l.(pc := Playing)
      else if ok then l.(backendLog := l.backendLog + [todo[0]], pc := Replaying(todo[1..]))
      else End(l)
    case _ => l
  }

  function OnContinue(l: Loop, ok: bool, setup: bool): (r: Loop) {
    match l.pc
    case LimboWrite(frame) => if ok then Do(l, T.OtherWrite(frame)).(pc := Select) else End(l)
    case Releasing => OnRelease(l, ok)
    case Replaying(_) => OnRelease(l, ok)
    case Handling(id, frame) => OnHandling(l, id, frame, setup)
    case AdvancingTo(p) => OnAdvancing(l, p)
    case Taking(input) => OnTaking(l, input)
    case Progressing => OnProgressing(l)
    case Configuring => if l.prepared.None? then End(l) else OnConfigure(l, ok)
    case ConfigureWriting(_) => if l.prepared.None? then End(l) else OnConfigure(l, ok)
    case Beginning => if l.prepared.None? then End(l) else OnBegin(l, ok)
    case BeginWriting(_) => if l.prepared.None? then End(l) else OnBegin(l, ok)
    case Undoing => if l.prepared.None? then End(l) else OnBegin(l, ok)
    case _ => l
  }

  /** What the bridge forwards reaches the client, or the backend. */
  function OnBridge(max: nat, l: Loop, event: Bridge.Event): (r: Loop) {
    var b := Bridge.Step(max, l.bridge, event);
    if |b.toClient| > |l.bridge.toClient| then Do(l, T.OtherWrite(b.toClient[|b.toClient| - 1])).(bridge := b)
    else if |b.toBackend| > |l.bridge.toBackend|
        then l.(bridge := b, backendLog := l.backendLog + [b.toBackend[|b.toBackend| - 1]])
    else l.(bridge := b, pc := if b.running then Playing else Ended)
  }

  function Next(c: LimboGate.Config, max: nat, l: Loop, e: Event): (r: Loop) {
    match e
    case Goroutine(i, ok, packets) => Do(l, T.Prepare(i, ok, packets))
    case Abandon(i) =>
      if l.prepared == Some(i) then l
      else Do(l, T.Rollback(i)).(outstanding := if l.outstanding == Some(i) then None else l.outstanding)
    case Timer(i) => Do(l, T.TimerFires(i))
    case Continue(ok, setup) => OnContinue(l, ok, setup)
    case Bridged(event) => if l.pc.Playing? then OnBridge(max, l, event) else l
    case Disconnect => End(l)
    case _ => if l.pc.Select? then OnSelect(c, l, e) else l
  }

  function RunLoop(c: LimboGate.Config, max: nat, l: Loop, events: seq<Event>): (r: Loop)
    decreases |events|
  {
    if events == [] then l else RunLoop(c, max, Next(c, max, l, events[0]), events[1..])
  }

  lemma {:induction false} RunPush(c: LimboGate.Config, max: nat, l: Loop, events: seq<Event>, e: Event)
    ensures RunLoop(c, max, l, events + [e]) == Next(c, max, RunLoop(c, max, l, events), e)
    decreases |events|
  {
    hide Next;
    if events == [] {
      assert [e][1..] == [] && [] + [e] == [e];
    } else {
      RunPush(c, max, Next(c, max, l, events[0]), events[1..], e);
      assert (events + [e])[1..] == events[1..] + [e];
    }
  }

  // ---- The invariant ----

  /** The frames a client gets from Start Configuration to Finish. */
  function ConfigurationFrames(t: T.Transfer): (frames: seq<bytes>) {
    [START_FRAME] + t.packets + [FINISH_FRAME]
  }

  predicate AllAcceptable(inputs: seq<Input>) {
    forall k | 0 <= k < |inputs| :: ReplayFrames.AcceptableInput(inputs[k])
  }

  /** The loop holds a Prepared that still owns the barrier. */
  predicate Holding(l: Loop) {
    l.prepared.Some? && T.HasPrepared(l.sys, l.prepared.value) && !l.sys.transfers[l.prepared.value].finalized
  }

  function Held(l: Loop): (t: T.Transfer)
    requires l.prepared.Some? && T.HasPrepared(l.sys, l.prepared.value)
  {
    l.sys.transfers[l.prepared.value]
  }

  ghost predicate Sound(l: Loop) {
    && T.Inv(l.sys)
    && (l.prepared.Some? ==> T.HasPrepared(l.sys, l.prepared.value))
    && l.start <= |l.sys.clientLog|
    && AllAcceptable(l.sys.inputs)
    && (l.pc.Taking? ==> ReplayFrames.AcceptableInput(l.pc.input))
    && (l.pc.LimboWrite? ==> !Holding(l))
  }

  /** The held transfer's writer is between its two sections. */
  predicate Writes(l: Loop, w: nat, configuring: bool) {
    && w < |l.sys.writers| && l.prepared.Some?
    && l.sys.writers[w].transfer == l.prepared.value
    && l.sys.writers[w].configuring == configuring && !l.sys.writers[w].returned
  }

  /** Between the steps of the client's reconfiguration. */
  predicate Settled(l: Loop)
    requires Holding(l) && l.start <= |l.sys.clientLog|
  {
    var phase, log := Phase(l.sys.session), l.sys.clientLog[l.start..];
    || (phase in {Ok(AWAITING_CLIENT_START), Ok(CLIENT_CONFIGURATION)} && !l.sent && log == [START_FRAME])
    || (phase in {Ok(AWAITING_CLIENT_FINISH), Ok(READY)} && l.sent && log == ConfigurationFrames(Held(l)))
  }

  /** What the client has been sent since Start Configuration, at every point of the loop. */
  predicate OnTrack(l: Loop)
    requires Holding(l) && l.start <= |l.sys.clientLog|
  {
    var phase, log := Phase(l.sys.session), l.sys.clientLog[l.start..];
    match l.pc
    case Beginning => !l.sent
    case BeginWriting(w) =>
      && Writes(l, w, false) && phase == Ok(AWAITING_CLIENT_START) && !l.sent
      && (l.sys.writers[w].todo == [START_FRAME] || (l.sys.writers[w].todo == [] && log == [START_FRAME]))
    case Undoing => true
    case Configuring => phase == Ok(CLIENT_CONFIGURATION) && log == [START_FRAME]
    case ConfigureWriting(w) =>
      Writes(l, w, true) && phase == Ok(CLIENT_CONFIGURATION)
          && log + l.sys.writers[w].todo == ConfigurationFrames(Held(l))
    case Replaying(_) => false
    case Playing => false
    case Ended => true
    case _ => Settled(l)
  }

  /** What client and backend have been sent once the transfer is released. */
  ghost predicate Delivered(max: nat, l: Loop) {
    if l.released.None? then l.backendLog == [] && l.bridge == Bridge.START && !l.pc.Replaying? && !l.pc.Playing?
    else
      && l.prepared.Some? && T.HasPrepared(l.sys, l.prepared.value) && Held(l).finalized
      && Held(l).handovers > 0 && l.start <= |l.sys.clientLog|
      && l.sys.clientLog[l.start..] == ConfigurationFrames(Held(l)) + l.bridge.toClient
      && l.released.value.replay == ReplayOf(HandleAll(NewBarrier(Held(l).keepAliveIDs, Held(l).maxCommands),
           l.released.value.inputs))
      && AllAcceptable(l.released.value.inputs)
      && Bridge.Inv(max, l.bridge)
      && var frames := ReplayFrames.Frames(l.released.value.replay);
         match l.pc
         case Replaying(todo) => l.bridge == Bridge.START && l.backendLog + todo == frames
         case Playing => l.bridge.running && l.backendLog == frames + l.bridge.toBackend
         case Ended => l.backendLog <= frames + l.bridge.toBackend
         case _ => false
  }

  ghost predicate Inv(max: nat, l: Loop) {
    Sound(l) && (Holding(l) ==> OnTrack(l)) && Delivered(max, l)
  }

  // ---- Goroutines and timers ----

  /** A step of a goroutine or a timer, not a rollback of the held transfer. */
  predicate Outside(l: Loop, step: T.Step) {
    step.Prepare? || step.TimerFires? || step.Spawn? || (step.Rollback? && l.prepared != Some(step.transfer))
  }

  /** It leaves alone what the loop relies on, unless it ends the held transfer. */
  lemma OutsideFrame(sys: T.System, step: T.Step, i: nat)
    requires T.Inv(sys) && T.HasPrepared(sys, i)
    requires step.Prepare? || step.TimerFires? || step.Spawn? || (step.Rollback? && step.transfer != i)
    ensures var sys' := T.Apply(sys, step);
            && sys'.writers == sys.writers && sys'.clientLog == sys.clientLog
            && T.HasPrepared(sys', i)
            && (sys.transfers[i].finalized ==> sys'.transfers[i] == sys.transfers[i])
            && (!sys'.transfers[i].finalized ==> sys'.transfers[i] == sys.transfers[i] && sys'.session == sys.session)
  {
    var owner :| T.InvFor(sys, owner);
    assert owner == Some(i) || !T.Live(sys.transfers[i]);
    hide T.Accounted, HandleAll, NewBarrier;
  }

  lemma InputsAcceptable(sys: T.System, step: T.Step)
    requires AllAcceptable(sys.inputs) && (step.BarrierInput? ==> ReplayFrames.AcceptableInput(step.input))
    ensures AllAcceptable(T.Apply(sys, step).inputs)
  {
    hide ReplayFrames.AcceptableInput, HandleAll, NewBarrier;
  }

  lemma LogGrows(sys: T.System, step: T.Step)
    ensures sys.clientLog <= T.Apply(sys, step).clientLog
  {
  }

  lemma PreparedStays(sys: T.System, step: T.Step, i: nat)
    requires T.HasPrepared(sys, i)
    ensures T.HasPrepared(T.Apply(sys, step), i)
  {
  }

  /** Every step the loop takes on the system keeps the system sound. */
  lemma StaysSound(sys: T.System, step: T.Step, i: nat)
    requires T.Inv(sys) && AllAcceptable(sys.inputs)
    requires step.BarrierInput? ==> ReplayFrames.AcceptableInput(step.input)
    ensures var sys' := T.Apply(sys, step);
            && T.Inv(sys') && AllAcceptable(sys'.inputs) && |sys.clientLog| <= |sys'.clientLog|
            && (T.HasPrepared(sys, i) ==> T.HasPrepared(sys', i))
  {
    hide T.Inv, AllAcceptable, T.Apply, T.HasPrepared, ReplayFrames.AcceptableInput;
    T.StepKeeps(sys, step);
    InputsAcceptable(sys, step);
    LogGrows(sys, step);
    if T.HasPrepared(sys, i) {
      PreparedStays(sys, step, i);
    }
  }

  /** The system changed, but nothing that the loop relies on, unless the held transfer ended. */
  ghost predicate Unmoved(l: Loop, sys: T.System) {
    && T.Inv(sys) && AllAcceptable(sys.inputs)
    && sys.writers == l.sys.writers && sys.clientLog == l.sys.clientLog
    && (l.prepared.Some? && T.HasPrepared(l.sys, l.prepared.value) ==>
          && T.HasPrepared(sys, l.prepared.value)
          && (Held(l).finalized ==> sys.transfers[l.prepared.value] == Held(l))
          && (!sys.transfers[l.prepared.value].finalized ==>
                sys.transfers[l.prepared.value] == Held(l) && sys.session == l.sys.session))
  }

  lemma OutsideUnmoved(l: Loop, step: T.Step)
    requires Sound(l) && Outside(l, step)
    ensures Unmoved(l, T.Apply(l.sys, step))
  {
    StaysSound(l.sys, step, 0);
    if l.prepared.Some? {
      OutsideFrame(l.sys, step, l.prepared.value);
    } else {
      OutsideWrites(l.sys, step);
    }
    hide T.Apply, T.Inv, AllAcceptable;
  }

  lemma TrackUnmoved(l: Loop, l': Loop)
    requires Holding(l') && l'.start <= |l'.sys.clientLog| && l.prepared.Some? && T.HasPrepared(l.sys, l.prepared.value)
    requires Unmoved(l, l'.sys) && l' == l.(sys := l'.sys, outstanding := l'.outstanding, gate := l'.gate)
    requires Holding(l) ==> OnTrack(l)
    ensures OnTrack(l')
  {
    hide T.Inv, AllAcceptable, ConfigurationFrames, Phase;
  }

  lemma DeliveredUnmoved(max: nat, l: Loop, l': Loop)
    requires Unmoved(l, l'.sys) && l' == l.(sys := l'.sys, outstanding := l'.outstanding, gate := l'.gate)
    requires Delivered(max, l)
    ensures Delivered(max, l')
  {
    hide T.Inv, AllAcceptable, HandleAll, NewBarrier, ReplayOf, Bridge.Inv, ReplayFrames.Frames, ConfigurationFrames;
  }

  lemma UnmovedKeeps(max: nat, l: Loop, l': Loop)
    requires Inv(max, l)
    requires Unmoved(l, l'.sys) && l' == l.(sys := l'.sys, outstanding := l'.outstanding, gate := l'.gate)
    ensures Inv(max, l')
  {
    DeliveredUnmoved(max, l, l');
    hide Delivered, T.Inv, AllAcceptable, OnTrack, ReplayFrames.AcceptableInput;
    if Holding(l') {
      TrackUnmoved(l, l');
    }
  }

  lemma OutsideKeeps(max: nat, l: Loop, step: T.Step, outstanding: Option<nat>)
    requires Inv(max, l) && Outside(l, step)
    ensures Inv(max, Do(l, step).(outstanding := outstanding))
  {
    OutsideUnmoved(l, step);
    hide Inv, Unmoved, T.Apply;
    assert Inv(max, l);
    UnmovedKeeps(max, l, Do(l, step).(outstanding := outstanding));
  }

  lemma OutsideWrites(sys: T.System, step: T.Step)
    requires step.Prepare? || step.TimerFires? || step.Spawn? || step.Rollback?
    ensures T.Apply(sys, step).writers == sys.writers && T.Apply(sys, step).clientLog == sys.clientLog
  {
  }

  // ---- The select ----

  /** While the held transfer owns the barrier, the session is in it. */
  lemma HoldingMeansBarrier(l: Loop)
    requires T.Inv(l.sys) && Holding(l)
    ensures l.sys.session.state.TransferBarrier?
  {
    var owner :| T.InvFor(l.sys, owner);
    assert owner == l.prepared;
    hide T.Accounted, HandleAll, NewBarrier;
  }

  lemma SelectKeeps(max: nat, c: LimboGate.Config, l: Loop, e: Event)
    requires Inv(max, l) && l.pc.Select?
    ensures Inv(max, OnSelect(c, l, e))
  {
    if e.Admit? {
      if l.prepared.None? {
        hide Inv, T.Apply;
        assert Inv(max, l);
        OutsideKeeps(max, l, T.Spawn(PendingIDs(l.gate.pending), e.maxCommands), Some(|l.sys.transfers|));
      }
    } else {
      TurnKeeps(max, c, l, e);
    }
  }

  /** The loop went on to `pc`, perhaps dropping what it held, and changed nothing else but the gate. */
  predicate Turned(l: Loop, l': Loop) {
    && l' == l.(pc := l'.pc, gate := l'.gate, prepared := l'.prepared, outstanding := l'.outstanding)
    && (l'.prepared == l.prepared || l'.prepared.None?)
    && (l'.pc.Select? || l'.pc.Ended? || l'.pc.Handling? || l'.pc.LimboWrite?)
    && (l'.pc.LimboWrite? ==> l.sys.session.state.LimboPlay?)
  }

  lemma TurnedKeeps(max: nat, l: Loop, l': Loop)
    requires Inv(max, l) && l.pc.Select? && Turned(l, l')
    ensures Inv(max, l')
  {
    if Holding(l) {
      HoldingMeansBarrier(l);
    }
    NotReleased(max, l);
    hide T.Inv, AllAcceptable, ConfigurationFrames, Phase, T.Apply, Delivered, Inv;
    Rebuild(max, l, l');
  }

  /** A delivered Prepared becomes the held one. */
  lemma PreparedKeeps(max: nat, c: LimboGate.Config, l: Loop)
    requires Inv(max, l) && l.pc.Select?
    ensures Inv(max, OnPrepared(c, l))
  {
    var l' := OnPrepared(c, l);
    NotReleased(max, l);
    if l'.pc.Beginning? {
      hide T.Inv, AllAcceptable, Delivered, Inv, LimboGate.Step;
      Rebuild(max, l, l');
    } else {
      TurnedKeeps(max, l, l');
    }
  }

  /** The other cases change only the loop's own variables. */
  lemma TurnKeeps(max: nat, c: LimboGate.Config, l: Loop, e: Event)
    requires Inv(max, l) && l.pc.Select? && !e.Admit?
    ensures Inv(max, OnSelect(c, l, e))
  {
    hide Inv, LimboGate.Step, Play.ActionBarPayload, Play.KeepAlivePayload, Play.PacketId, Play.ParseKeepAlive,
        Play.DecodeMovement, T.Apply;
    assert Inv(max, l);
    if e.PrepareReturned? {
      PreparedKeeps(max, c, l);
    } else {
      TurnedKeeps(max, l, OnSelect(c, l, e));
    }
  }

  /** With a released transfer the loop is past all this. */
  lemma NotReleased(max: nat, l: Loop)
    requires Inv(max, l) && !l.pc.Replaying? && !l.pc.Playing? && !l.pc.Ended?
    ensures l.released.None? && l.backendLog == [] && l.bridge == Bridge.START
  {
    hide Sound, OnTrack;
  }

  /** Then the invariant is about the system and the track only. */
  lemma Rebuild(max: nat, l: Loop, l': Loop)
    requires l.released.None? && l.backendLog == [] && l.bridge == Bridge.START
    requires l'.released == l.released && l'.backendLog == l.backendLog && l'.bridge == l.bridge
    requires !l'.pc.Replaying? && !l'.pc.Playing?
    requires Sound(l') && (Holding(l') ==> OnTrack(l'))
    ensures Inv(max, l')
  {
    hide Sound, OnTrack;
  }

  // ---- What single steps do ----

  lemma StartEffect(sys: T.System, i: nat, configuring: bool)
    requires T.HasPrepared(sys, i)
    ensures var step := if configuring then T.Configure(i) else T.Begin(i);
            var frames := if configuring then sys.transfers[i].packets + [FINISH_FRAME] else [START_FRAME];
            var phase := if configuring then CLIENT_CONFIGURATION else AWAITING_CLIENT_START;
            || T.Apply(sys, step) == sys
            || (T.Apply(sys, step) == sys.(writers := sys.writers + [T.Writer(i, configuring, frames, false)])
                 && Phase(sys.session) == Ok(phase))
  {
  }

  lemma WriteEffect(sys: T.System, w: nat)
    requires w < |sys.writers| && !sys.writers[w].returned && sys.writers[w].todo != []
    ensures var writer := sys.writers[w];
            T.Apply(sys, T.WriteFrame(w)) ==
              sys.(clientLog := sys.clientLog + [writer.todo[0]],
                  writers := sys.writers[w := writer.(todo := writer.todo[1..])])
  {
  }

  lemma ResumeEffect(sys: T.System, w: nat)
    requires w < |sys.writers| && !sys.writers[w].returned && sys.writers[w].todo == []
        && T.HasPrepared(sys, sys.writers[w].transfer)
    ensures var writer := sys.writers[w];
            var s := if writer.configuring then T.ConfiguredStep(sys.session, sys.transfers[writer.transfer]).0
                else sys.session;
            T.Apply(sys, T.Resume(w)) == sys.(session := s, writers := sys.writers[w := writer.(returned := true)])
  {
  }

  lemma OtherWriteEffect(sys: T.System, frame: bytes)
    ensures T.Apply(sys, T.OtherWrite(frame)) == sys.(clientLog := sys.clientLog + [frame])
  {
  }

  // ---- BeginClientConfiguration ----

  lemma BeginningKeeps(max: nat, l: Loop, ok: bool)
    requires Inv(max, l) && l.pc.Beginning? && l.prepared.Some?
    ensures Inv(max, OnBegin(l, ok))
  {
    var i := l.prepared.value;
    NotReleased(max, l);
    StaysSound(l.sys, T.Begin(i), i);
    StartEffect(l.sys, i, false);
    hide Delivered, T.Inv, AllAcceptable, ConfigurationFrames, Inv, T.Apply, Phase;
    Rebuild(max, l, OnBegin(l, ok));
  }

  lemma BeginWriteKeeps(max: nat, l: Loop)
    requires Inv(max, l) && l.pc.BeginWriting? && l.prepared.Some? && l.pc.w < |l.sys.writers|
        && l.sys.writers[l.pc.w].todo != []
    ensures Inv(max, OnBegin(l, true))
  {
    var i, w := l.prepared.value, l.pc.w;
    NotReleased(max, l);
    StaysSound(l.sys, T.WriteFrame(w), i);
    if Holding(l) {
      WriteEffect(l.sys, w);
    } else {
      WriteKeepsEnds(l.sys, w, i);
    }
    hide Delivered, T.Inv, AllAcceptable, ConfigurationFrames, Inv, T.Apply, Phase;
    Rebuild(max, l, OnBegin(l, true));
  }

  lemma WriteKeepsEnds(sys: T.System, w: nat, i: nat)
    ensures T.Apply(sys, T.WriteFrame(w)).transfers == sys.transfers
        && T.Apply(sys, T.WriteFails(w)).transfers == sys.transfers
    ensures T.Apply(sys, T.Resume(w)).transfers == sys.transfers
  {
  }

  lemma BeginFailsKeeps(max: nat, l: Loop)
    requires Inv(max, l) && l.pc.BeginWriting? && l.prepared.Some? && l.pc.w < |l.sys.writers|
        && l.sys.writers[l.pc.w].todo != []
    ensures Inv(max, OnBegin(l, false))
  {
    NotReleased(max, l);
    StaysSound(l.sys, T.WriteFails(l.pc.w), l.prepared.value);
    hide Delivered, T.Inv, AllAcceptable, Inv, T.Apply;
    Rebuild(max, l, OnBegin(l, false));
  }

  lemma BeginResumeKeeps(max: nat, l: Loop, ok: bool)
    requires Inv(max, l) && l.pc.BeginWriting? && l.prepared.Some? && l.pc.w < |l.sys.writers|
        && l.sys.writers[l.pc.w].todo == []
    ensures Inv(max, OnBegin(l, ok))
  {
    var i, w := l.prepared.value, l.pc.w;
    NotReleased(max, l);
    StaysSound(l.sys, T.Resume(w), i);
    if Holding(l) {
      ResumeEffect(l.sys, w);
    } else {
      WriteKeepsEnds(l.sys, w, i);
    }
    hide Delivered, T.Inv, AllAcceptable, ConfigurationFrames, Inv, T.Apply, Phase;
    Rebuild(max, l, OnBegin(l, ok));
  }

  lemma BeginWritingKeeps(max: nat, l: Loop, ok: bool)
    requires Inv(max, l) && l.pc.BeginWriting? && l.prepared.Some?
    ensures Inv(max, OnBegin(l, ok))
  {
    hide Inv, T.Apply;
    assert Inv(max, l);
    if l.pc.w < |l.sys.writers| {
      if l.sys.writers[l.pc.w].todo == [] {
        BeginResumeKeeps(max, l, ok);
      } else if ok {
        BeginWriteKeeps(max, l);
      } else {
        BeginFailsKeeps(max, l);
      }
    }
  }

  lemma UndoingKeeps(max: nat, l: Loop, ok: bool)
    requires Inv(max, l) && l.pc.Undoing? && l.prepared.Some?
    ensures Inv(max, OnBegin(l, ok))
  {
    NotReleased(max, l);
    StaysSound(l.sys, T.Rollback(l.prepared.value), 0);
    hide Delivered, T.Inv, AllAcceptable, OnTrack, Inv, T.Apply;
    Rebuild(max, l, OnBegin(l, ok));
  }

  lemma LimboWriteKeeps(max: nat, l: Loop, ok: bool, setup: bool)
    requires Inv(max, l) && l.pc.LimboWrite?
    ensures Inv(max, OnContinue(l, ok, setup))
  {
    NotReleased(max, l);
    StaysSound(l.sys, T.OtherWrite(l.pc.frame), if l.prepared.Some? then l.prepared.value else 0);
    OtherWriteEffect(l.sys, l.pc.frame);
    hide Delivered, T.Inv, AllAcceptable, OnTrack, Inv, T.Apply;
    Rebuild(max, l, OnContinue(l, ok, setup));
  }

  // ---- A frame in the barrier ----

  /** Points of the loop at which the client's reconfiguration is settled. */
  predicate SettledPc(pc: Pc) {
    pc.Select? || pc.Handling? || pc.AdvancingTo? || pc.Taking? || pc.Progressing? || pc.Releasing?
  }

  lemma TrackCarries(l: Loop, l': Loop)
    requires Holding(l) && l.start <= |l.sys.clientLog| && OnTrack(l) && SettledPc(l.pc)
    requires l' == l.(pc := l'.pc) && (SettledPc(l'.pc) || l'.pc.Ended?)
    ensures OnTrack(l')
  {
    hide Phase, ConfigurationFrames;
  }

  lemma HandlingKeeps(max: nat, l: Loop, setup: bool)
    requires Inv(max, l) && l.pc.Handling?
    ensures Inv(max, OnHandling(l, l.pc.id, l.pc.frame, setup))
  {
    NotReleased(max, l);
    var l' := OnHandling(l, l.pc.id, l.pc.frame, setup);
    hide Delivered, T.Inv, AllAcceptable, OnTrack, Inv, BarrierAction, ReplayFrames.AcceptableInput, Phase;
    if Holding(l) {
      TrackCarries(l, l');
    }
    Rebuild(max, l, l');
  }

  lemma ProgressingKeeps(max: nat, l: Loop)
    requires Inv(max, l) && l.pc.Progressing?
    ensures Inv(max, OnProgressing(l))
  {
    NotReleased(max, l);
    hide Delivered, T.Inv, AllAcceptable, ConfigurationFrames, Inv, T.Apply, BarrierAction,
        ReplayFrames.AcceptableInput, Phase;
    Rebuild(max, l, OnProgressing(l));
  }

  /** An acknowledgement that succeeds goes from one settled point to the next. */
  lemma AcknowledgeEffect(sys: T.System, phase: byte)
    ensures var sys' := T.Apply(sys, T.ClientAcknowledges(phase));
            && sys' == sys.(session := sys'.session)
            && (sys'.session == sys.session
                || (Phase(sys.session) == Ok(AWAITING_CLIENT_START) && Phase(sys'.session) == Ok(CLIENT_CONFIGURATION))
                || (Phase(sys.session) == Ok(AWAITING_CLIENT_FINISH) && Phase(sys'.session) == Ok(READY)))
  {
  }

  lemma AdvancingKeeps(max: nat, l: Loop)
    requires Inv(max, l) && l.pc.AdvancingTo?
    ensures Inv(max, OnAdvancing(l, l.pc.phase))
  {
    NotReleased(max, l);
    StaysSound(l.sys, T.ClientAcknowledges(l.pc.phase), if l.prepared.Some? then l.prepared.value else 0);
    AcknowledgeEffect(l.sys, l.pc.phase);
    hide Delivered, T.Inv, AllAcceptable, ConfigurationFrames, Inv, T.Apply, Phase, AdvanceStep;
    Rebuild(max, l, OnAdvancing(l, l.pc.phase));
  }

  lemma InputEffect(sys: T.System, input: Input)
    ensures var sys' := T.Apply(sys, T.BarrierInput(input));
            sys' == sys.(session := sys'.session, inputs := sys'.inputs) && Phase(sys'.session) == Phase(sys.session)
  {
    if Active(sys.session) {
      T.HandleKeepsPhase(sys.session.barrier.value, input);
      hide Handle;
    }
  }

  lemma TakingKeeps(max: nat, l: Loop)
    requires Inv(max, l) && l.pc.Taking?
    ensures Inv(max, OnTaking(l, l.pc.input))
  {
    NotReleased(max, l);
    StaysSound(l.sys, T.BarrierInput(l.pc.input), if l.prepared.Some? then l.prepared.value else 0);
    InputEffect(l.sys, l.pc.input);
    hide Delivered, T.Inv, AllAcceptable, ConfigurationFrames, Inv, T.Apply, Phase, InputStep;
    Rebuild(max, l, OnTaking(l, l.pc.input));
  }

  /** With nothing in between, the sections of the loop make up one call of HandleBarrierFrame. */
  lemma SectionsMakeFrame(l: Loop, setup: bool)
    requires l.pc.Handling?
    ensures var (s, ok) := FrameStep(l.sys.session, l.pc.id, l.pc.frame, setup);
            var first := OnHandling(l, l.pc.id, l.pc.frame, setup);
            var last := match first.pc
                        case AdvancingTo(p) => OnAdvancing(first, p)
                        case Taking(input) => OnTaking(first, input)
                        case _ => first;
            last.sys.session == s && last.pc == if ok then Progressing else Ended
  {
    hide InputAction, Handle, Play.IsConfigurationAcknowledged, BackendConfiguration.IsFinish;
  }

  // ---- WriteClientConfiguration ----

  lemma ConfiguringKeeps(max: nat, l: Loop, ok: bool)
    requires Inv(max, l) && l.pc.Configuring? && l.prepared.Some?
    ensures Inv(max, OnConfigure(l, ok))
  {
    var i := l.prepared.value;
    NotReleased(max, l);
    StaysSound(l.sys, T.Configure(i), i);
    StartEffect(l.sys, i, true);
    assert [START_FRAME] + (Held(l).packets + [FINISH_FRAME]) == ConfigurationFrames(Held(l));
    hide Delivered, T.Inv, AllAcceptable, ConfigurationFrames, Inv, T.Apply, Phase;
    Rebuild(max, l, OnConfigure(l, ok));
  }

  lemma LogRegroup(log: seq<bytes>, start: nat, todo: seq<bytes>)
    requires start <= |log| && todo != []
    ensures (log + [todo[0]])[start..] + todo[1..] == log[start..] + todo
  {
  }

  lemma ConfigureWriteKeeps(max: nat, l: Loop)
    requires Inv(max, l) && l.pc.ConfigureWriting? && l.prepared.Some? && l.pc.w < |l.sys.writers|
        && l.sys.writers[l.pc.w].todo != []
    ensures Inv(max, OnConfigure(l, true))
  {
    var i, w := l.prepared.value, l.pc.w;
    NotReleased(max, l);
    StaysSound(l.sys, T.WriteFrame(w), i);
    if Holding(l) {
      WriteEffect(l.sys, w);
    } else {
      WriteKeepsEnds(l.sys, w, i);
    }
    LogRegroup(l.sys.clientLog, l.start, l.sys.writers[w].todo);
    hide Delivered, T.Inv, AllAcceptable, ConfigurationFrames, Inv, T.Apply, Phase;
    Rebuild(max, l, OnConfigure(l, true));
  }

  lemma ConfigureFailsKeeps(max: nat, l: Loop)
    requires Inv(max, l) && l.pc.ConfigureWriting? && l.prepared.Some? && l.pc.w < |l.sys.writers|
        && l.sys.writers[l.pc.w].todo != []
    ensures Inv(max, OnConfigure(l, false))
  {
    NotReleased(max, l);
    StaysSound(l.sys, T.WriteFails(l.pc.w), l.prepared.value);
    hide Delivered, T.Inv, AllAcceptable, Inv, T.Apply;
    Rebuild(max, l, OnConfigure(l, false));
  }

  lemma ConfigureResumeKeeps(max: nat, l: Loop, ok: bool)
    requires Inv(max, l) && l.pc.ConfigureWriting? && l.prepared.Some? && l.pc.w < |l.sys.writers|
        && l.sys.writers[l.pc.w].todo == []
    ensures Inv(max, OnConfigure(l, ok))
  {
    var i, w := l.prepared.value, l.pc.w;
    NotReleased(max, l);
    StaysSound(l.sys, T.Resume(w), i);
    if Holding(l) {
      ResumeEffect(l.sys, w);
      assert l.sys.clientLog[l.start..] + [] == l.sys.clientLog[l.start..];
    } else {
      WriteKeepsEnds(l.sys, w, i);
    }
    hide Delivered, T.Inv, AllAcceptable, ConfigurationFrames, Inv, T.Apply;
    Rebuild(max, l, OnConfigure(l, ok));
  }

  lemma ConfigureWritingKeeps(max: nat, l: Loop, ok: bool)
    requires Inv(max, l) && l.pc.ConfigureWriting? && l.prepared.Some?
    ensures Inv(max, OnConfigure(l, ok))
  {
    hide Inv, T.Apply;
    assert Inv(max, l);
    if l.pc.w < |l.sys.writers| {
      if l.sys.writers[l.pc.w].todo == [] {
        ConfigureResumeKeeps(max, l, ok);
      } else if ok {
        ConfigureWriteKeeps(max, l);
      } else {
        ConfigureFailsKeeps(max, l);
      }
    }
  }

  // ---- Release, replay and bridge ----

  lemma EndKeeps(max: nat, l: Loop)
    requires Inv(max, l)
    ensures Inv(max, End(l))
  {
    hide T.Inv, AllAcceptable, HandleAll, NewBarrier, ReplayOf, Bridge.Inv, ReplayFrames.Frames, ConfigurationFrames,
        Settled;
  }

  lemma AllAccounted(sys: T.System, i: nat)
    requires T.Inv(sys) && i < |sys.transfers|
    ensures T.Accounted(sys.transfers[i])
  {
    hide T.Accounted, T.Live;
  }

  lemma ReleaseEffect(sys: T.System, i: nat)
    requires T.HasPrepared(sys, i) && T.Accounted(sys.transfers[i])
    ensures var sys' := T.Apply(sys, T.Release(i));
            var t, t' := sys.transfers[i], sys'.transfers[i];
            && sys' == sys.(session := sys'.session, transfers := sys'.transfers)
            && |sys'.transfers| == |sys.transfers| && t'.stage.Published?
            && if T.PreparedReleaseStep(sys.session, t).2.Ok?
               then Phase(sys.session) == Ok(READY) && !t.finalized
                   && t' == t.(finalized := true, doneCloses := t'.doneCloses, connected := false, handovers := 1)
               else t' == t
  {
  }

  lemma BridgeStarts(max: nat)
    ensures Bridge.Inv(max, Bridge.START)
  {
  }

  /** A successful Release starts the replay with everything before Finish delivered. */
  lemma HandsOver(max: nat, l: Loop, l': Loop)
    requires Inv(max, l) && l.pc.Releasing? && Holding(l) && Phase(l.sys.session) == Ok(READY)
    requires T.HasPrepared(l'.sys, l.prepared.value) && l'.prepared == l.prepared && Held(l').finalized
        && Held(l').handovers == 1
    requires l'.sys.clientLog == l.sys.clientLog && Held(l').packets == Held(l).packets
    requires Held(l').keepAliveIDs == Held(l).keepAliveIDs && Held(l').maxCommands == Held(l).maxCommands
    requires l'.released.Some? && l'.released.value.inputs == l.sys.inputs
    requires l'.released.value.replay == ReplayOf(HandleAll(NewBarrier(Held(l).keepAliveIDs, Held(l).maxCommands),
        l.sys.inputs))
    requires l'.pc == Replaying(ReplayFrames.Frames(l'.released.value.replay))
    requires l'.start == l.start && l'.backendLog == l.backendLog && l'.bridge == l.bridge
    ensures Delivered(max, l')
  {
    NotReleased(max, l);
    BridgeStarts(max);
    assert ConfigurationFrames(Held(l')) == ConfigurationFrames(Held(l));
    assert ConfigurationFrames(Held(l)) + [] == ConfigurationFrames(Held(l));
    hide T.Inv, AllAcceptable, HandleAll, NewBarrier, ReplayOf, Bridge.Inv, ReplayFrames.Frames, ConfigurationFrames;
  }

  lemma ReleasingKeeps(max: nat, l: Loop, ok: bool)
    requires Inv(max, l) && l.pc.Releasing?
    ensures Inv(max, OnRelease(l, ok))
  {
    NotReleased(max, l);
    if l.prepared.None? || !T.HasPrepared(l.sys, l.prepared.value) {
      EndKeeps(max, l);
    } else {
      var i := l.prepared.value;
      var l' := OnRelease(l, ok);
      StaysSound(l.sys, T.Release(i), i);
      AllAccounted(l.sys, i);
      ReleaseEffect(l.sys, i);
      T.ReleaseReplaysTheInputs(l.sys, i);
      hide T.Inv, AllAcceptable, HandleAll, NewBarrier, ReplayOf, ReplayFrames.Frames, T.Apply, T.PreparedReleaseStep,
          Delivered;
      if l'.pc.Replaying? {
        HandsOver(max, l, l');
      } else {
        Rebuild(max, l, l');
      }
    }
  }

  lemma ReplayingKeeps(max: nat, l: Loop, ok: bool)
    requires Inv(max, l) && l.pc.Replaying?
    ensures Inv(max, OnRelease(l, ok))
  {
    hide T.Inv, AllAcceptable, HandleAll, NewBarrier, ReplayOf, Bridge.Inv, ReplayFrames.Frames, ConfigurationFrames,
        Settled, T.Apply;
    if l.pc.todo != [] {
      assert l.backendLog + [l.pc.todo[0]] + l.pc.todo[1..] == l.backendLog + l.pc.todo;
    }
  }

  /** A bridge step forwards one frame to one side, or none. */
  lemma BridgeEffect(max: nat, b: Bridge.State, event: Bridge.Event)
    ensures var b' := Bridge.Step(max, b, event);
            && (|b'.toClient| > |b.toClient| ==>
                  b'.running && b'.toClient == b.toClient + [b'.toClient[|b'.toClient| - 1]]
                      && b'.toBackend == b.toBackend)
            && (|b'.toClient| <= |b.toClient| ==> b'.toClient == b.toClient)
            && (|b'.toBackend| > |b.toBackend| ==>
                  b'.running && b'.toBackend == b.toBackend + [b'.toBackend[|b'.toBackend| - 1]])
            && (|b'.toBackend| <= |b.toBackend| ==> b'.toBackend == b.toBackend)
  {
    hide Bridge.OnBackend, Bridge.OnClient;
  }

  lemma LogExtends(log: seq<bytes>, start: nat, front: seq<bytes>, forwarded: seq<bytes>, frame: bytes)
    requires start <= |log| && log[start..] == front + forwarded
    ensures (log + [frame])[start..] == front + (forwarded + [frame])
  {
  }

  lemma ToClientKeeps(max: nat, l: Loop, b: Bridge.State, frame: bytes)
    requires Inv(max, l) && l.pc.Playing? && Bridge.Inv(max, b) && b.running
    requires b.toClient == l.bridge.toClient + [frame] && b.toBackend == l.bridge.toBackend
    ensures Inv(max, Do(l, T.OtherWrite(frame)).(bridge := b))
  {
    StaysSound(l.sys, T.OtherWrite(frame), if l.prepared.Some? then l.prepared.value else 0);
    OtherWriteEffect(l.sys, frame);
    LogExtends(l.sys.clientLog, l.start, ConfigurationFrames(Held(l)), l.bridge.toClient, frame);
    hide T.Inv, AllAcceptable, HandleAll, NewBarrier, ReplayOf, ReplayFrames.Frames, ConfigurationFrames, Settled,
        T.Apply, Bridge.Inv;
  }

  lemma ToBackendKeeps(max: nat, l: Loop, l': Loop, frames: seq<bytes>)
    requires Inv(max, l) && l.pc.Playing? && Bridge.Inv(max, l'.bridge)
        && ((l'.pc.Playing? && l'.bridge.running) || l'.pc.Ended?)
    requires l' == l.(bridge := l'.bridge, backendLog := l'.backendLog, pc := l'.pc)
    requires l'.bridge.toClient == l.bridge.toClient
    requires l'.bridge.toBackend == l.bridge.toBackend + frames && l'.backendLog == l.backendLog + frames
    ensures Inv(max, l')
  {
    hide T.Inv, AllAcceptable, HandleAll, NewBarrier, ReplayOf, ReplayFrames.Frames, ConfigurationFrames, Settled,
        T.Apply, Bridge.Inv;
  }

  lemma BridgedKeeps(max: nat, l: Loop, event: Bridge.Event)
    requires Inv(max, l) && l.pc.Playing?
    ensures Inv(max, OnBridge(max, l, event))
  {
    var b, l' := Bridge.Step(max, l.bridge, event), OnBridge(max, l, event);
    BridgeHolds(max, l);
    Bridge.StepKeeps(max, l.bridge, event);
    BridgeEffect(max, l.bridge, event);
    hide Inv, Bridge.Inv, Bridge.Step, T.Apply;
    if |b.toClient| > |l.bridge.toClient| {
      ToClientKeeps(max, l, b, b.toClient[|b.toClient| - 1]);
    } else {
      ToBackendKeeps(max, l, l', b.toBackend[|l.bridge.toBackend|..]);
    }
  }

  lemma BridgeHolds(max: nat, l: Loop)
    requires Inv(max, l) && l.pc.Playing?
    ensures Bridge.Inv(max, l.bridge)
  {
    hide Sound, OnTrack, Bridge.Inv;
  }

  // ---- Every run ----

  lemma ContinueKeeps(max: nat, l: Loop, ok: bool, setup: bool)
    requires Inv(max, l)
    ensures Inv(max, OnContinue(l, ok, setup))
  {
    EndKeeps(max, l);
    hide Inv, OnBegin, OnHandling, OnAdvancing, OnTaking, OnProgressing, OnConfigure, OnRelease, T.Apply;
    assert Inv(max, l);
    match l.pc
    case LimboWrite(_) => LimboWriteKeeps(max, l, ok, setup);
    case Releasing => ReleasingKeeps(max, l, ok);
    case Replaying(_) => ReplayingKeeps(max, l, ok);
    case Handling(_, _) => HandlingKeeps(max, l, setup);
    case AdvancingTo(_) => AdvancingKeeps(max, l);
    case Taking(_) => TakingKeeps(max, l);
    case Progressing => ProgressingKeeps(max, l);
    case Configuring =>
      if l.prepared.Some? {
        ConfiguringKeeps(max, l, ok);
      }
    case ConfigureWriting(_) =>
      if l.prepared.Some? {
        ConfigureWritingKeeps(max, l, ok);
      }
    case Beginning =>
      if l.prepared.Some? {
        BeginningKeeps(max, l, ok);
      }
    case BeginWriting(_) =>
      if l.prepared.Some? {
        BeginWritingKeeps(max, l, ok);
      }
    case Undoing =>
      if l.prepared.Some? {
        UndoingKeeps(max, l, ok);
      }
    case _ =>
  }

  lemma NextKeeps(max: nat, c: LimboGate.Config, l: Loop, e: Event)
    requires Inv(max, l)
    ensures Inv(max, Next(c, max, l, e))
  {
    hide Inv, OnContinue, OnSelect, OnBridge, T.Apply;
    assert Inv(max, l);
    match e
    case Goroutine(i, ok, packets) => OutsideKeeps(max, l, T.Prepare(i, ok, packets), l.outstanding);
    case Abandon(i) =>
      if l.prepared != Some(i) {
        OutsideKeeps(max, l, T.Rollback(i), if l.outstanding == Some(i) then None else l.outstanding);
      }
    case Timer(i) => OutsideKeeps(max, l, T.TimerFires(i), l.outstanding);
    case Continue(ok, setup) => ContinueKeeps(max, l, ok, setup);
    case Bridged(event) =>
      if l.pc.Playing? {
        BridgedKeeps(max, l, event);
      }
    case Disconnect => EndKeeps(max, l);
    case _ =>
      if l.pc.Select? {
        SelectKeeps(max, c, l, e);
      }
  }

  lemma {:induction false} RunKeeps(max: nat, c: LimboGate.Config, l: Loop, events: seq<Event>)
    requires Inv(max, l)
    ensures Inv(max, RunLoop(c, max, l, events))
    decreases |events|
  {
    hide Inv, Next;
    if events == [] {
    } else {
      assert Inv(max, l);
      NextKeeps(max, c, l, events[0]);
      RunKeeps(max, c, Next(c, max, l, events[0]), events[1..]);
    }
  }

  lemma StartIsFine(max: nat)
    ensures Inv(max, START)
  {
    assert T.InvFor(LIMBO, None);
  }

  // ---- Main results ----

  /**
   In every run, once a transfer is released: the backend transport is the bridge's; the client has
   received, from Start Configuration on, exactly that frame, the backend's configuration packets, Finish
   and then what the bridge forwarded; the backend has received the replay of exactly the inputs the
   barrier took, in frames that decode to it, and then what the bridge forwarded. While it plays, that is
   every frame read so far, each way.
   */
  lemma ReleasedTraffic(c: LimboGate.Config, max: nat, events: seq<Event>)
    ensures var l := RunLoop(c, max, START, events);
            l.released.Some? ==>
              && l.prepared.Some? && T.HasPrepared(l.sys, l.prepared.value) && l.start <= |l.sys.clientLog|
              && var t, replay, inputs := Held(l), l.released.value.replay, l.released.value.inputs;
              && t.handovers == 1 && t.closes == 0 && t.doneCloses == 1
              && l.sys.clientLog[l.start..] == [START_FRAME] + t.packets + [FINISH_FRAME] + l.bridge.toClient
              && l.backendLog <= ReplayFrames.Frames(replay) + l.bridge.toBackend
              && l.bridge.toClient <= l.bridge.readBackend && l.bridge.toBackend <= l.bridge.readClient
              && ReplayFrames.DecodesTo(ReplayFrames.Frames(replay), replay)
              && Describes(replay, inputs, NewBarrier(t.keepAliveIDs, t.maxCommands).maxCommands)
              && (l.pc.Playing? ==>
                    && l.sys.clientLog[l.start..] == [START_FRAME] + t.packets + [FINISH_FRAME] + l.bridge.readBackend
                    && l.backendLog == ReplayFrames.Frames(replay) + l.bridge.readClient)
  {
    StartIsFine(max);
    RunKeeps(max, c, START, events);
    var l := RunLoop(c, max, START, events);
    hide RunLoop, T.Inv, AllAcceptable, Describes, ReplayFrames.DecodesTo, ReplayFrames.Frames, HandleAll, ReplayOf,
        Bridge.LedgerAt;
    if l.released.Some? {
      ReplayAcceptable(l.released.value.inputs, Held(l));
      AllAccounted(l.sys, l.prepared.value);
      assert Bridge.Inv(max, l.bridge);
    }
  }

  lemma ReplayAcceptable(inputs: seq<Input>, t: T.Transfer)
    requires AllAcceptable(inputs)
    ensures var start := NewBarrier(t.keepAliveIDs, t.maxCommands);
            var replay := ReplayOf(HandleAll(start, inputs));
            ReplayFrames.DecodesTo(ReplayFrames.Frames(replay), replay) && Describes(replay, inputs, start.maxCommands)
  {
    hide ReplayFrames.AcceptableInput;
    ReplayFrames.ReplayRoundTrip(t.keepAliveIDs, t.maxCommands, inputs);
  }

  /** The held transfer's Start Configuration has been written, and the loop goes on with it. */
  predicate Reconfiguring(l: Loop) {
    match l.pc
    case Beginning => false
    case BeginWriting(w) => w < |l.sys.writers| && l.sys.writers[w].todo == []
    case Undoing => false
    case Ended => false
    case _ => true
  }

  /**
   In every run, while the client is reconfigured nothing else reaches it: no Limbo keepalive, no queue
   position, no frame of another transfer.
   */
  lemma NothingInBetween(c: LimboGate.Config, max: nat, events: seq<Event>)
    ensures var l := RunLoop(c, max, START, events);
            Holding(l) && Reconfiguring(l) ==>
              l.start <= |l.sys.clientLog| && l.sys.clientLog[l.start..] <= ConfigurationFrames(Held(l))
  {
    StartIsFine(max);
    RunKeeps(max, c, START, events);
    hide RunLoop, T.Inv, AllAcceptable, Delivered, Phase;
  }

  // ---- The gate inside the loop ----

  lemma GateKeeps(c: LimboGate.Config, max: nat, l: Loop, e: Event)
    requires LimboGate.Inv(c, l.gate)
    ensures LimboGate.Inv(c, Next(c, max, l, e).gate)
  {
    ContinueLeavesGate(l, if e.Continue? then e.ok else false, if e.Continue? then e.setup else false);
    hide LimboGate.Inv, LimboGate.Step, T.Apply, OnContinue, Bridge.Step, Play.PacketId, Play.ParseKeepAlive,
        Play.DecodeMovement, Play.ActionBarPayload;
    forall g ensures LimboGate.Inv(c, LimboGate.Step(c, l.gate, g)) {
      LimboGate.StepKeeps(c, l.gate, g);
    }
  }

  lemma ContinueLeavesGate(l: Loop, ok: bool, setup: bool)
    ensures OnContinue(l, ok, setup).gate == l.gate
  {
    hide T.Apply, BarrierAction, Phase, T.CheckPhase, T.ConfiguredStep, T.PreparedReleaseStep;
  }

  lemma {:induction false} RunGate(c: LimboGate.Config, max: nat, l: Loop, events: seq<Event>)
    requires LimboGate.Inv(c, l.gate)
    ensures LimboGate.Inv(c, RunLoop(c, max, l, events).gate)
    decreases |events|
  {
    hide LimboGate.Inv, Next;
    if events == [] {
    } else {
      GateKeeps(c, max, l, events[0]);
      RunGate(c, max, Next(c, max, l, events[0]), events[1..]);
    }
  }

  /**
   In every run of the whole loop, transfers and all, admission is asked for at most once, and only when it
   is earned: the challenge passed, and enough distinct keepalives of the server answered, in order. The
   pending keepalive is none or the latest, and so are the IDs handed to a transfer.
   */
  lemma AdmissionIsEarned(c: LimboGate.Config, max: nat, events: seq<Event>)
    ensures var g := RunLoop(c, max, START, events).gate;
            && g.enqueues <= 1
            && (g.enqueues == 1 ==> (!c.hook || g.verified) && |g.answered| >= g.required >= 1)
            && LimboGate.Issued(g.answered, g.keepAliveID)
            && (g.pending == 0 || g.pending == g.keepAliveID)
            && |g.answered| == g.valid <= g.keepAliveID
            && PendingIDs(g.pending) in {[], [ToInt64(g.keepAliveID % 0x1_0000_0000_0000_0000)]}
  {
    assert LimboGate.Inv(c, LimboGate.START);
    RunGate(c, max, START, events);
    hide RunLoop, LimboGate.Issued;
    GateMeans(c, RunLoop(c, max, START, events).gate);
  }

  lemma GateMeans(c: LimboGate.Config, g: LimboGate.Gate)
    requires LimboGate.Inv(c, g)
    ensures LimboGate.Issued(g.answered, g.keepAliveID) && g.valid <= g.keepAliveID
  {
    hide LimboGate.Issued;
    LimboGate.IssuedLater(g.answered, if g.pending == 0 then g.keepAliveID else g.keepAliveID - 1, g.keepAliveID);
    LimboGate.IssuedCount(g.answered, g.keepAliveID);
  }
}
