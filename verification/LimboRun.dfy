/**
 The results of LimboLoop are about runs in which a transfer is released. This module gives one, for every list of
 configuration packets a backend may send and all input a client may give meanwhile: an admission that goes all the
 way to play.
 */
module LimboRun {
  import opened Bytes
  import opened Session
  import opened LimboLoop
  import T = Transfer
  import Play
  import VarInt
  import BackendConfiguration
  import LimboGate
  import ReplayFrames

  ghost predicate Reached(c: LimboGate.Config, max: nat, l: Loop) {
    exists events :: RunLoop(c, max, LimboLoop.START, events) == l
  }

  lemma Onward(c: LimboGate.Config, max: nat, l: Loop, e: Event, l': Loop)
    requires Reached(c, max, l) && Next(c, max, l, e) == l'
    ensures Reached(c, max, l')
  {
    hide RunLoop, Next;
    var events :| RunLoop(c, max, LimboLoop.START, events) == l;
    RunPush(c, max, LimboLoop.START, events, e);
  }

  /** The command limit of the transfer, what the backend sends, and the client's input so far. */
  datatype Scene = Scene(commands: int, packets: seq<bytes>, inputs: seq<Input>)

  function Barrier(sc: Scene): (b: Session.Barrier) { HandleAll(NewBarrier([1], sc.commands), sc.inputs) }

  function Barred(sc: Scene, phase: byte): (s: View) { View(TransferBarrier, Some(Barrier(sc).(phase := phase))) }

  function At(commands: int, stage: T.Stage, connected: bool, packets: seq<bytes>): (t: T.Transfer) {
    T.NewTransfer([1], commands).(stage := stage, connected := connected, packets := packets,
      opens := if connected then 1 else 0)
  }

  function Entered(commands: int, phase: byte): (s: View) {
    View(TransferBarrier, Some(NewBarrier([1], commands).(phase := phase)))
  }

  /** The loop while its first transfer is prepared, and then while the client is reconfigured. */
  function Preparing(t: T.Transfer, phase: byte): (l: Loop) {
    LimboLoop.START.(sys := T.System(Entered(t.maxCommands, phase), [t], [], [], 3, []), outstanding := Some(0))
  }

  function Holds(sc: Scene, pc: Pc, phase: byte, sent: bool, writers: seq<T.Writer>, log: seq<bytes>): (l: Loop) {
    LimboLoop.START.(
      sys := T.System(Barred(sc, phase), [At(sc.commands, T.Published, true, sc.packets)], writers, log, 3, sc.inputs),
      pc := pc, prepared := Some(0), sent := sent)
  }

  // ---- Prepare ----

  lemma PrepareTo(c: LimboGate.Config, max: nat, packets: seq<bytes>, t: T.Transfer, phase: byte, t': T.Transfer,
        phase': byte)
    requires Reached(c, max, Preparing(t, phase)) && !t.stage.Starting? && t'.maxCommands == t.maxCommands
    requires T.PrepareStep(Entered(t.maxCommands, phase), t, true, packets) == (Entered(t.maxCommands, phase'), t')
    ensures Reached(c, max, Preparing(t', phase'))
  {
    hide T.PrepareStep, Entered, OnSelect, OnContinue, OnBridge, Reached;
    Onward(c, max, Preparing(t, phase), Goroutine(0, true, packets), Preparing(t', phase'));
  }

  lemma ReachesDraining(c: LimboGate.Config, max: nat, n: int)
    ensures Reached(c, max, Preparing(At(n, T.Draining, false, []), DRAINING))
  {
    var l := LimboLoop.START.(sys := LIMBO.(transfers := [At(n, T.Starting, false, [])]), outstanding := Some(0));
    assert RunLoop(c, max, LimboLoop.START, []) == LimboLoop.START;
    assert PendingIDs(1) == [1];
    hide RunLoop, Reached, OnContinue, OnBridge;
    assert Next(c, max, LimboLoop.START, Admit(n)) == l;
    Onward(c, max, LimboLoop.START, Admit(n), l);
    Onward(c, max, l, Goroutine(0, true, []), Preparing(At(n, T.Draining, false, []), DRAINING));
  }

  lemma ReachesConfigured(c: LimboGate.Config, max: nat, n: int, packets: seq<bytes>)
    ensures Reached(c, max, Preparing(At(n, T.Configured, true, packets), BACKEND_CONFIGURATION))
  {
    hide Reached;
    ReachesDraining(c, max, n);
    PrepareTo(c, max, packets, At(n, T.Draining, false, []), DRAINING, At(n, T.Dialing, false, []), BACKEND_LOGIN);
    PrepareTo(c, max, packets, At(n, T.Dialing, false, []), BACKEND_LOGIN, At(n, T.LoggingIn, true, []), BACKEND_LOGIN);
    PrepareTo(c, max, packets, At(n, T.LoggingIn, true, []), BACKEND_LOGIN, At(n, T.LoggedIn, true, []), BACKEND_LOGIN);
    PrepareTo(c, max, packets, At(n, T.LoggedIn, true, []), BACKEND_LOGIN,
              At(n, T.Configuring, true, []), BACKEND_CONFIGURATION);
    PrepareTo(c, max, packets, At(n, T.Configuring, true, []), BACKEND_CONFIGURATION,
              At(n, T.Configured, true, packets), BACKEND_CONFIGURATION);
  }

  lemma ReachesBeginning(c: LimboGate.Config, max: nat, sc: Scene)
    requires sc.inputs == []
    ensures Reached(c, max, Holds(sc, Beginning, AWAITING_CLIENT_START, false, [], []))
  {
    hide Reached;
    ReachesConfigured(c, max, sc.commands, sc.packets);
    var published := At(sc.commands, T.Published, true, sc.packets);
    PrepareTo(c, max, sc.packets, At(sc.commands, T.Configured, true, sc.packets), BACKEND_CONFIGURATION,
              published, AWAITING_CLIENT_START);
    hide OnContinue, OnBridge, T.Apply;
    Onward(c, max, Preparing(published, AWAITING_CLIENT_START), PrepareReturned,
           Holds(sc, Beginning, AWAITING_CLIENT_START, false, [], []));
  }

  // ---- The client's reconfiguration ----

  lemma Continues(c: LimboGate.Config, max: nat, l: Loop, l': Loop)
    requires Reached(c, max, l) && OnContinue(l, true, true) == l'
    ensures Reached(c, max, l')
  {
    hide Reached, OnContinue, OnSelect, OnBridge;
    Onward(c, max, l, Continue(true, true), l');
  }

  lemma ReachesStarted(c: LimboGate.Config, max: nat, sc: Scene)
    requires sc.inputs == []
    ensures Reached(c, max, Holds(sc, Select, AWAITING_CLIENT_START, false, [T.Writer(0, false, [], true)],
        [START_FRAME]))
  {
    hide Reached;
    ReachesBeginning(c, max, sc);
    var writer := T.Writer(0, false, [START_FRAME], false);
    var l1 := Holds(sc, Beginning, AWAITING_CLIENT_START, false, [], []);
    var l2 := Holds(sc, BeginWriting(0), AWAITING_CLIENT_START, false, [writer], []);
    var l3 := Holds(sc, BeginWriting(0), AWAITING_CLIENT_START, false, [writer.(todo := [])], [START_FRAME]);
    assert [START_FRAME][1..] == [] && [writer][0 := writer.(todo := [])] == [writer.(todo := [])];
    Continues(c, max, l1, l2);
    assert OnBegin(l2, true).sys == l3.sys;
    Continues(c, max, l2, l3);
    Continues(c, max, l3, Holds(sc, Select, AWAITING_CLIENT_START, false, [writer.(todo := [], returned := true)],
        [START_FRAME]));
  }

  predicate Acknowledgement(phase: byte, id: int32) {
    || (phase == AWAITING_CLIENT_START && id == Play.SERVERBOUND_CONFIGURATION_ACKNOWLEDGED)
    || (phase == AWAITING_CLIENT_FINISH && id == BackendConfiguration.FINISH)
  }

  lemma AcknowledgementActs(phase: byte, id: int32)
    requires Acknowledgement(phase, id)
    ensures Play.PacketId(VarInt.Encode(id)) == Some((id, []))
    ensures BarrierAction(phase, id, VarInt.Encode(id), true) == Advance(phase + 1)
  {
    Play.PacketIdOf(id, []);
    assert VarInt.Encode(id) + [] == VarInt.Encode(id);
  }

  /** An acknowledgement at the select moves the barrier one phase on. */
  lemma Acknowledges(c: LimboGate.Config, max: nat, sc: Scene, l: Loop, phase: byte, id: int32)
    requires Acknowledgement(phase, id) && l.pc.Select? && l.sys.session == Barred(sc, phase)
    requires Reached(c, max, l)
    ensures Reached(c, max, l.(pc := Progressing, sys := l.sys.(session := Barred(sc, phase + 1))))
  {
    hide Reached;
    var frame := VarInt.Encode(id);
    AcknowledgementActs(phase, id);
    hide Play.PacketId, VarInt.Encode, Play.DecodeMovement, LimboGate.Step, BarrierAction, T.Apply, OnBegin,
        OnConfigure, OnRelease;
    var l1, l2 := l.(pc := Handling(id, frame)), l.(pc := AdvancingTo(phase + 1));
    Onward(c, max, l, ClientFrame(frame, None, true), l1);
    Continues(c, max, l1, l2);
    AdvancesTo(c, max, sc, l2, phase);
  }

  lemma AdvancesTo(c: LimboGate.Config, max: nat, sc: Scene, l: Loop, phase: byte)
    requires phase in {AWAITING_CLIENT_START, AWAITING_CLIENT_FINISH} && l.pc == AdvancingTo(phase + 1)
        && l.sys.session == Barred(sc, phase)
    requires Reached(c, max, l)
    ensures Reached(c, max, l.(pc := Progressing, sys := l.sys.(session := Barred(sc, phase + 1))))
  {
    hide Reached;
    Continues(c, max, l, l.(pc := Progressing, sys := l.sys.(session := Barred(sc, phase + 1))));
  }

  // ---- The client's input ----

  /** A frame that carries an input. */
  function FrameOf(input: Input): (frame: bytes) {
    match input
    case KeepAlive(k) => VarInt.Encode(Play.SERVERBOUND_KEEP_ALIVE) + BigEndian(8, ToUint64(k))
    case Move(m) => if m.hasLook then Play.PositionLookPayload(m.position) else Play.PositionPayload(m.position)
    case Command(c) => Play.PlayerCommandPayload(c)
    case Unsafe => VarInt.Encode(UNKNOWN_PACKET)
  }

  const UNKNOWN_PACKET: int32 := 0x7f

  /** What decoded frames can be. */
  predicate Decodable(input: Input) {
    match input
    case Move(m) => Play.Finite(m.position) && (m.hasLook || m.position == Play.Lookless(m.position))
    case Command(c) => Play.AcceptableCommand(c)
    case _ => true
  }

  lemma FrameDecodes(input: Input)
    requires Decodable(input)
    ensures match input
            case KeepAlive(k) => Play.ParseKeepAlive(FrameOf(input)) == Some(k)
            case Move(m) => Play.DecodeMovement(FrameOf(input)) == Some(m)
            case Command(c) => Play.ParsePlayerCommand(FrameOf(input)) == Some(c)
            case Unsafe => Play.PacketId(FrameOf(input)) == Some((UNKNOWN_PACKET, []))
  {
    hide Play.ParseKeepAlive, Play.DecodeMovement, Play.ParsePlayerCommand, Play.PacketId, VarInt.Encode, BigEndian,
      Play.PositionLookPayload, Play.PositionPayload, Play.PlayerCommandPayload, Play.Finite;
    match input
    case KeepAlive(k) => Play.KeepAliveRoundTrip(k);
    case Move(m) =>
      Play.PositionLookRoundTrip(m.position);
      Play.PositionRoundTrip(m.position);
    case Command(c) => Play.PlayerCommandRoundTrip(c);
    case Unsafe =>
      Play.PacketIdOf(UNKNOWN_PACKET, []);
      assert VarInt.Encode(UNKNOWN_PACKET) + [] == VarInt.Encode(UNKNOWN_PACKET);
  }

  lemma FrameIsPacket(input: Input)
    requires Decodable(input)
    ensures Play.PacketId(FrameOf(input)).Some?
  {
    FrameDecodes(input);
    hide FrameOf, Play.PacketId;
  }

  lemma FrameIsTaken(input: Input, setup: bool)
    requires Decodable(input)
    ensures Play.PacketId(FrameOf(input)).Some?
    ensures var id := Play.PacketId(FrameOf(input)).value.0;
            BarrierAction(AWAITING_CLIENT_START, id, FrameOf(input), setup) == Take(input)
  {
    FrameIsPacket(input);
    FrameDecodes(input);
    FrameMeaning(AWAITING_CLIENT_START, FrameOf(input), setup);
    hide FrameOf, Play.ParseKeepAlive, Play.DecodeMovement, Play.ParsePlayerCommand, Play.PacketId, BarrierAction;
  }

  /** The inputs that a barrier with keepalive 1 pending takes without ending the connection. */
  ghost predicate Welcome(sc: Scene) {
    forall k | 0 <= k < |sc.inputs| ::
      && Decodable(sc.inputs[k])
      && (sc.inputs[k].KeepAlive? ==> sc.inputs[k].id == 1 && sc.inputs[k] !in sc.inputs[..k])
      && (sc.inputs[k].Command? ==> |Commands(sc.inputs[..k])| < sc.commands)
  }

  function Started(sc: Scene, pc: Pc): (l: Loop) {
    Holds(sc, pc, AWAITING_CLIENT_START, false, [T.Writer(0, false, [], true)], [START_FRAME])
  }

  lemma TakesEffect(sc: Scene, input: Input)
    requires Handle(Barrier(sc), input).2.None?
    ensures OnTaking(Started(sc, Taking(input)), input) == Started(sc.(inputs := sc.inputs + [input]), Progressing)
  {
    FoldStep(NewBarrier([1], sc.commands), sc.inputs, input);
    T.HandleIgnoresPhase(Barrier(sc), AWAITING_CLIENT_START, input);
    HandleErrorIgnoresPhase(Barrier(sc), AWAITING_CLIENT_START, input);
    hide Handle, HandleAll, NewBarrier;
  }

  lemma HandleErrorIgnoresPhase(b: Session.Barrier, phase: byte, input: Input)
    ensures Handle(b.(phase := phase), input).2 == Handle(b, input).2
  {
  }

  /** The frame reaches the barrier and is decoded there. */
  lemma FrameArrives(c: LimboGate.Config, max: nat, sc: Scene, input: Input)
    requires Reached(c, max, Started(sc, Select)) && Decodable(input)
    ensures Reached(c, max, Started(sc, Taking(input)))
  {
    hide Reached;
    var frame := FrameOf(input);
    FrameIsTaken(input, true);
    var id := Play.PacketId(frame).value.0;
    var l1, l2, l3 := Started(sc, Select), Started(sc, Handling(id, frame)), Started(sc, Taking(input));
    StartedBarrier(sc);
    assert l2 == l1.(pc := Handling(id, frame)) && l3 == l2.(pc := Taking(input));
    hide FrameOf, Play.PacketId, BarrierAction, Started, Decodable, OnContinue, Next;
    FrameIsHandled(c, max, l1, frame);
    Onward(c, max, l1, ClientFrame(frame, None, true), l2);
    HandlingGoesOn(l2, id, frame, input);
    Continues(c, max, l2, l3);
  }

  lemma FrameIsHandled(c: LimboGate.Config, max: nat, l: Loop, frame: bytes)
    requires l.pc.Select? && l.sys.session.state.TransferBarrier? && Play.PacketId(frame).Some?
    ensures Next(c, max, l, ClientFrame(frame, None, true)) == l.(pc := Handling(Play.PacketId(frame).value.0, frame))
  {
    hide Play.PacketId, OnContinue, OnBridge, T.Apply, LimboGate.Step;
  }

  lemma StartedBarrier(sc: Scene)
    ensures Started(sc, Select).sys.session.state.TransferBarrier? && Started(sc, Select).pc.Select?
    ensures Phase(Started(sc, Select).sys.session) == Ok(AWAITING_CLIENT_START)
  {
    hide Barrier;
  }

  lemma HandlingGoesOn(l: Loop, id: int32, frame: bytes, input: Input)
    requires l.pc == Handling(id, frame) && Phase(l.sys.session) == Ok(AWAITING_CLIENT_START)
    requires BarrierAction(AWAITING_CLIENT_START, id, frame, true) == Take(input)
    ensures OnContinue(l, true, true) == l.(pc := Taking(input))
  {
    hide BarrierAction, Phase;
  }

  lemma TakesInput(c: LimboGate.Config, max: nat, sc: Scene, input: Input)
    requires Reached(c, max, Started(sc, Select)) && Decodable(input) && Handle(Barrier(sc), input).2.None?
    ensures Reached(c, max, Started(sc.(inputs := sc.inputs + [input]), Select))
  {
    hide Reached;
    var sc' := sc.(inputs := sc.inputs + [input]);
    FrameArrives(c, max, sc, input);
    TakesEffect(sc, input);
    hide Handle, Barrier, Decodable, T.Apply, OnTaking;
    Continues(c, max, Started(sc, Taking(input)), Started(sc', Progressing));
    Continues(c, max, Started(sc', Progressing), Started(sc', Select));
  }

  lemma {:induction false} TakesInputs(c: LimboGate.Config, max: nat, sc: Scene)
    requires Welcome(sc)
    ensures Reached(c, max, Started(sc, Select))
    decreases |sc.inputs|
  {
    hide Reached, Started, Handle, HandleAll, Decodable;
    if sc.inputs == [] {
      ReachesStarted(c, max, sc);
      StartedIs(sc, Select);
    } else {
      var n := |sc.inputs| - 1;
      var before, input := sc.(inputs := sc.inputs[..n]), sc.inputs[n];
      assert forall k | 0 <= k < n :: sc.inputs[..n][k] == sc.inputs[k] && sc.inputs[..n][..k] == sc.inputs[..k];
      TakesInputs(c, max, before);
      BarrierAnswers([1], sc.commands, before.inputs, input);
      TakesInput(c, max, before, input);
      assert sc.inputs == sc.inputs[..n] + [input];
    }
  }

  lemma StartedIs(sc: Scene, pc: Pc)
    ensures Started(sc, pc) ==
            Holds(sc, pc, AWAITING_CLIENT_START, false, [T.Writer(0, false, [], true)], [START_FRAME])
  {
  }

  // ---- Configuration and release ----

  lemma ReachesConfiguring(c: LimboGate.Config, max: nat, sc: Scene)
    requires Welcome(sc)
    ensures Reached(c, max, Holds(sc, Configuring, CLIENT_CONFIGURATION, false, [T.Writer(0, false, [], true)],
        [START_FRAME]))
  {
    hide Reached, Welcome;
    TakesInputs(c, max, sc);
    var done := [T.Writer(0, false, [], true)];
    Acknowledges(c, max, sc, Holds(sc, Select, AWAITING_CLIENT_START, false, done, [START_FRAME]),
        AWAITING_CLIENT_START,
                 Play.SERVERBOUND_CONFIGURATION_ACKNOWLEDGED);
    Continues(c, max, Holds(sc, Progressing, CLIENT_CONFIGURATION, false, done, [START_FRAME]),
              Holds(sc, Configuring, CLIENT_CONFIGURATION, false, done, [START_FRAME]));
  }

  function Writing(sc: Scene, todo: seq<bytes>, log: seq<bytes>): (l: Loop) {
    Holds(sc, ConfigureWriting(1), CLIENT_CONFIGURATION, false,
        [T.Writer(0, false, [], true), T.Writer(0, true, todo, false)], log)
  }

  lemma ReachesWriting(c: LimboGate.Config, max: nat, sc: Scene)
    requires Welcome(sc)
    ensures Reached(c, max, Writing(sc, sc.packets + [FINISH_FRAME], [START_FRAME]))
  {
    hide Reached;
    ReachesConfiguring(c, max, sc);
    Continues(c, max, Holds(sc, Configuring, CLIENT_CONFIGURATION, false, [T.Writer(0, false, [], true)],
        [START_FRAME]),
              Writing(sc, sc.packets + [FINISH_FRAME], [START_FRAME]));
  }

  lemma WritesOne(sc: Scene, todo: seq<bytes>, log: seq<bytes>)
    requires todo != []
    ensures OnContinue(Writing(sc, todo, log), true, true) == Writing(sc, todo[1..], log + [todo[0]])
  {
    var l := Writing(sc, todo, log);
    WriteEffect(l.sys, 1);
    hide T.Apply;
    assert OnConfigure(l, true).sys.writers == Writing(sc, todo[1..], log).sys.writers;
  }

  lemma {:induction false} WritesAll(c: LimboGate.Config, max: nat, sc: Scene, todo: seq<bytes>,
        log: seq<bytes>)
    requires Reached(c, max, Writing(sc, todo, log))
    ensures Reached(c, max, Writing(sc, [], log + todo))
    decreases |todo|
  {
    hide Reached, OnContinue, Writing;
    if todo == [] {
      assert log + todo == log;
    } else {
      WritesOne(sc, todo, log);
      Continues(c, max, Writing(sc, todo, log), Writing(sc, todo[1..], log + [todo[0]]));
      WritesAll(c, max, sc, todo[1..], log + [todo[0]]);
      assert log + [todo[0]] + todo[1..] == log + todo;
    }
  }

  lemma ReachesConfiguredClient(c: LimboGate.Config, max: nat, sc: Scene)
    requires Welcome(sc)
    ensures var writers := [T.Writer(0, false, [], true), T.Writer(0, true, [], true)];
            Reached(c, max, Holds(sc, Select, AWAITING_CLIENT_FINISH, true, writers,
                [START_FRAME] + sc.packets + [FINISH_FRAME]))
  {
    hide Reached;
    ReachesWriting(c, max, sc);
    WritesAll(c, max, sc, sc.packets + [FINISH_FRAME], [START_FRAME]);
    var log := [START_FRAME] + sc.packets + [FINISH_FRAME];
    assert [START_FRAME] + (sc.packets + [FINISH_FRAME]) == log;
    var l := Writing(sc, [], log);
    var l' := Holds(sc, Select, AWAITING_CLIENT_FINISH, true,
        [T.Writer(0, false, [], true), T.Writer(0, true, [], true)], log);
    ResumeEffect(l.sys, 1);
    hide T.Apply;
    assert OnConfigure(l, true).sys.writers == l'.sys.writers;
    Continues(c, max, l, l');
  }

  lemma Releases(sc: Scene, l: Loop)
    requires l.pc.Releasing? && l.prepared == Some(0) && l.sys.session == Barred(sc, READY) && l.sys.inputs == sc.inputs
    requires |l.sys.transfers| == 1 && l.sys.transfers[0].stage.Published? && !l.sys.transfers[0].finalized
    ensures var l', replay := OnRelease(l, true), ReplayOf(Barrier(sc));
            && l'.pc == Replaying(ReplayFrames.Frames(replay)) && l'.released == Some(Handover(replay, sc.inputs))
            && l'.sys.clientLog == l.sys.clientLog && l'.backendLog == l.backendLog
  {
    hide HandleAll, NewBarrier, ReplayFrames.Frames;
  }

  /** The replay is written out, and the loop goes on to play. */
  lemma {:induction false} ReplaysAll(c: LimboGate.Config, max: nat, l: Loop, todo: seq<bytes>)
    requires Reached(c, max, l) && l.pc == Replaying(todo)
    ensures Reached(c, max, l.(pc := Playing, backendLog := l.backendLog + todo))
    decreases |todo|
  {
    hide Reached;
    if todo == [] {
      assert l.backendLog + [] == l.backendLog;
      Continues(c, max, l, l.(pc := Playing));
    } else {
      var l' := l.(pc := Replaying(todo[1..]), backendLog := l.backendLog + [todo[0]]);
      Continues(c, max, l, l');
      ReplaysAll(c, max, l', todo[1..]);
      assert l.backendLog + [todo[0]] + todo[1..] == l.backendLog + todo;
    }
  }

  lemma ReachesReleasing(c: LimboGate.Config, max: nat, sc: Scene, writers: seq<T.Writer>, log: seq<bytes>)
    requires Reached(c, max, Holds(sc, Select, AWAITING_CLIENT_FINISH, true, writers, log))
    ensures Reached(c, max, Holds(sc, Releasing, READY, true, writers, log))
  {
    hide Reached, Barrier;
    Acknowledges(c, max, sc, Holds(sc, Select, AWAITING_CLIENT_FINISH, true, writers, log), AWAITING_CLIENT_FINISH,
        BackendConfiguration.FINISH);
    Continues(c, max, Holds(sc, Progressing, READY, true, writers, log),
              Holds(sc, Releasing, READY, true, writers, log));
  }

  /**
   For every list of configuration packets and all input the barrier takes, a transfer of a fresh session can be
   released and reach play: the client has received exactly Start, the packets and Finish, and the backend exactly
   the replay of that input.
   */
  lemma TransferCanComplete(c: LimboGate.Config, max: nat, sc: Scene)
    requires Welcome(sc)
    ensures var replay := ReplayOf(Barrier(sc));
            exists l :: Reached(c, max, l) && l.pc.Playing? && l.released == Some(Handover(replay, sc.inputs))
                        && l.sys.clientLog == [START_FRAME] + sc.packets + [FINISH_FRAME]
                        && l.backendLog == ReplayFrames.Frames(replay)
  {
    var writers, log := [T.Writer(0, false, [], true), T.Writer(0, true, [], true)],
        [START_FRAME] + sc.packets + [FINISH_FRAME];
    var frames := ReplayFrames.Frames(ReplayOf(Barrier(sc)));
    ReachesConfiguredClient(c, max, sc);
    ReachesReleasing(c, max, sc, writers, log);
    var l := Holds(sc, Releasing, READY, true, writers, log);
    Releases(sc, l);
    hide Reached, Barrier, ReplayFrames.Frames, Welcome, OnRelease;
    Continues(c, max, l, OnRelease(l, true));
    ReplaysAll(c, max, OnRelease(l, true), frames);
    assert [] + frames == frames;
  }
}
