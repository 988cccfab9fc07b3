/** internal/session: the connection state machine and the transfer barrier. */
module Session {
  import opened Bytes
  import opened Play

  // ---- state.go ----

  datatype State =
    | Handshake
    | Login
    | Configuration
    | LimboPlay
    | TransferBarrier
    | BackendLogin
    | BackendConfiguration
    | BackendPlay
    | Closing

  predicate CanTransition(from: State, to: State) {
    if to.Closing? then !from.Closing?
    else
      match from
      case Handshake => to.Login?
      case Login => to.Configuration?
      case Configuration => to.LimboPlay?
      case LimboPlay => to.TransferBarrier?
      case TransferBarrier => to.BackendLogin? || to.LimboPlay?
      case BackendLogin => to.BackendConfiguration? || to.LimboPlay?
      case BackendConfiguration => to.BackendPlay? || to.LimboPlay?
      case BackendPlay => to.TransferBarrier?
      case Closing => false
  }

  /** The order in which a connection goes through its states. */
  function Order(s: State): (n: nat) {
    match s
    case Handshake => 0
    case Login => 1
    case Configuration => 2
    case LimboPlay => 3
    case TransferBarrier => 4
    case BackendLogin => 5
    case BackendConfiguration => 6
    case BackendPlay => 7
    case Closing => 8
  }

  /**
   A connection goes on to the next state, back to Limbo from the states of a transfer, from play into a new
   transfer, and to Closing from everywhere but itself; nowhere else.
   */
  lemma TransitionGraph(from: State, to: State)
    ensures CanTransition(from, to) <==>
            || (Order(to) == Order(from) + 1)
            || (to.LimboPlay? && 4 <= Order(from) <= 6)
            || (from.BackendPlay? && to.TransferBarrier?)
            || (to.Closing? && !from.Closing?)
  {
  }

  // ---- barrier.go ----

  const DRAINING: byte := 0
  const BACKEND_LOGIN: byte := 1
  const BACKEND_CONFIGURATION: byte := 2
  const AWAITING_CLIENT_START: byte := 3
  const CLIENT_CONFIGURATION: byte := 4
  const AWAITING_CLIENT_FINISH: byte := 5
  const READY: byte := 6

  datatype Error = InvalidTransition | BarrierInactive | BarrierNotReady | UnexpectedKeepAlive | CommandQueueExhausted

  datatype Disposition = Consumed | Coalesced | Queued | Dropped

  datatype Input =
    | KeepAlive(id: int64)
    | Move(movement: Movement)
    | Command(command: PlayerCommand)
    | Unsafe

  datatype Replay = Replay(position: Option<Position>, commands: seq<PlayerCommand>)

  /** The barrier's fields; `latest` is None until the first movement. */
  datatype Barrier = Barrier(phase: byte, keepAlives: set<int64>, latest: Option<Position>,
        commands: seq<PlayerCommand>, maxCommands: nat)

  function NewBarrier(keepAliveIDs: seq<int64>, maxCommands: int): (b: Barrier) {
    Barrier(DRAINING, (set id | id in keepAliveIDs), None, [], if maxCommands < 0 then 0 else maxCommands)
  }

  function Merged(latest: Option<Position>, m: Movement): (p: Position) {
    if !m.hasLook && latest.Some? then m.position.(yaw := latest.value.yaw, pitch := latest.value.pitch) else m.position
  }

  function Handle(b: Barrier, input: Input): (r: (Barrier, Disposition, Option<Error>)) {
    match input
    case KeepAlive(id) =>
      if id in b.keepAlives then (b.(keepAlives := b.keepAlives - {id}), Consumed, None)
      else (b, Dropped, Some(UnexpectedKeepAlive))
    case Move(m) => (b.(latest := Some(Merged(b.latest, m))), Coalesced, None)
    case Command(c) =>
      if |b.commands| >= b.maxCommands then (b, Dropped, Some(CommandQueueExhausted))
      else (b.(commands := b.commands + [c]), Queued, None)
    case Unsafe => (b, Dropped, None)
  }

  function ReplayOf(b: Barrier): (r: Replay) {
    Replay(b.latest, b.commands)
  }

  /** The barrier after a list of inputs; its phase is nobody's input. */
  function HandleAll(b: Barrier, inputs: seq<Input>): (r: Barrier) {
    if inputs == [] then b else Handle(HandleAll(b, inputs[..|inputs| - 1]), inputs[|inputs| - 1]).0
  }

  // ---- What the replay says about the inputs ----

  function Movements(inputs: seq<Input>): (ms: seq<Movement>) {
    if inputs == [] then []
    else Movements(inputs[..|inputs| - 1]) + if inputs[|inputs| - 1].Move? then [inputs[|inputs| - 1].movement] else []
  }

  function Commands(inputs: seq<Input>): (cs: seq<PlayerCommand>) {
    if inputs == [] then []
    else Commands(inputs[..|inputs| - 1]) + if inputs[|inputs| - 1].Command? then [inputs[|inputs| - 1].command] else []
  }

  /** Movement k decides where the player looks: the last one with look, or the first if none has look. */
  ghost predicate LookSource(ms: seq<Movement>, k: nat) {
    && k < |ms|
    && (forall j | k < j < |ms| :: !ms[j].hasLook)
    && (ms[k].hasLook || k == 0)
  }

  /** The coalesced position of a non-empty list of movements. */
  ghost predicate Coalesces(ms: seq<Movement>, p: Position) {
    && ms != []
    && var last := ms[|ms| - 1].position;
    && p.x == last.x && p.y == last.y && p.z == last.z && p.onGround == last.onGround
    && exists k: nat :: LookSource(ms, k) && p.yaw == ms[k].position.yaw && p.pitch == ms[k].position.pitch
  }

  ghost predicate Describes(replay: Replay, inputs: seq<Input>, maxCommands: nat) {
    && (replay.position.None? <==> Movements(inputs) == [])
    && (replay.position.Some? ==> Coalesces(Movements(inputs), replay.position.value))
    && replay.commands == Commands(inputs)[..if |Commands(inputs)| < maxCommands then |Commands(inputs)|
         else maxCommands]
  }

  lemma LookSourceUnique(ms: seq<Movement>, j: nat, k: nat)
    requires LookSource(ms, j) && LookSource(ms, k)
    ensures j == k
  {
  }

  lemma MovementCoalesces(ms: seq<Movement>, latest: Option<Position>, m: Movement)
    requires latest.None? <==> ms == []
    requires latest.Some? ==> Coalesces(ms, latest.value)
    ensures Coalesces(ms + [m], Merged(latest, m))
  {
    var all := ms + [m];
    if m.hasLook || ms == [] {
      assert LookSource(all, |ms|);
    } else {
      var k: nat :| LookSource(ms, k) && latest.value.yaw == ms[k].position.yaw
          && latest.value.pitch == ms[k].position.pitch;
      assert all[k] == ms[k] && LookSource(all, k);
    }
  }

  lemma FoldStep(b: Barrier, inputs: seq<Input>, input: Input)
    ensures HandleAll(b, inputs + [input]) == Handle(HandleAll(b, inputs), input).0
    ensures Movements(inputs + [input]) == Movements(inputs) + if input.Move? then [input.movement] else []
    ensures Commands(inputs + [input]) == Commands(inputs) + if input.Command? then [input.command] else []
  {
    hide Handle;
    assert (inputs + [input])[..|inputs|] == inputs;
  }

  lemma DescribesStep(b: Barrier, inputs: seq<Input>, input: Input)
    requires Describes(ReplayOf(b), inputs, b.maxCommands)
    ensures Describes(ReplayOf(Handle(b, input).0), inputs + [input], b.maxCommands)
  {
    FoldStep(b, inputs, input);
    hide Coalesces, HandleAll, Movements, Commands;
    var ms, cs := Movements(inputs), Commands(inputs);
    assert ms + [] == ms && cs + [] == cs;
    match input
    case Move(m) => MovementCoalesces(ms, b.latest, m);
    case Command(c) =>
    case _ =>
  }

  /** For every input sequence, the replay is the last movement with the deciding look, then the first commands. */
  lemma {:induction false} ReplayDescribesInputs(keepAliveIDs: seq<int64>, maxCommands: int, inputs: seq<Input>)
    ensures var start := NewBarrier(keepAliveIDs, maxCommands);
            var b := HandleAll(start, inputs);
            b.maxCommands == start.maxCommands && Describes(ReplayOf(b), inputs, start.maxCommands)
    decreases |inputs|
  {
    var start := NewBarrier(keepAliveIDs, maxCommands);
    if inputs == [] {
    } else {
      var n := |inputs| - 1;
      var front := inputs[..n];
      hide Describes;
      ReplayDescribesInputs(keepAliveIDs, maxCommands, front);
      DescribesStep(HandleAll(start, front), front, inputs[n]);
      assert inputs == front + [inputs[n]];
    }
  }

  // ---- What the barrier answers ----

  lemma {:induction false} KeepAlivesAre(keepAliveIDs: seq<int64>, maxCommands: int, inputs: seq<Input>, k: int64)
    ensures k in HandleAll(NewBarrier(keepAliveIDs, maxCommands), inputs).keepAlives <==>
            k in keepAliveIDs && KeepAlive(k) !in inputs
    decreases |inputs|
  {
    var start := NewBarrier(keepAliveIDs, maxCommands);
    if inputs == [] {
    } else {
      var front, last := inputs[..|inputs| - 1], inputs[|inputs| - 1];
      KeepAlivesAre(keepAliveIDs, maxCommands, front, k);
      assert inputs == front + [last];
    }
  }

  /**
   After any inputs, a keepalive is consumed exactly if it was pending when the barrier began and has not been
   answered since, and is an error otherwise; a command is queued exactly while fewer than maxCommands came before
   it; movements and unsafe packets never fail.
   */
  lemma BarrierAnswers(keepAliveIDs: seq<int64>, maxCommands: int, inputs: seq<Input>, input: Input)
    ensures var (_, d, e) := Handle(HandleAll(NewBarrier(keepAliveIDs, maxCommands), inputs), input);
            match input
            case KeepAlive(k) =>
              (d, e) ==
              if k in keepAliveIDs && input !in inputs then (Consumed, None) else (Dropped, Some(UnexpectedKeepAlive))
            case Command(_) =>
              (d, e) ==
              if |Commands(inputs)| < maxCommands then (Queued, None) else (Dropped, Some(CommandQueueExhausted))
            case Move(_) => (d, e) == (Coalesced, None)
            case Unsafe => (d, e) == (Dropped, None)
  {
    ReplayDescribesInputs(keepAliveIDs, maxCommands, inputs);
    hide HandleAll, Coalesces, Movements, Commands;
    if input.KeepAlive? {
      KeepAlivesAre(keepAliveIDs, maxCommands, inputs, input.id);
    }
  }

  // ---- session.go, on values ----

  datatype View = View(state: State, barrier: Option<Barrier>)

  predicate Active(s: View) { s.state.TransferBarrier? && s.barrier.Some? }

  /** The property the public Transition does not keep by itself. */
  predicate Consistent(s: View) { s.state.TransferBarrier? <==> s.barrier.Some? }

  function TransitionStep(s: View, to: State): (r: (View, Option<Error>)) {
    if !CanTransition(s.state, to) then (s, Some(InvalidTransition))
    else (View(to, if to.Closing? then None else s.barrier), None)
  }

  function BeginStep(s: View, keepAliveIDs: seq<int64>, maxCommands: int): (r: (View, Option<Error>)) {
    if !CanTransition(s.state, TransferBarrier) then (s, Some(InvalidTransition))
    else (View(TransferBarrier, Some(NewBarrier(keepAliveIDs, maxCommands))), None)
  }

  function InputStep(s: View, input: Input): (r: (View, Disposition, Option<Error>)) {
    if !Active(s) then (s, Dropped, Some(BarrierInactive))
    else
      var (b, d, e) := Handle(s.barrier.value, input);
      (s.(barrier := Some(b)), d, e)
  }

  function Phase(s: View): (r: Result<byte, Error>) {
    if !Active(s) then Err(BarrierInactive) else Ok(s.barrier.value.phase)
  }

  function AdvanceStep(s: View, phase: byte): (r: (View, Option<Error>)) {
    if !Active(s) then (s, Some(BarrierInactive))
    else if phase != (s.barrier.value.phase + 1) % 0x100 then (s, Some(BarrierNotReady))
    else (s.(barrier := Some(s.barrier.value.(phase := phase))), None)
  }

  function ReleaseStep(s: View): (r: (View, Result<Replay, Error>)) {
    if !Active(s) then (s, Err(BarrierInactive))
    else if s.barrier.value.phase != READY then (s, Err(BarrierNotReady))
    else (View(BackendPlay, None), Ok(ReplayOf(s.barrier.value)))
  }

  function RollbackStep(s: View): (r: (View, Option<Error>)) {
    if !Active(s) then (s, Some(BarrierInactive)) else (View(LimboPlay, None), None)
  }

  /** Without an active barrier every barrier operation fails the same way and changes nothing. */
  lemma InactiveRefuses(s: View, input: Input, phase: byte)
    requires !Active(s)
    ensures InputStep(s, input) == (s, Dropped, Some(BarrierInactive)) && Phase(s) == Err(BarrierInactive)
    ensures AdvanceStep(s, phase) == (s, Some(BarrierInactive))
    ensures ReleaseStep(s) == (s, Err(BarrierInactive)) && RollbackStep(s) == (s, Some(BarrierInactive))
  {
  }

  /** An active barrier advances to the next phase and to no other, and its phase is all that changes. */
  lemma AdvanceMeans(s: View, phase: byte)
    requires Active(s) && s.barrier.value.phase < READY
    ensures AdvanceStep(s, phase).1 == if phase == s.barrier.value.phase + 1 then None else Some(BarrierNotReady)
    ensures AdvanceStep(s, phase).0 ==
            if phase == s.barrier.value.phase + 1 then s.(barrier := Some(s.barrier.value.(phase := phase))) else s
  {
  }

  /** Transition keeps the barrier consistent with the state exactly when it does not enter or leave
      TransferBarrier, except to Closing. */
  lemma TransitionKeepsConsistency(s: View, to: State)
    requires Consistent(s)
    ensures Consistent(TransitionStep(s, to).0) <==>
            !(CanTransition(s.state, to) && (to.TransferBarrier? || (s.state.TransferBarrier? && !to.Closing?)))
  {
  }

  /** For instance, a raw transition back to Limbo leaves a stale barrier behind. */
  lemma RawTransitionBreaksConsistency(b: Barrier)
    ensures var s := View(TransferBarrier, Some(b));
            Consistent(s) && TransitionStep(s, LimboPlay) == (View(LimboPlay, Some(b)), None)
            && !Consistent(TransitionStep(s, LimboPlay).0)
  {
  }

  // ---- barrier.go and session.go, as objects ----

  class BarrierState {
    var phase: byte
    var keepAlives: set<int64>
    var latestPosition: Position
    var hasPosition: bool
    var commands: seq<PlayerCommand>
    const maxCommands: nat

    function Value(): (b: Barrier)
      reads this
    {
      Barrier(phase, keepAlives, if hasPosition then Some(latestPosition) else None, commands, maxCommands)
    }

    constructor (keepAliveIDs: seq<int64>, maxCommands: int)
      ensures Value() == NewBarrier(keepAliveIDs, maxCommands)
    {
      this.maxCommands := if maxCommands < 0 then 0 else maxCommands;
      var ids := {};
      for k := 0 to |keepAliveIDs|
        invariant ids == (set id | id in keepAliveIDs[..k])
      {
        assert keepAliveIDs[..k + 1] == keepAliveIDs[..k] + [keepAliveIDs[k]];
        ids := ids + {keepAliveIDs[k]};
      }
      assert keepAliveIDs[..|keepAliveIDs|] == keepAliveIDs;
      phase, keepAlives, commands := DRAINING, ids, [];
      latestPosition, hasPosition := Position(0, 0, 0, 0, 0, false), false;
    }

    method HandleInput(input: Input) returns (d: Disposition, err: Option<Error>)
      modifies this
      ensures (Value(), d, err) == Handle(old(Value()), input)
    {
      match input
      case KeepAlive(id) =>
        if id !in keepAlives {
          return Dropped, Some(UnexpectedKeepAlive);
        }
        keepAlives := keepAlives - {id};
        return Consumed, None;
      case Move(m) =>
        var position := m.position;
        if !m.hasLook && hasPosition {
          position := position.(yaw := latestPosition.yaw, pitch := latestPosition.pitch);
        }
        latestPosition := position;
        hasPosition := true;
        return Coalesced, None;
      case Command(c) =>
        if |commands| >= maxCommands {
          return Dropped, Some(CommandQueueExhausted);
        }
        commands := commands + [c];
        return Queued, None;
      case Unsafe =>
        return Dropped, None;
    }
  }

  class SessionState {
    var state: State
    var barrier: BarrierState?

    function Value(): (s: View)
      reads this, barrier
    {
      View(state, if barrier == null then None else Some(barrier.Value()))
    }

    constructor ()
      ensures Value() == View(Handshake, None)
    {
      state, barrier := Handshake, null;
    }

    method Transition(to: State) returns (err: Option<Error>)
      modifies this
      ensures (Value(), err) == TransitionStep(old(Value()), to)
    {
      if !CanTransition(state, to) {
        return Some(InvalidTransition);
      }
      state := to;
      if to.Closing? {
        barrier := null;
      }
      return None;
    }

    method BeginTransfer(keepAliveIDs: seq<int64>, maxCommands: int) returns (err: Option<Error>)
      modifies this
      ensures (Value(), err) == BeginStep(old(Value()), keepAliveIDs, maxCommands)
      ensures err.None? ==> fresh(barrier)
    {
      err := Transition(TransferBarrier);
      if err.Some? {
        return;
      }
      barrier := new BarrierState(keepAliveIDs, maxCommands);
    }

    method HandleBarrierInput(input: Input) returns (d: Disposition, err: Option<Error>)
      modifies barrier
      ensures (Value(), d, err) == InputStep(old(Value()), input)
    {
      if !state.TransferBarrier? || barrier == null {
        return Dropped, Some(BarrierInactive);
      }
      d, err := barrier.HandleInput(input);
    }

    method BarrierPhase() returns (r: Result<byte, Error>)
      ensures r == Phase(Value())
    {
      if !state.TransferBarrier? || barrier == null {
        return Err(BarrierInactive);
      }
      return Ok(barrier.phase);
    }

    method AdvanceBarrier(phase: byte) returns (err: Option<Error>)
      modifies barrier
      ensures (Value(), err) == AdvanceStep(old(Value()), phase)
    {
      if !state.TransferBarrier? || barrier == null {
        return Some(BarrierInactive);
      }
      if phase != (barrier.phase + 1) % 0x100 {
        return Some(BarrierNotReady);
      }
      barrier.phase := phase;
      return None;
    }

    method ReleaseTransfer() returns (r: Result<Replay, Error>)
      modifies this
      ensures (Value(), r) == ReleaseStep(old(Value()))
    {
      if !state.TransferBarrier? || barrier == null {
        return Err(BarrierInactive);
      }
      if barrier.phase != READY {
        return Err(BarrierNotReady);
      }
      r := Ok(ReplayOf(barrier.Value()));
      state, barrier := BackendPlay, null;
    }

    method RollbackTransfer() returns (err: Option<Error>)
      modifies this
      ensures (Value(), err) == RollbackStep(old(Value()))
    {
      if !state.TransferBarrier? || barrier == null {
        return Some(BarrierInactive);
      }
      state, barrier := LimboPlay, null;
      return None;
    }
  }
}
