/** internal/transfer/replay.go: the packets that replay a barrier to the backend. */
module ReplayFrames {
  import opened Bytes
  import opened Play
  import opened Session

  function PositionFrames(position: Option<Position>): (frames: seq<bytes>) {
    if position.None? then [] else [PositionLookPayload(position.value)]
  }

  function CommandFrames(commands: seq<PlayerCommand>): (frames: seq<bytes>) {
    seq(|commands|, i requires 0 <= i < |commands| => PlayerCommandPayload(commands[i]))
  }

  /** What is sent for a replay. */
  function Frames(replay: Replay): (frames: seq<bytes>) {
    PositionFrames(replay.position) + CommandFrames(replay.commands)
  }

  method ReplayPayloads(replay: Replay) returns (payloads: seq<bytes>)
    ensures payloads == Frames(replay)
  {
    hide PositionLookPayload, PlayerCommandPayload;
    payloads := [];
    if replay.position.Some? {
      payloads := payloads + [PositionLookPayload(replay.position.value)];
    }
    for k := 0 to |replay.commands|
      invariant payloads == PositionFrames(replay.position) + CommandFrames(replay.commands[..k])
    {
      payloads := payloads + [PlayerCommandPayload(replay.commands[k])];
    }
    assert replay.commands[..|replay.commands|] == replay.commands;
  }

  /** The gateway's own decoders read the frames back as the replay they encode. */
  ghost predicate DecodesTo(frames: seq<bytes>, replay: Replay) {
    var first := if replay.position.Some? then 1 else 0;
    && |frames| == first + |replay.commands|
    && (replay.position.Some? ==> DecodeMovement(frames[0]) == Some(Movement(replay.position.value, true)))
    && forall i | 0 <= i < |replay.commands| :: ParsePlayerCommand(frames[first + i]) == Some(replay.commands[i])
  }

  ghost predicate AcceptableReplay(replay: Replay) {
    && (replay.position.Some? ==> Finite(replay.position.value))
    && forall i | 0 <= i < |replay.commands| :: AcceptableCommand(replay.commands[i])
  }

  lemma FrameCount(replay: Replay)
    ensures |Frames(replay)| == (if replay.position.Some? then 1 else 0) + |replay.commands|
  {
  }

  lemma PositionFrameDecodes(replay: Replay)
    requires replay.position.Some?
    ensures |Frames(replay)| > 0
    ensures DecodeMovement(Frames(replay)[0]) == Some(Movement(replay.position.value, true))
        <==> Finite(replay.position.value)
  {
    assert Frames(replay)[0] == PositionLookPayload(replay.position.value);
    PositionLookRoundTrip(replay.position.value);
  }

  lemma CommandFrameDecodes(replay: Replay, i: nat)
    requires i < |replay.commands|
    ensures var at := (if replay.position.Some? then 1 else 0) + i;
            && at < |Frames(replay)|
            && (ParsePlayerCommand(Frames(replay)[at]) == Some(replay.commands[i]) <==>
                  AcceptableCommand(replay.commands[i]))
  {
    var at := (if replay.position.Some? then 1 else 0) + i;
    assert Frames(replay)[at] == PlayerCommandPayload(replay.commands[i]) by {
      hide PositionLookPayload, PlayerCommandPayload;
    }
    PlayerCommandRoundTrip(replay.commands[i]);
  }

  /** Every frame is accepted, and decodes to what it stands for, exactly when the replay is acceptable. */
  lemma FramesDecode(replay: Replay)
    ensures DecodesTo(Frames(replay), replay) <==> AcceptableReplay(replay)
  {
    hide DecodeMovement, ParsePlayerCommand, Frames, Finite, AcceptableCommand;
    FrameCount(replay);
    if replay.position.Some? {
      PositionFrameDecodes(replay);
    }
    var first := if replay.position.Some? then 1 else 0;
    forall i | 0 <= i < |replay.commands|
      ensures ParsePlayerCommand(Frames(replay)[first + i]) == Some(replay.commands[i])
          <==> AcceptableCommand(replay.commands[i])
    {
      CommandFrameDecodes(replay, i);
    }
  }

  /** The inputs the gateway takes from client frames: its decoders let only these through. */
  predicate AcceptableInput(input: Input) {
    match input
    case Move(m) => Finite(m.position)
    case Command(c) => AcceptableCommand(c)
    case _ => true
  }

  lemma {:induction false} AcceptableParts(inputs: seq<Input>)
    requires forall i | 0 <= i < |inputs| :: AcceptableInput(inputs[i])
    ensures forall i | 0 <= i < |Movements(inputs)| :: Finite(Movements(inputs)[i].position)
    ensures forall i | 0 <= i < |Commands(inputs)| :: AcceptableCommand(Commands(inputs)[i])
    decreases |inputs|
  {
    hide Finite, AcceptableCommand;
    if inputs == [] {
    } else {
      AcceptableParts(inputs[..|inputs| - 1]);
    }
  }

  /**
   For every sequence of barrier inputs that came through the decoders, the replay frames decode to
   the last movement's coordinates, the deciding movement's look, and the first maxCommands commands.
   */
  lemma ReplayRoundTrip(keepAliveIDs: seq<int64>, maxCommands: int, inputs: seq<Input>)
    requires forall i | 0 <= i < |inputs| :: AcceptableInput(inputs[i])
    ensures var start := NewBarrier(keepAliveIDs, maxCommands);
            var replay := ReplayOf(HandleAll(start, inputs));
            DecodesTo(Frames(replay), replay) && Describes(replay, inputs, start.maxCommands)
  {
    hide DecodesTo, HandleAll, Movements, Commands;
    var start := NewBarrier(keepAliveIDs, maxCommands);
    var replay := ReplayOf(HandleAll(start, inputs));
    ReplayDescribesInputs(keepAliveIDs, maxCommands, inputs);
    AcceptableParts(inputs);
    DescribedIsAcceptable(replay, inputs, start.maxCommands);
    FramesDecode(replay);
  }

  lemma DescribedIsAcceptable(replay: Replay, inputs: seq<Input>, maxCommands: nat)
    requires Describes(replay, inputs, maxCommands)
    requires forall i | 0 <= i < |Movements(inputs)| :: Finite(Movements(inputs)[i].position)
    requires forall i | 0 <= i < |Commands(inputs)| :: AcceptableCommand(Commands(inputs)[i])
    ensures AcceptableReplay(replay)
  {
    hide Movements, Commands, Finite64, Finite32, AcceptableCommand;
    if replay.position.Some? {
      var ms := Movements(inputs);
      assert Finite(ms[|ms| - 1].position);
      var k: nat :| LookSource(ms, k) && replay.position.value.yaw == ms[k].position.yaw
          && replay.position.value.pitch == ms[k].position.pitch;
      assert Finite(ms[k].position);
    }
  }
}
