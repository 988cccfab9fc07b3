/**
 What the server's event loop does, event by event and over its runs: which client frames end a connection in Limbo,
 what its tickers send, what frees it for another transfer, and when the bridge goes on. The results of LimboLoop
 say what never happens; these say what does.
 */
module LimboAnswers {
  import opened Bytes
  import opened Session
  import opened LimboLoop
  import T = Transfer
  import Play
  import Bridge
  import LimboGate

  /** The gate event of a keepalive frame. */
  function AnswerOf(frame: bytes, asked: Option<int>, accepted: bool): (e: LimboGate.Event) {
    var k := Play.ParseKeepAlive(frame);
    LimboGate.Answer(if k.None? then None else Some(k.value as int), asked, accepted)
  }

  /** At the select, outside the barrier. */
  predicate InLimbo(l: Loop) { l.pc.Select? && l.sys.session.state.LimboPlay? && !l.gate.ended }

  // ---- Client frames in Limbo ----

  lemma KindsOfFrames(frame: bytes)
    ensures Play.ParseKeepAlive(frame).Some? ==>
              Play.PacketId(frame).Some? && Play.PacketId(frame).value.0 == Play.SERVERBOUND_KEEP_ALIVE
    ensures Play.DecodeMovement(frame).Some? ==>
              Play.PacketId(frame).Some?
              && Play.PacketId(frame).value.0 in {Play.SERVERBOUND_POSITION, Play.SERVERBOUND_POSITION_LOOK}
  {
    hide Play.PacketId;
  }

  /**
   In Limbo a connection survives a client frame exactly if it is a well-formed movement, or the exact answer to the
   pending keepalive and the queue, if it is asked now, accepts; the session and the client's log are not touched.
   */
  lemma LimboFrames(c: LimboGate.Config, max: nat, l: Loop, frame: bytes, asked: Option<int>, accepted: bool)
    requires InLimbo(l) && LimboGate.Inv(c, l.gate)
    ensures var l' := Next(c, max, l, ClientFrame(frame, asked, accepted));
            var k := Play.ParseKeepAlive(frame);
            var answered := LimboGate.Step(c, l.gate, AnswerOf(frame, asked, accepted));
            && (l'.pc == if Play.DecodeMovement(frame).Some? || (k.Some? && !answered.ended) then Select else Ended)
            && (k.Some? && !answered.ended ==> l.gate.pending != 0 && k.value == l.gate.pending && l'.gate == answered)
            && (Play.DecodeMovement(frame).Some? ==> l' == l)
            && l'.sys == l.sys
  {
    KindsOfFrames(frame);
    LimboGate.StepMeans(c, l.gate, AnswerOf(frame, asked, accepted));
    hide Play.PacketId, Play.ParseKeepAlive, Play.DecodeMovement, LimboGate.Step, LimboGate.Inv, OnContinue, OnBridge;
  }

  // ---- Tickers ----

  lemma LimboWriteGoesOut(c: LimboGate.Config, max: nat, l: Loop, frame: bytes, setup: bool)
    requires l.pc == LimboWrite(frame)
    ensures Next(c, max, l, Continue(true, setup)) ==
            l.(pc := Select, sys := l.sys.(clientLog := l.sys.clientLog + [frame]))
  {
    OtherWriteEffect(l.sys, frame);
    hide T.Apply, OnSelect, OnBridge;
  }

  /** A keepalive tick sends a new keepalive exactly if none is pending, and then that one is. */
  lemma KeepAliveTicks(c: LimboGate.Config, max: nat, l: Loop, setup: bool)
    requires InLimbo(l) && LimboGate.Inv(c, l.gate)
    ensures var l1 := Next(c, max, l, KeepAliveTick);
            var l2 := Next(c, max, l1, Continue(true, setup));
            if l.gate.pending != 0 then l1 == l
            else
              && l2.pc.Select? && l2.sys == l.sys.(clientLog := l2.sys.clientLog)
              && l2.gate.pending == l2.gate.keepAliveID == l.gate.keepAliveID + 1
              && l2.sys.clientLog == l.sys.clientLog
                   + [Play.KeepAlivePayload(ToInt64(l2.gate.pending % 0x1_0000_0000_0000_0000))]
  {
    LimboGate.StepMeans(c, l.gate, LimboGate.Tick);
    hide LimboGate.Step, LimboGate.Inv, Play.KeepAlivePayload, OnFrame, OnPrepared, OnBridge, OnContinue, T.Apply;
    var l1 := Next(c, max, l, KeepAliveTick);
    if l.gate.pending == 0 {
      LimboWriteGoesOut(c, max, l1, l1.pc.frame, setup);
    }
  }

  /** A queued player is shown the position the queue knows, and nobody else is. */
  lemma QueueTicks(c: LimboGate.Config, max: nat, l: Loop, position: Option<bytes>, setup: bool)
    requires InLimbo(l)
    ensures var l1 := Next(c, max, l, QueueTick(position));
            var l2 := Next(c, max, l1, Continue(true, setup));
            if !l.gate.queued || position.None? then l1 == l
            else if |position.value| > 65525 then l1.pc.Ended?
            else
              && Play.ActionBarPayload(position.value).Ok?
              && l2 == l.(sys := l.sys.(clientLog := l.sys.clientLog + [Play.ActionBarPayload(position.value).value]))
  {
    if position.Some? {
      Play.ActionBarDecodes(position.value);
    }
    hide Play.ActionBarPayload, OnFrame, OnPrepared, OnBridge, OnContinue, T.Apply;
    var l1 := Next(c, max, l, QueueTick(position));
    if l1.pc.LimboWrite? {
      LimboWriteGoesOut(c, max, l1, l1.pc.frame, setup);
    }
  }

  /** Outside Limbo neither ticker sends anything. */
  lemma TickersKeepQuiet(c: LimboGate.Config, max: nat, l: Loop, position: Option<bytes>)
    requires !l.sys.session.state.LimboPlay?
    ensures Next(c, max, l, KeepAliveTick) == l && Next(c, max, l, QueueTick(position)) == l
  {
    hide OnContinue, OnBridge;
  }

  // ---- A transfer that fails ----

  /** When a held transfer times out, the loop drops it, and the next admission starts another from Limbo. */
  lemma RetryAfterTimeout(c: LimboGate.Config, max: nat, l: Loop, commands: int)
    requires Inv(max, l) && l.pc.Select? && Holding(l) && !l.gate.ended
    ensures var l1 := Next(c, max, l, Timer(l.prepared.value));
            var l2 := Next(c, max, l1, TransferDone);
            var l3 := Next(c, max, l2, Admit(commands));
            && T.CleanlyUndone(l1.sys, l.prepared.value)
            && l2.sys == l1.sys && l2.prepared.None? && l2.gate.pending == 0 && l2.pc.Select?
            && l3.sys.transfers == l1.sys.transfers + [T.NewTransfer([], commands)]
            && l3.outstanding == Some(|l1.sys.transfers|) && l3.sys.session == View(LimboPlay, None)
  {
    T.TimerEnds(l.sys, l.prepared.value);
    SpawnEffect(T.Apply(l.sys, T.TimerFires(l.prepared.value)), [], commands);
    hide T.Apply, T.Inv, OnContinue, OnBridge, OnTrack, Delivered, AllAcceptable;
  }

  lemma SpawnEffect(sys: T.System, ids: seq<int64>, commands: int)
    ensures T.Apply(sys, T.Spawn(ids, commands)) == sys.(transfers := sys.transfers + [T.NewTransfer(ids, commands)])
  {
  }

  /** An admission starts a transfer exactly in Limbo with none held, and gives it the pending keepalive, if any. */
  lemma AdmissionStarts(c: LimboGate.Config, max: nat, l: Loop, commands: int)
    requires l.pc.Select?
    ensures Next(c, max, l, Admit(commands)) ==
            if l.prepared.Some? || !l.sys.session.state.LimboPlay? then l
            else
              var t := T.NewTransfer(PendingIDs(l.gate.pending), commands);
              l.(sys := l.sys.(transfers := l.sys.transfers + [t]), outstanding := Some(|l.sys.transfers|))
  {
    SpawnEffect(l.sys, PendingIDs(l.gate.pending), commands);
    hide T.Apply, OnContinue, OnBridge;
  }

  /** A result that nobody takes any more is rolled back, wherever the loop is. */
  lemma AbandonedIsUndone(c: LimboGate.Config, max: nat, l: Loop, i: nat)
    requires T.Inv(l.sys) && T.HasPrepared(l.sys, i) && !l.sys.transfers[i].finalized && l.prepared != Some(i)
    ensures var l' := Next(c, max, l, Abandon(i));
            T.CleanlyUndone(l'.sys, i) && l'.pc == l.pc && l'.prepared == l.prepared && l'.outstanding != Some(i)
  {
    T.RollbackEnds(l.sys, i);
    hide T.Apply, T.Inv, OnContinue, OnBridge, OnSelect;
  }

  /** When a Prepare fails, the loop takes the news and is free for the next admission. */
  lemma FailureIsReported(c: LimboGate.Config, max: nat, l: Loop)
    requires l.pc.Select? && !l.gate.ended && l.outstanding.Some? && l.outstanding.value < |l.sys.transfers|
    requires l.sys.transfers[l.outstanding.value].stage in {T.Failed, T.Refused}
    ensures var l' := Next(c, max, l, PrepareReturned);
            && l'.outstanding.None? && l'.gate.pending == 0 && l'.pc.Select?
            && l'.sys == l.sys && l'.prepared == l.prepared
  {
    hide OnContinue, OnBridge, T.Apply;
  }

  /** When Start Configuration cannot be written, the transfer is rolled back and the session stays in Limbo. */
  lemma FailedStartIsUndone(c: LimboGate.Config, max: nat, l: Loop, ok: bool, setup: bool)
    requires Inv(max, l) && l.pc.BeginWriting? && Holding(l) && l.sys.writers[l.pc.w].todo != []
    ensures var l1 := Next(c, max, l, Continue(false, setup));
            var l2 := Next(c, max, l1, Continue(ok, setup));
            T.CleanlyUndone(l2.sys, l.prepared.value) && l2.prepared.None? && l2.pc.Select?
            && l2.sys.clientLog == l.sys.clientLog
  {
    var i, w := l.prepared.value, l.pc.w;
    hide T.Apply, T.Inv, T.CleanlyUndone, Delivered, AllAcceptable, Next, Phase, ConfigurationFrames;
    StaysSound(l.sys, T.WriteFails(w), i);
    WriteKeepsEnds(l.sys, w, i);
    T.RollbackEnds(T.Apply(l.sys, T.WriteFails(w)), i);
    UndoLeavesLog(l.sys, w, i);
    UndoingFollows(c, max, l, ok, setup);
  }

  lemma UndoingFollows(c: LimboGate.Config, max: nat, l: Loop, ok: bool, setup: bool)
    requires l.pc.BeginWriting? && l.prepared.Some? && l.pc.w < |l.sys.writers| && l.sys.writers[l.pc.w].todo != []
    ensures var failed := T.Apply(l.sys, T.WriteFails(l.pc.w));
            Next(c, max, Next(c, max, l, Continue(false, setup)), Continue(ok, setup)) ==
            l.(sys := T.Apply(failed, T.Rollback(l.prepared.value)), prepared := None, pc := Select)
  {
    hide T.Apply, OnSelect, OnBridge, OnConfigure, OnRelease, OnHandling, OnAdvancing, OnTaking, OnProgressing;
  }

  lemma UndoLeavesLog(sys: T.System, w: nat, i: nat)
    ensures T.Apply(T.Apply(sys, T.WriteFails(w)), T.Rollback(i)).clientLog == sys.clientLog
  {
  }

  // ---- The bridge ----

  /** The loop plays on exactly as long as the bridge runs, and what it forwards reaches the other side. */
  lemma BridgeInLoop(c: LimboGate.Config, max: nat, l: Loop, e: Bridge.Event)
    requires l.pc.Playing? && l.bridge.running
    ensures var b, l' := Bridge.Step(max, l.bridge, e), Next(c, max, l, Bridged(e));
            && (l'.pc.Playing? <==> b.running) && l'.bridge == b
            && l'.sys.clientLog == l.sys.clientLog + b.toClient[|l.bridge.toClient|..]
            && l'.backendLog == l.backendLog + b.toBackend[|l.bridge.toBackend|..]
  {
    var b := Bridge.Step(max, l.bridge, e);
    Bridge.StepPasses(max, l.bridge, e);
    if e.FromBackend? && b.running {
      OtherWriteEffect(l.sys, e.payload);
    }
    hide Bridge.Step, Bridge.Passes, T.Apply, OnSelect, OnContinue;
    assert l.sys.clientLog + [] == l.sys.clientLog && l.backendLog + [] == l.backendLog;
  }

  // ---- The hook, over the whole loop ----

  /** The loop is about to take the first answer. */
  predicate TakesFirstAnswer(l: Loop, e: Event) {
    && InLimbo(l) && e.ClientFrame?
    && LimboGate.FirstAnswer(l.gate, AnswerOf(e.frame, e.asked, e.accepted))
  }

  lemma FirstAnswerInLoop(c: LimboGate.Config, max: nat, l: Loop, e: Event)
    requires LimboGate.Inv(c, l.gate) && TakesFirstAnswer(l, e)
    ensures Next(c, max, l, e).gate.challengeStarted
    ensures Next(c, max, l, e).gate.required == LimboGate.Required(c, e.asked)
  {
    KindsOfFrames(e.frame);
    LimboGate.FirstAnswerRequires(c, l.gate, AnswerOf(e.frame, e.asked, e.accepted));
    hide LimboGate.Step, LimboGate.Inv, Play.PacketId, Play.ParseKeepAlive, OnContinue, OnBridge;
  }

  lemma RequiredInLoop(c: LimboGate.Config, max: nat, l: Loop, e: Event)
    requires l.gate.challengeStarted
    ensures Next(c, max, l, e).gate.challengeStarted && Next(c, max, l, e).gate.required == l.gate.required
  {
    ContinueLeavesGate(l, if e.Continue? then e.ok else false, if e.Continue? then e.setup else false);
    forall g
      ensures LimboGate.Step(c, l.gate, g).challengeStarted
      ensures LimboGate.Step(c, l.gate, g).required == l.gate.required
    {
      LimboGate.RequiredStays(c, l.gate, g);
    }
    hide LimboGate.Step, T.Apply, OnContinue, Bridge.Step, Play.PacketId, Play.ParseKeepAlive, Play.DecodeMovement,
      Play.ActionBarPayload;
  }

  lemma {:induction false} RequiredInRun(c: LimboGate.Config, max: nat, l: Loop, events: seq<Event>)
    requires l.gate.challengeStarted
    ensures RunLoop(c, max, l, events).gate.required == l.gate.required
    decreases |events|
  {
    hide Next;
    if events == [] {
    } else {
      RequiredInLoop(c, max, l, events[0]);
      RequiredInRun(c, max, Next(c, max, l, events[0]), events[1..]);
    }
  }

  lemma {:induction false} RunConcat(c: LimboGate.Config, max: nat, l: Loop, a: seq<Event>, b: seq<Event>)
    ensures RunLoop(c, max, l, a + b) == RunLoop(c, max, RunLoop(c, max, l, a), b)
    decreases |a|
  {
    hide Next;
    if a == [] {
      assert a + b == b;
    } else {
      RunConcat(c, max, Next(c, max, l, a[0]), a[1..], b);
      assert (a + b)[1..] == a[1..] + b;
    }
  }

  /**
   In every run of the whole loop, what the hook asks for at the first answered keepalive is how many distinct
   keepalives must be answered before the session enqueues itself, whatever comes before and after.
   */
  lemma HookDecides(c: LimboGate.Config, max: nat, before: seq<Event>, e: Event, rest: seq<Event>)
    requires TakesFirstAnswer(RunLoop(c, max, START, before), e)
    ensures var g := RunLoop(c, max, START, before + [e] + rest).gate;
            && g.required == LimboGate.Required(c, e.asked)
            && (g.enqueues == 1 ==> |g.answered| >= LimboGate.Required(c, e.asked))
  {
    assert LimboGate.Inv(c, LimboGate.START);
    RunGate(c, max, START, before);
    FirstAnswerInLoop(c, max, RunLoop(c, max, START, before), e);
    RunPush(c, max, START, before, e);
    RunConcat(c, max, START, before + [e], rest);
    hide RunLoop, Next, LimboGate.Inv, LimboGate.Issued, TakesFirstAnswer;
    RequiredInRun(c, max, RunLoop(c, max, START, before + [e]), rest);
    AdmissionIsEarned(c, max, before + [e] + rest);
  }
}
