/**
 internal/transfer/coordinator.go: moving a session from Limbo to a backend.

 Every section under a mutex is one atomic step. A Prepare call, the barrier timer of its result,
 calls on that result that drop the mutex around client writes, and client acknowledgements all
 interleave freely, for any number of transfers on one session.
 */
module Transfer {
  import opened Bytes
  import opened Session
  import Play
  import BackendConfiguration

  datatype Error = AlreadyFinalized | SessionError(cause: Session.Error)

  /** Where a Prepare call is; Published once it has returned a Prepared. */
  datatype Stage =
    | Starting | Draining | Dialing | LoggingIn | LoggedIn | Configuring | Configured
    | Unwinding | Refused | Failed | Published

  /**
   One Prepare call and the Prepared it returns. `connected` says that it holds a backend transport;
   the counters record how often it closed `done`, closed the transport, handed the transport to
   its caller, threw away an error of RollbackTransfer, and opened a transport.
   */
  datatype Transfer = Transfer(
    stage: Stage, keepAliveIDs: seq<int64>, maxCommands: int,
    connected: bool, packets: seq<bytes>, finalized: bool, timedOut: bool,
    doneCloses: nat, closes: nat, handovers: nat, ignoredErrors: nat, opens: nat)

  function NewTransfer(keepAliveIDs: seq<int64>, maxCommands: int): (t: Transfer) {
    Transfer(Starting, keepAliveIDs, maxCommands, false, [], false, false, 0, 0, 0, 0, 0)
  }

  /** It owns the session's barrier. */
  predicate Live(t: Transfer) {
    match t.stage
    case Starting => false
    case Refused => false
    case Failed => false
    case Published => !t.finalized
    case _ => true
  }

  // ---- Coordinator.Prepare, one atomic step at a time ----

  function Closed(t: Transfer): (r: Transfer) {
    if t.connected then t.(connected := false, closes := t.closes + 1) else t
  }

  /** RollbackTransfer with its error thrown away. */
  function IgnoringRollback(s: View, t: Transfer): (r: (View, Transfer)) {
    var (s', e) := RollbackStep(s);
    (s', t.(ignoredErrors := t.ignoredErrors + if e.Some? then 1 else 0))
  }

  function Advancing(s: View, t: Transfer, phase: byte, next: Stage): (r: (View, Transfer)) {
    var (s', e) := AdvanceStep(s, phase);
    (s', t.(stage := if e.Some? then Unwinding else next))
  }

  /** `ok` and `packets` are what the backend does next: dial, login and configuration may each fail. */
  function PrepareStep(s: View, t: Transfer, ok: bool, packets: seq<bytes>): (r: (View, Transfer)) {
    match t.stage
    case Starting =>
      var (s', e) := BeginStep(s, t.keepAliveIDs, t.maxCommands);
      (s', t.(stage := if e.Some? then Refused else Draining))
    case Draining => Advancing(s, t, BACKEND_LOGIN, Dialing)
    case Dialing =>
      (s, if ok then t.(stage := LoggingIn, connected := true, opens := t.opens + 1) else t.(stage := Unwinding))
    case LoggingIn => (s, t.(stage := if ok then LoggedIn else Unwinding))
    case LoggedIn => Advancing(s, t, BACKEND_CONFIGURATION, Configuring)
    case Configuring => (s, if ok then t.(stage := Configured, packets := packets) else t.(stage := Unwinding))
    case Configured => Advancing(s, t, AWAITING_CLIENT_START, Published)
    case Unwinding =>
      var (s', t') := IgnoringRollback(s, Closed(t));
      (s', t'.(stage := Failed))
    case _ => (s, t)
  }

  // ---- Prepared, one mutex section at a time ----

  /** The first and the second section of BeginClientConfiguration, and the first of WriteClientConfiguration. */
  function CheckPhase(s: View, t: Transfer, phase: byte): (e: Option<Error>) {
    if t.finalized then Some(AlreadyFinalized)
    else
      match Phase(s)
      case Err(e) => Some(SessionError(e))
      case Ok(p) => if p != phase then Some(SessionError(BarrierNotReady)) else None
  }

  /** AcknowledgeClientStart and AcknowledgeClientConfiguration. */
  function AcknowledgeStep(s: View, t: Transfer, phase: byte): (r: (View, Option<Error>)) {
    if t.finalized then (s, Some(AlreadyFinalized))
    else
      var (s', e) := AdvanceStep(s, phase);
      (s', if e.Some? then Some(SessionError(e.value)) else None)
  }

  /** The second section of WriteClientConfiguration. */
  function ConfiguredStep(s: View, t: Transfer): (r: (View, Option<Error>)) {
    var e := CheckPhase(s, t, CLIENT_CONFIGURATION);
    if e.Some? then (s, e) else AcknowledgeStep(s, t, AWAITING_CLIENT_FINISH)
  }

  /** The check passes exactly for an unfinalized transfer whose barrier is in that phase; finalized is said first. */
  lemma CheckMeans(s: View, t: Transfer, phase: byte)
    ensures CheckPhase(s, t, phase).None? <==> !t.finalized && Phase(s) == Ok(phase)
    ensures CheckPhase(s, t, phase) == Some(AlreadyFinalized) <==> t.finalized
    ensures AcknowledgeStep(s, t, phase).1.None? <==> !t.finalized && AdvanceStep(s, phase).1.None?
    ensures AcknowledgeStep(s, t, phase).1.None? ==> Phase(AcknowledgeStep(s, t, phase).0) == Ok(phase)
    ensures AcknowledgeStep(s, t, phase).1 == Some(AlreadyFinalized) <==> t.finalized
  {
  }

  function TimerStep(s: View, t: Transfer): (r: (View, Transfer)) {
    if t.finalized then (s, t)
    else IgnoringRollback(s, Closed(t.(finalized := true, timedOut := true, doneCloses := t.doneCloses + 1)))
  }

  function PreparedReleaseStep(s: View, t: Transfer): (r: (View, Transfer, Result<Replay, Error>)) {
    if t.finalized then (s, t, Err(AlreadyFinalized))
    else
      var (s', replay) := ReleaseStep(s);
      match replay
      case Err(e) => (s', t, Err(SessionError(e)))
      case Ok(r) =>
        (s', t.(finalized := true, doneCloses := t.doneCloses + 1, connected := false,
                handovers := t.handovers + if t.connected then 1 else 0), Ok(r))
  }

  function PreparedRollbackStep(s: View, t: Transfer): (r: (View, Transfer, Option<Error>)) {
    if t.finalized then (s, t, Some(AlreadyFinalized))
    else
      var t' := Closed(t.(finalized := true, doneCloses := t.doneCloses + 1));
      var (s', e) := RollbackStep(s);
      (s', t', if e.Some? then Some(SessionError(e.value)) else None)
  }

  // ---- The interleaving of everything that acts on one session ----

  /** A BeginClientConfiguration (`configuring` false) or WriteClientConfiguration call between its two sections. */
  datatype Writer = Writer(transfer: nat, configuring: bool, todo: seq<bytes>, returned: bool)

  /** `logins` counts the three transitions of the login path; `inputs` are those the current barrier took. */
  datatype System = System(
    session: View, transfers: seq<Transfer>, writers: seq<Writer>,
    clientLog: seq<bytes>, logins: nat, inputs: seq<Input>)

  const START := System(View(Handshake, None), [], [], [], 0, [])

  datatype Step =
    | LoginTransition
    | Spawn(keepAliveIDs: seq<int64>, maxCommands: int)
    | Prepare(transfer: nat, ok: bool, packets: seq<bytes>)
    | TimerFires(transfer: nat)
    | Begin(transfer: nat)
    | Configure(transfer: nat)
    | WriteFrame(writer: nat)
    | WriteFails(writer: nat)
    | Resume(writer: nat)
    | Acknowledge(transfer: nat, phase: byte)
    | Release(transfer: nat)
    | Rollback(transfer: nat)
    | ClientAcknowledges(phase: byte)
    | BarrierInput(input: Input)
    | OtherWrite(frame: bytes)

  function LoginTarget(n: nat): (to: State) {
    if n == 0 then Login else if n == 1 then Configuration else LimboPlay
  }

  /** A Prepared exists only for a published transfer. */
  predicate HasPrepared(sys: System, i: nat) { i < |sys.transfers| && sys.transfers[i].stage.Published? }

  function With(sys: System, i: nat, s: View, t: Transfer): (r: System)
    requires i < |sys.transfers|
  {
    sys.(session := s, transfers := sys.transfers[i := t])
  }

  /** The new barrier of a transfer that begins has taken no input yet. */
  function PrepareIn(sys: System, i: nat, ok: bool, packets: seq<bytes>): (r: System)
    requires i < |sys.transfers|
  {
    var (s, t) := PrepareStep(sys.session, sys.transfers[i], ok, packets);
    With(sys, i, s, t).(inputs := if sys.transfers[i].stage.Starting? && t.stage.Draining? then [] else sys.inputs)
  }

  function StartWriter(sys: System, i: nat, configuring: bool): (r: System)
    requires HasPrepared(sys, i)
  {
    var t := sys.transfers[i];
    var phase := if configuring then CLIENT_CONFIGURATION else AWAITING_CLIENT_START;
    var frames := if configuring then t.packets + [BackendConfiguration.FinishPayload()]
        else [Play.StartConfigurationPayload()];
    if CheckPhase(sys.session, t, phase).Some? then sys
    else sys.(writers := sys.writers + [Writer(i, configuring, frames, false)])
  }

  function ResumeWriter(sys: System, w: nat): (r: System)
    requires w < |sys.writers| && HasPrepared(sys, sys.writers[w].transfer)
  {
    var writer := sys.writers[w];
    var sys' := sys.(writers := sys.writers[w := writer.(returned := true)]);
    if writer.configuring then sys'.(session := ConfiguredStep(sys.session, sys.transfers[writer.transfer]).0) else sys'
  }

  /** Steps that are not possible in a state leave it as it is. */
  function Apply(sys: System, step: Step): (r: System) {
    match step
    case LoginTransition =>
      if sys.logins < 3 then
        var (s, e) := TransitionStep(sys.session, LoginTarget(sys.logins));
        sys.(session := s, logins := if e.None? then sys.logins + 1 else sys.logins)
      else sys
    case Spawn(ids, max) => sys.(transfers := sys.transfers + [NewTransfer(ids, max)])
    case Prepare(i, ok, packets) => if i < |sys.transfers| then PrepareIn(sys, i, ok, packets) else sys
    case TimerFires(i) =>
      if HasPrepared(sys, i) then
        var (s, t) := TimerStep(sys.session, sys.transfers[i]);
        With(sys, i, s, t)
      else sys
    case Begin(i) => if HasPrepared(sys, i) then StartWriter(sys, i, false) else sys
    case Configure(i) => if HasPrepared(sys, i) then StartWriter(sys, i, true) else sys
    case WriteFrame(w) =>
      if w < |sys.writers| && !sys.writers[w].returned && sys.writers[w].todo != [] then
        var writer := sys.writers[w];
        sys.(clientLog := sys.clientLog + [writer.todo[0]],
            writers := sys.writers[w := writer.(todo := writer.todo[1..])])
      else sys
    case WriteFails(w) =>
      if w < |sys.writers| && sys.writers[w].todo != []
          then sys.(writers := sys.writers[w := sys.writers[w].(returned := true)]) else sys
    case Resume(w) =>
      if w < |sys.writers| && !sys.writers[w].returned && sys.writers[w].todo == []
          && HasPrepared(sys, sys.writers[w].transfer)
      then ResumeWriter(sys, w) else sys
    case Acknowledge(i, phase) =>
      if HasPrepared(sys, i) && phase in {CLIENT_CONFIGURATION, READY}
      then sys.(session := AcknowledgeStep(sys.session, sys.transfers[i], phase).0) else sys
    case Release(i) =>
      if HasPrepared(sys, i) then
        var (s, t, _) := PreparedReleaseStep(sys.session, sys.transfers[i]);
        With(sys, i, s, t)
      else sys
    case Rollback(i) =>
      if HasPrepared(sys, i) then
        var (s, t, _) := PreparedRollbackStep(sys.session, sys.transfers[i]);
        With(sys, i, s, t)
      else sys
    case ClientAcknowledges(phase) =>
      if phase in {CLIENT_CONFIGURATION, READY} then sys.(session := AdvanceStep(sys.session, phase).0) else sys
    case BarrierInput(input) =>
      if Active(sys.session) then sys.(session := InputStep(sys.session, input).0, inputs := sys.inputs + [input])
          else sys
    case OtherWrite(frame) => sys.(clientLog := sys.clientLog + [frame])
  }

  function Run(sys: System, steps: seq<Step>): (r: System)
    decreases |steps|
  {
    if steps == [] then sys else Run(Apply(sys, steps[0]), steps[1..])
  }

  // ---- The invariant ----

  /** The barrier phases in which a Prepare stage can be. */
  predicate PhaseFits(stage: Stage, phase: byte) {
    match stage
    case Draining => phase == DRAINING
    case Dialing => phase == BACKEND_LOGIN
    case LoggingIn => phase == BACKEND_LOGIN
    case LoggedIn => phase == BACKEND_LOGIN
    case Configuring => phase == BACKEND_CONFIGURATION
    case Configured => phase == BACKEND_CONFIGURATION
    case Unwinding => phase <= BACKEND_CONFIGURATION
    case Published => AWAITING_CLIENT_START <= phase <= READY
    case _ => false
  }

  /** Each transfer's own bookkeeping. */
  predicate Accounted(t: Transfer) {
    && t.ignoredErrors == 0
    && t.doneCloses == (if t.finalized then 1 else 0)
    && (t.connected ==> t.closes == t.handovers == 0)
    && t.opens == t.closes + t.handovers + (if t.connected then 1 else 0)
    && match t.stage
       case Starting => !t.connected && t.closes == t.handovers == 0 && !t.finalized && !t.timedOut
       case Draining => !t.connected && t.closes == t.handovers == 0 && !t.finalized && !t.timedOut
       case Dialing => !t.connected && t.closes == t.handovers == 0 && !t.finalized && !t.timedOut
       case Refused => !t.connected && t.closes == t.handovers == 0 && !t.finalized && !t.timedOut
       case Failed => !t.connected && t.closes <= 1 && t.handovers == 0 && !t.finalized && !t.timedOut
       case Unwinding => t.closes == t.handovers == 0 && !t.finalized && !t.timedOut
       case Published =>
         && (t.connected <==> !t.finalized)
         && (t.finalized ==> t.closes + t.handovers == 1)
         && (t.timedOut ==> t.finalized && t.closes == 1)
       case _ => t.connected && !t.finalized && !t.timedOut
  }

  /** The barrier is the fold of its inputs, in a phase that fits its owner. */
  ghost predicate Owns(sys: System, t: Transfer) {
    && Live(t) && Active(sys.session)
    && var b := sys.session.barrier.value;
    && PhaseFits(t.stage, b.phase)
    && b == HandleAll(NewBarrier(t.keepAliveIDs, t.maxCommands), sys.inputs).(phase := b.phase)
  }

  predicate LoginState(s: View, logins: nat) {
    if logins == 0 then s == View(Handshake, None)
    else if logins == 1 then s == View(Login, None)
    else if logins == 2 then s == View(Configuration, None)
    else s.state in {LimboPlay, TransferBarrier, BackendPlay}
  }

  ghost predicate WritersValid(sys: System) {
    forall w | 0 <= w < |sys.writers| :: HasPrepared(sys, sys.writers[w].transfer)
  }

  /** The invariant, with the index of the one live transfer, if there is one. */
  ghost predicate InvFor(sys: System, owner: Option<nat>) {
    && Consistent(sys.session)
    && (owner.Some? <==> Active(sys.session))
    && (owner.Some? ==> owner.value < |sys.transfers| && Owns(sys, sys.transfers[owner.value]))
    && (forall i | 0 <= i < |sys.transfers| :: Accounted(sys.transfers[i])
         && (owner == Some(i) || !Live(sys.transfers[i])))
    && sys.logins <= 3 && LoginState(sys.session, sys.logins)
    && WritersValid(sys)
  }

  ghost predicate Inv(sys: System) { exists owner :: InvFor(sys, owner) }

  // ---- Every step keeps it ----

  lemma HandleIgnoresPhase(b: Barrier, phase: byte, input: Input)
    ensures Handle(b.(phase := phase), input).0 == Handle(b, input).0.(phase := phase)
  {
  }

  /** Replacing one transfer and the session, with the owner that results. */
  lemma Replaced(sys: System, owner: Option<nat>, i: nat, s: View, t: Transfer, inputs: seq<Input>, owner': Option<nat>)
    requires InvFor(sys, owner) && i < |sys.transfers|
    requires Accounted(t) && Consistent(s) && LoginState(s, sys.logins)
    requires sys.transfers[i].stage.Published? ==> t.stage.Published?
    requires var sys' := With(sys, i, s, t).(inputs := inputs);
             || (owner' == Some(i) && (owner == Some(i) || owner.None?) && Owns(sys', t))
             || (owner' == owner && owner != Some(i) && !Live(t) && s == sys.session && inputs == sys.inputs)
             || (owner'.None? && (owner == Some(i) || owner.None?) && !Live(t) && !Active(s))
    ensures InvFor(With(sys, i, s, t).(inputs := inputs), owner')
  {
    hide Accounted, Live, PhaseFits, HandleAll, NewBarrier, LoginState;
    var sys' := With(sys, i, s, t).(inputs := inputs);
    forall w | 0 <= w < |sys'.writers| ensures HasPrepared(sys', sys'.writers[w].transfer) {
      assert HasPrepared(sys, sys.writers[w].transfer);
    }
  }

  lemma PrepareKeeps(sys: System, owner: Option<nat>, i: nat, ok: bool, packets: seq<bytes>)
    requires InvFor(sys, owner) && i < |sys.transfers|
    ensures Inv(PrepareIn(sys, i, ok, packets))
  {
    var t := sys.transfers[i];
    var (s', t') := PrepareStep(sys.session, t, ok, packets);
    var sys' := PrepareIn(sys, i, ok, packets);
    assert Accounted(t);
    if t.stage.Starting? {
      if t'.stage.Draining? {
        assert Owns(sys', t');
        Replaced(sys, owner, i, s', t', [], Some(i));
      } else {
        Replaced(sys, owner, i, s', t', sys.inputs, owner);
      }
    } else if owner != Some(i) {
      assert !Live(t);
      Replaced(sys, owner, i, s', t', sys.inputs, owner);
    } else if t'.stage.Failed? {
      Replaced(sys, owner, i, s', t', sys.inputs, None);
    } else {
      assert Owns(sys', t');
      Replaced(sys, owner, i, s', t', sys.inputs, owner);
    }
  }

  lemma TimerKeeps(sys: System, owner: Option<nat>, i: nat)
    requires InvFor(sys, owner) && HasPrepared(sys, i)
    ensures Inv(Apply(sys, TimerFires(i)))
  {
    var (s', t') := TimerStep(sys.session, sys.transfers[i]);
    Replaced(sys, owner, i, s', t', sys.inputs, if owner == Some(i) then None else owner);
  }

  lemma ReleaseKeeps(sys: System, owner: Option<nat>, i: nat)
    requires InvFor(sys, owner) && HasPrepared(sys, i)
    ensures Inv(Apply(sys, Release(i)))
  {
    var (s', t', r) := PreparedReleaseStep(sys.session, sys.transfers[i]);
    Replaced(sys, owner, i, s', t', sys.inputs, if owner == Some(i) && r.Ok? then None else owner);
  }

  lemma RollbackKeeps(sys: System, owner: Option<nat>, i: nat)
    requires InvFor(sys, owner) && HasPrepared(sys, i)
    ensures Inv(Apply(sys, Rollback(i)))
  {
    var (s', t', _) := PreparedRollbackStep(sys.session, sys.transfers[i]);
    Replaced(sys, owner, i, s', t', sys.inputs, if owner == Some(i) then None else owner);
  }

  /** Advancing to a client phase moves only a published transfer. */
  lemma AdvanceKeeps(sys: System, owner: Option<nat>, phase: byte, writers: seq<Writer>)
    requires InvFor(sys, owner) && CLIENT_CONFIGURATION <= phase <= READY
    requires forall w | 0 <= w < |writers| :: HasPrepared(sys, writers[w].transfer)
    ensures InvFor(sys.(session := AdvanceStep(sys.session, phase).0, writers := writers), owner)
  {
    hide Accounted, HandleAll, NewBarrier;
  }

  lemma WritersKeep(sys: System, owner: Option<nat>, writers: seq<Writer>, log: seq<bytes>)
    requires InvFor(sys, owner)
    requires forall w | 0 <= w < |writers| :: HasPrepared(sys, writers[w].transfer)
    ensures InvFor(sys.(writers := writers, clientLog := log), owner)
  {
    hide Accounted, HandleAll, NewBarrier, PhaseFits, Live;
  }

  lemma ResumeKeeps(sys: System, owner: Option<nat>, w: nat)
    requires InvFor(sys, owner) && w < |sys.writers| && HasPrepared(sys, sys.writers[w].transfer)
    ensures InvFor(ResumeWriter(sys, w), owner)
  {
    var writers := sys.writers[w := sys.writers[w].(returned := true)];
    WritersKeep(sys, owner, writers, sys.clientLog);
    AdvanceKeeps(sys, owner, AWAITING_CLIENT_FINISH, writers);
  }

  lemma InputKeeps(sys: System, owner: Option<nat>, input: Input)
    requires InvFor(sys, owner) && Active(sys.session)
    ensures InvFor(Apply(sys, BarrierInput(input)), owner)
  {
    hide Accounted, Handle;
    var t := sys.transfers[owner.value];
    var fold := HandleAll(NewBarrier(t.keepAliveIDs, t.maxCommands), sys.inputs);
    FoldStep(NewBarrier(t.keepAliveIDs, t.maxCommands), sys.inputs, input);
    HandleIgnoresPhase(fold, sys.session.barrier.value.phase, input);
    HandleKeepsPhase(sys.session.barrier.value, input);
  }

  lemma HandleKeepsPhase(b: Barrier, input: Input)
    ensures Handle(b, input).0.phase == b.phase
  {
  }

  lemma SpawnKeeps(sys: System, owner: Option<nat>, ids: seq<int64>, max: int)
    requires InvFor(sys, owner)
    ensures InvFor(Apply(sys, Spawn(ids, max)), owner)
  {
    var sys' := Apply(sys, Spawn(ids, max));
    assert Accounted(NewTransfer(ids, max)) && !Live(NewTransfer(ids, max));
    hide Accounted, HandleAll, NewBarrier, PhaseFits, Live;
    assert forall i | 0 <= i < |sys.transfers| :: sys'.transfers[i] == sys.transfers[i];
    forall w | 0 <= w < |sys'.writers| ensures HasPrepared(sys', sys'.writers[w].transfer) {
      assert HasPrepared(sys, sys.writers[w].transfer);
    }
  }

  /** Each of the three transitions of the login path succeeds, and no transfer can get in between. */
  lemma LoginKeeps(sys: System, owner: Option<nat>)
    requires InvFor(sys, owner) && sys.logins < 3
    ensures InvFor(Apply(sys, LoginTransition), owner)
    ensures Apply(sys, LoginTransition).logins == sys.logins + 1
  {
    hide Accounted, Live;
  }

  lemma StepKeeps(sys: System, step: Step)
    requires Inv(sys)
    ensures Inv(Apply(sys, step))
  {
    var owner :| InvFor(sys, owner);
    hide InvFor, PrepareIn, StartWriter, ResumeWriter, TimerStep, PreparedReleaseStep, PreparedRollbackStep,
      AdvanceStep, AcknowledgeStep, InputStep, TransitionStep;
    match step
    case LoginTransition =>
      if sys.logins < 3 {
        LoginKeeps(sys, owner);
      }
    case Spawn(ids, max) => SpawnKeeps(sys, owner, ids, max);
    case Prepare(i, ok, packets) =>
      if i < |sys.transfers| {
        PrepareKeeps(sys, owner, i, ok, packets);
      }
    case TimerFires(i) =>
      if HasPrepared(sys, i) {
        TimerKeeps(sys, owner, i);
      }
    case Begin(i) => StartKeeps(sys, owner, i, false);
    case Configure(i) => StartKeeps(sys, owner, i, true);
    case WriteFrame(w) => WriteKeeps(sys, owner, step);
    case WriteFails(w) => WriteKeeps(sys, owner, step);
    case Resume(w) =>
      if w < |sys.writers| && HasPrepared(sys, sys.writers[w].transfer) {
        ResumeKeeps(sys, owner, w);
      }
    case Acknowledge(i, phase) =>
      if HasPrepared(sys, i) {
        AcknowledgeIs(sys, i, phase);
        AcknowledgementKeeps(sys, owner, phase);
      }
    case Release(i) =>
      if HasPrepared(sys, i) {
        ReleaseKeeps(sys, owner, i);
      }
    case Rollback(i) =>
      if HasPrepared(sys, i) {
        RollbackKeeps(sys, owner, i);
      }
    case ClientAcknowledges(phase) => AcknowledgementKeeps(sys, owner, phase);
    case BarrierInput(input) =>
      if Active(sys.session) {
        InputKeeps(sys, owner, input);
      }
    case OtherWrite(frame) => OtherWriteKeeps(sys, owner, frame);
  }

  lemma OtherWriteKeeps(sys: System, owner: Option<nat>, frame: bytes)
    requires InvFor(sys, owner)
    ensures InvFor(Apply(sys, OtherWrite(frame)), owner)
  {
    WritersKeep(sys, owner, sys.writers, sys.clientLog + [frame]);
  }

  lemma AcknowledgeIs(sys: System, i: nat, phase: byte)
    requires HasPrepared(sys, i)
    ensures AcknowledgeStep(sys.session, sys.transfers[i], phase).0 in {sys.session, AdvanceStep(sys.session, phase).0}
  {
  }

  lemma AcknowledgementKeeps(sys: System, owner: Option<nat>, phase: byte)
    requires InvFor(sys, owner)
    ensures phase in {CLIENT_CONFIGURATION, READY} ==> InvFor(sys.(session := AdvanceStep(sys.session, phase).0), owner)
  {
    if phase in {CLIENT_CONFIGURATION, READY} {
      AdvanceKeeps(sys, owner, phase, sys.writers);
    }
  }

  lemma StartKeeps(sys: System, owner: Option<nat>, i: nat, configuring: bool)
    requires InvFor(sys, owner)
    ensures HasPrepared(sys, i) ==> InvFor(StartWriter(sys, i, configuring), owner)
  {
    if HasPrepared(sys, i) {
      WritersKeep(sys, owner, StartWriter(sys, i, configuring).writers, sys.clientLog);
    }
  }

  lemma WriteKeeps(sys: System, owner: Option<nat>, step: Step)
    requires InvFor(sys, owner) && (step.WriteFrame? || step.WriteFails?)
    ensures InvFor(Apply(sys, step), owner)
  {
    var sys' := Apply(sys, step);
    WritersKeep(sys, owner, sys'.writers, sys'.clientLog);
  }

  lemma {:induction false} RunKeeps(sys: System, steps: seq<Step>)
    requires Inv(sys)
    ensures Inv(Run(sys, steps))
    decreases |steps|
  {
    if steps == [] {
    } else {
      hide Inv, Apply;
      StepKeeps(sys, steps[0]);
      RunKeeps(Apply(sys, steps[0]), steps[1..]);
    }
  }

  // ---- Main results ----

  lemma StartIsFine()
    ensures Inv(START)
  {
    assert InvFor(START, None);
  }

  ghost predicate SomeLive(sys: System) {
    exists i | 0 <= i < |sys.transfers| :: Live(sys.transfers[i])
  }

  /** In every run, the session is in TransferBarrier exactly while one transfer is live, and there is never a
      second one. */
  lemma BarrierIffOneLive(steps: seq<Step>)
    ensures var sys := Run(START, steps);
            && (sys.session.state.TransferBarrier? <==> SomeLive(sys))
            && (forall i, j | 0 <= i < |sys.transfers| && 0 <= j < |sys.transfers| && Live(sys.transfers[i])
                 && Live(sys.transfers[j]) :: i == j)
            && Consistent(sys.session)
  {
    StartIsFine();
    RunKeeps(START, steps);
    hide Run, Live, Accounted;
  }

  /**
   In every run, every transfer is finalized at most once: it closes `done` at most once, it closes its
   backend transport or hands it over but never both and never twice, every transport it opened is still
   held, closed or handed over, and every rollback error it throws away is no error at all.
   */
  lemma ExactlyOnce(steps: seq<Step>, i: nat)
    requires i < |Run(START, steps).transfers|
    ensures var t := Run(START, steps).transfers[i];
            && t.doneCloses <= 1 && t.closes + t.handovers <= 1 && t.ignoredErrors == 0
            && t.opens == t.closes + t.handovers + (if t.connected then 1 else 0)
            && (t.finalized ==> t.doneCloses == 1 && t.closes + t.handovers == 1)
            && (t.timedOut ==> t.finalized && t.handovers == 0)
            && (t.stage in {Failed, Refused} || t.finalized ==> !t.connected)
  {
    StartIsFine();
    RunKeeps(START, steps);
    hide Run;
    var sys := Run(START, steps);
    var owner :| InvFor(sys, owner);
    assert Accounted(sys.transfers[i]);
  }

  predicate Ended(t: Transfer) {
    t.stage.Refused? || t.stage.Failed? || (t.stage.Published? && t.finalized)
  }

  /** The transfer on whose behalf a step is taken. */
  function Actor(sys: System, step: Step): (i: Option<nat>) {
    match step
    case Prepare(i, _, _) => Some(i)
    case TimerFires(i) => Some(i)
    case Begin(i) => Some(i)
    case Configure(i) => Some(i)
    case Resume(w) => if w < |sys.writers| then Some(sys.writers[w].transfer) else None
    case WriteFrame(w) => if w < |sys.writers| then Some(sys.writers[w].transfer) else None
    case WriteFails(w) => if w < |sys.writers| then Some(sys.writers[w].transfer) else None
    case Acknowledge(i, _) => Some(i)
    case Release(i) => Some(i)
    case Rollback(i) => Some(i)
    case _ => None
  }

  lemma EndedIsInert(sys: System, step: Step, i: nat)
    requires i < |sys.transfers| && Ended(sys.transfers[i])
    ensures i < |Apply(sys, step).transfers| && Apply(sys, step).transfers[i] == sys.transfers[i]
    ensures Actor(sys, step) == Some(i) ==> Apply(sys, step).session == sys.session
  {
  }

  /** Once ended, a transfer never changes again and never again acts on the session, whatever it was in the middle
      of. */
  lemma {:induction false} EndedForever(sys: System, steps: seq<Step>, i: nat)
    requires i < |sys.transfers| && Ended(sys.transfers[i])
    ensures i < |Run(sys, steps).transfers| && Run(sys, steps).transfers[i] == sys.transfers[i]
    ensures steps != [] && Actor(Run(sys, steps[..|steps| - 1]), steps[|steps| - 1]) == Some(i) ==>
              Run(sys, steps).session == Run(sys, steps[..|steps| - 1]).session
    decreases |steps|
  {
    hide Apply, Ended, Actor;
    if steps == [] {
    } else {
      EndedIsInert(sys, steps[0], i);
      EndedForever(Apply(sys, steps[0]), steps[1..], i);
      if |steps| > 1 {
        assert steps[..|steps| - 1][1..] == steps[1..][..|steps| - 2] && steps[..|steps| - 1][0] == steps[0];
      }
    }
  }

  /** While one transfer is live, no step of another one touches the session. */
  lemma OthersKeepOut(sys: System, step: Step, i: nat, j: nat)
    requires Inv(sys) && i < |sys.transfers| && j < |sys.transfers| && i != j
    requires Live(sys.transfers[j]) && Actor(sys, step) == Some(i)
    ensures Apply(sys, step).session == sys.session
  {
    var owner :| InvFor(sys, owner);
    assert owner == Some(j) && !Live(sys.transfers[i]);
    hide Accounted, HandleAll, NewBarrier;
  }

  lemma OwnerIs(sys: System, i: nat)
    requires Inv(sys) && i < |sys.transfers| && Live(sys.transfers[i])
    ensures InvFor(sys, Some(i)) && Owns(sys, sys.transfers[i])
  {
    hide Accounted, HandleAll, NewBarrier, Live, PhaseFits;
  }

  /** A transfer that stops being live leaves Limbo behind, except by Release, which leaves backend play. */
  lemma EndingIsClean(sys: System, step: Step, i: nat)
    requires Inv(sys) && i < |sys.transfers| && Live(sys.transfers[i])
    requires i < |Apply(sys, step).transfers| && !Live(Apply(sys, step).transfers[i])
    ensures Ended(Apply(sys, step).transfers[i])
    ensures Apply(sys, step).session == if step.Release? then View(BackendPlay, None) else View(LimboPlay, None)
    ensures step.Release? ==> sys.session.barrier == Some(sys.session.barrier.value.(phase := READY))
  {
    OwnerIs(sys, i);
    hide Accounted, HandleAll, NewBarrier, Inv;
  }

  /** What an ended transfer leaves behind: finalized once, its connection closed once, the session back in Limbo. */
  predicate CleanlyUndone(sys: System, i: nat) {
    && i < |sys.transfers| && sys.session == View(LimboPlay, None)
    && var t := sys.transfers[i];
    t.finalized && !t.connected && t.closes == 1 && t.handovers == 0 && t.doneCloses == 1
  }

  /** The barrier timer ends a transfer that is not finalized, whatever it is doing. */
  lemma TimerEnds(sys: System, i: nat)
    requires Inv(sys) && HasPrepared(sys, i) && !sys.transfers[i].finalized
    ensures CleanlyUndone(Apply(sys, TimerFires(i)), i) && Apply(sys, TimerFires(i)).transfers[i].timedOut
  {
    OwnerIs(sys, i);
    hide HandleAll, NewBarrier, Inv;
  }

  /** So does a rollback, and it succeeds. */
  lemma RollbackEnds(sys: System, i: nat)
    requires Inv(sys) && HasPrepared(sys, i) && !sys.transfers[i].finalized
    ensures CleanlyUndone(Apply(sys, Rollback(i)), i) && !Apply(sys, Rollback(i)).transfers[i].timedOut
    ensures PreparedRollbackStep(sys.session, sys.transfers[i]).2.None?
  {
    OwnerIs(sys, i);
    hide HandleAll, NewBarrier, Inv;
  }

  /** A release succeeds exactly in phase Ready, and hands the connection over. */
  lemma ReleaseEnds(sys: System, i: nat)
    requires Inv(sys) && HasPrepared(sys, i) && !sys.transfers[i].finalized
    ensures PreparedReleaseStep(sys.session, sys.transfers[i]).2.Ok? <==> Phase(sys.session) == Ok(READY)
    ensures var end := Apply(sys, Release(i));
            if Phase(sys.session) == Ok(READY) then
              && end.session == View(BackendPlay, None)
              && end.transfers[i].finalized && end.transfers[i].handovers == 1 && end.transfers[i].closes == 0
            else end.session == sys.session && end.transfers[i] == sys.transfers[i]
  {
    OwnerIs(sys, i);
    hide HandleAll, NewBarrier, Inv;
  }

  lemma PreparePhase(sys: System, i: nat, ok: bool, packets: seq<bytes>)
    requires i < |sys.transfers| && Owns(sys, sys.transfers[i]) && Live(PrepareIn(sys, i, ok, packets).transfers[i])
    ensures Phase(sys.session).Ok? && Phase(PrepareIn(sys, i, ok, packets).session).Ok?
    ensures Phase(PrepareIn(sys, i, ok, packets).session).value - Phase(sys.session).value in {0, 1}
    ensures sys.transfers[i].stage in {Draining, LoggedIn, Configured} ==>
              PrepareIn(sys, i, ok, packets).transfers[i].stage in {Dialing, Configuring, Published}
  {
    hide HandleAll, NewBarrier, IgnoringRollback;
  }

  /** While a transfer stays live its barrier's phase goes up one at a time, and Prepare's own advances never fail. */
  lemma PhasesInOrder(sys: System, step: Step, i: nat)
    requires Inv(sys) && i < |sys.transfers| && Live(sys.transfers[i])
    requires i < |Apply(sys, step).transfers| && Live(Apply(sys, step).transfers[i])
    ensures Phase(sys.session).Ok? && Phase(Apply(sys, step).session).Ok?
    ensures Phase(Apply(sys, step).session).value - Phase(sys.session).value in {0, 1}
    ensures step.Prepare? && step.transfer == i && sys.transfers[i].stage in {Draining, LoggedIn, Configured} ==>
              Apply(sys, step).transfers[i].stage in {Dialing, Configuring, Published}
  {
    OwnerIs(sys, i);
    if step.Prepare? && step.transfer == i {
      hide PrepareIn, InvFor;
      PreparePhase(sys, i, step.ok, step.packets);
    } else if Actor(sys, step).Some? && Actor(sys, step) != Some(i) && Actor(sys, step).value < |sys.transfers| {
      hide Apply, InvFor;
      OthersKeepOut(sys, step, Actor(sys, step).value, i);
    } else {
      OwnPhase(sys, step, i);
    }
  }

  /** The steps that act for the transfer itself, or for nobody. */
  lemma OwnPhase(sys: System, step: Step, i: nat)
    requires InvFor(sys, Some(i)) && i < |sys.transfers| && Owns(sys, sys.transfers[i])
        && !(step.Prepare? && step.transfer == i)
    requires Actor(sys, step).None? || Actor(sys, step) == Some(i) || Actor(sys, step).value >= |sys.transfers|
    requires i < |Apply(sys, step).transfers| && Live(Apply(sys, step).transfers[i])
    ensures Phase(sys.session).Ok? && Phase(Apply(sys, step).session).Ok?
    ensures Phase(Apply(sys, step).session).value - Phase(sys.session).value in {0, 1}
  {
    hide Accounted, HandleAll, NewBarrier, PrepareIn;
    if step.BarrierInput? {
      HandleKeepsPhase(sys.session.barrier.value, step.input);
      hide Handle;
    }
  }

  /** What Release returns is the fold of the inputs the barrier took; a Rollback that finds it unfinalized succeeds. */
  lemma ReleaseReplaysTheInputs(sys: System, i: nat)
    requires Inv(sys) && HasPrepared(sys, i)
    ensures var t := sys.transfers[i];
            var (_, _, replay) := PreparedReleaseStep(sys.session, t);
            replay.Ok? ==> replay.value == ReplayOf(HandleAll(NewBarrier(t.keepAliveIDs, t.maxCommands), sys.inputs))
    ensures !sys.transfers[i].finalized ==> PreparedRollbackStep(sys.session, sys.transfers[i]).2.None?
  {
    var owner :| InvFor(sys, owner);
    assert owner == Some(i) || !Live(sys.transfers[i]);
    hide Accounted;
  }

  // ---- Prepared itself ----

  class Prepared {
    const session: SessionState
    const packets: seq<bytes>
    ghost const keepAliveIDs: seq<int64>
    ghost const maxCommands: int
    var backend: Option<nat>
    var finalized: bool
    var timedOut: bool
    ghost var doneCloses: nat
    ghost var closes: nat
    ghost var handovers: nat
    ghost var ignoredErrors: nat
    ghost const opens: nat

    ghost function Value(): (t: Transfer)
      reads this
    {
      Transfer(Published, keepAliveIDs, maxCommands, backend.Some?, packets, finalized, timedOut,
               doneCloses, closes, handovers, ignoredErrors, opens)
    }

    /** The result of a Prepare that got this far, holding connection `backend`. */
    constructor (session: SessionState, backend: nat, packets: seq<bytes>, ghost t: Transfer)
      requires t.stage.Configured? && Accounted(t) && t.packets == packets
      ensures this.session == session && this.backend == Some(backend) && Value() == t.(stage := Published)
    {
      this.session, this.packets, this.backend := session, packets, Some(backend);
      this.keepAliveIDs, this.maxCommands, this.opens := t.keepAliveIDs, t.maxCommands, 1;
      finalized, timedOut, doneCloses, closes, handovers, ignoredErrors := false, false, 0, 0, 0, 0;
    }

    method CloseBackend()
      modifies this`backend, this`closes
      ensures Value() == Closed(old(Value()))
    {
      if backend.Some? {
        closes := closes + 1;
        backend := None;
      }
    }

    /** The timer branch of timeout. */
    method Timeout()
      modifies this, session
      ensures (session.Value(), Value()) == TimerStep(old(session.Value()), old(Value()))
    {
      if !finalized {
        finalized := true;
        timedOut := true;
        CloseBackend();
        var err := session.RollbackTransfer();
        ignoredErrors := ignoredErrors + if err.Some? then 1 else 0;
        doneCloses := doneCloses + 1;
      }
    }

    /** The locked part of BeginClientConfiguration before and after its write, and of WriteClientConfiguration
        before its writes. */
    method CheckPhaseLocked(phase: byte) returns (err: Option<Error>)
      ensures err == CheckPhase(session.Value(), Value(), phase)
    {
      if finalized {
        return Some(AlreadyFinalized);
      }
      var current := session.BarrierPhase();
      if current.Err? {
        return Some(SessionError(current.error));
      }
      if current.value != phase {
        return Some(SessionError(BarrierNotReady));
      }
      return None;
    }

    /** The locked part of WriteClientConfiguration after its writes. */
    method FinishWriting() returns (err: Option<Error>)
      modifies session.barrier
      ensures (session.Value(), err) == ConfiguredStep(old(session.Value()), Value())
    {
      err := CheckPhaseLocked(CLIENT_CONFIGURATION);
      if err.Some? {
        return;
      }
      var e := session.AdvanceBarrier(AWAITING_CLIENT_FINISH);
      return if e.Some? then Some(SessionError(e.value)) else None;
    }

    method AcknowledgeClient(phase: byte) returns (err: Option<Error>)
      modifies session.barrier
      ensures (session.Value(), err) == AcknowledgeStep(old(session.Value()), Value(), phase)
    {
      if finalized {
        return Some(AlreadyFinalized);
      }
      var e := session.AdvanceBarrier(phase);
      return if e.Some? then Some(SessionError(e.value)) else None;
    }

    method Release() returns (r: Result<Replay, Error>, backendConn: Option<nat>)
      modifies this, session
      ensures (session.Value(), Value(), r) == PreparedReleaseStep(old(session.Value()), old(Value()))
      ensures backendConn == if r.Ok? then old(backend) else None
    {
      if finalized {
        return Err(AlreadyFinalized), None;
      }
      var replay := session.ReleaseTransfer();
      if replay.Err? {
        return Err(SessionError(replay.error)), None;
      }
      finalized := true;
      doneCloses := doneCloses + 1;
      backendConn := backend;
      handovers := handovers + if backend.Some? then 1 else 0;
      backend := None;
      return Ok(replay.value), backendConn;
    }

    method Rollback() returns (err: Option<Error>)
      modifies this, session
      ensures (session.Value(), Value(), err) == PreparedRollbackStep(old(session.Value()), old(Value()))
    {
      if finalized {
        return Some(AlreadyFinalized);
      }
      finalized := true;
      doneCloses := doneCloses + 1;
      CloseBackend();
      var e := session.RollbackTransfer();
      return if e.Some? then Some(SessionError(e.value)) else None;
    }
  }

  // ---- Coordinator.Prepare itself, when nothing else acts on the session meanwhile ----

  /** What the backend does in one Prepare call: the connection dialled, the login, the packets of its configuration. */
  datatype Backend = Backend(dialled: Option<nat>, login: bool, configuration: Option<seq<bytes>>)

  function Rank(stage: Stage): (n: nat) {
    match stage
    case Starting => 8
    case Draining => 7
    case Dialing => 6
    case LoggingIn => 5
    case LoggedIn => 4
    case Configuring => 3
    case Configured => 2
    case Unwinding => 1
    case _ => 0
  }

  function BackendSays(t: Transfer, b: Backend): (ok: bool) {
    match t.stage
    case Dialing => b.dialled.Some?
    case LoggingIn => b.login
    case Configuring => b.configuration.Some?
    case _ => true
  }

  /** The steps of Prepare, one after the other, until it returns. */
  function PrepareAlone(s: View, t: Transfer, b: Backend): (r: (View, Transfer))
    decreases Rank(t.stage)
  {
    if Rank(t.stage) == 0 then (s, t)
    else
      var (s', t') := PrepareStep(s, t, BackendSays(t, b), if b.configuration.Some? then b.configuration.value else []);
      PrepareAlone(s', t', b)
  }

  lemma PrepareOne(s: View, t: Transfer, b: Backend)
    requires Rank(t.stage) > 0
    ensures var (s', t') := PrepareStep(s, t, BackendSays(t, b), if b.configuration.Some? then b.configuration.value
        else []);
            PrepareAlone(s, t, b) == PrepareAlone(s', t', b)
  {
  }

  /** It is what the steps of this Prepare do in the interleaving when no others come in between. */
  lemma {:induction false} PrepareAloneIsRun(sys: System, i: nat, b: Backend) returns (steps: seq<Step>)
    requires i < |sys.transfers|
    ensures forall k | 0 <= k < |steps| :: steps[k].Prepare? && steps[k].transfer == i
    ensures var (s, t) := PrepareAlone(sys.session, sys.transfers[i], b);
            var end := Run(sys, steps);
            |end.transfers| == |sys.transfers| && end.session == s && end.transfers[i] == t
    decreases Rank(sys.transfers[i].stage)
  {
    var t := sys.transfers[i];
    if Rank(t.stage) == 0 {
      steps := [];
      PrepareDone(sys.session, t, b);
    } else {
      PrepareOne(sys.session, t, b);
      var step := Prepare(i, BackendSays(t, b), if b.configuration.Some? then b.configuration.value else []);
      var next := Apply(sys, step);
      StagesGoOn(sys.session, t, step.ok, step.packets);
      hide PrepareAlone, PrepareStep, Rank;
      var rest := PrepareAloneIsRun(next, i, b);
      steps := [step] + rest;
      assert steps[1..] == rest;
    }
  }

  lemma StagesGoOn(s: View, t: Transfer, ok: bool, packets: seq<bytes>)
    requires Rank(t.stage) > 0
    ensures Rank(PrepareStep(s, t, ok, packets).1.stage) < Rank(t.stage)
  {
    hide BeginStep, AdvanceStep, RollbackStep;
    match t.stage
    case Starting =>
    case Draining =>
    case LoggedIn =>
    case Configured =>
    case _ =>
  }

  lemma PrepareDone(s: View, t: Transfer, b: Backend)
    requires Rank(t.stage) == 0
    ensures PrepareAlone(s, t, b) == (s, t)
  {
  }

  lemma PrepareFails(s: View, t: Transfer, b: Backend)
    requires t.stage in {Dialing, LoggingIn, Configuring} && !BackendSays(t, b)
    ensures PrepareAlone(s, t, b) == var (s', t') := IgnoringRollback(s, Closed(t)); (s', t'.(stage := Failed))
  {
    PrepareOne(s, t, b);
    PrepareOne(s, t.(stage := Unwinding), b);
  }

  /**
   What one Prepare call comes to: refused with nothing touched; or published in phase AwaitingClientStart with the
   backend's packets, exactly if dial, login and configuration all succeed; or failed, with the connection it
   opened closed again and the session back in Limbo.
   */
  lemma PrepareOutcome(s: View, keepAliveIDs: seq<int64>, maxCommands: int, b: Backend)
    ensures var (s', t) := PrepareAlone(s, NewTransfer(keepAliveIDs, maxCommands), b);
            if !CanTransition(s.state, TransferBarrier) then s' == s && t.stage.Refused? && t.opens == 0
            else if b.dialled.Some? && b.login && b.configuration.Some? then
              && t.stage.Published? && t.connected && t.packets == b.configuration.value && t.closes == 0
              && var barrier := NewBarrier(keepAliveIDs, maxCommands);
              s' == View(TransferBarrier, Some(barrier.(phase := AWAITING_CLIENT_START)))
            else
              && t.stage.Failed? && s' == View(LimboPlay, None) && !t.connected && t.ignoredErrors == 0
              && t.closes == t.opens == if b.dialled.Some? then 1 else 0
  {
    hide PrepareAlone;
    var t := NewTransfer(keepAliveIDs, maxCommands);
    PrepareOne(s, t, b);
    if !CanTransition(s.state, TransferBarrier) {
      PrepareDone(s, t.(stage := Refused), b);
    } else {
      var barrier := NewBarrier(keepAliveIDs, maxCommands);
      PrepareOne(View(TransferBarrier, Some(barrier)), t.(stage := Draining), b);
      PrepareDialled(keepAliveIDs, maxCommands, b);
    }
  }

  /** From the dial on. */
  lemma PrepareDialled(keepAliveIDs: seq<int64>, maxCommands: int, b: Backend)
    ensures var barrier := NewBarrier(keepAliveIDs, maxCommands);
            var (s', t) := PrepareAlone(View(TransferBarrier, Some(barrier.(phase := BACKEND_LOGIN))),
                                        NewTransfer(keepAliveIDs, maxCommands).(stage := Dialing), b);
            if b.dialled.Some? && b.login && b.configuration.Some? then
              && t.stage.Published? && t.connected && t.packets == b.configuration.value && t.closes == 0
              && s' == View(TransferBarrier, Some(barrier.(phase := AWAITING_CLIENT_START)))
            else
              && t.stage.Failed? && s' == View(LimboPlay, None) && !t.connected && t.ignoredErrors == 0
              && t.closes == t.opens == if b.dialled.Some? then 1 else 0
  {
    hide PrepareAlone, NewBarrier;
    var barrier := NewBarrier(keepAliveIDs, maxCommands);
    var s1 := View(TransferBarrier, Some(barrier.(phase := BACKEND_LOGIN)));
    var s2 := View(TransferBarrier, Some(barrier.(phase := BACKEND_CONFIGURATION)));
    var t := NewTransfer(keepAliveIDs, maxCommands);
    if b.dialled.None? {
      PrepareFails(s1, t.(stage := Dialing), b);
    } else {
      var t1 := t.(connected := true, opens := 1);
      PrepareOne(s1, t.(stage := Dialing), b);
      if !b.login {
        PrepareFails(s1, t1.(stage := LoggingIn), b);
      } else {
        PrepareOne(s1, t1.(stage := LoggingIn), b);
        PrepareOne(s1, t1.(stage := LoggedIn), b);
        PrepareConfigured(s2, t1.(stage := Configuring), b);
      }
    }
  }

  lemma PrepareConfigured(s: View, t: Transfer, b: Backend)
    requires Active(s) && s.barrier.value.phase == BACKEND_CONFIGURATION && t.stage.Configuring? && t.connected
    ensures PrepareAlone(s, t, b) ==
            if b.configuration.None? then
              (View(LimboPlay, None), t.(stage := Failed, connected := false, closes := t.closes + 1))
            else (View(TransferBarrier, Some(s.barrier.value.(phase := AWAITING_CLIENT_START))),
                  t.(stage := Published, packets := b.configuration.value))
  {
    hide PrepareAlone;
    if b.configuration.None? {
      PrepareFails(s, t, b);
    } else {
      var t1 := t.(stage := Configured, packets := b.configuration.value);
      PrepareOne(s, t, b);
      PrepareOne(s, t1, b);
      var s1 := View(TransferBarrier, Some(s.barrier.value.(phase := AWAITING_CLIENT_START)));
      PrepareDone(s1, t1.(stage := Published), b);
    }
  }

  /** `closed` is the connection that a failure closed. */
  method PrepareTransfer(session: SessionState, keepAliveIDs: seq<int64>, maxCommands: int, b: Backend)
      returns (p: Prepared?, closed: Option<nat>)
    modifies session
    ensures var (s, t) := PrepareAlone(old(session.Value()), NewTransfer(keepAliveIDs, maxCommands), b);
            && session.Value() == s && t.stage in {Refused, Failed, Published}
            && (p != null <==> t.stage.Published?)
            && (p != null ==> fresh(p) && p.session == session && p.Value() == t && p.backend == b.dialled)
            && closed == (if t.closes > 0 then b.dialled else None)
  {
    hide PrepareAlone;
    ghost var t := NewTransfer(keepAliveIDs, maxCommands);
    p, closed := null, None;
    PrepareOne(session.Value(), t, b);
    var err := session.BeginTransfer(keepAliveIDs, maxCommands);
    if err.Some? {
      PrepareDone(session.Value(), t.(stage := Refused), b);
      return;
    }
    // Alone on its session, each of its own advances succeeds.
    PrepareOne(session.Value(), t.(stage := Draining), b);
    err := session.AdvanceBarrier(BACKEND_LOGIN);
    t := t.(stage := Dialing);
    if b.dialled.None? {
      PrepareFails(session.Value(), t, b);
      err := session.RollbackTransfer();
      return;
    }
    PrepareOne(session.Value(), t, b);
    t := t.(stage := LoggingIn, connected := true, opens := 1);
    if !b.login {
      PrepareFails(session.Value(), t, b);
      err := session.RollbackTransfer();
      closed := b.dialled;
      return;
    }
    PrepareOne(session.Value(), t, b);
    PrepareOne(session.Value(), t.(stage := LoggedIn), b);
    err := session.AdvanceBarrier(BACKEND_CONFIGURATION);
    t := t.(stage := Configuring);
    if b.configuration.None? {
      PrepareFails(session.Value(), t, b);
      err := session.RollbackTransfer();
      closed := b.dialled;
      return;
    }
    PrepareOne(session.Value(), t, b);
    t := t.(stage := Configured, packets := b.configuration.value);
    PrepareOne(session.Value(), t, b);
    err := session.AdvanceBarrier(AWAITING_CLIENT_START);
    PrepareDone(session.Value(), t.(stage := Published), b);
    p := new Prepared(session, b.dialled.value, b.configuration.value, t);
  }
}
