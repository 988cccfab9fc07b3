/**
 internal/server/server.go, serveLimbo: when a player in Limbo may enter the admission queue. The
 keepalive and challenge variables of the loop, as a run over the events that touch them.
 */
module LimboGate {
  import opened Bytes

  /** `hook` says whether a challenge is configured, `queueing` whether there is a queue and a coordinator. */
  datatype Config = Config(hook: bool, queueing: bool)

  /** The loop's variables, then a record of what happened. */
  datatype Gate = Gate(
    keepAliveID: int, pending: int,
    challengeStarted: bool, challengePassed: bool, valid: nat, required: int, queued: bool,
    ended: bool, answered: seq<int>, enqueues: nat, verified: bool)

  const START := Gate(1, 1, false, false, 0, 1, false, false, [], 0, false)

  /** An answer is a keepalive frame outside the barrier, with what the hook asks for and the queue's verdict. */
  datatype Event =
    | Answer(id: Option<int>, asked: Option<int>, accepted: bool)
    | ChallengeDone(passed: bool, accepted: bool)
    | Tick
    | TransferFailed
    | Leave

  /** enqueue: once, and only if there is a queue; a refusal ends the session. */
  function EnqueueStep(c: Config, g: Gate, accepted: bool): (r: Gate) {
    if g.queued || !c.queueing then g
    else if !accepted then g.(ended := true)
    else g.(queued := true, enqueues := g.enqueues + 1)
  }

  function MaybeEnqueueStep(c: Config, g: Gate, accepted: bool): (r: Gate) {
    if g.challengePassed && g.valid >= g.required then EnqueueStep(c, g, accepted) else g
  }

  /** The first valid answer starts the challenge, or passes it when there is none. */
  function StartChallengeStep(c: Config, g: Gate, asked: Option<int>, accepted: bool): (r: Gate) {
    if g.challengeStarted then g
    else
      var g' := g.(challengeStarted := true);
      if !c.hook then MaybeEnqueueStep(c, g'.(challengePassed := true), accepted)
      else g'.(required := if asked.None? then g.required else if asked.value < 1 then 1 else asked.value)
  }

  function Step(c: Config, g: Gate, e: Event): (r: Gate) {
    if g.ended then g
    else
      match e
      case Answer(id, asked, accepted) =>
        if id.None? || g.pending == 0 || id.value != g.pending then g.(ended := true)
        else
          var g' := StartChallengeStep(c, g.(pending := 0, valid := g.valid + 1, answered := g.answered + [id.value]),
              asked, accepted);
          if g'.ended then g' else MaybeEnqueueStep(c, g', accepted)
      case ChallengeDone(passed, accepted) =>
        if !g.challengeStarted || !c.hook || g.verified then g
        else if !passed then g.(ended := true)
        else MaybeEnqueueStep(c, g.(challengePassed := true, verified := true), accepted)
      case Tick => if g.pending == 0 then g.(keepAliveID := g.keepAliveID + 1, pending := g.keepAliveID + 1) else g
      case TransferFailed => g.(pending := 0)
      case Leave => g.(ended := true)
  }

  function Run(c: Config, g: Gate, events: seq<Event>): (r: Gate)
    decreases |events|
  {
    if events == [] then g else Run(c, Step(c, g, events[0]), events[1..])
  }

  /** The answers are distinct keepalives that the server issued, in the order it issued them. */
  ghost predicate Issued(answered: seq<int>, upTo: int) {
    && (forall i | 0 <= i < |answered| :: 1 <= answered[i] <= upTo)
    && (forall i, j | 0 <= i < j < |answered| :: answered[i] < answered[j])
  }

  ghost predicate Inv(c: Config, g: Gate) {
    && (g.pending == 0 || g.pending == g.keepAliveID) && g.keepAliveID >= 1 && g.required >= 1
    && |g.answered| == g.valid
    && Issued(g.answered, if g.pending == 0 then g.keepAliveID else g.keepAliveID - 1)
    && g.enqueues == (if g.queued then 1 else 0)
    && (g.verified ==> g.challengeStarted) && (g.challengePassed <==> g.challengeStarted && (!c.hook || g.verified))
    && (g.queued ==> c.queueing && g.challengePassed && g.valid >= g.required)
    && (g.challengeStarted <==> g.valid > 0) && (!g.challengeStarted || !c.hook ==> g.required == 1)
    && (!g.ended && c.queueing && g.challengePassed && g.valid >= g.required ==> g.queued)
  }

  lemma {:induction false} IssuedCount(answered: seq<int>, upTo: int)
    requires Issued(answered, upTo) && upTo >= 0
    ensures |answered| <= upTo
    decreases |answered|
  {
    if answered == [] {
    } else {
      var n := |answered| - 1;
      IssuedCount(answered[..n], answered[n] - 1);
    }
  }

  lemma IssuedPush(answered: seq<int>, upTo: int, id: int)
    requires Issued(answered, upTo) && upTo < id && 1 <= id
    ensures Issued(answered + [id], id)
  {
  }

  lemma StepKeeps(c: Config, g: Gate, e: Event)
    requires Inv(c, g)
    ensures Inv(c, Step(c, g, e))
  {
    hide Issued;
    if e.Answer? && e.id == Some(g.pending) && g.pending != 0 {
      IssuedPush(g.answered, g.keepAliveID - 1, g.pending);
    }
    IssuedLater(g.answered, if g.pending == 0 then g.keepAliveID else g.keepAliveID - 1, g.keepAliveID);
  }

  lemma IssuedLater(answered: seq<int>, upTo: int, later: int)
    requires Issued(answered, upTo) && upTo <= later
    ensures Issued(answered, later)
  {
  }

  lemma {:induction false} RunKeeps(c: Config, g: Gate, events: seq<Event>)
    requires Inv(c, g)
    ensures Inv(c, Run(c, g, events))
    decreases |events|
  {
    if events == [] {
    } else {
      hide Inv, Step;
      StepKeeps(c, g, events[0]);
      RunKeeps(c, Step(c, g, events[0]), events[1..]);
    }
  }

  /**
   In every run a session enqueues itself at most once, and only after its challenge passed (if it has
   one) and enough distinct keepalives of the server were answered exactly. While it lasts and there is a
   queue, it is enqueued as soon as that is so.
   */
  lemma AdmissionIsEarned(c: Config, events: seq<Event>)
    ensures var g := Run(c, START, events);
            && g.enqueues <= 1
            && (g.enqueues == 1 ==> (!c.hook || g.verified) && |g.answered| >= g.required >= 1)
            && (!g.ended && c.queueing ==>
                  (g.enqueues == 1 <==> (!c.hook || g.verified) && |g.answered| >= g.required))
            && Issued(g.answered, g.keepAliveID)
            && (g.pending == 0 || g.pending == g.keepAliveID)
            && g.valid <= g.keepAliveID
  {
    assert Inv(c, START);
    RunKeeps(c, START, events);
    var g := Run(c, START, events);
    IssuedLater(g.answered, if g.pending == 0 then g.keepAliveID else g.keepAliveID - 1, g.keepAliveID);
    IssuedCount(g.answered, g.keepAliveID);
  }

  // ---- How many answers are enough ----

  function Required(c: Config, asked: Option<int>): (n: int) {
    if !c.hook || asked.None? || asked.value < 1 then 1 else asked.value
  }

  /** The gate takes its first answer. */
  predicate FirstAnswer(g: Gate, e: Event) {
    !g.ended && g.answered == [] && g.pending != 0 && e.Answer? && e.id == Some(g.pending)
  }

  lemma FirstAnswerRequires(c: Config, g: Gate, e: Event)
    requires Inv(c, g) && FirstAnswer(g, e)
    ensures Step(c, g, e).challengeStarted && Step(c, g, e).required == Required(c, e.asked)
  {
    hide Issued;
  }

  lemma RequiredStays(c: Config, g: Gate, e: Event)
    requires g.challengeStarted
    ensures Step(c, g, e).challengeStarted && Step(c, g, e).required == g.required
  {
  }

  lemma {:induction false} RequiredStaysInRun(c: Config, g: Gate, events: seq<Event>)
    requires g.challengeStarted
    ensures Run(c, g, events).required == g.required
    decreases |events|
  {
    hide Step;
    if events == [] {
    } else {
      RequiredStays(c, g, events[0]);
      RequiredStaysInRun(c, Step(c, g, events[0]), events[1..]);
    }
  }

  lemma {:induction false} RunSplit(c: Config, g: Gate, events: seq<Event>, n: nat)
    requires n <= |events|
    ensures Run(c, g, events) == Run(c, Run(c, g, events[..n]), events[n..])
    decreases n
  {
    hide Step;
    if n == 0 {
      assert events[..0] == [] && events[0..] == events;
    } else {
      RunSplit(c, Step(c, g, events[0]), events[1..], n - 1);
      assert events[..n][1..] == events[1..][..n - 1] && events[n..] == events[1..][n - 1..];
    }
  }

  /** What the hook asks for at the first answer is how many distinct answers an admission takes, whatever follows. */
  lemma HookDecides(c: Config, events: seq<Event>, m: nat)
    requires m < |events| && FirstAnswer(Run(c, START, events[..m]), events[m])
    ensures var g := Run(c, START, events);
            && g.required == Required(c, events[m].asked)
            && (g.enqueues == 1 ==> |g.answered| >= Required(c, events[m].asked))
  {
    assert Inv(c, START);
    RunKeeps(c, START, events[..m]);
    FirstAnswerRequires(c, Run(c, START, events[..m]), events[m]);
    RunPush(c, START, events, m);
    RunSplit(c, START, events, m + 1);
    hide Step, Inv;
    RequiredStaysInRun(c, Run(c, START, events[..m + 1]), events[m + 1..]);
    AdmissionIsEarned(c, events);
  }

  /** When the session ends, when an answer counts, and when a new keepalive is issued. */
  lemma StepMeans(c: Config, g: Gate, e: Event)
    requires Inv(c, g) && !g.ended
    ensures var g' := Step(c, g, e);
            match e
            case Answer(id, asked, accepted) =>
              var right := g.pending != 0 && id == Some(g.pending);
              var passed := if g.challengeStarted then g.challengePassed else !c.hook;
              var required := if g.challengeStarted then g.required else Required(c, asked);
              var due := c.queueing && !g.queued && passed && g.valid + 1 >= required;
              && (g'.ended <==> !right || (due && !accepted))
              && (right ==> g'.pending == 0 && g'.valid == g.valid + 1 && g'.answered == g.answered + [g.pending])
              && (right && due && accepted ==> g'.queued)
            case ChallengeDone(passed, accepted) =>
              var awaited := c.hook && g.challengeStarted && !g.verified;
              var due := c.queueing && !g.queued && g.valid >= g.required;
              && (g'.ended <==> awaited && (!passed || (due && !accepted)))
              && (awaited && passed ==> g'.challengePassed && (due && accepted ==> g'.queued))
            case Tick =>
              && !g'.ended && g'.pending == g'.keepAliveID
              && g'.keepAliveID == g.keepAliveID + if g.pending == 0 then 1 else 0
            case TransferFailed => !g'.ended && g' == g.(pending := 0)
            case Leave => g'.ended
  {
    hide Issued;
  }

  // ---- The loop ----

  lemma {:induction false} RunPush(c: Config, g: Gate, events: seq<Event>, n: nat)
    requires n < |events|
    ensures Run(c, g, events[..n + 1]) == Step(c, Run(c, g, events[..n]), events[n])
    decreases n
  {
    hide Step;
    if n == 0 {
      assert events[..1] == [events[0]] && [events[0]][1..] == [];
    } else {
      RunPush(c, Step(c, g, events[0]), events[1..], n - 1);
      assert events[..n + 1][1..] == events[1..][..n] && events[..n][1..] == events[1..][..n - 1];
    }
  }

  lemma {:induction false} EndedStays(c: Config, g: Gate, events: seq<Event>, n: nat)
    requires n <= |events| && Run(c, g, events[..n]).ended
    ensures Run(c, g, events) == Run(c, g, events[..n])
    decreases |events| - n
  {
    if n == |events| {
      assert events[..n] == events;
    } else {
      RunPush(c, g, events, n);
      EndedStays(c, g, events, n + 1);
    }
  }

  /** The variables that serveLimbo declares before its loop and its closures share. */
  class Limbo {
    const config: Config
    var keepAliveID: int
    var pendingKeepAlive: int
    var challengeStarted: bool
    var challengePassed: bool
    var validKeepAlives: nat
    var requiredKeepAlives: int
    var queued: bool
    var challengePending: bool
    ghost var ended: bool
    ghost var answered: seq<int>
    ghost var enqueues: nat
    ghost var verified: bool

    ghost function Value(): (g: Gate)
      reads this
    {
      Gate(keepAliveID, pendingKeepAlive, challengeStarted, challengePassed, validKeepAlives, requiredKeepAlives,
           queued, ended, answered, enqueues, verified)
    }

    /** A challenge result is awaited from when the challenge starts until it arrives. */
    ghost predicate Valid()
      reads this
    {
      (challengePending <==> challengeStarted && config.hook && !verified) && (verified ==> challengeStarted)
    }

    constructor (config: Config)
      ensures Valid() && Value() == START && this.config == config
    {
      this.config := config;
      keepAliveID, pendingKeepAlive := 1, 1;
      challengeStarted, challengePassed, validKeepAlives, requiredKeepAlives, queued := false, false, 0, 1, false;
      challengePending := false;
      ended, answered, enqueues, verified := false, [], 0, false;
    }

    /** `accepted` is the queue's answer. */
    method Enqueue(accepted: bool) returns (ok: bool)
      requires !ended
      modifies this`queued, this`enqueues, this`ended
      ensures Value() == EnqueueStep(config, old(Value()), accepted) && ok == !ended
    {
      if queued || !config.queueing {
        return true;
      }
      if !accepted {
        ended := true;
        return false;
      }
      enqueues := enqueues + 1;
      queued := true;
      return true;
    }

    method MaybeEnqueue(accepted: bool) returns (ok: bool)
      requires !ended
      modifies this`queued, this`enqueues, this`ended
      ensures Value() == MaybeEnqueueStep(config, old(Value()), accepted) && ok == !ended
    {
      if challengePassed && validKeepAlives >= requiredKeepAlives {
        ok := Enqueue(accepted);
        return;
      }
      return true;
    }

    method StartChallenge(asked: Option<int>, accepted: bool) returns (ok: bool)
      requires Valid() && !ended
      modifies this
      ensures Valid() && Value() == StartChallengeStep(config, old(Value()), asked, accepted) && ok == !ended
    {
      if challengeStarted {
        return true;
      }
      challengeStarted := true;
      if !config.hook {
        challengePassed := true;
        ok := MaybeEnqueue(accepted);
        return;
      }
      if asked.Some? {
        requiredKeepAlives := asked.value;
        if requiredKeepAlives < 1 {
          requiredKeepAlives := 1;
        }
      }
      challengePending := true;
      return true;
    }

    /** A keepalive frame outside the barrier. */
    method OnKeepAlive(id: Option<int>, asked: Option<int>, accepted: bool) returns (ok: bool)
      requires Valid() && !ended
      modifies this
      ensures Valid() && Value() == Step(config, old(Value()), Answer(id, asked, accepted)) && ok == !ended
    {
      hide StartChallengeStep, MaybeEnqueueStep;
      if id.None? || pendingKeepAlive == 0 || id.value != pendingKeepAlive {
        ended := true;
        return false;
      }
      pendingKeepAlive := 0;
      validKeepAlives := validKeepAlives + 1;
      answered := answered + [id.value];
      ok := StartChallenge(asked, accepted);
      if ok {
        ok := MaybeEnqueue(accepted);
      }
    }

    method OnChallengeResult(passed: bool, accepted: bool) returns (ok: bool)
      requires Valid() && !ended
      modifies this
      ensures Valid() && Value() == Step(config, old(Value()), ChallengeDone(passed, accepted)) && ok == !ended
    {
      if !challengePending {
        return true;
      }
      if !passed {
        ended := true;
        return false;
      }
      challengePending := false;
      challengePassed := true;
      verified := true;
      ok := MaybeEnqueue(accepted);
    }

    method Serve(events: seq<Event>)
      requires Valid() && Value() == START
      modifies this
      ensures Value() == Run(config, START, events)
    {
      var n := 0;
      while n < |events|
        invariant n <= |events| && Valid() && !ended && Value() == Run(config, START, events[..n])
      {
        RunPush(config, START, events, n);
        var ok := true;
        match events[n] {
          case Answer(id, asked, accepted) => ok := OnKeepAlive(id, asked, accepted);
          case ChallengeDone(passed, accepted) => ok := OnChallengeResult(passed, accepted);
          case Tick =>
            if pendingKeepAlive == 0 {
              keepAliveID := keepAliveID + 1;
              pendingKeepAlive := keepAliveID;
            }
          case TransferFailed => pendingKeepAlive := 0;
          case Leave =>
            ended := true;
            ok := false;
        }
        n := n + 1;
        if !ok {
          EndedStays(config, START, events, n);
          return;
        }
      }
      assert events[..n] == events;
    }
  }
}
