/**
 internal/bridge/play.go: the Play bridge. Its select loop is a run over events, in whatever order
 the two readers and the context deliver them; `written` says whether the forwarding write succeeds.
 */
module Bridge {
  import opened Bytes
  import opened Play
  import VarInt

  const DEFAULT_MAX_PENDING: nat := 16

  datatype Event =
    | FromBackend(payload: bytes, written: bool)
    | FromClient(payload: bytes, written: bool)
    | Stop

  function Limit(configured: int): (max: nat)
    ensures max > 0 && (configured > 0 ==> max == configured)
  {
    if configured <= 0 then DEFAULT_MAX_PENDING else configured
  }

  /** The keepalive ID of a backend packet, if it is a well-formed keepalive. */
  function BackendKeepAlive(payload: bytes): (r: Option<int64>) {
    match PacketId(payload)
    case None => None
    case Some((id, body)) => if id == CLIENTBOUND_KEEP_ALIVE && |body| == 8 then Some(ToInt64(Read64(body))) else None
  }

  /** The gateway's own keepalives are read back as sent. */
  lemma BackendKeepAliveOf(id: int64)
    ensures BackendKeepAlive(KeepAlivePayload(id)) == Some(id)
  {
    PacketIdOf(CLIENTBOUND_KEEP_ALIVE, BigEndian(8, ToUint64(id)));
    Read64Of(ToUint64(id));
    hide PacketId, BigEndian, VarInt.Encode;
  }

  /** The pending set after a backend packet; None ends the bridge without forwarding it. */
  function OnBackend(pending: set<int64>, max: nat, payload: bytes): (r: Option<set<int64>>) {
    match PacketId(payload)
    case None => None
    case Some((id, body)) =>
      if id != CLIENTBOUND_KEEP_ALIVE then Some(pending)
      else if |body| != 8 || |pending| >= max then None
      else Some(pending + {ToInt64(Read64(body))})
  }

  /** The pending set after a client packet; None ends the bridge without forwarding it. */
  function OnClient(pending: set<int64>, payload: bytes): (r: Option<set<int64>>) {
    match PacketId(payload)
    case None => None
    case Some((id, _)) =>
      if id != SERVERBOUND_KEEP_ALIVE then Some(pending)
      else
        match ParseKeepAlive(payload)
        case None => None
        case Some(k) => if k in pending then Some(pending - {k}) else None
  }

  datatype State = State(
    running: bool, pending: set<int64>,
    toClient: seq<bytes>, toBackend: seq<bytes>,
    readBackend: seq<bytes>, readClient: seq<bytes>)

  const START := State(true, {}, [], [], [], [])

  function Step(max: nat, s: State, e: Event): (r: State) {
    if !s.running then s
    else
      match e
      case Stop => s.(running := false)
      case FromBackend(payload, written) =>
        var s' := s.(readBackend := s.readBackend + [payload]);
        match OnBackend(s.pending, max, payload) {
          case None => s'.(running := false)
          case Some(pending) =>
            if written then s'.(pending := pending, toClient := s.toClient + [payload])
            else s'.(pending := pending, running := false)
        }
      case FromClient(payload, written) =>
        var s' := s.(readClient := s.readClient + [payload]);
        match OnClient(s.pending, payload) {
          case None => s'.(running := false)
          case Some(pending) =>
            if written then s'.(pending := pending, toBackend := s.toBackend + [payload])
            else s'.(pending := pending, running := false)
        }
  }

  function Run(max: nat, s: State, events: seq<Event>): (r: State)
    decreases |events|
  {
    if events == [] then s else Run(max, Step(max, s, events[0]), events[1..])
  }

  // ---- The ledger ----

  function CountKeepAlives(frames: seq<bytes>, id: int64): (n: nat) {
    if frames == [] then 0
    else
      CountKeepAlives(frames[..|frames| - 1], id) + if BackendKeepAlive(frames[|frames| - 1]) == Some(id) then 1 else 0
  }

  function CountResponses(frames: seq<bytes>, id: int64): (n: nat) {
    if frames == [] then 0
    else CountResponses(frames[..|frames| - 1], id) + if ParseKeepAlive(frames[|frames| - 1]) == Some(id) then 1 else 0
  }

  lemma CountPush(frames: seq<bytes>, frame: bytes, id: int64)
    ensures CountKeepAlives(frames + [frame], id) ==
              CountKeepAlives(frames, id) + if BackendKeepAlive(frame) == Some(id) then 1 else 0
    ensures CountResponses(frames + [frame], id) ==
              CountResponses(frames, id) + if ParseKeepAlive(frame) == Some(id) then 1 else 0
  {
    assert (frames + [frame])[..|frames|] == frames;
  }

  /** One unanswered keepalive for every pending ID, and never a response too many. */
  ghost predicate LedgerAt(s: State, id: int64) {
    CountResponses(s.toBackend, id) + (if s.running && id in s.pending then 1 else 0) <= CountKeepAlives(s.toClient, id)
  }

  ghost predicate Inv(max: nat, s: State) {
    && |s.pending| <= max
    && (forall id :: LedgerAt(s, id))
    && s.toClient <= s.readBackend && s.toBackend <= s.readClient
    && (s.running ==> s.toClient == s.readBackend && s.toBackend == s.readClient)
  }

  lemma BackendLedger(max: nat, s: State, payload: bytes, written: bool, id: int64)
    requires s.running && LedgerAt(s, id)
    ensures LedgerAt(Step(max, s, FromBackend(payload, written)), id)
  {
    hide CountKeepAlives, CountResponses, Read64;
    CountPush(s.toClient, payload, id);
  }

  lemma ClientLedger(max: nat, s: State, payload: bytes, written: bool, id: int64)
    requires s.running && LedgerAt(s, id)
    ensures LedgerAt(Step(max, s, FromClient(payload, written)), id)
  {
    hide CountKeepAlives, CountResponses, Read64;
    CountPush(s.toBackend, payload, id);
  }

  lemma StepLedger(max: nat, s: State, e: Event, id: int64)
    requires LedgerAt(s, id)
    ensures LedgerAt(Step(max, s, e), id)
  {
    if s.running {
      match e
      case FromBackend(payload, written) => BackendLedger(max, s, payload, written, id);
      case FromClient(payload, written) => ClientLedger(max, s, payload, written, id);
      case Stop =>
    }
  }

  lemma StepKeeps(max: nat, s: State, e: Event)
    requires Inv(max, s)
    ensures Inv(max, Step(max, s, e))
  {
    hide LedgerAt, Read64, PacketId, ParseKeepAlive;
    forall id ensures LedgerAt(Step(max, s, e), id) {
      StepLedger(max, s, e, id);
    }
  }

  /** Over every interleaving: both directions forward a prefix of what they read, unchanged, the pending set is
      bounded, and responses never outnumber the keepalives they answer. */
  lemma {:induction false} RunKeeps(max: nat, s: State, events: seq<Event>)
    requires Inv(max, s)
    ensures Inv(max, Run(max, s, events))
    decreases |events|
  {
    if events == [] {
    } else {
      hide Inv, Step;
      StepKeeps(max, s, events[0]);
      RunKeeps(max, Step(max, s, events[0]), events[1..]);
    }
  }

  lemma BridgeIsFaithful(configured: int, events: seq<Event>, id: int64)
    ensures var s := Run(Limit(configured), START, events);
            && s.toClient <= s.readBackend && s.toBackend <= s.readClient
            && (s.running ==> s.toClient == s.readBackend && s.toBackend == s.readClient)
            && |s.pending| <= Limit(configured)
            && CountResponses(s.toBackend, id) <= CountKeepAlives(s.toClient, id)
  {
    assert Inv(Limit(configured), START);
    RunKeeps(Limit(configured), START, events);
    assert LedgerAt(Run(Limit(configured), START, events), id);
  }

  // ---- When a frame passes ----

  predicate IsAnswer(e: Event, k: int64) { e.FromClient? && ParseKeepAlive(e.payload) == Some(k) }

  predicate IsQuestion(e: Event, k: int64) { e.FromBackend? && BackendKeepAlive(e.payload) == Some(k) }

  /** Some backend keepalive with this ID was read, and no answer to it since. */
  ghost predicate Open(events: seq<Event>, k: int64) {
    exists i | 0 <= i < |events| :: IsQuestion(events[i], k) && forall j | i < j < |events| :: !IsAnswer(events[j], k)
  }

  lemma OpenPush(events: seq<Event>, e: Event, k: int64)
    ensures Open(events + [e], k) <==> IsQuestion(e, k) || (Open(events, k) && !IsAnswer(e, k))
  {
    hide IsQuestion, IsAnswer;
    KindsDiffer(e, k);
    var all := events + [e];
    if Open(all, k) && !IsQuestion(e, k) {
      var i :| 0 <= i < |all| && IsQuestion(all[i], k) && forall j | i < j < |all| :: !IsAnswer(all[j], k);
      assert IsQuestion(events[i], k) && all[|events|] == e;
      assert forall j | i < j < |events| :: all[j] == events[j];
    }
    if Open(events, k) && !IsAnswer(e, k) {
      var i :| 0 <= i < |events| && IsQuestion(events[i], k) && forall j | i < j < |events| :: !IsAnswer(events[j], k);
      assert IsQuestion(all[i], k);
    }
    if IsQuestion(e, k) {
      assert all[|events|] == e;
    }
  }

  lemma KindsDiffer(e: Event, k: int64)
    ensures !(IsQuestion(e, k) && IsAnswer(e, k))
  {
  }

  /** One step of the pending set, for one ID. */
  lemma PendingStep(max: nat, s: State, e: Event, k: int64)
    requires s.running && Step(max, s, e).running
    ensures k in Step(max, s, e).pending <==> IsQuestion(e, k) || (k in s.pending && !IsAnswer(e, k))
  {
    hide Read64;
  }

  /** While the bridge runs, exactly the open keepalives are pending. */
  lemma {:induction false} PendingIsOpen(max: nat, events: seq<Event>, k: int64)
    requires Run(max, START, events).running
    ensures k in Run(max, START, events).pending <==> Open(events, k)
    decreases |events|
  {
    if events == [] {
    } else {
      var n := |events| - 1;
      var front, e := events[..n], events[n];
      RunPush(max, START, events, n);
      assert events[..n + 1] == events && events == front + [e];
      var s := Run(max, START, front);
      hide Run, Step, IsQuestion, IsAnswer, Open;
      if s.running {
        PendingIsOpen(max, front, k);
        PendingStep(max, s, e, k);
        OpenPush(front, e, k);
      } else {
        StoppedStep(max, s, e);
      }
    }
  }

  lemma StoppedStep(max: nat, s: State, e: Event)
    requires !s.running
    ensures Step(max, s, e) == s
  {
  }

  /** A frame whose ID can be read, if it is a keepalive a well-formed one that the ledger allows. */
  ghost predicate Passes(max: nat, pending: set<int64>, e: Event) {
    match e
    case Stop => false
    case FromBackend(payload, written) =>
      && written && PacketId(payload).Some?
      && (PacketId(payload).value.0 == CLIENTBOUND_KEEP_ALIVE ==> BackendKeepAlive(payload).Some? && |pending| < max)
    case FromClient(payload, written) =>
      && written && PacketId(payload).Some?
      && (PacketId(payload).value.0 == SERVERBOUND_KEEP_ALIVE ==>
            ParseKeepAlive(payload).Some? && ParseKeepAlive(payload).value in pending)
  }

  lemma StepPasses(max: nat, s: State, e: Event)
    requires s.running
    ensures var s' := Step(max, s, e);
            && (s'.running <==> Passes(max, s.pending, e))
            && s'.toClient == s.toClient + (if s'.running && e.FromBackend? then [e.payload] else [])
            && s'.toBackend == s.toBackend + (if s'.running && e.FromClient? then [e.payload] else [])
  {
    hide PacketId, Read64;
    assert s.toClient + [] == s.toClient && s.toBackend + [] == s.toBackend;
  }

  /**
   A running bridge goes on, and forwards the frame, exactly in these cases. A client keepalive passes if and only
   if it answers an open one; a backend keepalive if and only if it is well-formed and fewer than max are open;
   every other packet with a readable ID passes.
   */
  lemma BridgeGoesOn(max: nat, events: seq<Event>, e: Event, open: set<int64>)
    requires Run(max, START, events).running && forall k :: k in open <==> Open(events, k)
    ensures var s, s' := Run(max, START, events), Run(max, START, events + [e]);
            && (s'.running <==> Passes(max, open, e))
            && s'.toClient == s.toClient + (if s'.running && e.FromBackend? then [e.payload] else [])
            && s'.toBackend == s.toBackend + (if s'.running && e.FromClient? then [e.payload] else [])
  {
    var s := Run(max, START, events);
    RunPush(max, START, events + [e], |events|);
    assert (events + [e])[..|events|] == events && (events + [e])[..|events| + 1] == events + [e];
    hide Run, Step, Open, Passes;
    forall k ensures k in s.pending <==> k in open {
      PendingIsOpen(max, events, k);
    }
    assert s.pending == open;
    StepPasses(max, s, e);
  }

  // ---- The loop ----

  lemma {:induction false} RunPush(max: nat, s: State, events: seq<Event>, n: nat)
    requires n < |events|
    ensures Run(max, s, events[..n + 1]) == Step(max, Run(max, s, events[..n]), events[n])
    decreases n
  {
    hide Step;
    if n == 0 {
      assert events[..1] == [events[0]] && [events[0]][1..] == [];
    } else {
      RunPush(max, Step(max, s, events[0]), events[1..], n - 1);
      assert events[..n + 1][1..] == events[1..][..n] && events[..n][1..] == events[1..][..n - 1];
    }
  }

  lemma {:induction false} StoppedStays(max: nat, s: State, events: seq<Event>)
    requires !s.running
    ensures Run(max, s, events) == s
    decreases |events|
  {
    if events == [] {
    } else {
      StoppedStays(max, s, events[1..]);
    }
  }

  lemma {:induction false} RunSplit(max: nat, s: State, events: seq<Event>, n: nat)
    requires n <= |events|
    ensures Run(max, s, events) == Run(max, Run(max, s, events[..n]), events[n..])
    decreases n
  {
    hide Step;
    if n == 0 {
      assert events[..0] == [] && events[0..] == events;
    } else {
      RunSplit(max, Step(max, s, events[0]), events[1..], n - 1);
      assert events[..n][1..] == events[1..][..n - 1] && events[n..] == events[1..][n - 1..];
    }
  }

  /** RunPlay over the events of one bridge: what it forwarded each way. */
  method RunPlay(configured: int, events: seq<Event>) returns (toClient: seq<bytes>, toBackend: seq<bytes>)
    ensures var s := Run(Limit(configured), START, events); toClient == s.toClient && toBackend == s.toBackend
  {
    var max := Limit(configured);
    var pending: set<int64> := {};
    toClient, toBackend := [], [];
    for n := 0 to |events|
      invariant var s := Run(max, START, events[..n]);
                s.running && s.pending == pending && s.toClient == toClient && s.toBackend == toBackend
    {
      RunPush(max, START, events, n);
      ghost var s := Run(max, START, events[..n]);
      ghost var next := Step(max, s, events[n]);
      Ends(max, events, n);
      match events[n]
      case Stop =>
        return;
      case FromBackend(payload, written) =>
        var packet := PacketId(payload);
        if packet.None? {
          return;
        }
        var (id, body) := packet.value;
        if id == CLIENTBOUND_KEEP_ALIVE {
          if |body| != 8 || |pending| >= max {
            return;
          }
          pending := pending + {ToInt64(Read64(body))};
        }
        if !written {
          return;
        }
        toClient := toClient + [payload];
      case FromClient(payload, written) =>
        var packet := PacketId(payload);
        if packet.None? {
          return;
        }
        if packet.value.0 == SERVERBOUND_KEEP_ALIVE {
          var k := ParseKeepAlive(payload);
          if k.None? || k.value !in pending {
            return;
          }
          pending := pending - {k.value};
        }
        if !written {
          return;
        }
        toBackend := toBackend + [payload];
    }
    assert events[..|events|] == events;
  }

  /** Once a step stops the bridge, the run is over. */
  lemma Ends(max: nat, events: seq<Event>, n: nat)
    requires n < |events|
    ensures var next := Step(max, Run(max, START, events[..n]), events[n]);
            !next.running ==> Run(max, START, events) == next
  {
    hide Step;
    RunPush(max, START, events, n);
    RunSplit(max, START, events, n + 1);
    var next := Step(max, Run(max, START, events[..n]), events[n]);
    if !next.running {
      StoppedStays(max, next, events[n + 1..]);
    }
  }
}
