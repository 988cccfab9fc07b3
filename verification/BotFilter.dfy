/**
 internal/botfilter/filter.go: per-address reputation. Times are nanoseconds counted from the
 zero time, so that a zero BlockedUntil lies before every clock reading.
 */
module BotFilter {
  import opened Windows

  datatype Policy = Policy(
    enabled: bool,
    hold: int,
    window: int, violationLimit: int, denyTTL: int,
    softLoginBurst: int, burstWindow: int,
    usernameChurn: int, churnWindow: int)

  datatype Verdict = Allow | Observe | Deny

  datatype Decision = Decision(verdict: Verdict, observeFor: int, rule: string)

  /** One Evaluate call: the evidence it uses and the clock reading it makes. */
  datatype Call = Call(ip: string, username: string, violation: bool, at: nat)

  const DISABLED := Decision(Allow, 0, "disabled")
  const BLOCKED := Decision(Deny, 0, "reputation_deny")
  const VIOLATION := Decision(Deny, 0, "protocol_violation")
  const ALLOWED := Decision(Allow, 0, "allow")

  function Observed(p: Policy): (d: Decision) { Decision(Observe, p.hold, "soft_burst") }

  // ---- The store as a value ----

  datatype Reputation = Reputation(
    bursts: seq<int>, usernames: map<string, int>, violations: seq<int>, blockedUntil: int)

  const FRESH := Reputation([], map[], [], 0)

  type Entries = map<string, Reputation>

  function Lookup(entries: Entries, ip: string): (e: Reputation) {
    if ip in entries then entries[ip] else FRESH
  }

  function RecentNames(usernames: map<string, int>, cutoff: int): (r: map<string, int>) {
    map name | name in usernames && usernames[name] >= cutoff :: usernames[name]
  }

  function Pruned(p: Policy, e: Reputation, now: int): (r: Reputation) {
    Reputation(
      Recent(e.bursts, now - p.burstWindow - 1),
      RecentNames(e.usernames, now - p.churnWindow),
      Recent(e.violations, now - p.window - 1),
      e.blockedUntil)
  }

  function WithViolation(p: Policy, e: Reputation, now: int): (r: Reputation) {
    var violations := e.violations + [now];
    e.(violations := violations,
       blockedUntil := if |violations| >= p.violationLimit then now + p.denyTTL else e.blockedUntil)
  }

  function WithAttempt(e: Reputation, username: string, now: int): (r: Reputation) {
    e.(bursts := e.bursts + [now], usernames := if username != "" then e.usernames[username := now] else e.usernames)
  }

  /** The effect of one call on an already pruned entry. */
  function Judge(p: Policy, e: Reputation, c: Call): (r: (Reputation, Decision)) {
    if e.blockedUntil > c.at then (e, BLOCKED)
    else if c.violation then (WithViolation(p, e, c.at), VIOLATION)
    else
      var e' := WithAttempt(e, c.username, c.at);
      (e', if |e'.bursts| >= p.softLoginBurst || |e'.usernames| >= p.usernameChurn then Observed(p) else ALLOWED)
  }

  function EvaluateStep(p: Policy, entries: Entries, c: Call): (r: (Entries, Decision)) {
    if !p.enabled then (entries, DISABLED)
    else
      var (e, d) := Judge(p, Pruned(p, Lookup(entries, c.ip), c.at), c);
      (entries[c.ip := e], d)
  }

  predicate Useless(e: Reputation, now: int) {
    e.bursts == [] && e.usernames == map[] && e.violations == [] && e.blockedUntil <= now
  }

  function CleanupStep(p: Policy, entries: Entries, now: int): (r: Entries) {
    if !p.enabled then map[]
    else map ip | ip in entries && !Useless(Pruned(p, entries[ip], now), now) :: Pruned(p, entries[ip], now)
  }

  // ---- The full-history specification, for the calls of one address ----

  /** The address is blocked at `now` when some earlier violation reached the limit less than denyTTL ago. */
  ghost predicate Blocked(p: Policy, h: seq<Call>, now: int)
    decreases |h|, 2
  {
    exists j | 0 <= j < |h| :: Triggers(p, h[..j + 1]) && now < h[j].at + p.denyTTL
  }

  /** The last call is a recorded violation that makes violationLimit within the reputation window. */
  ghost predicate Triggers(p: Policy, h: seq<Call>)
    requires h != []
    decreases |h|, 1
  {
    var last := h[|h| - 1];
    && last.violation
    && !Blocked(p, h[..|h| - 1], last.at)
    && CountIn(Violations(p, h), last.at - p.window - 1, last.at) >= p.violationLimit
  }

  /** The times of all recorded violations: calls made while blocked leave no trace. */
  ghost function Violations(p: Policy, h: seq<Call>): (times: seq<int>)
    decreases |h|, 0
  {
    if h == [] then []
    else
      var front, last := h[..|h| - 1], h[|h| - 1];
      Violations(p, front) + if last.violation && !Blocked(p, front, last.at) then [last.at] else []
  }

  ghost predicate RecordedAttempt(p: Policy, h: seq<Call>, k: nat)
    requires k < |h|
  {
    !h[k].violation && !Blocked(p, h[..k], h[k].at)
  }

  /** The times of all recorded attempts. */
  ghost function Attempts(p: Policy, h: seq<Call>): (times: seq<int>) {
    if h == [] then []
    else
      var n := |h| - 1;
      Attempts(p, h[..n]) + if RecordedAttempt(p, h, n) then [h[n].at] else []
  }

  /** The distinct names of the recorded attempts since the cutoff. */
  ghost function Names(p: Policy, h: seq<Call>, cutoff: int): (names: set<string>) {
    set k | 0 <= k < |h| && RecordedAttempt(p, h, k) && h[k].username != "" && h[k].at >= cutoff :: h[k].username
  }

  /** The decision the last call deserves in view of everything that ever happened. */
  ghost function Deserved(p: Policy, h: seq<Call>): (d: Decision)
    requires h != []
  {
    var front, last := h[..|h| - 1], h[|h| - 1];
    if Blocked(p, front, last.at) then BLOCKED
    else if last.violation then VIOLATION
    else if CountIn(Attempts(p, h), last.at - p.burstWindow - 1, last.at) >= p.softLoginBurst
            || |Names(p, h, last.at - p.churnWindow)| >= p.usernameChurn then Observed(p)
    else ALLOWED
  }

  // ---- What a store must still know of an address ----

  ghost predicate TracksTimes(full: seq<int>, kept: seq<int>, now: int, window: int) {
    Sorted(full) && AllUpTo(full, now) && Keeps(full, kept, now - window - 1)
  }

  /** Attempt k is remembered under its name, or too old to matter. */
  ghost predicate NameKept(p: Policy, h: seq<Call>, k: nat, usernames: map<string, int>, now: int)
    requires k < |h|
  {
    h[k].at < now - p.churnWindow || (h[k].username in usernames && h[k].at <= usernames[h[k].username])
  }

  ghost predicate NameSeen(p: Policy, h: seq<Call>, name: string, at: int) {
    exists k | 0 <= k < |h| :: RecordedAttempt(p, h, k) && h[k].username == name && h[k].at == at
  }

  ghost predicate TracksNames(p: Policy, h: seq<Call>, usernames: map<string, int>, now: int) {
    && (forall k | 0 <= k < |h| && h[k].username != "" && RecordedAttempt(p, h, k) :: NameKept(p, h, k, usernames, now))
    && (forall name | name in usernames :: name != "" && NameSeen(p, h, name, usernames[name]))
  }

  ghost predicate TracksBlock(p: Policy, h: seq<Call>, blockedUntil: int, now: int) {
    forall t | t >= now :: Blocked(p, h, t) <==> t < blockedUntil
  }

  ghost predicate Tracks(p: Policy, h: seq<Call>, e: Reputation, now: int) {
    && TracksTimes(Attempts(p, h), e.bursts, now, p.burstWindow)
    && TracksTimes(Violations(p, h), e.violations, now, p.window)
    && TracksNames(p, h, e.usernames, now)
    && TracksBlock(p, h, e.blockedUntil, now)
  }

  // ---- Growing the history by one call ----

  lemma BlockedPush(p: Policy, h: seq<Call>, c: Call, now: int)
    ensures Blocked(p, h + [c], now) <==> Blocked(p, h, now) || (Triggers(p, h + [c]) && now < c.at + p.denyTTL)
  {
    var g := h + [c];
    assert g[..|h| + 1] == g;
    assert forall j | 0 <= j < |h| :: g[..j + 1] == h[..j + 1] && g[j] == h[j];
  }

  lemma ViolationsPush(p: Policy, h: seq<Call>, c: Call)
    ensures Violations(p, h + [c]) ==
              Violations(p, h) + if c.violation && !Blocked(p, h, c.at) then [c.at as int] else []
  {
    assert (h + [c])[..|h|] == h;
  }

  lemma AttemptsPush(p: Policy, h: seq<Call>, c: Call)
    ensures Attempts(p, h + [c]) == Attempts(p, h) + if !c.violation && !Blocked(p, h, c.at) then [c.at as int] else []
  {
    assert (h + [c])[..|h|] == h;
  }

  lemma RecordedPush(p: Policy, h: seq<Call>, c: Call)
    ensures forall k: nat | k < |h| :: RecordedAttempt(p, h + [c], k) == RecordedAttempt(p, h, k)
    ensures RecordedAttempt(p, h + [c], |h|) == (!c.violation && !Blocked(p, h, c.at))
  {
    forall k: nat | k <= |h| ensures (h + [c])[..k] == h[..k] {}
    assert h[..|h|] == h;
  }

  // ---- Pruning keeps everything that matters from now on ----

  lemma TimesPruned(full: seq<int>, kept: seq<int>, last: int, now: int, window: int)
    requires TracksTimes(full, kept, last, window) && last <= now
    ensures TracksTimes(full, Recent(kept, now - window - 1), now, window)
    ensures CountIn(full, now - window - 1, now) == |Recent(kept, now - window - 1)|
  {
    hide Keeps, Recent, CountIn, Sorted;
    assert AllUpTo(full, now);
    hide AllUpTo;
    KeepsCount(full, kept, last - window - 1, now - window - 1, now);
  }

  lemma TimesPushed(full: seq<int>, kept: seq<int>, now: int, window: int)
    requires TracksTimes(full, kept, now, window) && window >= 0
    requires |kept| == CountIn(full, now - window - 1, now)
    ensures TracksTimes(full + [now], kept + [now], now, window)
    ensures CountIn(full + [now], now - window - 1, now) == |kept + [now]|
  {
    assert Sorted(full + [now]) && AllUpTo(full + [now], now);
    assert CountIn([now], now - window - 1, now) == 1 by { assert [now][..0] == []; }
    hide Keeps, CountIn, AllUpTo, Sorted;
    KeepsPush(full, kept, now - window - 1, now);
    CountConcat(full, [now], now - window - 1, now);
  }

  lemma Pruning(p: Policy, h: seq<Call>, e: Reputation, last: int, now: int)
    requires Tracks(p, h, e, last) && last <= now
    ensures Tracks(p, h, Pruned(p, e, now), now)
    ensures |Pruned(p, e, now).bursts| == CountIn(Attempts(p, h), now - p.burstWindow - 1, now)
    ensures |Pruned(p, e, now).violations| == CountIn(Violations(p, h), now - p.window - 1, now)
  {
    hide TracksTimes, CountIn, Attempts, Violations, Blocked, RecordedAttempt, Recent;
    TimesPruned(Attempts(p, h), e.bursts, last, now, p.burstWindow);
    TimesPruned(Violations(p, h), e.violations, last, now, p.window);
  }

  /** The names left after pruning are exactly the distinct names inside the churn window. */
  lemma NamesAre(p: Policy, h: seq<Call>, usernames: map<string, int>, now: int)
    requires TracksNames(p, h, usernames, now)
    requires forall name | name in usernames :: usernames[name] >= now - p.churnWindow
    ensures usernames.Keys == Names(p, h, now - p.churnWindow)
  {
    hide RecordedAttempt;
    var cutoff := now - p.churnWindow;
    forall name | name in usernames ensures name in Names(p, h, cutoff) {
      assert NameSeen(p, h, name, usernames[name]);
    }
    forall name | name in Names(p, h, cutoff) ensures name in usernames {
      var k :| 0 <= k < |h| && RecordedAttempt(p, h, k) && h[k].username != "" && h[k].at >= cutoff
          && h[k].username == name;
      assert NameKept(p, h, k, usernames, now);
    }
  }

  // ---- One call ----

  lemma NamesUntouched(p: Policy, h: seq<Call>, usernames: map<string, int>, c: Call)
    requires TracksNames(p, h, usernames, c.at) && (c.violation || Blocked(p, h, c.at) || c.username == "")
    ensures TracksNames(p, h + [c], usernames, c.at)
  {
    RecordedPush(p, h, c);
    hide RecordedAttempt, Blocked;
    forall name | name in usernames ensures NameSeen(p, h + [c], name, usernames[name]) {
      assert NameSeen(p, h, name, usernames[name]);
      var k :| 0 <= k < |h| && RecordedAttempt(p, h, k) && h[k].username == name && h[k].at == usernames[name];
      assert (h + [c])[k] == h[k];
    }
    forall k | 0 <= k < |h + [c]| && (h + [c])[k].username != "" && RecordedAttempt(p, h + [c], k)
      ensures NameKept(p, h + [c], k, usernames, c.at)
    {
      assert k < |h| ==> NameKept(p, h, k, usernames, c.at);
    }
  }

  lemma NamesUpdated(p: Policy, h: seq<Call>, usernames: map<string, int>, c: Call)
    requires TracksNames(p, h, usernames, c.at) && !c.violation && !Blocked(p, h, c.at) && c.username != ""
    requires forall k | 0 <= k < |h| :: h[k].at <= c.at
    ensures TracksNames(p, h + [c], usernames[c.username := c.at], c.at)
  {
    RecordedPush(p, h, c);
    hide RecordedAttempt, Blocked;
    var g := h + [c];
    var usernames' := usernames[c.username := c.at];
    forall name | name in usernames' ensures NameSeen(p, g, name, usernames'[name]) {
      if name == c.username {
        assert g[|h|] == c;
      } else {
        assert NameSeen(p, h, name, usernames[name]);
        var k :| 0 <= k < |h| && RecordedAttempt(p, h, k) && h[k].username == name && h[k].at == usernames[name];
        assert g[k] == h[k];
      }
    }
    forall k | 0 <= k < |g| && g[k].username != "" && RecordedAttempt(p, g, k)
      ensures NameKept(p, g, k, usernames', c.at)
    {
      assert k < |h| ==> NameKept(p, h, k, usernames, c.at) && g[k] == h[k];
    }
  }

  lemma BlockUntouched(p: Policy, h: seq<Call>, e: Reputation, c: Call)
    requires TracksBlock(p, h, e.blockedUntil, c.at) && (Blocked(p, h, c.at) || !Triggers(p, h + [c]))
    ensures TracksBlock(p, h + [c], e.blockedUntil, c.at)
  {
    assert (h + [c])[..|h|] == h;
    forall t | t >= c.at ensures Blocked(p, h + [c], t) <==> t < e.blockedUntil {
      BlockedPush(p, h, c, t);
    }
  }

  lemma BlockStarts(p: Policy, h: seq<Call>, e: Reputation, c: Call)
    requires TracksBlock(p, h, e.blockedUntil, c.at) && !Blocked(p, h, c.at) && Triggers(p, h + [c])
    ensures TracksBlock(p, h + [c], c.at + p.denyTTL, c.at)
  {
    forall t | t >= c.at ensures Blocked(p, h + [c], t) <==> t < c.at + p.denyTTL {
      BlockedPush(p, h, c, t);
      assert Blocked(p, h, t) ==> t < e.blockedUntil;
    }
  }

  ghost predicate CallsUpTo(h: seq<Call>, now: int) {
    forall k | 0 <= k < |h| :: h[k].at <= now
  }

  /** What Validate asks of an enabled policy. */
  predicate Validated(p: Policy) {
    p.enabled ==>
      && p.hold > 0
      && p.window > 0 && p.violationLimit > 0 && p.denyTTL > 0
      && p.softLoginBurst > 0 && p.burstWindow > 0 && p.usernameChurn > 0 && p.churnWindow > 0
  }

  /** A pruned entry, ready to be judged at `now`. */
  ghost predicate Ready(p: Policy, h: seq<Call>, e: Reputation, now: int) {
    && Tracks(p, h, e, now)
    && |e.bursts| == CountIn(Attempts(p, h), now - p.burstWindow - 1, now)
    && |e.violations| == CountIn(Violations(p, h), now - p.window - 1, now)
    && forall name | name in e.usernames :: e.usernames[name] >= now - p.churnWindow
  }

  lemma PruningReadies(p: Policy, h: seq<Call>, e: Reputation, last: int, now: int)
    requires Tracks(p, h, e, last) && last <= now
    ensures Ready(p, h, Pruned(p, e, now), now)
  {
    hide Tracks, CountIn, Attempts, Violations, Recent;
    Pruning(p, h, e, last, now);
  }

  lemma JudgeBlocked(p: Policy, h: seq<Call>, e: Reputation, c: Call)
    requires Ready(p, h, e, c.at) && Blocked(p, h, c.at)
    ensures Judge(p, e, c) == (e, Deserved(p, h + [c])) && Tracks(p, h + [c], e, c.at)
  {
    hide TracksTimes, TracksNames, Triggers, Violations, Attempts, CountIn;
    assert (h + [c])[..|h|] == h;
    assert c.at < e.blockedUntil;
    ViolationsPush(p, h, c);
    AttemptsPush(p, h, c);
    assert Attempts(p, h) + [] == Attempts(p, h) && Violations(p, h) + [] == Violations(p, h);
    NamesUntouched(p, h, e.usernames, c);
    BlockUntouched(p, h, e, c);
  }

  lemma JudgeViolation(p: Policy, h: seq<Call>, e: Reputation, c: Call)
    requires p.window > 0 && Ready(p, h, e, c.at) && !Blocked(p, h, c.at) && c.violation
    ensures Judge(p, e, c).1 == Deserved(p, h + [c]) && Tracks(p, h + [c], Judge(p, e, c).0, c.at)
  {
    hide TracksTimes, TracksNames, Violations, Attempts, CountIn, Blocked;
    var g := h + [c];
    assert g[..|h|] == h;
    assert !(c.at < e.blockedUntil);
    ViolationsPush(p, h, c);
    AttemptsPush(p, h, c);
    assert Attempts(p, h) + [] == Attempts(p, h);
    TimesPushed(Violations(p, h), e.violations, c.at, p.window);
    NamesUntouched(p, h, e.usernames, c);
    if |e.violations + [c.at as int]| >= p.violationLimit {
      BlockStarts(p, h, e, c);
    } else {
      BlockUntouched(p, h, e, c);
    }
  }

  lemma JudgeAttempt(p: Policy, h: seq<Call>, e: Reputation, c: Call)
    requires p.burstWindow > 0 && p.churnWindow > 0 && CallsUpTo(h, c.at)
    requires Ready(p, h, e, c.at) && !Blocked(p, h, c.at) && !c.violation
    ensures Judge(p, e, c).1 == Deserved(p, h + [c]) && Tracks(p, h + [c], Judge(p, e, c).0, c.at)
  {
    hide TracksTimes, TracksNames, Violations, Attempts, CountIn, Blocked, Names;
    var g := h + [c];
    assert g[..|h|] == h;
    assert !(c.at < e.blockedUntil);
    ViolationsPush(p, h, c);
    AttemptsPush(p, h, c);
    assert Violations(p, h) + [] == Violations(p, h);
    TimesPushed(Attempts(p, h), e.bursts, c.at, p.burstWindow);
    if c.username == "" {
      NamesUntouched(p, h, e.usernames, c);
    } else {
      NamesUpdated(p, h, e.usernames, c);
    }
    BlockUntouched(p, h, e, c);
    var e' := WithAttempt(e, c.username, c.at);
    NamesAre(p, g, e'.usernames, c.at);
    assert |e'.usernames| == |e'.usernames.Keys|;
  }

  /** One call on one address: the decision is the deserved one, and nothing that matters later is lost. */
  lemma CallTracks(p: Policy, h: seq<Call>, e: Reputation, last: int, c: Call)
    requires p.enabled && Validated(p) && Tracks(p, h, e, last) && CallsUpTo(h, last) && last <= c.at
    ensures var (e', d) := Judge(p, Pruned(p, e, c.at), c);
            d == Deserved(p, h + [c]) && Tracks(p, h + [c], e', c.at)
  {
    var ready := Pruned(p, e, c.at);
    PruningReadies(p, h, e, last, c.at);
    hide Tracks, Ready, Judge, Pruned, Deserved, Blocked;
    if Blocked(p, h, c.at) {
      JudgeBlocked(p, h, ready, c);
    } else if c.violation {
      JudgeViolation(p, h, ready, c);
    } else {
      JudgeAttempt(p, h, ready, c);
    }
  }

  /** An entry that cleanup deletes knew nothing that a fresh one does not. */
  lemma UselessIsFresh(p: Policy, h: seq<Call>, e: Reputation, now: nat)
    requires Tracks(p, h, e, now) && Useless(e, now)
    ensures Tracks(p, h, FRESH, now)
  {
    hide Blocked;
    assert e == FRESH.(blockedUntil := e.blockedUntil);
  }

  // ---- Runs ----

  datatype Event = Evaluate(call: Call) | Cleanup(now: nat)

  function TimeOf(e: Event): (t: nat) {
    match e
    case Evaluate(c) => c.at
    case Cleanup(now) => now
  }

  ghost predicate Nondecreasing(events: seq<Event>) {
    forall i, j | 0 <= i < j < |events| :: TimeOf(events[i]) <= TimeOf(events[j])
  }

  /** The entries and decisions after a run. */
  function Run(p: Policy, events: seq<Event>): (r: (Entries, seq<Decision>)) {
    if events == [] then (map[], [])
    else
      var (entries, decisions) := Run(p, events[..|events| - 1]);
      match events[|events| - 1]
      case Evaluate(c) =>
        var (entries', d) := EvaluateStep(p, entries, c);
        (entries', decisions + [d])
      case Cleanup(now) => (CleanupStep(p, entries, now), decisions)
  }

  function Calls(events: seq<Event>): (calls: seq<Call>) {
    if events == [] then []
    else Calls(events[..|events| - 1]) + if events[|events| - 1].Evaluate? then [events[|events| - 1].call] else []
  }

  /** The calls of one address. */
  function Of(calls: seq<Call>, ip: string): (h: seq<Call>) {
    if calls == [] then []
    else Of(calls[..|calls| - 1], ip) + if calls[|calls| - 1].ip == ip then [calls[|calls| - 1]] else []
  }

  /** What every call in turn deserves, by the whole history of its address. */
  ghost function DeservedAll(p: Policy, calls: seq<Call>): (ds: seq<Decision>) {
    if calls == [] then []
    else
      var n := |calls| - 1;
      OfLast(calls);
      DeservedAll(p, calls[..n]) + [Deserved(p, Of(calls, calls[n].ip))]
  }

  lemma OfLast(calls: seq<Call>)
    requires calls != []
    ensures Of(calls, calls[|calls| - 1].ip) != []
  {
  }

  ghost predicate Refines(p: Policy, entries: Entries, calls: seq<Call>, now: int) {
    forall ip :: Tracks(p, Of(calls, ip), Lookup(entries, ip), now) && CallsUpTo(Of(calls, ip), now)
  }

  ghost predicate RunCorrect(p: Policy, events: seq<Event>, now: int) {
    && Refines(p, Run(p, events).0, Calls(events), now)
    && Run(p, events).1 == DeservedAll(p, Calls(events))
  }

  lemma EmptyCorrect(p: Policy, now: nat)
    ensures RunCorrect(p, [], now)
  {
    forall ip ensures Tracks(p, Of([], ip), FRESH, now) {
      Split([], [], [], now - p.burstWindow - 1);
      Split([], [], [], now - p.window - 1);
    }
  }

  lemma OfPush(calls: seq<Call>, c: Call, ip: string)
    ensures Of(calls + [c], ip) == Of(calls, ip) + if c.ip == ip then [c] else []
  {
    assert (calls + [c])[..|calls|] == calls;
  }

  lemma EvaluateRefines(p: Policy, entries: Entries, calls: seq<Call>, last: int, c: Call)
    requires p.enabled && Validated(p) && Refines(p, entries, calls, last) && last <= c.at
    ensures Of(calls, c.ip) + [c] == Of(calls + [c], c.ip)
    ensures var (entries', d) := EvaluateStep(p, entries, c);
            d == Deserved(p, Of(calls + [c], c.ip)) && Refines(p, entries', calls + [c], c.at)
  {
    hide Tracks, Judge, Pruned, Deserved, Of;
    var (entries', d) := EvaluateStep(p, entries, c);
    forall ip
      ensures Tracks(p, Of(calls + [c], ip), Lookup(entries', ip), c.at) && CallsUpTo(Of(calls + [c], ip), c.at)
      ensures ip == c.ip ==> d == Deserved(p, Of(calls, ip) + [c])
    {
      OfPush(calls, c, ip);
      if ip == c.ip {
        CallTracks(p, Of(calls, ip), Lookup(entries, ip), last, c);
      } else {
        assert Of(calls, ip) + [] == Of(calls, ip);
        TracksLater(p, Of(calls, ip), Lookup(entries, ip), last, c.at);
      }
    }
    OfPush(calls, c, c.ip);
  }

  lemma TracksLater(p: Policy, h: seq<Call>, e: Reputation, last: int, now: int)
    requires Tracks(p, h, e, last) && last <= now
    ensures Tracks(p, h, e, now)
  {
    hide Blocked, Attempts, Violations, RecordedAttempt, Keeps;
    KeepsLater(Attempts(p, h), e.bursts, last - p.burstWindow - 1, now - p.burstWindow - 1);
    KeepsLater(Violations(p, h), e.violations, last - p.window - 1, now - p.window - 1);
  }

  lemma CleanupRefines(p: Policy, entries: Entries, calls: seq<Call>, last: int, now: nat)
    requires p.enabled && Refines(p, entries, calls, last) && last <= now
    ensures Refines(p, CleanupStep(p, entries, now), calls, now)
  {
    var cleaned := CleanupStep(p, entries, now);
    forall ip ensures Tracks(p, Of(calls, ip), Lookup(cleaned, ip), now) {
      hide Tracks, Pruned, Of;
      var h, e := Of(calls, ip), Lookup(entries, ip);
      if ip in entries {
        Pruning(p, h, e, last, now);
        if Useless(Pruned(p, e, now), now) {
          UselessIsFresh(p, h, Pruned(p, e, now), now);
        }
      } else {
        TracksLater(p, h, e, last, now);
      }
    }
  }

  lemma RunCorrectPush(p: Policy, front: seq<Event>, e: Event, last: int)
    requires p.enabled && Validated(p) && RunCorrect(p, front, last) && last <= TimeOf(e)
    ensures RunCorrect(p, front + [e], TimeOf(e))
  {
    hide Refines, EvaluateStep, CleanupStep, Deserved, Of;
    var (entries, decisions) := Run(p, front);
    var calls := Calls(front);
    assert (front + [e])[..|front|] == front;
    match e
    case Evaluate(c) =>
      EvaluateRefines(p, entries, calls, last, c);
      assert (calls + [c])[..|calls|] == calls;
    case Cleanup(now) =>
      CleanupRefines(p, entries, calls, last, now);
      assert calls + [] == calls;
  }

  lemma {:induction false} RunIsCorrect(p: Policy, events: seq<Event>)
    requires p.enabled && Validated(p) && Nondecreasing(events)
    ensures RunCorrect(p, events, if events == [] then 0 else TimeOf(events[|events| - 1]))
    decreases |events|
  {
    hide RunCorrect;
    if events == [] {
      EmptyCorrect(p, 0);
    } else {
      var n := |events| - 1;
      RunIsCorrect(p, events[..n]);
      assert events == events[..n] + [events[n]];
      RunCorrectPush(p, events[..n], events[n], if n == 0 then 0 else TimeOf(events[n - 1]));
    }
  }

  // ---- Main results ----

  /** Under a fixed enabled policy and a nondecreasing clock, every decision is the one the full history deserves. */
  lemma DecisionsAreDeserved(p: Policy, events: seq<Event>)
    requires p.enabled && Validated(p) && Nondecreasing(events)
    ensures Run(p, events).1 == DeservedAll(p, Calls(events))
  {
    RunIsCorrect(p, events);
  }

  /** Cleanups, wherever they fall, never change a decision. */
  lemma CleanupIsInvisible(p: Policy, with: seq<Event>, without: seq<Event>)
    requires p.enabled && Validated(p) && Nondecreasing(with) && Nondecreasing(without)
    requires Calls(with) == Calls(without)
    ensures Run(p, with).1 == Run(p, without).1
  {
    DecisionsAreDeserved(p, with);
    DecisionsAreDeserved(p, without);
  }

  /** Blocked and violating calls are denied, suspicious ones observed for the configured time, the others allowed. */
  lemma VerdictIs(p: Policy, h: seq<Call>)
    requires h != []
    ensures var d, front, last := Deserved(p, h), h[..|h| - 1], h[|h| - 1];
            var suspicious := CountIn(Attempts(p, h), last.at - p.burstWindow - 1, last.at) >= p.softLoginBurst
                              || |Names(p, h, last.at - p.churnWindow)| >= p.usernameChurn;
            && (d.verdict.Deny? <==> Blocked(p, front, last.at) || last.violation)
            && (d.verdict.Observe? <==> !Blocked(p, front, last.at) && !last.violation && suspicious)
            && (d.verdict.Observe? ==> d.observeFor == p.hold)
  {
    hide Blocked, Attempts, Names, CountIn;
  }

  /** A disabled policy allows every call and remembers nothing. */
  lemma {:induction false} DisabledAllows(p: Policy, events: seq<Event>)
    requires !p.enabled
    ensures Run(p, events).0 == map[] && |Run(p, events).1| == |Calls(events)|
    ensures forall i | 0 <= i < |Calls(events)| :: Run(p, events).1[i] == DISABLED && DISABLED.verdict.Allow?
    decreases |events|
  {
    if events == [] {
    } else {
      DisabledAllows(p, events[..|events| - 1]);
    }
  }

  // ---- How long a block lasts ----

  /** Right after the violation that triggers it, a block reaches exactly denyTTL ahead. */
  lemma BlockStartsAt(p: Policy, h: seq<Call>, t: int)
    requires h != [] && Triggers(p, h) && h[|h| - 1].at <= t
    ensures Blocked(p, h, t) <==> t < h[|h| - 1].at + p.denyTTL
  {
    var front, last := h[..|h| - 1], h[|h| - 1];
    assert h == front + [last];
    BlockedPush(p, front, last, t);
  }

  /** A call made while blocked neither shortens nor renews the block. */
  lemma BlockedCallChangesNothing(p: Policy, h: seq<Call>, c: Call, t: int)
    requires Blocked(p, h, c.at)
    ensures Blocked(p, h + [c], t) <==> Blocked(p, h, t)
  {
    BlockedPush(p, h, c, t);
    assert (h + [c])[..|h|] == h;
  }

  /** Call n of a run is for the same address as the triggering call m, and none in between came after the block. */
  ghost predicate StillFirst(p: Policy, calls: seq<Call>, m: nat, n: nat)
    requires m < n <= |calls|
  {
    forall q | m < q < n && calls[q].ip == calls[m].ip :: calls[q].at < calls[m].at + p.denyTTL
  }

  ghost predicate TriggersAt(p: Policy, calls: seq<Call>, m: nat)
    requires m < |calls|
  {
    Of(calls[..m + 1], calls[m].ip) != [] && Triggers(p, Of(calls[..m + 1], calls[m].ip))
  }

  lemma OfUpTo(calls: seq<Call>, n: nat, ip: string)
    requires n < |calls|
    ensures Of(calls[..n + 1], ip) == Of(calls[..n], ip) + if calls[n].ip == ip then [calls[n]] else []
  {
    OfPush(calls[..n], calls[n], ip);
    assert calls[..n + 1] == calls[..n] + [calls[n]];
  }

  lemma {:induction false} BlockPersists(p: Policy, calls: seq<Call>, m: nat, n: nat, t: int)
    requires m < n <= |calls| && TriggersAt(p, calls, m) && t < calls[m].at + p.denyTTL
    ensures Blocked(p, Of(calls[..n], calls[m].ip), t)
    decreases n
  {
    hide Of, Triggers;
    var ip := calls[m].ip;
    OfUpTo(calls, n - 1, ip);
    if n == m + 1 {
      var h := Of(calls[..n], ip);
      assert h[|h| - 1] == calls[m] && h[..|h|] == h;
    } else {
      BlockPersists(p, calls, m, n - 1, t);
      if calls[n - 1].ip == ip {
        BlockedPush(p, Of(calls[..n - 1], ip), calls[n - 1], t);
      } else {
        assert Of(calls[..n - 1], ip) + [] == Of(calls[..n - 1], ip);
      }
    }
  }

  lemma {:induction false} BlockEnds(p: Policy, calls: seq<Call>, m: nat, n: nat, t: int)
    requires m < n <= |calls| && TriggersAt(p, calls, m) && StillFirst(p, calls, m, n)
    requires p.denyTTL >= 0 && calls[m].at + p.denyTTL <= t
    ensures !Blocked(p, Of(calls[..n], calls[m].ip), t)
    decreases n
  {
    hide Of, Triggers, Blocked;
    var ip := calls[m].ip;
    OfUpTo(calls, n - 1, ip);
    if n == m + 1 {
      var h := Of(calls[..n], ip);
      assert h[|h| - 1] == calls[m];
      BlockStartsAt(p, h, t);
    } else {
      BlockEnds(p, calls, m, n - 1, t);
      if calls[n - 1].ip == ip {
        BlockPersists(p, calls, m, n - 1, calls[n - 1].at);
        BlockedCallChangesNothing(p, Of(calls[..n - 1], ip), calls[n - 1], t);
      } else {
        assert Of(calls[..n - 1], ip) + [] == Of(calls[..n - 1], ip);
      }
    }
  }

  lemma {:induction false} DeservedCount(p: Policy, calls: seq<Call>)
    ensures |DeservedAll(p, calls)| == |calls|
    decreases |calls|
  {
    hide Deserved, Of;
    if calls == [] {
    } else {
      DeservedCount(p, calls[..|calls| - 1]);
    }
  }

  lemma {:induction false} DeservedAt(p: Policy, calls: seq<Call>, n: nat)
    requires n < |calls|
    ensures |DeservedAll(p, calls)| == |calls| && Of(calls[..n + 1], calls[n].ip) != []
    ensures DeservedAll(p, calls)[n] == Deserved(p, Of(calls[..n + 1], calls[n].ip))
    decreases |calls|
  {
    hide Deserved, Of;
    var last := |calls| - 1;
    DeservedCount(p, calls);
    DeservedCount(p, calls[..last]);
    OfLast(calls[..n + 1]);
    if n == last {
      assert calls[..n + 1] == calls;
    } else {
      DeservedAt(p, calls[..last], n);
      assert calls[..last][..n + 1] == calls[..n + 1];
    }
  }

  lemma BlockedDecision(p: Policy, h: seq<Call>)
    requires h != []
    ensures Deserved(p, h) == BLOCKED <==> Blocked(p, h[..|h| - 1], h[|h| - 1].at)
  {
    hide Blocked, Attempts, Names, CountIn;
    assert |BLOCKED.rule| != |VIOLATION.rule|;
  }

  /**
   A block lasts exactly denyTTL, in every run and whatever follows: after a triggering violation every
   Evaluate of the address less than denyTTL later is denied as blocked, however often it is called, and
   the first one at or after denyTTL is not.
   */
  lemma BlockLastsExactly(p: Policy, events: seq<Event>, m: nat, n: nat)
    requires p.enabled && Validated(p) && Nondecreasing(events)
    requires m < n < |Calls(events)| && Calls(events)[n].ip == Calls(events)[m].ip && TriggersAt(p, Calls(events), m)
    ensures var calls, decisions := Calls(events), Run(p, events).1;
            && |decisions| == |calls|
            && (calls[n].at < calls[m].at + p.denyTTL ==> decisions[n] == BLOCKED)
            && (calls[n].at >= calls[m].at + p.denyTTL && StillFirst(p, calls, m, n) ==> decisions[n] != BLOCKED)
  {
    var calls, ip := Calls(events), Calls(events)[m].ip;
    DecisionsAreDeserved(p, events);
    DeservedAt(p, calls, n);
    OfUpTo(calls, n, ip);
    hide Run, Calls, DeservedAll, Deserved, Of, Blocked, Triggers, TriggersAt, StillFirst;
    var h := Of(calls[..n + 1], ip);
    assert h[..|h| - 1] == Of(calls[..n], ip);
    BlockedDecision(p, h);
    if calls[n].at < calls[m].at + p.denyTTL {
      BlockPersists(p, calls, m, n, calls[n].at);
    } else if StillFirst(p, calls, m, n) {
      BlockEnds(p, calls, m, n, calls[n].at);
    }
  }

  // ---- The manager itself ----

  lemma UselessCheck(e: Reputation, now: int)
    ensures Useless(e, now) <==> |e.bursts| == 0 && |e.usernames| == 0 && |e.violations| == 0 && e.blockedUntil <= now
  {
  }

  class Manager {
    const policy: Policy
    var entries: Entries

    constructor (policy: Policy)
      ensures this.policy == policy && entries == map[]
    {
      this.policy := policy;
      entries := map[];
    }

    /** keepTimes: the values from the first one that is not before the cutoff. */
    static method KeepTimes(values: seq<int>, cutoff: int) returns (kept: seq<int>)
      ensures kept == Recent(values, cutoff - 1)
    {
      var index := 0;
      while index < |values| && values[index] < cutoff
        invariant 0 <= index <= |values| && AllUpTo(values[..index], cutoff - 1)
      {
        index := index + 1;
      }
      RecentFrom(values, cutoff - 1, index);
      return values[index..];
    }

    static method Prune(policy: Policy, entry: Reputation, now: int) returns (pruned: Reputation)
      ensures pruned == Pruned(policy, entry, now)
    {
      var bursts := KeepTimes(entry.bursts, now - policy.burstWindow);
      var violations := KeepTimes(entry.violations, now - policy.window);
      var usernames, todo := entry.usernames, entry.usernames.Keys;
      while todo != {}
        invariant todo <= usernames.Keys <= entry.usernames.Keys
        invariant forall n | n in entry.usernames ::
                    n in usernames <==> n in todo || entry.usernames[n] >= now - policy.churnWindow
        invariant forall n | n in usernames :: usernames[n] == entry.usernames[n]
        decreases |todo|
      {
        var name :| name in todo;
        todo := todo - {name};
        if usernames[name] < now - policy.churnWindow {
          usernames := usernames - {name};
        }
      }
      assert usernames == RecentNames(entry.usernames, now - policy.churnWindow);
      return Reputation(bursts, usernames, violations, entry.blockedUntil);
    }

    static method RecordViolation(policy: Policy, entry: Reputation, now: int) returns (recorded: Reputation)
      ensures recorded == WithViolation(policy, entry, now)
    {
      recorded := entry.(violations := entry.violations + [now]);
      if |recorded.violations| >= policy.violationLimit {
        recorded := recorded.(blockedUntil := now + policy.denyTTL);
      }
    }

    method Evaluate(call: Call) returns (d: Decision)
      modifies this
      ensures (entries, d) == EvaluateStep(policy, old(entries), call)
    {
      if !policy.enabled {
        return DISABLED;
      }
      var entry := if call.ip in entries then entries[call.ip] else FRESH;
      entry := Prune(policy, entry, call.at);
      if entry.blockedUntil > call.at {
        entries := entries[call.ip := entry];
        return BLOCKED;
      }
      if call.violation {
        entry := RecordViolation(policy, entry, call.at);
        entries := entries[call.ip := entry];
        return VIOLATION;
      }
      entry := entry.(bursts := entry.bursts + [call.at]);
      if call.username != "" {
        entry := entry.(usernames := entry.usernames[call.username := call.at]);
      }
      entries := entries[call.ip := entry];
      if |entry.bursts| >= policy.softLoginBurst || |entry.usernames| >= policy.usernameChurn {
        return Observed(policy);
      }
      return ALLOWED;
    }

    method Cleanup(now: int)
      modifies this
      ensures entries == CleanupStep(policy, old(entries), now)
    {
      hide Pruned, Useless;
      var todo := entries.Keys;
      while todo != {}
        invariant todo <= entries.Keys <= old(entries).Keys
        invariant forall ip | ip in todo :: entries[ip] == old(entries)[ip]
        invariant forall ip | ip in old(entries) && ip !in todo ::
                    if policy.enabled && !Useless(Pruned(policy, old(entries)[ip], now), now)
                    then ip in entries && entries[ip] == Pruned(policy, old(entries)[ip], now)
                    else ip !in entries
        decreases |todo|
      {
        var ip :| ip in todo;
        todo := todo - {ip};
        if !policy.enabled {
          entries := entries - {ip};
        } else {
          var entry := Prune(policy, entries[ip], now);
          entries := entries[ip := entry];
          UselessCheck(entry, now);
          if |entry.bursts| == 0 && |entry.usernames| == 0 && |entry.violations| == 0 && entry.blockedUntil <= now {
            entries := entries - {ip};
          }
        }
      }
    }
  }
}
