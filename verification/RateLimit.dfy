/** internal/ratelimit/limiter.go: a sliding-window limiter per key. Times are nanoseconds. */
module RateLimit {
  import opened Windows

  const DEFAULT_LIMIT := 10
  const DEFAULT_WINDOW := 10_000_000_000
  const CLEANUP_EVERY: nat := 1024

  // ---- The store as a value ----

  datatype Store = Store(limit: int, window: int, events: map<string, seq<int>>, requests: nat)

  function New(limit: int, window: int): (s: Store)
    ensures s.limit > 0 && s.window > 0 && s.events == map[] && s.requests == 0
    ensures (limit > 0 ==> s.limit == limit) && (window > 0 ==> s.window == window)
  {
    Store(if limit <= 0 then DEFAULT_LIMIT else limit, if window <= 0 then DEFAULT_WINDOW else window, map[], 0)
  }

  function Lookup(events: map<string, seq<int>>, key: string): (times: seq<int>) {
    if key in events then events[key] else []
  }

  predicate Stale(times: seq<int>, cutoff: int) {
    times == [] || times[|times| - 1] <= cutoff
  }

  function Cleaned(events: map<string, seq<int>>, cutoff: int): (r: map<string, seq<int>>) {
    map key | key in events && !Stale(events[key], cutoff) :: events[key]
  }

  function Put(events: map<string, seq<int>>, key: string, times: seq<int>): (r: map<string, seq<int>>) {
    if times == [] then events - {key} else events[key := times]
  }

  function AllowStep(s: Store, key: string, now: int): (r: (Store, bool)) {
    var cutoff := now - s.window;
    var recent := Recent(Lookup(s.events, key), cutoff);
    var allowed := |recent| < s.limit;
    var events := Put(s.events, key, if allowed then recent + [now] else recent);
    var requests := s.requests + 1;
    (s.(events := if requests % CLEANUP_EVERY == 0 then Cleaned(events, cutoff) else events, requests := requests),
        allowed)
  }

  // ---- Runs, and the full-history specification ----

  datatype Request = Request(key: string, at: int)

  function Run(s: Store, requests: seq<Request>): (r: (Store, seq<bool>))
    ensures |r.1| == |requests|
  {
    if requests == [] then (s, [])
    else
      var (before, answers) := Run(s, requests[..|requests| - 1]);
      var last := requests[|requests| - 1];
      var (after, allowed) := AllowStep(before, last.key, last.at);
      (after, answers + [allowed])
  }

  ghost predicate Nondecreasing(requests: seq<Request>) {
    forall i, j | 0 <= i < j < |requests| :: requests[i].at <= requests[j].at
  }

  /** The times of the allowed requests for one key, oldest first. */
  function AllowedTimes(requests: seq<Request>, answers: seq<bool>, key: string): (times: seq<int>)
    requires |requests| == |answers|
  {
    if requests == [] then []
    else
      var n := |requests| - 1;
      AllowedTimes(requests[..n], answers[..n], key) + if requests[n].key == key
          && answers[n] then [requests[n].at] else []
  }

  /** A request is allowed when fewer than `limit` allowed requests for its key lie within the window before it. */
  function FullHistoryAnswers(limit: int, window: int, requests: seq<Request>): (answers: seq<bool>)
    ensures |answers| == |requests|
  {
    if requests == [] then []
    else
      var n := |requests| - 1;
      var earlier := FullHistoryAnswers(limit, window, requests[..n]);
      var r := requests[n];
      earlier + [CountIn(AllowedTimes(requests[..n], earlier, r.key), r.at - window, r.at) < limit]
  }

  /** Forgetting a key whose newest entry is stale loses nothing a later window could see. */
  lemma KeepsNothing(full: seq<int>, kept: seq<int>, cutoff: int)
    requires Sorted(full) && Keeps(full, kept, cutoff) && Stale(kept, cutoff)
    ensures Keeps(full, [], cutoff)
  {
    if kept != [] {
      assert kept[|kept| - 1] == full[|full| - 1];
    } else {
      assert Gone(full, kept) == full;
    }
    assert full == full + [] && AllUpTo(full, cutoff);
    Split(full, full, [], cutoff);
  }

  /** What a store that has forgotten nothing relevant looks like for one key. */
  ghost predicate Tracks(full: seq<int>, kept: seq<int>, now: int, window: int) {
    Sorted(full) && AllUpTo(full, now) && Keeps(full, kept, now - window)
  }

  ghost predicate Refines(s: Store, requests: seq<Request>, answers: seq<bool>, now: int)
    requires |requests| == |answers|
  {
    forall key :: Tracks(AllowedTimes(requests, answers, key), Lookup(s.events, key), now, s.window)
  }

  lemma AllowedTimesPush(requests: seq<Request>, answers: seq<bool>, r: Request, allowed: bool, key: string)
    requires |requests| == |answers|
    ensures AllowedTimes(requests + [r], answers + [allowed], key)
         == AllowedTimes(requests, answers, key) + if r.key == key && allowed then [r.at] else []
  {
    assert (requests + [r])[..|requests|] == requests && (answers + [allowed])[..|answers|] == answers;
  }

  /** One key through one step of the store. */
  lemma StepTracks(s: Store, r: Request, key: string, full: seq<int>, last: int)
    requires last <= r.at && Tracks(full, Lookup(s.events, key), last, s.window)
    ensures var (s', allowed) := AllowStep(s, r.key, r.at);
            && Tracks(full + if r.key == key && allowed then [r.at] else [], Lookup(s'.events, key), r.at, s.window)
            && (r.key == key ==> allowed == (CountIn(full, r.at - s.window, r.at) < s.limit))
  {
    hide Recent, Keeps, CountIn;
    var cutoff := r.at - s.window;
    var (s', allowed) := AllowStep(s, r.key, r.at);
    var recent := Recent(Lookup(s.events, r.key), cutoff);
    var events := Put(s.events, r.key, if allowed then recent + [r.at] else recent);
    var full' := full + if r.key == key && allowed then [r.at] else [];
    if r.key == key {
      KeepsCount(full, Lookup(s.events, key), last - s.window, cutoff, r.at);
      if allowed {
        KeepsPush(full, recent, cutoff, r.at);
      } else {
        assert full' == full;
      }
    } else {
      assert full' == full;
      KeepsLater(full, Lookup(s.events, key), last - s.window, cutoff);
    }
    assert Keeps(full', Lookup(events, key), cutoff);
    if key !in Cleaned(events, cutoff) && Stale(Lookup(events, key), cutoff) {
      KeepsNothing(full', Lookup(events, key), cutoff);
    }
  }

  lemma StepRefines(s: Store, requests: seq<Request>, answers: seq<bool>, last: int, r: Request)
    requires |requests| == |answers| && Refines(s, requests, answers, last) && last <= r.at
    ensures var (s', allowed) := AllowStep(s, r.key, r.at);
            && allowed == (CountIn(AllowedTimes(requests, answers, r.key), r.at - s.window, r.at) < s.limit)
            && Refines(s', requests + [r], answers + [allowed], r.at)
  {
    hide Tracks, CountIn, AllowedTimes;
    var (s', allowed) := AllowStep(s, r.key, r.at);
    hide AllowStep;
    StepTracks(s, r, r.key, AllowedTimes(requests, answers, r.key), last);
    forall key
      ensures Tracks(AllowedTimes(requests + [r], answers + [allowed], key), Lookup(s'.events, key), r.at, s.window)
    {
      StepTracks(s, r, key, AllowedTimes(requests, answers, key), last);
      AllowedTimesPush(requests, answers, r, allowed, key);
    }
    StepKeepsShape(s, r.key, r.at);
  }

  lemma StepKeepsShape(s: Store, key: string, now: int)
    ensures AllowStep(s, key, now).0.limit == s.limit && AllowStep(s, key, now).0.window == s.window
  {
  }

  lemma EmptyRefines(s: Store, now: int)
    requires s.events == map[]
    ensures Refines(s, [], [], now)
  {
    forall key ensures Tracks(AllowedTimes([], [], key), Lookup(s.events, key), now, s.window) {
      Split([], [], [], now - s.window);
    }
  }

  lemma FullHistoryPush(limit: int, window: int, front: seq<Request>, r: Request)
    ensures var earlier := FullHistoryAnswers(limit, window, front);
            FullHistoryAnswers(limit, window, front + [r]) == earlier
                + [CountIn(AllowedTimes(front, earlier, r.key), r.at - window, r.at) < limit]
  {
    hide CountIn, AllowedTimes;
    assert (front + [r])[..|front|] == front;
  }

  lemma RunPush(s: Store, front: seq<Request>, r: Request)
    ensures var (before, answers) := Run(s, front);
            var (after, allowed) := AllowStep(before, r.key, r.at);
            Run(s, front + [r]) == (after, answers + [allowed])
  {
    hide AllowStep;
    assert (front + [r])[..|front|] == front;
  }

  ghost function LastAt(requests: seq<Request>): (t: int) {
    if requests == [] then 0 else requests[|requests| - 1].at
  }

  /** The store reached by a run, its answers, and what it still knows. */
  ghost predicate RunCorrect(s: Store, requests: seq<Request>) {
    var (end, answers) := Run(s, requests);
    && end.limit == s.limit && end.window == s.window
    && answers == FullHistoryAnswers(s.limit, s.window, requests)
    && Refines(end, requests, answers, LastAt(requests))
  }

  lemma RunCorrectPush(s: Store, front: seq<Request>, r: Request, last: int)
    requires RunCorrect(s, front) && last <= r.at
    requires Refines(Run(s, front).0, front, Run(s, front).1, last)
    ensures RunCorrect(s, front + [r])
  {
    hide Refines, AllowStep, CountIn, AllowedTimes, FullHistoryAnswers, Run;
    var (before, answers) := Run(s, front);
    StepRefines(before, front, answers, last, r);
    StepKeepsShape(before, r.key, r.at);
    RunPush(s, front, r);
    FullHistoryPush(s.limit, s.window, front, r);
  }

  lemma {:induction false} RunRefines(s: Store, requests: seq<Request>)
    requires s.events == map[] && Nondecreasing(requests)
    ensures RunCorrect(s, requests)
    decreases |requests|
  {
    hide Refines, Run;
    if requests == [] {
      RunNothing(s);
      EmptyRefines(s, 0);
    } else {
      var n := |requests| - 1;
      var front, r := requests[..n], requests[n];
      assert requests == front + [r];
      RunRefines(s, front);
      if front == [] {
        RunNothing(s);
        EmptyRefines(s, r.at);
        RunCorrectPush(s, front, r, r.at);
      } else {
        RunCorrectPush(s, front, r, LastAt(front));
      }
    }
  }

  lemma RunNothing(s: Store)
    ensures Run(s, []) == (s, [])
  {
  }

  // ---- Main results ----

  /** With a nondecreasing clock every answer is the full-history answer: pruning and cleanup are invisible. */
  lemma AnswersAreFullHistory(limit: int, window: int, requests: seq<Request>)
    requires Nondecreasing(requests)
    ensures Run(New(limit, window), requests).1
         == FullHistoryAnswers(New(limit, window).limit, New(limit, window).window, requests)
  {
    RunRefines(New(limit, window), requests);
  }

  lemma {:induction false} AllowedTimesUpTo(requests: seq<Request>, answers: seq<bool>, key: string, now: int)
    requires |requests| == |answers| && forall i | 0 <= i < |requests| :: requests[i].at <= now
    ensures AllUpTo(AllowedTimes(requests, answers, key), now)
    decreases |requests|
  {
    if requests == [] {
    } else {
      AllowedTimesUpTo(requests[..|requests| - 1], answers[..|requests| - 1], key, now);
    }
  }

  lemma OneMore(earlier: seq<int>, at: int, limit: int, window: int, t: int)
    requires AllUpTo(earlier, at) && CountIn(earlier, at - window, at) < limit
        && CountIn(earlier, t - window, t) <= limit
    ensures CountIn(earlier + [at], t - window, t) <= limit
  {
    CountConcat(earlier, [at], t - window, t);
    assert CountIn([at], t - window, t) == if t - window < at <= t then 1 else 0 by {
      assert [at][..0] == [];
    }
    if t >= at {
      CountNarrows(earlier, at - window, at, t - window, t);
    }
  }

  lemma {:induction false} SpecNeverOverfull(limit: int, window: int, requests: seq<Request>, key: string, t: int)
    requires Nondecreasing(requests) && limit > 0
    ensures CountIn(AllowedTimes(requests, FullHistoryAnswers(limit, window, requests), key), t - window, t) <= limit
    decreases |requests|
  {
    if requests == [] {
    } else {
      hide CountIn, AllUpTo;
      var n := |requests| - 1;
      var front, r := requests[..n], requests[n];
      var answers := FullHistoryAnswers(limit, window, front);
      var earlier := AllowedTimes(front, answers, key);
      SpecNeverOverfull(limit, window, front, key, t);
      AllowedTimesUpTo(front, answers, key, r.at);
      hide FullHistoryAnswers, AllowedTimes;
      assert requests == front + [r];
      FullHistoryPush(limit, window, front, r);
      var allowed := CountIn(AllowedTimes(front, answers, r.key), r.at - window, r.at) < limit;
      AllowedTimesPush(front, answers, r, allowed, key);
      if r.key == key && allowed {
        OneMore(earlier, r.at, limit, window, t);
      } else {
        assert earlier + [] == earlier;
      }
    }
  }

  /** Hence no half-open window, ending at any time at all, ever holds more than `limit` allowed requests of a key. */
  lemma WindowNeverOverfull(limit: int, window: int, requests: seq<Request>, key: string, t: int)
    requires Nondecreasing(requests)
    ensures var s := New(limit, window);
            CountIn(AllowedTimes(requests, Run(s, requests).1, key), t - s.window, t) <= s.limit
  {
    hide Run, FullHistoryAnswers, AllowedTimes, CountIn, Refines;
    var s := New(limit, window);
    RunRefines(s, requests);
    SpecNeverOverfull(s.limit, s.window, requests, key, t);
  }

  // ---- A clock that goes back ----

  predicate AnswersAgree(limit: int, window: int, requests: seq<Request>) {
    var s := New(limit, window);
    Run(s, requests).1 == FullHistoryAnswers(s.limit, s.window, requests)
  }

  lemma SameFront(a: seq<bool>, b: seq<bool>, whole: seq<bool>)
    requires |a| == |b| == |whole| - 1 && a <= whole && b <= whole
    ensures a == b
  {
  }

  lemma {:induction false} PrefixAgrees(limit: int, window: int, requests: seq<Request>, n: nat)
    requires n <= |requests| && AnswersAgree(limit, window, requests)
    ensures AnswersAgree(limit, window, requests[..n])
    decreases |requests|
  {
    if n == |requests| {
      assert requests[..n] == requests;
    } else {
      var last := |requests| - 1;
      var s, front := New(limit, window), requests[..last];
      assert requests == front + [requests[last]];
      hide Run, FullHistoryAnswers, CountIn, AllowedTimes, AllowStep;
      RunPush(s, front, requests[last]);
      FullHistoryPush(s.limit, s.window, front, requests[last]);
      SameFront(Run(s, front).1, FullHistoryAnswers(s.limit, s.window, front), Run(s, requests).1);
      PrefixAgrees(limit, window, front, n);
      assert front[..n] == requests[..n];
    }
  }

  /** Requests at given times, for given keys. */
  function Requests(keys: seq<string>, times: seq<int>): (requests: seq<Request>)
    requires |keys| == |times|
    ensures |requests| == |times|
  {
    seq(|times|, i requires 0 <= i < |times| => Request(keys[i], times[i]))
  }

  /** Only requests i and j are for key "a". */
  function TwoOfAKind(n: nat, i: nat, j: nat): (keys: seq<string>)
    ensures |keys| == n
  {
    seq(n, k requires 0 <= k < n => if k == i || k == j then "a" else "b")
  }

  /** A bound on the distance of the times from zero. */
  function Reach(times: seq<int>): (m: nat)
    ensures forall k | 0 <= k < |times| :: -(m as int) <= times[k] <= m
  {
    if times == [] then 0
    else
      var m, t := Reach(times[..|times| - 1]), times[|times| - 1];
      if t > m then t else if -t > m then -t else m
  }

  /** One step for another key, or the first one for a key, inside a window that spans all times. */
  lemma StepAtKey(s: Store, r: Request, at: int)
    requires s.limit == 1 && r.at - s.window < at
    ensures var (s', allowed) := AllowStep(s, r.key, r.at);
            && s'.limit == 1 && s'.window == s.window
            && (r.key != "a" && Lookup(s.events, "a") in {[], [at]} ==> Lookup(s'.events, "a") == Lookup(s.events, "a"))
            && (r.key == "a" && r.at == at && Lookup(s.events, "a") == [] ==> Lookup(s'.events, "a") == [at] && allowed)
            && (r.key == "a" && Lookup(s.events, "a") == [at] ==> !allowed)
  {
  }

  /** After these requests, key "a" has been allowed at the times `seen`, all of them remembered. */
  ghost predicate Remembers(window: int, front: seq<Request>, seen: seq<int>) {
    var (s, answers) := Run(New(1, window), front);
    && s.limit == 1 && s.window == window
    && Lookup(s.events, "a") == seen && AllowedTimes(front, answers, "a") == seen
  }

  lemma RemembersNothing(window: int)
    requires window > 0
    ensures Remembers(window, [], [])
  {
    RunNothing(New(1, window));
    NoTimes("a");
    NoEvents("a");
  }

  lemma RemembersMore(window: int, front: seq<Request>, seen: seq<int>, r: Request, at: int)
    requires Remembers(window, front, seen) && r.at - window < at
    ensures r.key != "a" && seen in {[], [at]} ==> Remembers(window, front + [r], seen)
    ensures r.key == "a" && r.at == at && seen == [] ==> Remembers(window, front + [r], [at])
  {
    hide AllowedTimes, AllowStep, Lookup, Run;
    var (s, answers) := Run(New(1, window), front);
    RunPush(New(1, window), front, r);
    StepAtKey(s, r, at);
    AllowedTimesPush(front, answers, r, AllowStep(s, r.key, r.at).1, "a");
  }

  /** Before request j, key "a" has been allowed at time i and at no other. */
  lemma {:induction false} SeenOnce(times: seq<int>, window: int, i: nat, j: nat, k: nat)
    requires i < j < |times| && k <= j && window > 2 * Reach(times)
    ensures Remembers(window, Requests(TwoOfAKind(|times|, i, j), times)[..k], if k <= i then [] else [times[i]])
    decreases k
  {
    hide Remembers, Reach, Requests, TwoOfAKind;
    var requests := Requests(TwoOfAKind(|times|, i, j), times);
    if k == 0 {
      assert requests[..0] == [];
      RemembersNothing(window);
    } else {
      SeenOnce(times, window, i, j, k - 1);
      NextRequest(times, i, j, k - 1);
      RemembersMore(window, requests[..k - 1], if k - 1 <= i then [] else [times[i]], requests[k - 1], times[i]);
    }
  }

  lemma NextRequest(times: seq<int>, i: nat, j: nat, k: nat)
    requires i < j < |times| && k < j
    ensures var requests := Requests(TwoOfAKind(|times|, i, j), times);
            && requests[..k + 1] == requests[..k] + [requests[k]]
            && requests[k] == Request(if k == i then "a" else "b", times[k])
  {
  }

  lemma NoEvents(key: string)
    ensures Lookup(map[], key) == []
  {
  }

  /** The store still counts the later request against the earlier one; the full history does not. */
  lemma EarlierDiffers(window: int, front: seq<Request>, r: Request, at: int)
    requires window > 0 && AnswersAgree(1, window, front)
    requires Remembers(window, front, [at])
    requires r.key == "a" && r.at < at && r.at - window < at
    ensures !AnswersAgree(1, window, front + [r])
  {
    var s := New(1, window);
    CountNoneUpTo(at, r.at - window, r.at);
    hide Run, AllowedTimes, AllowStep, Lookup, CountIn, FullHistoryAnswers;
    var (before, answers) := Run(s, front);
    RunPush(s, front, r);
    FullHistoryPush(1, window, front, r);
    StepAtKey(before, r, at);
    assert Run(s, front + [r]).1[|front|] == false;
    assert FullHistoryAnswers(1, window, front + [r])[|front|] == true;
  }

  /** Request j is the second one for its key. */
  lemma RequestAt(times: seq<int>, i: nat, j: nat)
    requires i < j < |times|
    ensures var requests := Requests(TwoOfAKind(|times|, i, j), times);
            requests[j] == Request("a", times[j]) && requests[..j + 1] == requests[..j] + [requests[j]]
  {
  }

  /** A request earlier than one before it: with limit 1 the store refuses it, the full history does not. */
  lemma OutOfOrderDiffers(times: seq<int>, window: int, i: nat, j: nat)
    requires i < j < |times| && times[i] > times[j] && window > 2 * Reach(times)
    ensures !AnswersAgree(1, window, Requests(TwoOfAKind(|times|, i, j), times))
  {
    hide AnswersAgree, Requests, TwoOfAKind, Remembers, Reach;
    var requests := Requests(TwoOfAKind(|times|, i, j), times);
    if AnswersAgree(1, window, requests) {
      RequestAt(times, i, j);
      PrefixAgrees(1, window, requests, j);
      PrefixAgrees(1, window, requests, j + 1);
      SeenOnce(times, window, i, j, j);
      EarlierDiffers(window, requests[..j], requests[j], times[i]);
    }
  }

  lemma CountNoneUpTo(at: int, lo: int, hi: int)
    requires at > hi
    ensures CountIn([at], lo, hi) == 0
  {
    assert [at][..0] == [];
  }

  ghost predicate Ordered(times: seq<int>) {
    forall i, j | 0 <= i < j < |times| :: times[i] <= times[j]
  }

  /** A sequence of times is safe, for every limit, window and choice of keys, exactly when it never goes back. */
  lemma FullHistoryIffOrdered(times: seq<int>)
    ensures Ordered(times) <==>
            forall limit, window, keys: seq<string> | |keys| == |times|
                :: AnswersAgree(limit, window, Requests(keys, times))
  {
    hide AnswersAgree, TwoOfAKind, Reach;
    if Ordered(times) {
      forall limit, window, keys: seq<string> | |keys|
          == |times| ensures AnswersAgree(limit, window, Requests(keys, times)) {
        OrderedAgrees(limit, window, keys, times);
      }
    } else {
      var i, j :| 0 <= i < j < |times| && times[i] > times[j];
      OutOfOrderDiffers(times, 2 * Reach(times) + 1, i, j);
    }
  }

  lemma OrderedAgrees(limit: int, window: int, keys: seq<string>, times: seq<int>)
    requires |keys| == |times| && Ordered(times)
    ensures AnswersAgree(limit, window, Requests(keys, times))
  {
    AnswersAreFullHistory(limit, window, Requests(keys, times));
  }

  /** With limit 2 and window 10, four requests out of order are all allowed, and (94, 104] then holds three of them. */
  lemma OutOfOrderOverfills(key: string)
    ensures var requests := [Request(key, 100), Request(key, 100), Request(key, 111), Request(key, 104)];
            var answers := Run(New(2, 10), requests).1;
            answers == [true, true, true, true] && CountIn(AllowedTimes(requests, answers, key), 94, 104) == 3
  {
    hide Run, CountIn, AllowedTimes, AllowStep, Recent, Lookup;
    var s, r1, r3, r4 := New(2, 10), Request(key, 100), Request(key, 111), Request(key, 104);
    RecentFour();
    var s2 := TwoAllowed(key);
    var s3 := OneMoreAllowed(s, s2, [r1, r1], [true, true], [100, 100], r3, []);
    assert [r1, r1] + [r3] == [r1, r1, r3] && [true, true] + [true] == [true, true, true];
    assert [] + [111] == [111] && [100, 100] + [111] == [100, 100, 111];
    var s4 := OneMoreAllowed(s, s3, [r1, r1, r3], [true, true, true], [100, 100, 111], r4, [111]);
    assert [r1, r1, r3] + [r4] == [r1, r1, r3, r4] && [true, true, true] + [true] == [true, true, true, true];
    assert [100, 100, 111] + [104] == [100, 100, 111, 104];
    CountFour();
  }

  lemma TwoAllowed(key: string) returns (s2: Store)
    ensures var requests := [Request(key, 100), Request(key, 100)];
            && Run(New(2, 10), requests) == (s2, [true, true])
            && AllowedTimes(requests, [true, true], key) == [100, 100]
    ensures Lookup(s2.events, key) == [100, 100] && s2.requests == 2 && s2.limit == 2 && s2.window == 10
  {
    hide Run, CountIn, AllowedTimes, AllowStep, Recent, Lookup;
    var s, r1 := New(2, 10), Request(key, 100);
    RunNothing(s);
    NoTimes(key);
    NoEvents(key);
    RecentFour();
    var s1 := OneMoreAllowed(s, s, [], [], [], r1, []);
    assert [] + [r1] == [r1] && [] + [true] == [true] && [] + [100] == [100];
    s2 := OneMoreAllowed(s, s1, [r1], [true], [100], r1, [100]);
    assert [r1] + [r1] == [r1, r1] && [true] + [true] == [true, true] && [100] + [100] == [100, 100];
  }

  lemma StepAllows(s: Store, r: Request, kept: seq<int>)
    requires Recent(Lookup(s.events, r.key), r.at - s.window) == kept
    requires |kept| < s.limit && s.requests < CLEANUP_EVERY - 1
    ensures var (after, allowed) := AllowStep(s, r.key, r.at);
            && allowed && Lookup(after.events, r.key) == kept + [r.at] && after.requests == s.requests + 1
            && after.limit == s.limit && after.window == s.window
  {
    hide Recent, Cleaned;
    assert (s.requests + 1) % CLEANUP_EVERY == s.requests + 1;
  }

  /** One more request for a key, of whose remembered times `kept` are within the window. */
  lemma OneMoreAllowed(start: Store, s: Store, front: seq<Request>, answers: seq<bool>, times: seq<int>, r: Request,
        kept: seq<int>)
      returns (after: Store)
    requires Run(start, front) == (s, answers) && AllowedTimes(front, answers, r.key) == times
    requires Recent(Lookup(s.events, r.key), r.at - s.window) == kept && |kept| < s.limit
        && s.requests < CLEANUP_EVERY - 1
    ensures Run(start, front + [r]) == (after, answers + [true])
    ensures AllowedTimes(front + [r], answers + [true], r.key) == times + [r.at]
    ensures Lookup(after.events, r.key) == kept + [r.at] && after.requests == s.requests + 1
    ensures after.limit == s.limit && after.window == s.window
  {
    hide Run, AllowedTimes, Recent, Lookup, AllowStep;
    after := AllowStep(s, r.key, r.at).0;
    StepAllows(s, r, kept);
    RunPush(start, front, r);
    AllowedTimesPush(front, answers, r, true, r.key);
  }

  lemma RecentFour()
    ensures Recent([], 90) == [] && Recent([100], 90) == [100] && Recent([100, 100], 101) == []
        && Recent([111], 94) == [111]
  {
    assert [100, 100][1..] == [100] && [100][1..] == [];
  }

  lemma NoTimes(key: string)
    ensures AllowedTimes([], [], key) == []
  {
  }

  lemma CountFour()
    ensures CountIn([100, 100, 111, 104], 94, 104) == 3
  {
    var times := [100, 100, 111, 104];
    assert times[..3] == [100, 100, 111] && times[..3][..2] == [100, 100] && [100, 100][..1] == [100]
        && [100][..0] == [];
  }

  // ---- The limiter itself ----

  class Limiter {
    const limit: int
    const window: int
    var events: map<string, seq<int>>
    var requests: nat

    ghost function View(): (s: Store)
      reads this
    {
      Store(limit, window, events, requests)
    }

    constructor (limit: int, window: int)
      ensures View() == New(limit, window)
    {
      this.limit := if limit <= 0 then DEFAULT_LIMIT else limit;
      this.window := if window <= 0 then DEFAULT_WINDOW else window;
      events := map[];
      requests := 0;
    }

    method Allow(key: string, now: int) returns (allowed: bool)
      modifies this
      ensures (View(), allowed) == AllowStep(old(View()), key, now)
    {
      hide Cleaned;
      var cutoff := now - window;
      var times := if key in events then events[key] else [];
      var first := 0;
      while first < |times| && times[first] <= cutoff
        invariant 0 <= first <= |times| && Recent(times, cutoff) == Recent(times[first..], cutoff)
      {
        assert times[first..][1..] == times[first + 1..];
        first := first + 1;
      }
      times := times[first..];
      allowed := |times| < limit;
      if allowed {
        times := times + [now];
      }
      if times == [] {
        events := events - {key};
      } else {
        events := events[key := times];
      }
      requests := requests + 1;
      if requests % CLEANUP_EVERY == 0 {
        Cleanup(cutoff);
      }
    }

    method Cleanup(cutoff: int)
      modifies this`events
      ensures events == Cleaned(old(events), cutoff)
    {
      var keys := events.Keys;
      while keys != {}
        invariant keys <= events.Keys <= old(events).Keys
        invariant forall k | k in old(events) :: k in events <==> k in keys || !Stale(old(events)[k], cutoff)
        invariant forall k | k in events :: events[k] == old(events)[k]
        decreases |keys|
      {
        var key :| key in keys;
        keys := keys - {key};
        var times := events[key];
        if |times| == 0 || times[|times| - 1] <= cutoff {
          events := events - {key};
        }
      }
    }
  }
}
