/**
 Time lists with a forgotten past. Both sliding-window stores drop leading entries of a sorted
 list; these lemmas say when counting what is kept equals counting the full history.
 */
module Windows {
  import opened Bytes

  /** The list without its leading entries at or before the cutoff. */
  function Recent(times: seq<int>, cutoff: int): (r: seq<int>) {
    if times != [] && times[0] <= cutoff then Recent(times[1..], cutoff) else times
  }

  /** How many of the times lie in (lo, hi]. */
  function CountIn(times: seq<int>, lo: int, hi: int): (n: nat) {
    if times == [] then 0
    else CountIn(times[..|times| - 1], lo, hi) + if lo < times[|times| - 1] <= hi then 1 else 0
  }

  // ---- Counting ----

  lemma {:induction false} CountConcat(a: seq<int>, b: seq<int>, lo: int, hi: int)
    ensures CountIn(a + b, lo, hi) == CountIn(a, lo, hi) + CountIn(b, lo, hi)
    decreases |b|
  {
    if b == [] {
      assert a + b == a;
    } else {
      CountConcat(a, b[..|b| - 1], lo, hi);
      assert (a + b)[..|a + b| - 1] == a + b[..|b| - 1];
    }
  }

  ghost predicate AllUpTo(times: seq<int>, t: int) {
    forall i | 0 <= i < |times| :: times[i] <= t
  }

  ghost predicate AllAfter(times: seq<int>, t: int) {
    forall i | 0 <= i < |times| :: times[i] > t
  }

  ghost predicate Sorted(times: seq<int>) {
    forall i, j | 0 <= i < j < |times| :: times[i] <= times[j]
  }

  lemma {:induction false} CountNone(times: seq<int>, lo: int, hi: int)
    requires AllUpTo(times, lo)
    ensures CountIn(times, lo, hi) == 0
    decreases |times|
  {
    if times == [] {
    } else {
      CountNone(times[..|times| - 1], lo, hi);
    }
  }

  lemma {:induction false} CountAll(times: seq<int>, lo: int, hi: int)
    requires AllAfter(times, lo) && AllUpTo(times, hi)
    ensures CountIn(times, lo, hi) == |times|
    decreases |times|
  {
    if times == [] {
    } else {
      CountAll(times[..|times| - 1], lo, hi);
    }
  }

  lemma {:induction false} CountNarrows(times: seq<int>, lo: int, hi: int, lo': int, hi': int)
    requires lo <= lo' && AllUpTo(times, hi)
    ensures CountIn(times, lo', hi') <= CountIn(times, lo, hi)
    decreases |times|
  {
    if times == [] {
    } else {
      CountNarrows(times[..|times| - 1], lo, hi, lo', hi');
    }
  }

  // ---- The refinement ----

  /** `kept` is the full history less some leading entries that no later window can reach. */
  ghost predicate Keeps(full: seq<int>, kept: seq<int>, cutoff: int) {
    |kept| <= |full| && full == Gone(full, kept) + kept && AllUpTo(Gone(full, kept), cutoff)
  }

  ghost function Gone(full: seq<int>, kept: seq<int>): (gone: seq<int>)
    requires |kept| <= |full|
  {
    full[..|full| - |kept|]
  }

  lemma Split(full: seq<int>, gone: seq<int>, kept: seq<int>, cutoff: int)
    requires full == gone + kept && AllUpTo(gone, cutoff)
    ensures Keeps(full, kept, cutoff)
  {
    assert Gone(full, kept) == gone;
  }

  lemma SuffixProperties(front: seq<int>, back: seq<int>, t: int)
    requires Sorted(front + back) && AllUpTo(front + back, t)
    ensures Sorted(back) && AllUpTo(back, t)
  {
    assert forall i | 0 <= i < |back| :: back[i] == (front + back)[|front| + i];
  }

  lemma ConcatUpTo(a: seq<int>, b: seq<int>, t: int)
    requires AllUpTo(a, t) && AllUpTo(b, t)
    ensures AllUpTo(a + b, t)
  {
  }

  lemma SortedAfter(times: seq<int>, cutoff: int)
    requires Sorted(times) && (times == [] || times[0] > cutoff)
    ensures AllAfter(times, cutoff)
  {
  }

  /** One more entry in front that no later window can reach. */
  lemma KeepsMore(first: int, full: seq<int>, kept: seq<int>, cutoff: int)
    requires first <= cutoff && Keeps(full, kept, cutoff)
    ensures Keeps([first] + full, kept, cutoff)
  {
    var gone := Gone(full, kept);
    ConcatUpTo([first], gone, cutoff);
    Regroup([first], gone, kept);
    hide AllUpTo, Gone;
    Split([first] + full, [first] + gone, kept, cutoff);
  }

  lemma KeepsAll(times: seq<int>, cutoff: int)
    ensures Keeps(times, times, cutoff)
  {
    assert times == [] + times && AllUpTo([], cutoff);
    Split(times, [], times, cutoff);
  }

  lemma SortedTail(times: seq<int>)
    requires Sorted(times) && times != []
    ensures Sorted(times[1..]) && times == [times[0]] + times[1..]
  {
  }

  lemma RecentUnfolds(times: seq<int>, cutoff: int)
    ensures Recent(times, cutoff) == if times != [] && times[0] <= cutoff then Recent(times[1..], cutoff) else times
  {
  }

  lemma {:induction false} RecentKeeps(times: seq<int>, cutoff: int)
    requires Sorted(times)
    ensures Keeps(times, Recent(times, cutoff), cutoff) && AllAfter(Recent(times, cutoff), cutoff)
    decreases |times|
  {
    hide Recent, Keeps, AllAfter, Sorted;
    RecentUnfolds(times, cutoff);
    if times == [] || times[0] > cutoff {
      SortedAfter(times, cutoff);
      KeepsAll(times, cutoff);
    } else {
      SortedTail(times);
      RecentKeeps(times[1..], cutoff);
      KeepsMore(times[0], times[1..], Recent(times[1..], cutoff), cutoff);
    }
  }

  /** Seen through what is kept, the window holds as many entries as seen through the full history. */
  lemma KeepsCount(full: seq<int>, kept: seq<int>, earlier: int, cutoff: int, now: int)
    requires Sorted(full) && AllUpTo(full, now) && Keeps(full, kept, earlier) && earlier <= cutoff
    ensures CountIn(full, cutoff, now) == |Recent(kept, cutoff)|
    ensures Keeps(full, Recent(kept, cutoff), cutoff)
  {
    KeepsLater(full, kept, earlier, cutoff);
    hide Recent, CountIn, AllAfter, AllUpTo, Sorted, Gone;
    var gone := Gone(full, kept);
    SuffixProperties(gone, kept, now);
    RecentKeeps(kept, cutoff);
    var recent := Recent(kept, cutoff);
    var more := Gone(kept, recent);
    SuffixProperties(more, recent, now);
    ConcatUpTo(gone, more, cutoff);
    Regroup(gone, more, recent);
    Split(full, gone + more, recent, cutoff);
    CountConcat(gone + more, recent, cutoff, now);
    CountNone(gone + more, cutoff, now);
    CountAll(recent, cutoff, now);
  }

  lemma KeepsPush(full: seq<int>, kept: seq<int>, cutoff: int, now: int)
    requires Keeps(full, kept, cutoff)
    ensures Keeps(full + [now], kept + [now], cutoff)
  {
    assert full + [now] == Gone(full, kept) + (kept + [now]);
    Split(full + [now], Gone(full, kept), kept + [now], cutoff);
  }

  lemma KeepsLater(full: seq<int>, kept: seq<int>, cutoff: int, later: int)
    requires Keeps(full, kept, cutoff) && cutoff <= later
    ensures Keeps(full, kept, later)
  {
  }

  lemma {:induction false} RecentFrom(times: seq<int>, cutoff: int, first: nat)
    requires first <= |times| && AllUpTo(times[..first], cutoff)
    ensures Recent(times, cutoff) == Recent(times[first..], cutoff)
    decreases first
  {
    if first > 0 {
      assert times[0] == times[..first][0];
      assert times[1..][..first - 1] == times[..first][1..];
      RecentFrom(times[1..], cutoff, first - 1);
      assert times[1..][first - 1..] == times[first..];
    } else {
      assert times[0..] == times;
    }
  }
}
