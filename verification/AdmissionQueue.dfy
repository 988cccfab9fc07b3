/** internal/queue/queue.go: the bounded admission queue. Contexts and callbacks are opaque tokens. */
module AdmissionQueue {
  import opened Bytes

  const DEFAULT_SIZE: nat := 1024
  const BACKGROUND: nat := 0

  datatype Item = Item(id: string, context: Option<nat>, admit: Option<nat>)

  const BLANK := Item("", None, None)

  datatype Error = Invalid | Duplicate | Full

  // ---- The queue as a sequence ----

  function Ids(items: seq<Item>): (ids: set<string>) {
    set i | 0 <= i < |items| :: items[i].id
  }

  ghost predicate Distinct(items: seq<Item>) {
    forall i, j | 0 <= i < j < |items| :: items[i].id != items[j].id
  }

  /** The place of an ID in the queue, counted from one; zero when it is not queued. */
  function Position(items: seq<Item>, id: string): (k: nat)
    ensures k <= |items| && (k > 0 ==> items[k - 1].id == id)
  {
    if items == [] then 0
    else if items[0].id == id then 1
    else
      var k := Position(items[1..], id);
      if k == 0 then 0 else k + 1
  }

  /** Position is zero exactly for the IDs that are not queued, and otherwise names the first match. */
  lemma {:induction false} PositionMeans(items: seq<Item>, id: string)
    ensures Position(items, id) == 0 <==> id !in Ids(items)
    ensures forall i | 0 <= i < Position(items, id) - 1 :: items[i].id != id
    decreases |items|
  {
    if items == [] || items[0].id == id {
    } else {
      PositionMeans(items[1..], id);
      forall i | 0 < i < |items| ensures items[i] == items[1..][i - 1] {}
      if id in Ids(items) {
        var i :| 0 <= i < |items| && items[i].id == id;
        assert items[1..][i - 1].id == id;
      }
    }
  }

  function Without(items: seq<Item>, index: nat): (r: seq<Item>)
    requires index < |items|
  {
    items[..index] + items[index + 1..]
  }

  function EnqueueError(maxSize: nat, items: seq<Item>, item: Item): (e: Option<Error>) {
    if item.id == "" || item.admit.None? then Some(Invalid)
    else if item.id in Ids(items) then Some(Duplicate)
    else if |items| >= maxSize then Some(Full)
    else None
  }

  function Stored(item: Item): (r: Item) {
    if item.context.None? then item.(context := Some(BACKGROUND)) else item
  }

  // ---- Runs ----

  datatype Op = Enqueue(item: Item) | Cancel(id: string) | Pop

  /** The queue together with everything that ever entered or left it. */
  datatype State = State(items: seq<Item>, accepted: seq<Item>, popped: seq<Item>, cancelled: seq<Item>)

  function Step(maxSize: nat, s: State, op: Op): (r: State) {
    match op
    case Enqueue(item) =>
      if EnqueueError(maxSize, s.items, item).Some? then s
      else s.(items := s.items + [Stored(item)], accepted := s.accepted + [Stored(item)])
    case Cancel(id) =>
      var k := Position(s.items, id);
      if k == 0 then s
      else s.(items := Without(s.items, k - 1), cancelled := s.cancelled + [s.items[k - 1]])
    case Pop =>
      if s.items == [] then s else s.(items := s.items[1..], popped := s.popped + [s.items[0]])
  }

  function Holding(items: seq<Item>): (s: State) { State(items, [], [], []) }

  function Run(maxSize: nat, s: State, ops: seq<Op>): (r: State)
    decreases |ops|
  {
    if ops == [] then s else Run(maxSize, Step(maxSize, s, ops[0]), ops[1..])
  }

  /** `a` can be had from `b` by leaving elements out. */
  ghost predicate Subsequence(a: seq<Item>, b: seq<Item>)
    decreases |b|
  {
    || a == []
    || (b != [] && a[|a| - 1] == b[|b| - 1] && Subsequence(a[..|a| - 1], b[..|b| - 1]))
    || (b != [] && Subsequence(a, b[..|b| - 1]))
  }

  lemma SubsequencePush(a: seq<Item>, b: seq<Item>, x: Item)
    requires Subsequence(a, b)
    ensures Subsequence(a + [x], b + [x])
  {
    assert (a + [x])[..|a|] == a && (b + [x])[..|b|] == b;
  }

  lemma {:induction false} SubsequenceSelf(a: seq<Item>)
    ensures Subsequence(a, a)
    decreases |a|
  {
    if a == [] {
    } else {
      SubsequenceSelf(a[..|a| - 1]);
    }
  }

  lemma {:induction false} SubsequenceDrop(a: seq<Item>, b: seq<Item>, index: nat)
    requires Subsequence(a, b) && index < |a|
    ensures Subsequence(Without(a, index), b)
    decreases |b|
  {
    var last := |a| - 1;
    var w := Without(a, index);
    if Subsequence(a, b[..|b| - 1]) {
      SubsequenceDrop(a, b[..|b| - 1], index);
    } else if index == last {
      assert w == a[..last];
    } else {
      SubsequenceDrop(a[..last], b[..|b| - 1], index);
      assert w[..|w| - 1] == Without(a[..last], index);
    }
  }

  ghost predicate Inv(maxSize: nat, initial: seq<Item>, s: State) {
    && |s.items| <= maxSize
    && Distinct(s.items)
    && Subsequence(s.popped + s.items, initial + s.accepted)
    && Balanced(initial, s)
  }

  /** Conservation: nothing is lost and nothing is duplicated. */
  ghost predicate Balanced(initial: seq<Item>, s: State) {
    multiset(initial) + multiset(s.accepted) == multiset(s.popped) + multiset(s.cancelled) + multiset(s.items)
  }

  lemma EnqueueBalances(maxSize: nat, initial: seq<Item>, s: State, item: Item)
    requires Balanced(initial, s)
    ensures Balanced(initial, Step(maxSize, s, Enqueue(item)))
  {
    hide Ids, Stored;
    if EnqueueError(maxSize, s.items, item).None? {
      var x := Stored(item);
      PushMultiset(s.items, x);
      PushMultiset(s.accepted, x);
      AddOne(multiset(initial), multiset(s.accepted), multiset(s.popped) + multiset(s.cancelled), multiset(s.items), x);
    }
  }

  lemma CancelBalances(maxSize: nat, initial: seq<Item>, s: State, id: string)
    requires Balanced(initial, s)
    ensures Balanced(initial, Step(maxSize, s, Cancel(id)))
  {
    hide Position, Without;
    var k := Position(s.items, id);
    if k > 0 {
      WithoutMultiset(s.items, k - 1);
      PushMultiset(s.cancelled, s.items[k - 1]);
      MoveOne(multiset(s.popped), multiset(s.cancelled), multiset(Without(s.items, k - 1)), s.items[k - 1]);
    }
  }

  lemma PopBalances(maxSize: nat, initial: seq<Item>, s: State)
    requires Balanced(initial, s)
    ensures Balanced(initial, Step(maxSize, s, Pop))
  {
    if s.items != [] {
      var x, rest := s.items[0], s.items[1..];
      assert s.items == [x] + rest;
      PushMultiset(s.popped, x);
      MoveOne(multiset(s.cancelled), multiset(s.popped), multiset(rest), x);
    }
  }

  lemma PushMultiset(items: seq<Item>, x: Item)
    ensures multiset(items + [x]) == multiset(items) + multiset{x}
  {
  }

  lemma AddOne(a: multiset<Item>, b: multiset<Item>, left: multiset<Item>, q: multiset<Item>, x: Item)
    requires a + b == left + q
    ensures a + (b + multiset{x}) == left + (q + multiset{x})
  {
    assert a + (b + multiset{x}) == (a + b) + multiset{x};
  }

  lemma MoveOne(a: multiset<Item>, b: multiset<Item>, rest: multiset<Item>, x: Item)
    ensures a + b + (rest + multiset{x}) == a + (b + multiset{x}) + rest
  {
  }

  lemma PushFacts(items: seq<Item>, x: Item)
    requires Distinct(items) && x.id !in Ids(items)
    ensures Distinct(items + [x]) && Ids(items + [x]) == Ids(items) + {x.id}
  {
    var all := items + [x];
    forall i | 0 <= i < |items| ensures all[i] == items[i] && all[i].id in Ids(items) {}
    assert all[|items|] == x;
  }

  lemma WithoutAt(items: seq<Item>, index: nat)
    requires index < |items|
    ensures |Without(items, index)| == |items| - 1
    ensures forall i | 0 <= i < |items| - 1 :: Without(items, index)[i] == if i < index then items[i] else items[i + 1]
  {
  }

  lemma WithoutMultiset(items: seq<Item>, index: nat)
    requires index < |items|
    ensures multiset(items) == multiset(Without(items, index)) + multiset{items[index]}
  {
    assert items == items[..index] + ([items[index]] + items[index + 1..]);
  }

  lemma WithoutIds(items: seq<Item>, index: nat)
    requires index < |items| && Distinct(items)
    ensures Distinct(Without(items, index)) && Ids(Without(items, index)) == Ids(items) - {items[index].id}
  {
    WithoutAt(items, index);
    var w := Without(items, index);
    hide Without;
    forall id | id in Ids(items) - {items[index].id} ensures id in Ids(w) {
      var i :| 0 <= i < |items| && items[i].id == id;
      assert w[if i < index then i else i - 1].id == id;
    }
    forall id | id in Ids(w) ensures id in Ids(items) && id != items[index].id {
      var i :| 0 <= i < |w| && w[i].id == id;
      assert items[if i < index then i else i + 1].id == id;
    }
  }

  /** A new item goes behind everything that is or was queued. */
  lemma PushOrder(popped: seq<Item>, items: seq<Item>, initial: seq<Item>, accepted: seq<Item>, x: Item)
    requires Subsequence(popped + items, initial + accepted)
    ensures Subsequence(popped + (items + [x]), initial + (accepted + [x]))
  {
    hide Subsequence;
    SubsequencePush(popped + items, initial + accepted, x);
    Regroup(popped, items, [x]);
    Regroup(initial, accepted, [x]);
  }

  lemma EnqueueKeeps(maxSize: nat, initial: seq<Item>, s: State, item: Item)
    requires Inv(maxSize, initial, s)
    ensures Inv(maxSize, initial, Step(maxSize, s, Enqueue(item)))
  {
    EnqueueBalances(maxSize, initial, s, item);
    hide Balanced, Subsequence, Distinct, Ids;
    if EnqueueError(maxSize, s.items, item).None? {
      var x := Stored(item);
      PushFacts(s.items, x);
      PushOrder(s.popped, s.items, initial, s.accepted, x);
    }
  }

  lemma WithoutBehind(popped: seq<Item>, items: seq<Item>, index: nat)
    requires index < |items|
    ensures Without(popped + items, |popped| + index) == popped + Without(items, index)
  {
    var all := popped + items;
    assert all[..|popped| + index] == popped + items[..index];
    assert all[|popped| + index + 1..] == items[index + 1..];
    Regroup(popped, items[..index], items[index + 1..]);
  }

  /** Leaving out a queued item keeps the order of the rest. */
  lemma DropOrder(popped: seq<Item>, items: seq<Item>, order: seq<Item>, index: nat)
    requires Subsequence(popped + items, order) && index < |items|
    ensures Subsequence(popped + Without(items, index), order)
  {
    SubsequenceDrop(popped + items, order, |popped| + index);
    WithoutBehind(popped, items, index);
  }

  lemma CancelKeeps(maxSize: nat, initial: seq<Item>, s: State, id: string)
    requires Inv(maxSize, initial, s)
    ensures Inv(maxSize, initial, Step(maxSize, s, Cancel(id)))
  {
    CancelBalances(maxSize, initial, s, id);
    hide Balanced, Subsequence, Distinct, Ids, Position, Without;
    var k := Position(s.items, id);
    if k > 0 {
      WithoutIds(s.items, k - 1);
      WithoutAt(s.items, k - 1);
      DropOrder(s.popped, s.items, initial + s.accepted, k - 1);
    }
  }

  lemma PopMoves(popped: seq<Item>, items: seq<Item>)
    requires items != []
    ensures Without(items, 0) == items[1..]
    ensures (popped + [items[0]]) + items[1..] == popped + items
  {
  }

  lemma PopKeeps(maxSize: nat, initial: seq<Item>, s: State)
    requires Inv(maxSize, initial, s)
    ensures Inv(maxSize, initial, Step(maxSize, s, Pop))
  {
    PopBalances(maxSize, initial, s);
    hide Balanced, Subsequence, Distinct, Ids;
    if s.items != [] {
      WithoutIds(s.items, 0);
      PopMoves(s.popped, s.items);
    }
  }

  lemma {:induction false} RunKeeps(maxSize: nat, initial: seq<Item>, s: State, ops: seq<Op>)
    requires Inv(maxSize, initial, s)
    ensures Inv(maxSize, initial, Run(maxSize, s, ops))
    decreases |ops|
  {
    if ops == [] {
    } else {
      hide Inv;
      match ops[0] {
        case Enqueue(item) => EnqueueKeeps(maxSize, initial, s, item);
        case Cancel(id) => CancelKeeps(maxSize, initial, s, id);
        case Pop => PopKeeps(maxSize, initial, s);
      }
      RunKeeps(maxSize, initial, Step(maxSize, s, ops[0]), ops[1..]);
    }
  }

  // ---- Main results ----

  /**
   Over every run from the empty queue: IDs stay distinct, the bound holds, items leave in the order
   they were accepted, and every accepted item was popped, cancelled or is still queued.
   */
  lemma FirstInFirstOut(maxSize: nat, ops: seq<Op>)
    ensures var s := Run(maxSize, State([], [], [], []), ops);
            && |s.items| <= maxSize && Distinct(s.items)
            && Subsequence(s.popped + s.items, s.accepted)
            && multiset(s.accepted) == multiset(s.popped) + multiset(s.cancelled) + multiset(s.items)
  {
    var start := State([], [], [], []);
    assert Inv(maxSize, [], start);
    RunKeeps(maxSize, [], start, ops);
    var s := Run(maxSize, start, ops);
    assert [] + s.accepted == s.accepted;
  }

  function Pops(ops: seq<Op>): (n: nat) {
    if ops == [] then 0 else (if ops[0].Pop? then 1 else 0) + Pops(ops[1..])
  }

  /** The ID is in the queue before, between and after all the operations. */
  ghost predicate QueuedThroughout(maxSize: nat, s: State, ops: seq<Op>, id: string)
    decreases |ops|
  {
    id in Ids(s.items) && (ops != [] ==> QueuedThroughout(maxSize, Step(maxSize, s, ops[0]), ops[1..], id))
  }

  lemma PositionIs(items: seq<Item>, id: string, k: nat)
    requires Distinct(items) && 0 < k <= |items| && items[k - 1].id == id
    ensures Position(items, id) == k
  {
    PositionMeans(items, id);
    assert items[k - 1].id in Ids(items);
  }

  lemma EnqueuePosition(items: seq<Item>, x: Item, id: string)
    requires Distinct(items) && x.id !in Ids(items) && id in Ids(items)
    ensures Position(items + [x], id) == Position(items, id)
  {
    PushFacts(items, x);
    PositionMeans(items, id);
    PositionIs(items + [x], id, Position(items, id));
  }

  lemma WithoutPosition(items: seq<Item>, index: nat, id: string)
    requires Distinct(items) && index < |items| && id in Ids(items) && id != items[index].id
    ensures Position(Without(items, index), id) == Position(items, id) - if index < Position(items, id) then 1 else 0
  {
    WithoutAt(items, index);
    WithoutIds(items, index);
    PositionMeans(items, id);
    hide Without, Ids, Distinct;
    var k := Position(items, id);
    PositionIs(Without(items, index), id, if index < k then k - 1 else k);
  }

  lemma StepPosition(maxSize: nat, s: State, op: Op, id: string)
    requires Distinct(s.items) && id in Ids(s.items) && id in Ids(Step(maxSize, s, op).items)
    ensures Distinct(Step(maxSize, s, op).items)
    ensures Position(Step(maxSize, s, op).items, id) + (if op.Pop? then 1 else 0) <= Position(s.items, id)
  {
    hide Ids, Distinct, Without;
    match op
    case Enqueue(item) =>
      if EnqueueError(maxSize, s.items, item).None? {
        PushFacts(s.items, Stored(item));
        EnqueuePosition(s.items, Stored(item), id);
      }
    case Cancel(other) =>
      var c := Position(s.items, other);
      if c > 0 {
        WithoutIds(s.items, c - 1);
        WithoutPosition(s.items, c - 1, id);
      }
    case Pop =>
      PopIsWithout(s.items, id);
      WithoutIds(s.items, 0);
      WithoutPosition(s.items, 0, id);
  }

  lemma PopIsWithout(items: seq<Item>, id: string)
    requires id in Ids(items)
    ensures items != [] && Without(items, 0) == items[1..] && Position(items, id) > 0
  {
    PositionMeans(items, id);
  }

  /** While an ID stays queued its position never rises, and every Pop lowers it. */
  lemma {:induction false} PositionFalls(maxSize: nat, s: State, ops: seq<Op>, id: string)
    requires Distinct(s.items) && QueuedThroughout(maxSize, s, ops, id)
    ensures Position(Run(maxSize, s, ops).items, id) + Pops(ops) <= Position(s.items, id)
    decreases |ops|
  {
    if ops == [] {
    } else {
      StepPosition(maxSize, s, ops[0], id);
      PositionFalls(maxSize, Step(maxSize, s, ops[0]), ops[1..], id);
    }
  }

  lemma {:induction false} ThroughoutEnd(maxSize: nat, s: State, ops: seq<Op>, id: string)
    requires QueuedThroughout(maxSize, s, ops, id)
    ensures id in Ids(Run(maxSize, s, ops).items)
    decreases |ops|
  {
    if ops == [] {
    } else {
      ThroughoutEnd(maxSize, Step(maxSize, s, ops[0]), ops[1..], id);
    }
  }

  /** An item at position k has left by the time k Pops have been made, whatever else happens. */
  lemma LeavesWithinItsPosition(maxSize: nat, s: State, ops: seq<Op>, id: string)
    requires Distinct(s.items) && Pops(ops) >= Position(s.items, id)
    ensures !QueuedThroughout(maxSize, s, ops, id)
  {
    if QueuedThroughout(maxSize, s, ops, id) {
      PositionFalls(maxSize, s, ops, id);
      ThroughoutEnd(maxSize, s, ops, id);
      PositionMeans(Run(maxSize, s, ops).items, id);
    }
  }

  /** A well-formed item with a new ID is accepted exactly while there is room, and goes last, with a context. */
  lemma EnqueueAccepts(maxSize: nat, s: State, item: Item)
    requires item.id != "" && item.admit.Some? && item.id !in Ids(s.items)
    ensures EnqueueError(maxSize, s.items, item) == if |s.items| < maxSize then None else Some(Full)
    ensures var s', stored := Step(maxSize, s, Enqueue(item)), Stored(item);
            && stored.id == item.id && stored.admit == item.admit && stored.context.Some?
            && (item.context.Some? ==> stored == item)
            && (|s.items| < maxSize ==> s'.items == s.items + [stored] && Position(s'.items, item.id) == |s.items| + 1)
  {
    var all := s.items + [Stored(item)];
    forall i | 0 <= i < |s.items| ensures all[i].id != item.id {
      assert all[i] == s.items[i] && s.items[i].id in Ids(s.items);
    }
    assert all[|s.items|].id == item.id && all[|s.items|].id in Ids(all);
    PositionMeans(all, item.id);
  }

  /** A malformed item, or one whose ID is queued already, is refused whatever room there is. */
  lemma EnqueueRefuses(maxSize: nat, items: seq<Item>, item: Item)
    ensures item.id == "" || item.admit.None? <==> EnqueueError(maxSize, items, item) == Some(Invalid)
    ensures item.id != "" && item.admit.Some? && item.id in Ids(items) ==>
              EnqueueError(maxSize, items, item) == Some(Duplicate)
  {
  }

  /** After a cancellation the ID is gone, and only it. */
  lemma CancelTakesOut(maxSize: nat, s: State, id: string)
    requires Distinct(s.items)
    ensures Ids(Step(maxSize, s, Cancel(id)).items) == Ids(s.items) - {id}
  {
    PositionMeans(s.items, id);
    var k := Position(s.items, id);
    if k > 0 {
      WithoutIds(s.items, k - 1);
    }
  }

  // ---- The queue itself ----

  class FIFO {
    const slots: array<Item>
    var length: nat
    var queued: set<string>

    ghost predicate Valid()
      reads this, slots
    {
      && length <= slots.Length
      && Distinct(slots[..length])
      && queued == Ids(slots[..length])
      && forall i | length <= i < slots.Length :: slots[i] == BLANK
    }

    constructor (maxSize: int)
      ensures Valid() && fresh(slots) && length == 0
      ensures slots.Length == if maxSize <= 0 then DEFAULT_SIZE else maxSize
    {
      slots := new Item[if maxSize <= 0 then DEFAULT_SIZE else maxSize](_ => BLANK);
      length := 0;
      queued := {};
    }

    method Enqueue(item: Item) returns (r: Result<nat, Error>)
      requires Valid()
      modifies this, slots
      ensures Valid()
      ensures r == match EnqueueError(slots.Length, old(slots[..length]), item)
                   case Some(e) => Err(e)
                   case None => Ok(old(length) + 1)
      ensures slots[..length] == old(slots[..length]) + if r.Ok? then [Stored(item)] else []
      ensures slots[..length] == Step(slots.Length, Holding(old(slots[..length])), Op.Enqueue(item)).items
    {
      if item.id == "" || item.admit.None? {
        return Err(Invalid);
      }
      if item.id in queued {
        return Err(Duplicate);
      }
      if length >= slots.Length {
        return Err(Full);
      }
      PushFacts(slots[..length], Stored(item));
      slots[length] := if item.context.None? then item.(context := Some(BACKGROUND)) else item;
      length := length + 1;
      queued := queued + {item.id};
      assert slots[..length] == old(slots[..length]) + [Stored(item)];
      return Ok(length);
    }

    /** Every item behind `index` moves down one slot; the last slot keeps its old content. */
    method ShiftDown(index: nat)
      requires index < length <= slots.Length
      modifies slots
      ensures slots[..length - 1] == Without(old(slots[..length]), index)
      ensures slots[length..] == old(slots[length..])
    {
      forall i | index <= i < length - 1 {
        slots[i] := slots[i + 1];
      }
    }

    /** Shifts everything after `index` down one place, in place, and clears the slot this frees. */
    method RemoveAt(index: nat)
      requires Valid() && index < length
      modifies this, slots
      ensures Valid()
      ensures slots[..length] == Without(old(slots[..length]), index)
    {
      ghost var before := slots[..length];
      ghost var tail := slots[length..];
      var id := slots[index].id;
      WithoutIds(before, index);
      hide Distinct, Ids, Without;
      ShiftDown(index);
      var last := length - 1;
      assert forall i | length <= i < slots.Length :: slots[i] == tail[i - length];
      slots[last] := BLANK;
      length := last;
      queued := queued - {id};
    }

    method Cancel(id: string) returns (found: bool)
      requires Valid()
      modifies this, slots
      ensures Valid()
      ensures found <==> Position(old(slots[..length]), id) > 0
      ensures slots[..length] ==
                if found then Without(old(slots[..length]), Position(old(slots[..length]), id) - 1)
                else old(slots[..length])
      ensures slots[..length] == Step(slots.Length, Holding(old(slots[..length])), Op.Cancel(id)).items
    {
      ghost var items := slots[..length];
      for index := 0 to length
        invariant slots[..length] == items && Valid()
        invariant forall i | 0 <= i < index :: items[i].id != id
      {
        if slots[index].id == id {
          assert items[index].id == id;
          PositionIs(items, id, index + 1);
          RemoveAt(index);
          return true;
        }
      }
      PositionMeans(items, id);
      return false;
    }

    method Pop() returns (item: Item, ok: bool)
      requires Valid()
      modifies this, slots
      ensures Valid()
      ensures ok <==> old(length) > 0
      ensures item == if ok then old(slots[..length])[0] else BLANK
      ensures slots[..length] == if ok then old(slots[..length])[1..] else []
      ensures slots[..length] == Step(slots.Length, Holding(old(slots[..length])), Op.Pop).items
    {
      if length == 0 {
        return BLANK, false;
      }
      item, ok := slots[0], true;
      RemoveAt(0);
    }

    method FindPosition(id: string) returns (position: nat, ok: bool)
      requires Valid()
      ensures position == Position(slots[..length], id) && ok == (position > 0)
    {
      ghost var items := slots[..length];
      for index := 0 to length
        invariant forall i | 0 <= i < index :: items[i].id != id
      {
        if slots[index].id == id {
          assert items[index].id == id;
          PositionIs(items, id, index + 1);
          return index + 1, true;
        }
      }
      PositionMeans(items, id);
      return 0, false;
    }
  }
}
