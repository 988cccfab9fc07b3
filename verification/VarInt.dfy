/** internal/protocol/codec/varint.go: Minecraft's signed 32-bit VarInt. */
module VarInt {
  import opened Bytes

  const MAX_VARINT_BYTES: nat := 5

  datatype Error = TooLong | Partial | Overflow

  // ---- Specification ----

  /** The number of leading bytes whose continuation bit is set. */
  function Continuations(data: bytes): (n: nat)
    ensures n <= |data|
    ensures forall i | 0 <= i < n :: data[i] >= 0x80
    ensures n < |data| ==> data[n] < 0x80
  {
    if data == [] || data[0] < 0x80 then 0 else 1 + Continuations(data[1..])
  }

  /** The little-endian base-128 number formed by the low seven bits of every byte. */
  function Value(groups: bytes): (v: nat) {
    if groups == [] then 0 else groups[0] % 0x80 + 0x80 * Value(groups[1..])
  }

  /** What a VarInt at the front of `data` means: its value and its size. */
  function Consume(data: bytes): (r: Result<(int32, nat), Error>)
    ensures r.Ok? ==> 1 <= r.value.1 <= MAX_VARINT_BYTES && r.value.1 <= |data|
  {
    var n := Continuations(data);
    if n >= MAX_VARINT_BYTES then Err(TooLong)
    else if n == |data| then Err(Partial)
    else if n == MAX_VARINT_BYTES - 1 && data[n] >= 0x10 then Err(Overflow)
    else
      ValueBound(data[..n + 1]);
      Ok((ToInt32(Value(data[..n + 1])), n + 1))
  }

  function Groups(u: nat): (b: bytes)
    ensures |b| >= 1
  {
    if u < 0x80 then [u] else [u % 0x80 + 0x80] + Groups(u / 0x80)
  }

  /** The encoding of `v`. */
  function Encode(v: int32): (b: bytes)
    ensures 1 <= |b| <= MAX_VARINT_BYTES
  {
    GroupsSize(ToUint32(v), MAX_VARINT_BYTES);
    Groups(ToUint32(v))
  }

  function Pow128(n: nat): (p: nat)
    ensures p >= 1
  {
    if n == 0 then 1 else 0x80 * Pow128(n - 1)
  }

  // ---- Facts about the two number systems ----

  lemma Pow128Values()
    ensures Pow128(1) == 0x80 && Pow128(2) == 0x4000 && Pow128(3) == 0x20_0000 && Pow128(4) == 0x1000_0000
    ensures Pow128(5) == 0x8_0000_0000
  {
    assert Pow128(1) == 0x80 * Pow128(0);
    assert Pow128(2) == 0x80 * Pow128(1);
    assert Pow128(3) == 0x80 * Pow128(2);
    assert Pow128(4) == 0x80 * Pow128(3);
    assert Pow128(5) == 0x80 * Pow128(4);
  }

  lemma OneGroup(v: int32)
    requires 0 <= v < 0x80
    ensures |Encode(v)| == 1
  {
  }

  lemma EmptyValue()
    ensures Value([]) == 0
  {
  }

  lemma Reassociate(q: nat, p: nat)
    ensures 0x80 * (q * p) == q * (0x80 * p)
  {
  }

  lemma {:induction false} ValuePush(groups: bytes, b: byte)
    ensures Value(groups + [b]) == Value(groups) + b % 0x80 * Pow128(|groups|)
  {
    if groups == [] {
      assert groups + [b] == [b];
      assert Value([b]) == b % 0x80 + 0x80 * Value([b][1..]);
    } else {
      ValuePush(groups[1..], b);
      assert (groups + [b])[1..] == groups[1..] + [b] && (groups + [b])[0] == groups[0];
      Reassociate(b % 0x80, Pow128(|groups| - 1));
    }
  }

  lemma {:induction false} ValueBelow(groups: bytes)
    ensures Value(groups) < Pow128(|groups|)
  {
    if groups == [] {
    } else {
      ValueBelow(groups[1..]);
    }
  }

  /** Five accepted groups fit 32 bits: nothing is shifted out of the accumulator. */
  lemma ValueBound(groups: bytes)
    requires 1 <= |groups| <= MAX_VARINT_BYTES
    requires |groups| == MAX_VARINT_BYTES ==> groups[4] < 0x10
    ensures Value(groups) < 0x1_0000_0000
  {
    Pow128Values();
    var front := groups[..|groups| - 1];
    ValueBelow(groups);
    ValueBelow(front);
    assert groups == front + [groups[|groups| - 1]];
    ValuePush(front, groups[|groups| - 1]);
  }

  lemma {:induction false} GroupsSize(u: nat, n: nat)
    requires n >= 1 && u < Pow128(n)
    ensures |Groups(u)| <= n
    decreases u
  {
    if u < 0x80 {
    } else {
      Pow128Values();
      GroupsSize(u / 0x80, n - 1);
    }
  }

  lemma {:induction false} ContinuationsIs(data: bytes, n: nat)
    requires n <= |data| && forall i | 0 <= i < n :: data[i] >= 0x80
    ensures Continuations(data) >= n
    ensures n == |data| || data[n] < 0x80 ==> Continuations(data) == n
  {
    if n == 0 {
    } else {
      ContinuationsIs(data[1..], n - 1);
    }
  }

  lemma {:induction false} GroupsContinue(u: nat)
    ensures forall i | 0 <= i < |Groups(u)| - 1 :: Groups(u)[i] >= 0x80
    ensures Groups(u)[|Groups(u)| - 1] < 0x80
  {
    if u < 0x80 {
    } else {
      GroupsContinue(u / 0x80);
    }
  }

  lemma {:induction false} GroupsValue(u: nat)
    ensures Value(Groups(u)) == u
  {
    var groups := Groups(u);
    if u < 0x80 {
      assert groups == [u] && groups[1..] == [];
    } else {
      GroupsValue(u / 0x80);
      assert groups[0] == u % 0x80 + 0x80 && groups[1..] == Groups(u / 0x80);
    }
  }

  /** The last group of a number that leaves its upper bits free. */
  lemma {:induction false} GroupsTop(u: nat)
    requires u < 0x10 * Pow128(|Groups(u)| - 1)
    ensures Groups(u)[|Groups(u)| - 1] < 0x10
  {
    if u < 0x80 {
    } else {
      var rest := Groups(u / 0x80);
      assert Groups(u) == [u % 0x80 + 0x80] + rest;
      assert u / 0x80 < 0x10 * Pow128(|rest| - 1);
      GroupsTop(u / 0x80);
    }
  }

  // ---- Main results ----

  /** What Consume gives for `n` continuation bytes and what follows them. */
  lemma ConsumeStops(data: bytes, n: nat)
    requires n <= |data| && n <= MAX_VARINT_BYTES && forall i | 0 <= i < n :: data[i] >= 0x80
    ensures n == MAX_VARINT_BYTES ==> Consume(data) == Err(TooLong)
    ensures n < MAX_VARINT_BYTES && n == |data| ==> Consume(data) == Err(Partial)
    ensures n < MAX_VARINT_BYTES && n < |data| && data[n] < 0x80 ==>
              if n == MAX_VARINT_BYTES - 1 && data[n] >= 0x10 then Consume(data) == Err(Overflow)
              else Value(data[..n + 1]) < 0x1_0000_0000 && Consume(data) == Ok((ToInt32(Value(data[..n + 1])), n + 1))
  {
    ContinuationsIs(data, n);
    hide Value, Continuations;
    if n < MAX_VARINT_BYTES && n < |data| && data[n] < 0x80 && !(n == MAX_VARINT_BYTES - 1 && data[n] >= 0x10) {
      ValueBound(data[..n + 1]);
    }
  }

  lemma EncodeFacts(v: int32)
    ensures var e := Encode(v);
            && (forall i | 0 <= i < |e| - 1 :: e[i] >= 0x80) && e[|e| - 1] < 0x80
            && Value(e) == ToUint32(v) && (|e| == MAX_VARINT_BYTES ==> e[|e| - 1] < 0x10)
  {
    var u := ToUint32(v);
    GroupsContinue(u);
    GroupsValue(u);
    if |Groups(u)| == MAX_VARINT_BYTES {
      Pow128Values();
      GroupsTop(u);
    }
  }

  /** Decoding an encoding, whatever follows it, gives back the value and the size. */
  lemma RoundTrip(v: int32, suffix: bytes)
    ensures Consume(Encode(v) + suffix) == Ok((v, |Encode(v)|))
  {
    EncodeFacts(v);
    hide Encode, Value, Consume;
    var e := Encode(v);
    var data := e + suffix;
    forall i | 0 <= i < |e| ensures data[i] == e[i] {}
    ConsumeStops(data, |e| - 1);
    assert data[..|e|] == e;
  }

  /** Whatever accepted input denotes v, the encoding of v is at least as short, and 32 bits hold all of the input. */
  lemma EncodeIsShortest(data: bytes)
    requires Consume(data).Ok?
    ensures var (v, n) := Consume(data).value;
            |Encode(v)| <= n && Value(data[..n]) == ToUint32(v) && Value(data[..n]) < 0x1_0000_0000
  {
    var (v, n) := Consume(data).value;
    ValueBelow(data[..n]);
    GroupsSize(ToUint32(v), n);
  }

  /** Only the bytes of the VarInt itself decide the outcome of accepting it. */
  lemma AcceptedPrefix(data: bytes, suffix: bytes)
    requires Consume(data).Ok?
    ensures Consume(data + suffix) == Consume(data)
    ensures Consume(data[..Consume(data).value.1]) == Consume(data)
  {
    var n := Continuations(data);
    ContinuationsIs(data + suffix, n);
    assert (data + suffix)[..n + 1] == data[..n + 1];
    ContinuationsIs(data[..n + 1], n);
    assert data[..n + 1][..n + 1] == data[..n + 1];
  }

  // ---- The loops ----

  lemma {:induction false} SevenBits(k: nat, v: nat)
    ensures Pow2(k + 7) == 0x80 * Pow2(k) && ShiftLeft(k + 7, v) == 0x80 * ShiftLeft(k, v)
  {
    assert Pow2(k + 2) == 2 * Pow2(k + 1) && ShiftLeft(k + 2, v) == 2 * ShiftLeft(k + 1, v);
    assert Pow2(k + 4) == 2 * Pow2(k + 3) && ShiftLeft(k + 4, v) == 2 * ShiftLeft(k + 3, v);
    assert Pow2(k + 6) == 2 * Pow2(k + 5) && ShiftLeft(k + 6, v) == 2 * ShiftLeft(k + 5, v);
  }

  lemma {:induction false} ShiftIsScale(position: nat, v: nat)
    ensures Pow2(7 * position) == Pow128(position) && ShiftLeft(7 * position, v) == v * Pow128(position)
  {
    if position == 0 {
      assert Pow128(0) == 1;
    } else {
      var before := position - 1;
      ShiftIsScale(before, v);
      SevenBits(7 * before, v);
      assert 7 * position == 7 * before + 7 && Pow128(position) == 0x80 * Pow128(before);
      hide Pow2, ShiftLeft, Pow128;
      Reassociate(v, Pow128(before));
    }
  }

  const WORD: nat := 32

  lemma WordWidth()
    ensures Pow2(WORD) == 0x1_0000_0000
  {
    ShiftIsScale(4, 0);
    Pow128Values();
    assert Pow2(30) == 2 * Pow2(29);
  }

  /** One turn of the decoding loops: the low seven bits of a byte go to their place in the 32-bit accumulator. */
  function Accumulate(value: uint32, current: byte, position: nat): (r: uint32) {
    WordWidth();
    OrBits(WORD, value, ShiftLeft(7 * position, current % 0x80) % 0x1_0000_0000)
  }

  lemma AccumulateIsSum(value: uint32, current: byte, position: nat)
    requires value < Pow2(7 * position)
    requires value + ShiftLeft(7 * position, current % 0x80) < 0x1_0000_0000
    ensures Accumulate(value, current, position) == value + ShiftLeft(7 * position, current % 0x80)
  {
    hide OrBits, ShiftLeft, Pow2;
    WordWidth();
    OrDisjoint(WORD, 7 * position, value, current % 0x80);
  }

  lemma PushIsSum(groups: bytes, current: byte)
    ensures Value(groups) < Pow2(7 * |groups|)
    ensures Value(groups + [current]) == Value(groups) + ShiftLeft(7 * |groups|, current % 0x80)
  {
    ValueBelow(groups);
    ValuePush(groups, current);
    ShiftIsScale(|groups|, current % 0x80);
  }

  /** Or-ing a group into the accumulator adds it, and loses nothing unless the fifth byte is rejected. */
  lemma AccumulateIsPush(groups: bytes, current: byte)
    requires |groups| < MAX_VARINT_BYTES
    requires |groups| == MAX_VARINT_BYTES - 1 ==> current < 0x10
    ensures Value(groups) < 0x1_0000_0000
    ensures Accumulate(Value(groups), current, |groups|) == Value(groups + [current])
  {
    PushIsSum(groups, current);
    ValueBound(groups + [current]);
    AccumulateIsSum(Value(groups), current, |groups|);
  }

  method ConsumeVarInt(data: bytes) returns (r: Result<(int32, nat), Error>)
    ensures r == Consume(data)
  {
    assert Value([]) == 0;
    hide Accumulate, Value, Consume;
    var value: uint32 := 0;
    for position := 0 to MAX_VARINT_BYTES
      invariant position <= |data| && forall i | 0 <= i < position :: data[i] >= 0x80
      invariant position < MAX_VARINT_BYTES ==> value == Value(data[..position])
    {
      ConsumeStops(data, position);
      if position >= |data| {
        return Err(Partial);
      }
      var current := data[position];
      if position == MAX_VARINT_BYTES - 1 && current < 0x80 && current >= 0x10 {
        return Err(Overflow);
      }
      if position < MAX_VARINT_BYTES - 1 || current < 0x80 {
        AccumulateIsPush(data[..position], current);
        assert data[..position + 1] == data[..position] + [current];
      }
      value := Accumulate(value, current, position);
      if current < 0x80 {
        return Ok((ToInt32(value), position + 1));
      }
    }
    ConsumeStops(data, MAX_VARINT_BYTES);
    return Err(TooLong);
  }

  method AppendVarInt(dst: bytes, value: int32) returns (out: bytes)
    ensures out == dst + Encode(value)
  {
    out := dst;
    var remaining := ToUint32(value);
    while true
      invariant out + Groups(remaining) == dst + Encode(value)
      decreases remaining
    {
      if remaining / 0x80 == 0 {
        return out + [remaining];
      }
      assert out + Groups(remaining) == out + [remaining % 0x80 + 0x80] + Groups(remaining / 0x80);
      out := out + [remaining % 0x80 + 0x80];
      remaining := remaining / 0x80;
    }
  }
}
