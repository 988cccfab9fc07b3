/** Bytes, fixed-width integers and big-endian numerals shared by every codec. */
module Bytes {

  type byte = x: int | 0 <= x < 0x100
  type bytes = seq<byte>
  type int32 = x: int | -0x8000_0000 <= x < 0x8000_0000
  type int64 = x: int | -0x8000_0000_0000_0000 <= x < 0x8000_0000_0000_0000
  type uint32 = x: int | 0 <= x < 0x1_0000_0000
  type uint64 = x: int | 0 <= x < 0x1_0000_0000_0000_0000

  datatype Option<+T> = None | Some(value: T)

  datatype Result<+T, +E> = Ok(value: T) | Err(error: E)

  /** Go's uint32(v) for a signed v. */
  function ToUint32(v: int32): (u: uint32) {
    if v < 0 then v + 0x1_0000_0000 else v
  }

  /** Go's int32(u) for an unsigned u. */
  function ToInt32(u: uint32): (v: int32)
    ensures ToUint32(v) == u
  {
    if u < 0x8000_0000 then u else u - 0x1_0000_0000
  }

  /** Go's int32(n) for a wider integer: only the low 32 bits survive. */
  function TruncateInt32(n: nat): (v: int32)
    ensures v >= 0 && v == n <==> n < 0x8000_0000
  {
    ToInt32(n % 0x1_0000_0000)
  }

  function ToUint64(v: int64): (u: uint64) {
    if v < 0 then v + 0x1_0000_0000_0000_0000 else v
  }

  function ToInt64(u: uint64): (v: int64)
    ensures ToUint64(v) == u
  {
    if u < 0x8000_0000_0000_0000 then u else u - 0x1_0000_0000_0000_0000
  }

  function Pow256(n: nat): (p: nat)
    ensures p >= 1
  {
    if n == 0 then 1 else 256 * Pow256(n - 1)
  }

  /** The value of a big-endian numeral. */
  function FromBigEndian(b: bytes): (v: nat) {
    if b == [] then 0 else FromBigEndian(b[..|b| - 1]) * 256 + b[|b| - 1]
  }

  /** The low `width` bytes of `v`, most significant first. */
  function BigEndian(width: nat, v: nat): (b: bytes)
    ensures |b| == width
  {
    if width == 0 then [] else BigEndian(width - 1, v / 256) + [v % 256]
  }

  lemma {:induction false} FromBigEndianBound(b: bytes)
    ensures FromBigEndian(b) < Pow256(|b|)
  {
    if b == [] {
    } else {
      FromBigEndianBound(b[..|b| - 1]);
    }
  }

  lemma {:induction false} BigEndianRoundTrip(width: nat, v: nat)
    requires v < Pow256(width)
    ensures FromBigEndian(BigEndian(width, v)) == v
  {
    if width == 0 {
    } else {
      BigEndianRoundTrip(width - 1, v / 256);
      assert BigEndian(width, v)[..width - 1] == BigEndian(width - 1, v / 256);
    }
  }

  lemma {:induction false} BigEndianSurjective(b: bytes)
    ensures BigEndian(|b|, FromBigEndian(b)) == b
  {
    if b == [] {
    } else {
      BigEndianSurjective(b[..|b| - 1]);
      assert b == b[..|b| - 1] + [b[|b| - 1]];
    }
  }

  lemma PowerValues()
    ensures Pow256(2) == 0x1_0000 && Pow256(4) == 0x1_0000_0000 && Pow256(8) == 0x1_0000_0000_0000_0000
  {
    assert Pow256(1) == 256 * Pow256(0);
    assert Pow256(2) == 256 * Pow256(1);
    assert Pow256(3) == 256 * Pow256(2);
    assert Pow256(4) == 256 * Pow256(3);
    assert Pow256(5) == 256 * Pow256(4);
    assert Pow256(6) == 256 * Pow256(5);
    assert Pow256(7) == 256 * Pow256(6);
    assert Pow256(8) == 256 * Pow256(7);
  }

  function Pow2(n: nat): (p: nat)
    ensures p >= 1
  {
    if n == 0 then 1 else 2 * Pow2(n - 1)
  }

  /** Bitwise exclusive or of two numbers of `width` bits, lowest bit first. */
  function XorBits(width: nat, a: nat, b: nat): (r: nat)
    ensures r < Pow2(width)
  {
    if width == 0 then 0 else (if a % 2 == b % 2 then 0 else 1) + 2 * XorBits(width - 1, a / 2, b / 2)
  }

  lemma Halves(low: nat, high: nat)
    requires low < 2
    ensures (low + 2 * high) / 2 == high && (low + 2 * high) % 2 == low
  {
  }

  lemma {:induction false} XorBitsCancels(width: nat, a: nat, b: nat)
    requires a < Pow2(width)
    ensures XorBits(width, XorBits(width, a, b), b) == a
  {
    if width == 0 {
    } else {
      XorBitsCancels(width - 1, a / 2, b / 2);
      var high, low := XorBits(width - 1, a / 2, b / 2), if a % 2 == b % 2 then 0 else 1;
      Halves(low, high);
    }
  }

  /** Bit k of a number, counted from the lowest. */
  function Bit(x: nat, k: nat): (b: nat) { x / Pow2(k) % 2 }

  lemma Quotient(x: nat, d: nat, q: nat, m: nat)
    requires d >= 1 && m < d && x == q * d + m
    ensures x / d == q
  {
    var e := x / d - q;
    assert x == (x / d) * d + x % d;
    assert e * d == m - x % d;
    Multiple(e, d);
  }

  lemma Multiple(e: int, d: int)
    requires d >= 1
    ensures (e >= 1 ==> e * d >= d) && (e <= -1 ==> e * d <= -d)
  {
  }

  lemma HalveFirst(x: nat, p: nat)
    requires p >= 1
    ensures x / (2 * p) == x / 2 / p
  {
    var h := x / 2;
    var q, m := h / p, h % p;
    assert h == q * p + m;
    assert x == q * (2 * p) + (2 * m + x % 2);
    Quotient(x, 2 * p, q, 2 * m + x % 2);
  }

  /** Above the lowest, the bits of a number are those of its half. */
  lemma BitAbove(x: nat, k: nat)
    requires k > 0
    ensures Bit(x, k) == Bit(x / 2, k - 1)
  {
    HalveFirst(x, Pow2(k - 1));
  }

  /** Bit by bit, the result is set exactly where the operands differ. */
  lemma {:induction false} XorBitsAt(width: nat, a: nat, b: nat, k: nat)
    requires k < width
    ensures Bit(XorBits(width, a, b), k) == 1 <==> Bit(a, k) != Bit(b, k)
  {
    var r := XorBits(width, a, b);
    Halves(if a % 2 == b % 2 then 0 else 1, XorBits(width - 1, a / 2, b / 2));
    if k == 0 {
      assert Pow2(0) == 1 && Bit(a, 0) == a % 2 && Bit(b, 0) == b % 2 && Bit(r, 0) == r % 2;
    } else {
      XorBitsAt(width - 1, a / 2, b / 2, k - 1);
      hide Bit;
      BitAbove(a, k);
      BitAbove(b, k);
      BitAbove(r, k);
    }
  }

  lemma ByteWidth()
    ensures Pow2(8) == 0x100
  {
    assert Pow2(2) == 2 * Pow2(1);
    assert Pow2(4) == 2 * Pow2(3);
    assert Pow2(6) == 2 * Pow2(5);
  }

  /** Exclusive or of two bytes. */
  function Xor(a: byte, b: byte): (r: byte) {
    ByteWidth();
    XorBits(8, a, b)
  }

  lemma XorAt(a: byte, b: byte, k: nat)
    requires k < 8
    ensures Bit(Xor(a, b), k) == 1 <==> Bit(a, k) != Bit(b, k)
  {
    XorBitsAt(8, a, b, k);
  }

  lemma XorCancels(a: byte, b: byte)
    ensures Xor(Xor(a, b), b) == a
  {
    ByteWidth();
    XorBitsCancels(8, a, b);
  }

  /** Bitwise or of two numbers of `width` bits, lowest bit first. */
  function OrBits(width: nat, a: nat, b: nat): (r: nat)
    ensures r < Pow2(width)
  {
    if width == 0 then 0
    else (if a % 2 == 1 || b % 2 == 1 then 1 else 0) + 2 * OrBits(width - 1, a / 2, b / 2)
  }

  function ShiftLeft(k: nat, v: nat): (r: nat) {
    if k == 0 then v else 2 * ShiftLeft(k - 1, v)
  }

  /** Or is addition when one operand lies below the lowest set bit of the other. */
  lemma {:induction false} OrDisjoint(width: nat, k: nat, low: nat, high: nat)
    requires low < Pow2(k) && low + ShiftLeft(k, high) < Pow2(width)
    ensures OrBits(width, low, ShiftLeft(k, high)) == low + ShiftLeft(k, high)
    decreases width
  {
    if width == 0 {
    } else {
      if k == 0 {
        OrDisjoint(width - 1, 0, 0, high / 2);
      } else {
        OrDisjoint(width - 1, k - 1, low / 2, high);
      }
    }
  }

  /** The concatenation of a list of chunks. */
  function Flatten<T>(chunks: seq<seq<T>>): (s: seq<T>) {
    if chunks == [] then [] else chunks[0] + Flatten(chunks[1..])
  }

  lemma Regroup<T>(a: seq<T>, b: seq<T>, c: seq<T>)
    ensures (a + b) + c == a + (b + c)
  {
  }

  lemma {:induction false} FlattenConcat<T>(a: seq<seq<T>>, b: seq<seq<T>>)
    ensures Flatten(a + b) == Flatten(a) + Flatten(b)
    decreases |a|
  {
    if a == [] {
      assert a + b == b;
    } else {
      FlattenConcat(a[1..], b);
      assert (a + b)[0] == a[0] && (a + b)[1..] == a[1..] + b;
      Regroup(a[0], Flatten(a[1..]), Flatten(b));
    }
  }
}
