/**
 internal/auth/challenge.go, ServerHash: Minecraft's signed hexadecimal digest. The digest itself
 is a parameter, of any length.
 */
module ServerHash {
  import opened Bytes

  // ---- Specification: numbers and their canonical numerals ----

  /** The two's-complement value of a big-endian byte string. */
  function Signed(digest: bytes): (v: int)
    requires digest != []
  {
    if digest[0] >= 0x80 then FromBigEndian(digest) - Pow256(|digest|) else FromBigEndian(digest)
  }

  function HexDigit(d: nat): (c: char)
    requires d < 16
  {
    "0123456789abcdef"[d]
  }

  /** The digits of v, most significant first; none for zero. */
  function Digits(v: nat): (s: string) {
    if v == 0 then "" else Digits(v / 16) + [HexDigit(v % 16)]
  }

  function Numeral(v: int): (s: string) {
    if v == 0 then "0" else if v < 0 then "-" + Digits(-v) else Digits(v)
  }

  // ---- The numerals are canonical ----

  function DigitValue(c: char): (d: int) {
    if '0' <= c <= '9' then c as int - '0' as int else c as int - 'a' as int + 10
  }

  function ParseDigits(s: string): (v: int) {
    if s == "" then 0 else ParseDigits(s[..|s| - 1]) * 16 + DigitValue(s[|s| - 1])
  }

  function Parse(s: string): (v: int) {
    if s != "" && s[0] == '-' then -ParseDigits(s[1..]) else ParseDigits(s)
  }

  lemma HexDigitFacts(d: nat)
    requires d < 16
    ensures DigitValue(HexDigit(d)) == d && HexDigit(d) != '-' && (HexDigit(d) == '0' <==> d == 0)
  {
  }

  lemma {:induction false} DigitsParse(v: nat)
    ensures ParseDigits(Digits(v)) == v
    ensures v > 0 ==> Digits(v) != "" && Digits(v)[0] != '0' && Digits(v)[0] != '-'
  {
    if v == 0 {
    } else {
      hide HexDigit, DigitValue;
      DigitsParse(v / 16);
      HexDigitFacts(v % 16);
      var s := Digits(v);
      assert s[..|s| - 1] == Digits(v / 16) && s[|s| - 1] == HexDigit(v % 16);
    }
  }

  /** A numeral determines its number, has no leading zero except in "0", and is never "-0". */
  lemma NumeralIsCanonical(v: int)
    ensures Parse(Numeral(v)) == v
    ensures Numeral(v) != "" && (Numeral(v)[0] == '0' ==> Numeral(v) == "0")
    ensures Numeral(v)[0] == '-' <==> v < 0
    ensures v < 0 ==> |Numeral(v)| > 1 && Numeral(v)[1] != '0'
  {
    hide Digits;
    if v == 0 {
      assert ParseDigits("0") == ParseDigits("0"[..0]) * 16 + DigitValue('0');
    } else if v < 0 {
      hide ParseDigits;
      DigitsParse(-v);
      assert Numeral(v)[1..] == Digits(-v);
    } else {
      hide ParseDigits;
      DigitsParse(v);
    }
  }

  // ---- Printing ----

  function HexByte(b: byte): (s: string) {
    [HexDigit(b / 16), HexDigit(b % 16)]
  }

  /** hex.EncodeToString */
  function HexString(b: bytes): (s: string) {
    if b == [] then "" else HexString(b[..|b| - 1]) + HexByte(b[|b| - 1])
  }

  /** strings.TrimLeft(s, "0") */
  function TrimZeros(s: string): (r: string) {
    if s != "" && s[0] == '0' then TrimZeros(s[1..]) else s
  }

  lemma {:induction false} TrimPush(s: string, c: char)
    ensures TrimZeros(s + [c]) == if TrimZeros(s) == "" && c == '0' then "" else TrimZeros(s) + [c]
    decreases |s|
  {
    if s == "" {
      assert s + [c] == [c] && [c][1..] == "";
    } else if s[0] == '0' {
      TrimPush(s[1..], c);
      assert (s + [c])[1..] == s[1..] + [c];
    }
  }

  lemma DigitsPush(v: nat, d: nat)
    requires d < 16
    ensures Digits(16 * v + d) == if v == 0 && d == 0 then "" else Digits(v) + [HexDigit(d)]
  {
  }

  lemma DigitsEmpty(v: nat)
    ensures Digits(v) == "" <==> v == 0
  {
  }

  lemma TrimNibble(s: string, v: nat, d: nat)
    requires TrimZeros(s) == Digits(v) && d < 16
    ensures TrimZeros(s + [HexDigit(d)]) == Digits(16 * v + d)
  {
    hide TrimZeros, Digits;
    TrimPush(s, HexDigit(d));
    DigitsPush(v, d);
    DigitsEmpty(v);
  }

  lemma TrimByte(s: string, v: nat, b: byte)
    requires TrimZeros(s) == Digits(v)
    ensures TrimZeros(s + HexByte(b)) == Digits(256 * v + b)
  {
    hide TrimZeros, Digits, HexDigit;
    TrimNibble(s, v, b / 16);
    TrimNibble(s + [HexDigit(b / 16)], 16 * v + b / 16, b % 16);
    assert s + HexByte(b) == s + [HexDigit(b / 16)] + [HexDigit(b % 16)];
    assert 16 * (16 * v + b / 16) + b % 16 == 256 * v + b;
  }

  /** The trimmed dump of a byte string is the digits of its value. */
  lemma {:induction false} TrimmedHex(b: bytes)
    ensures TrimZeros(HexString(b)) == Digits(FromBigEndian(b))
    decreases |b|
  {
    if b == [] {
    } else {
      hide TrimZeros, Digits, HexByte;
      var front, last := b[..|b| - 1], b[|b| - 1];
      TrimmedHex(front);
      TrimByte(HexString(front), FromBigEndian(front), last);
      assert HexString(b) == HexString(front) + HexByte(last) && FromBigEndian(b) == 256 * FromBigEndian(front) + last;
      hide HexString, FromBigEndian;
    }
  }

  // ---- Negation ----

  lemma {:induction false} FromBigEndianCons(b: byte, rest: bytes)
    ensures FromBigEndian([b] + rest) == b * Pow256(|rest|) + FromBigEndian(rest)
    decreases |rest|
  {
    if rest == [] {
      assert [b] + rest == [b] && [b][..0] == [];
    } else {
      FromBigEndianCons(b, rest[..|rest| - 1]);
      assert ([b] + rest)[..|rest|] == [b] + rest[..|rest| - 1];
      assert b * Pow256(|rest|) == 256 * (b * Pow256(|rest| - 1));
    }
  }

  lemma NegateByte(p: nat, was: nat, now: nat, v: byte, next: byte, carry: nat, carry': nat)
    requires carry <= 1 && next == (255 - v + carry) % 256
    requires carry' == if carry == 1 && next == 0 then 1 else 0
    requires now + carry * p == p - was
    ensures (next * p + now) + carry' * (256 * p) == 256 * p - (v * p + was)
  {
    var factor := next + 256 * carry' - carry + 1;
    assert factor == 256 - v;
    assert factor * p == (256 - v) * p;
    assert factor * p == next * p + carry' * (256 * p) - carry * p + p;
    assert (256 - v) * p == 256 * p - v * p;
  }

  lemma PowStep(n: nat)
    ensures Pow256(n + 1) == 256 * Pow256(n)
  {
  }

  lemma ProductPositive(a: nat, b: nat)
    requires a >= 1 && b >= 1
    ensures a * b >= 1
  {
  }

  lemma TopBitIsPositive(digest: bytes)
    requires digest != [] && digest[0] >= 0x80
    ensures FromBigEndian(digest) > 0
  {
    hide FromBigEndian, Pow256;
    var head, tail := digest[0], digest[1..];
    FromBigEndianCons(head, tail);
    assert digest == [head] + tail;
    ProductPositive(head, Pow256(|tail|));
  }

  /** `now` is what the carry loop has made of `was`. */
  ghost predicate Complements(was: bytes, now: bytes, carry: nat) {
    && |was| == |now| && carry <= 1
    && FromBigEndian(now) + carry * Pow256(|now|) == Pow256(|now|) - FromBigEndian(was)
  }

  lemma ComplementsNothing()
    ensures Complements([], [], 1)
  {
  }

  lemma ComplementsMore(was: bytes, now: bytes, carry: nat, v: byte)
    requires Complements(was, now, carry)
    ensures var next := (255 - v + carry) % 256;
            Complements([v] + was, [next] + now, if carry == 1 && next == 0 then 1 else 0)
  {
    hide FromBigEndian, Pow256;
    var next := (255 - v + carry) % 256;
    FromBigEndianCons(next, now);
    FromBigEndianCons(v, was);
    PowStep(|now|);
    NegateByte(Pow256(|now|), FromBigEndian(was), FromBigEndian(now), v, next, carry, if carry == 1
        && next == 0 then 1 else 0);
  }

  lemma ComplementsAll(was: bytes, now: bytes, carry: nat)
    requires Complements(was, now, carry) && FromBigEndian(was) > 0
    ensures FromBigEndian(now) == Pow256(|now|) - FromBigEndian(was)
  {
  }

  /** The in-place carry loop replaces a number by its complement to 256^n. */
  method Negate(value: array<byte>)
    modifies value
    ensures FromBigEndian(old(value[..])) > 0 ==>
              FromBigEndian(value[..]) == Pow256(value.Length) - FromBigEndian(old(value[..]))
  {
    hide Complements, FromBigEndian, Pow256;
    var carry: nat := 1;
    var index := value.Length;
    ghost var original := value[..];
    ComplementsNothing();
    assert original[index..] == value[index..] == [];
    while index > 0
      invariant 0 <= index <= value.Length && 0 <= carry <= 1
      invariant value[..index] == original[..index]
      invariant Complements(original[index..], value[index..], carry)
    {
      index := index - 1;
      var v: byte := value[index];
      assert v == value[..index + 1][index] == original[index];
      ComplementsMore(original[index + 1..], value[index + 1..], carry, v);
      ghost var tail := value[index + 1..];
      var next: int := (255 - v + carry) % 256;
      if carry == 1 && next != 0 {
        carry := 0;
      }
      value[index] := next;
      assert value[index..] == [next] + tail && original[index..] == [v] + original[index + 1..];
    }
    assert value[0..] == value[..] && original[0..] == original;
    if FromBigEndian(original) > 0 {
      ComplementsAll(original, value[..], carry);
    }
  }

  lemma NumeralIs(v: nat)
    ensures Digits(v) == "" <==> v == 0
    ensures Numeral(v) == if Digits(v) == "" then "0" else Digits(v)
    ensures v > 0 ==> Numeral(-(v as int)) == "-" + Digits(v)
  {
    DigitsEmpty(v);
  }

  /** `now` is the magnitude of the digest: itself, or its complement. */
  ghost predicate Magnitude(digest: bytes, now: bytes)
    requires digest != []
  {
    FromBigEndian(now) == if digest[0] >= 0x80 then Pow256(|digest|) - FromBigEndian(digest) else FromBigEndian(digest)
  }

  lemma MagnitudePrints(digest: bytes, now: bytes)
    requires digest != [] && Magnitude(digest, now)
    ensures var digits := TrimZeros(HexString(now));
            Numeral(Signed(digest)) == (if digest[0] >= 0x80 then "-" else "") + (if digits == "" then "0" else digits)
  {
    FromBigEndianBound(digest);
    hide FromBigEndian, Digits, HexString, TrimZeros, Pow256, Numeral;
    TrimmedHex(now);
    NumeralIs(FromBigEndian(now));
    var digits := TrimZeros(HexString(now));
    var printed := if digits == "" then "0" else digits;
    assert "" + printed == printed;
  }

  /** The printed digest is the canonical numeral of its two's-complement value. */
  method Print(value: array<byte>) returns (encoded: string)
    requires value.Length >= 1
    modifies value
    ensures encoded == Numeral(Signed(old(value[..])))
  {
    hide FromBigEndian, Digits, HexString, TrimZeros, Pow256, Numeral, Signed;
    ghost var digest := value[..];
    var negative := value[0] >= 0x80;
    if negative {
      TopBitIsPositive(digest);
      Negate(value);
    }
    MagnitudePrints(digest, value[..]);
    encoded := TrimZeros(HexString(value[..]));
    if encoded == "" {
      encoded := "0";
    }
    if negative {
      return "-" + encoded;
    }
    assert "" + encoded == encoded;
  }
}
