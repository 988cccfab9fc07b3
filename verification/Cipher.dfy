/**
 internal/protocol/codec/cipher.go: the AES-CFB8 stream cipher (cipher feedback with an
 8-bit segment, section 6.3 of NIST SP 800-38A).

 The block cipher is a parameter: `Keystream` gives the first byte of the encrypted shift
 register, the only part of the block that CFB8 uses. Every result holds for every such function.
 */
module Cipher {
  import opened Bytes

  const BLOCK_SIZE: nat := 16

  type Keystream = bytes -> byte

  // ---- Specification ----

  /** Drop the oldest byte of the register and append the newest ciphertext byte. */
  function Shift(register: bytes, feedback: byte): (r: bytes)
    requires register != []
    ensures |r| == |register|
  {
    register[1..] + [feedback]
  }

  function Encrypt(ks: Keystream, register: bytes, plain: bytes): (c: bytes)
    requires register != []
    ensures |c| == |plain|
    decreases |plain|
  {
    if plain == [] then []
    else
      var head := Xor(plain[0], ks(register));
      [head] + Encrypt(ks, Shift(register, head), plain[1..])
  }

  function Decrypt(ks: Keystream, register: bytes, cipher: bytes): (p: bytes)
    requires register != []
    ensures |p| == |cipher|
    decreases |cipher|
  {
    if cipher == [] then []
    else [Xor(cipher[0], ks(register))] + Decrypt(ks, Shift(register, cipher[0]), cipher[1..])
  }

  /** The register after `cipher` went by: its last |register| bytes, topped up from the old register. */
  function After(register: bytes, cipher: bytes): (r: bytes)
    ensures |r| == |register|
  {
    (register + cipher)[|cipher|..]
  }

  // ---- Main results ----

  lemma AfterShift(register: bytes, head: byte, tail: bytes)
    requires register != []
    ensures After(Shift(register, head), tail) == After(register, [head] + tail)
  {
    var whole := register + ([head] + tail);
    assert Shift(register, head) + tail == whole[1..];
  }

  lemma AfterConcat(register: bytes, a: bytes, b: bytes)
    ensures After(After(register, a), b) == After(register, a + b)
  {
    assert register + (a + b) == register + a + b;
    assert After(register, a) + b == (register + a + b)[|a|..];
  }

  /** Decryption with the sender's starting register recovers every plaintext. */
  lemma {:induction false} DecryptInvertsEncrypt(ks: Keystream, register: bytes, plain: bytes)
    requires register != []
    ensures Decrypt(ks, register, Encrypt(ks, register, plain)) == plain
    decreases |plain|
  {
    if plain == [] {
    } else {
      var head := Xor(plain[0], ks(register));
      var c := Encrypt(ks, register, plain);
      XorCancels(plain[0], ks(register));
      DecryptInvertsEncrypt(ks, Shift(register, head), plain[1..]);
      assert c[1..] == Encrypt(ks, Shift(register, head), plain[1..]);
    }
  }

  lemma {:induction false} EncryptConcat(ks: Keystream, register: bytes, a: bytes, b: bytes)
    requires register != []
    ensures After(register, Encrypt(ks, register, a)) != []
    ensures Encrypt(ks, register, a + b)
         == Encrypt(ks, register, a) + Encrypt(ks, After(register, Encrypt(ks, register, a)), b)
    decreases |a|
  {
    hide Xor;
    if a == [] {
      assert a + b == b && After(register, []) == register;
    } else {
      hide After, Shift;
      var head := Xor(a[0], ks(register));
      var next := Shift(register, head);
      var c := Encrypt(ks, next, a[1..]);
      EncryptConcat(ks, next, a[1..], b);
      AfterShift(register, head, c);
      assert (a + b)[1..] == a[1..] + b;
      assert Encrypt(ks, register, a) == [head] + c;
      assert Encrypt(ks, register, a + b) == [head] + Encrypt(ks, next, a[1..] + b);
    }
  }

  lemma {:induction false} DecryptConcat(ks: Keystream, register: bytes, a: bytes, b: bytes)
    requires register != []
    ensures After(register, a) != []
    ensures Decrypt(ks, register, a + b) == Decrypt(ks, register, a) + Decrypt(ks, After(register, a), b)
    decreases |a|
  {
    hide Xor;
    if a == [] {
      assert a + b == b && After(register, []) == register;
    } else {
      DecryptConcat(ks, Shift(register, a[0]), a[1..], b);
      AfterShift(register, a[0], a[1..]);
      assert (a + b)[1..] == a[1..] + b;
      assert [a[0]] + a[1..] == a;
    }
  }

  /** The ciphertext pieces of successive Encrypt calls on one stream state. */
  function EncryptCalls(ks: Keystream, register: bytes, pieces: seq<bytes>): (cs: seq<bytes>)
    requires register != []
    decreases |pieces|
  {
    if pieces == [] then []
    else
      var c := Encrypt(ks, register, pieces[0]);
      [c] + EncryptCalls(ks, After(register, c), pieces[1..])
  }

  /** The plaintext pieces of successive Decrypt calls on one stream state. */
  function DecryptCalls(ks: Keystream, register: bytes, pieces: seq<bytes>): (ps: seq<bytes>)
    requires register != []
    decreases |pieces|
  {
    if pieces == [] then []
    else [Decrypt(ks, register, pieces[0])] + DecryptCalls(ks, After(register, pieces[0]), pieces[1..])
  }

  lemma {:induction false} EncryptChunking(ks: Keystream, register: bytes, pieces: seq<bytes>)
    requires register != []
    ensures Flatten(EncryptCalls(ks, register, pieces)) == Encrypt(ks, register, Flatten(pieces))
    decreases |pieces|
  {
    if pieces == [] {
    } else {
      var c := Encrypt(ks, register, pieces[0]);
      EncryptChunking(ks, After(register, c), pieces[1..]);
      EncryptConcat(ks, register, pieces[0], Flatten(pieces[1..]));
      assert EncryptCalls(ks, register, pieces)[1..] == EncryptCalls(ks, After(register, c), pieces[1..]);
    }
  }

  lemma {:induction false} DecryptChunking(ks: Keystream, register: bytes, pieces: seq<bytes>)
    requires register != []
    ensures Flatten(DecryptCalls(ks, register, pieces)) == Decrypt(ks, register, Flatten(pieces))
    decreases |pieces|
  {
    if pieces == [] {
    } else {
      DecryptChunking(ks, After(register, pieces[0]), pieces[1..]);
      DecryptConcat(ks, register, pieces[0], Flatten(pieces[1..]));
      assert DecryptCalls(ks, register, pieces)[1..] == DecryptCalls(ks, After(register, pieces[0]), pieces[1..]);
    }
  }

  /**
   The sender encrypts its pieces one call at a time; the receiver decrypts the same bytes cut
   up in an unrelated way. The plaintext arrives whole, and the two registers agree.
   */
  lemma IndependentChunking(ks: Keystream, iv: bytes, sent: seq<bytes>, received: seq<bytes>)
    requires iv != []
    requires Flatten(received) == Flatten(EncryptCalls(ks, iv, sent))
    ensures Flatten(DecryptCalls(ks, iv, received)) == Flatten(sent)
    ensures After(iv, Flatten(received)) == After(iv, Encrypt(ks, iv, Flatten(sent)))
  {
    EncryptChunking(ks, iv, sent);
    DecryptChunking(ks, iv, received);
    DecryptInvertsEncrypt(ks, iv, Flatten(sent));
  }

  /** Cutting both streams at equal byte counts leaves equal registers, whatever follows. */
  lemma RegistersAgree(ks: Keystream, iv: bytes, plain: bytes, n: nat)
    requires iv != [] && n <= |plain|
    ensures After(iv, Encrypt(ks, iv, plain[..n])) == After(iv, Encrypt(ks, iv, plain)[..n])
  {
    assert plain == plain[..n] + plain[n..];
    EncryptConcat(ks, iv, plain[..n], plain[n..]);
    assert Encrypt(ks, iv, plain)[..n] == Encrypt(ks, iv, plain[..n]);
  }

  // ---- The loop ----

  lemma EncryptPush(ks: Keystream, register: bytes, plain: bytes, b: byte)
    requires register != []
    ensures var c := Encrypt(ks, register, plain);
            After(register, c) != []
            && Encrypt(ks, register, plain + [b]) == c + [Xor(b, ks(After(register, c)))]
  {
    EncryptConcat(ks, register, plain, [b]);
    var next := After(register, Encrypt(ks, register, plain));
    assert Encrypt(ks, next, [b]) == [Xor(b, ks(next))];
  }

  lemma DecryptPush(ks: Keystream, register: bytes, cipher: bytes, b: byte)
    requires register != []
    ensures After(register, cipher) != []
    ensures Decrypt(ks, register, cipher + [b]) == Decrypt(ks, register, cipher) + [Xor(b, ks(After(register, cipher)))]
  {
    DecryptConcat(ks, register, cipher, [b]);
    var next := After(register, cipher);
    assert Decrypt(ks, next, [b]) == [Xor(b, ks(next))];
  }

  /** The output of one cfb8 call, in either direction. */
  function Output(ks: Keystream, register: bytes, src: bytes, encrypt: bool): (out: bytes)
    requires register != []
    ensures |out| == |src|
  {
    if encrypt then Encrypt(ks, register, src) else Decrypt(ks, register, src)
  }

  /** The ciphertext that went by in one cfb8 call. */
  function Feedback(ks: Keystream, register: bytes, src: bytes, encrypt: bool): (c: bytes)
    requires register != []
    ensures |c| == |src|
  {
    if encrypt then Encrypt(ks, register, src) else src
  }

  /** One more byte through the loop body. */
  lemma OutputPush(ks: Keystream, register: bytes, src: bytes, b: byte, encrypt: bool)
    requires register != []
    ensures var next := After(register, Feedback(ks, register, src, encrypt));
            next != [] && var result := Xor(b, ks(next));
            && Output(ks, register, src + [b], encrypt) == Output(ks, register, src, encrypt) + [result]
            && After(register, Feedback(ks, register, src + [b], encrypt))
               == Shift(next, if encrypt then result else b)
  {
    var past := Feedback(ks, register, src, encrypt);
    var next := After(register, past);
    var feedback := if encrypt then Xor(b, ks(next)) else b;
    if encrypt {
      EncryptPush(ks, register, src, b);
    } else {
      DecryptPush(ks, register, src, b);
    }
    AfterConcat(register, past, [feedback]);
    assert After(next, [feedback]) == Shift(next, feedback);
  }

  /** The register moves up by one byte, in place. */
  method ShiftIn(shift: array<byte>, feedback: byte)
    requires shift.Length > 0
    modifies shift
    ensures shift[..] == Shift(old(shift[..]), feedback)
  {
    forall i | 0 <= i < shift.Length - 1 {
      shift[i] := shift[i + 1];
    }
    shift[shift.Length - 1] := feedback;
  }

  /** What the loop has made of the first `index` bytes of the input. */
  ghost predicate Done(ks: Keystream, register: bytes, input: bytes, encrypt: bool, index: nat, dst: bytes,
        shift: bytes)
    requires register != [] && index <= |input|
  {
    && index <= |dst| && dst[..index] == Output(ks, register, input[..index], encrypt)
    && shift == After(register, Feedback(ks, register, input[..index], encrypt))
  }

  lemma DoneNothing(ks: Keystream, register: bytes, input: bytes, encrypt: bool, dst: bytes)
    requires register != []
    ensures Done(ks, register, input, encrypt, 0, dst, register)
  {
    assert input[..0] == [] && After(register, []) == register;
  }

  lemma DoneMore(ks: Keystream, register: bytes, input: bytes, encrypt: bool, index: nat, dst: bytes, shift: bytes)
    requires register != [] && index < |input| && index < |dst| && Done(ks, register, input, encrypt, index, dst, shift)
    ensures shift != []
    ensures var result := Xor(input[index], ks(shift));
            Done(ks, register, input, encrypt, index + 1, dst[index := result],
                 Shift(shift, if encrypt then result else input[index]))
  {
    hide Xor, Output, Feedback, After, Shift;
    OutputPush(ks, register, input[..index], input[index], encrypt);
    assert input[..index + 1] == input[..index] + [input[index]];
    var result := Xor(input[index], ks(shift));
    assert dst[index := result][..index + 1] == dst[..index] + [result];
  }

  lemma DoneAll(ks: Keystream, register: bytes, input: bytes, encrypt: bool, dst: bytes, shift: bytes)
    requires register != [] && Done(ks, register, input, encrypt, |input|, dst, shift)
    ensures |input| <= |dst| && dst[..|input|] == Output(ks, register, input, encrypt)
    ensures shift == After(register, Feedback(ks, register, input, encrypt))
  {
    hide Output, Feedback, After;
    assert input[..|input|] == input;
  }

  /** cfb8: `dst` and `src` may be the same array. */
  method Cfb8(ks: Keystream, shift: array<byte>, dst: array<byte>, src: array<byte>, encrypt: bool)
    requires shift.Length == BLOCK_SIZE
    requires shift != dst && shift != src
    requires dst.Length >= src.Length
    modifies shift, dst
    ensures dst[..src.Length] == Output(ks, old(shift[..]), old(src[..]), encrypt)
    ensures shift[..] == After(old(shift[..]), Feedback(ks, old(shift[..]), old(src[..]), encrypt))
    ensures dst[src.Length..] == old(dst[src.Length..])
  {
    hide Xor, Output, Feedback, After, Shift, Done;
    ghost var register, input := shift[..], src[..];
    DoneNothing(ks, register, input, encrypt, dst[..]);
    for index := 0 to src.Length
      invariant Done(ks, register, input, encrypt, index, dst[..], shift[..])
      invariant src[index..] == input[index..]
      invariant dst[src.Length..] == old(dst[src.Length..])
    {
      var value := src[index];
      assert value == src[index..][0] == input[index];
      DoneMore(ks, register, input, encrypt, index, dst[..], shift[..]);
      var result := Xor(value, ks(shift[..]));
      ghost var written := dst[..][index := result];
      dst[index] := result;
      assert dst[..] == written;
      ShiftIn(shift, if encrypt then result else value);
    }
    DoneAll(ks, register, input, encrypt, dst[..], shift[..]);
    assert dst[..src.Length] == dst[..][..src.Length];
  }
}
