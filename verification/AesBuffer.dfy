/**
 * AES-128 on buffers (src/aes.c): the expanded key, single blocks, and cipher
 * block chaining over any number of blocks.
 */
module AesBuffer {
  import opened AesOctet
  import opened Aes
  import opened AesState

  // ----- the expanded key -----

  /** rcon, as far as ten rounds need it. */
  function Rcon(n: nat): Octet
    requires n <= NR
  {
    if n == 0 then Octet(0x8d) else if n == 1 then Octet(0x01) else if n == 2 then Octet(0x02)
    else if n == 3 then Octet(0x04) else if n == 4 then Octet(0x08) else if n == 5 then Octet(0x10)
    else if n == 6 then Octet(0x20) else if n == 7 then Octet(0x40) else if n == 8 then Octet(0x80)
    else if n == 9 then Octet(0x1b) else Octet(0x36)
  }

  /** Section 5.2 of FIPS 197: a word turned, substituted, and the constant added. */
  function Core(t: seq<Octet>, n: nat): (r: seq<Octet>)
    requires |t| == 4 && n <= NR
    ensures |r| == 4
  {
    [Xor(Sub(t[1]), Rcon(n)), Sub(t[2]), Sub(t[3]), Sub(t[0])]
  }

  /** The words of the expanded key. */
  function Word(key: Block, i: nat): (r: seq<Octet>)
    requires i < 44
    ensures |r| == 4
  {
    if i < 4 then key[4 * i..4 * i + 4]
    else
      var a, b := Word(key, i - 4), Word(key, i - 1);
      var t := if i % 4 == 0 then Core(b, i / 4) else b;
      [Xor(a[0], t[0]), Xor(a[1], t[1]), Xor(a[2], t[2]), Xor(a[3], t[3])]
  }

  function Expanded(key: Block): Keys {
    seq(SCHEDULE, k requires 0 <= k < SCHEDULE => Word(key, k / 4)[k % 4])
  }

  /** The first i words of the expanded key are in place. */
  ghost predicate Filled(w: array<Octet>, key: Block, i: nat)
    requires w.Length == SCHEDULE && i <= 44
    reads w
  {
    forall n | 0 <= n < i :: WordAt(w, n) == Word(key, n)
  }

  ghost function WordAt(w: array<Octet>, n: nat): seq<Octet>
    requires w.Length == SCHEDULE && n < 44
    reads w
  {
    w[4 * n..4 * n + 4]
  }

  /** key_expansion. */
  method KeyExpansion(w: array<Octet>, key: Block)
    requires w.Length == SCHEDULE
    modifies w
    ensures w[..] == Expanded(key)
  {
    hide Word, Core, Sub, Xor;
    for i := 0 to 4
      invariant Filled(w, key, i)
    {
      FirstWord(key, i);
      SetWord(w, key, i, key[4 * i], key[4 * i + 1], key[4 * i + 2], key[4 * i + 3]);
    }
    for i := 4 to 44
      invariant Filled(w, key, i)
    {
      assert WordAt(w, i - 1) == Word(key, i - 1) && WordAt(w, i - 4) == Word(key, i - 4);
      var t := w[(i - 1) * 4..(i - 1) * 4 + 4];
      if i % 4 == 0 {
        t := Core(t, i / 4);
      }
      NextWord(key, i);
      var a := w[(i - 4) * 4..(i - 4) * 4 + 4];
      SetWord(w, key, i, Xor(a[0], t[0]), Xor(a[1], t[1]), Xor(a[2], t[2]), Xor(a[3], t[3]));
    }
    forall k | 0 <= k < SCHEDULE ensures w[k] == Expanded(key)[k] {
      assert WordAt(w, k / 4) == Word(key, k / 4);
      assert WordAt(w, k / 4)[k % 4] == w[k];
    }
  }

  lemma FirstWord(key: Block, i: nat)
    requires i < 4
    ensures Word(key, i) == [key[4 * i], key[4 * i + 1], key[4 * i + 2], key[4 * i + 3]]
  {
  }

  lemma NextWord(key: Block, i: nat)
    requires 4 <= i < 44
    ensures var a, b := Word(key, i - 4), Word(key, i - 1);
      var t := if i % 4 == 0 then Core(b, i / 4) else b;
      Word(key, i) == [Xor(a[0], t[0]), Xor(a[1], t[1]), Xor(a[2], t[2]), Xor(a[3], t[3])]
  {
    hide Core, Xor;
  }

  method SetWord(w: array<Octet>, ghost key: Block, i: nat, a: Octet, b: Octet, c: Octet, d: Octet)
    requires w.Length == SCHEDULE && i < 44 && Filled(w, key, i) && Word(key, i) == [a, b, c, d]
    modifies w
    ensures Filled(w, key, i + 1)
  {
    hide Word;
    w[i * 4] := a;
    w[i * 4 + 1] := b;
    w[i * 4 + 2] := c;
    w[i * 4 + 3] := d;
    forall n | 0 <= n < i + 1 ensures WordAt(w, n) == Word(key, n) {
      if n < i {
        assert WordAt(w, n) == old(WordAt(w, n));
      } else {
        assert WordAt(w, n) == [a, b, c, d];
      }
    }
  }

  // ----- blocks of a buffer -----

  function BlockAt(buf: array<Octet>, at: nat): Block
    requires at + 16 <= buf.Length
    reads buf
  {
    buf[at..at + 16]
  }

  /** block_copy. */
  method BlockCopy(output: array<Octet>, to: nat, input: array<Octet>, from: nat)
    requires to + 16 <= output.Length && from + 16 <= input.Length && output != input
    modifies output
    ensures BlockAt(output, to) == BlockAt(input, from)
    ensures output[..to] == old(output[..to]) && output[to + 16..] == old(output[to + 16..])
  {
    for i := 0 to 16
      invariant output[to..to + i] == input[from..from + i]
      invariant output[..to] == old(output[..to]) && output[to + 16..] == old(output[to + 16..])
    {
      output[to + i] := input[from + i];
    }
  }

  /** The state read from a block, and written back. */
  method Load(state: array2<Octet>, buf: array<Octet>, at: nat)
    requires state.Length0 == 4 && state.Length1 == 4 && at + 16 <= buf.Length
    modifies state
    ensures Bytes16(state) == BlockAt(buf, at)
  {
    for i := 0 to 4
      invariant forall c, r | 0 <= c < i && 0 <= r < 4 :: state[c, r] == buf[at + (4 * c + r)]
    {
      for j := 0 to 4
        invariant forall c, r | 0 <= c < 4 && 0 <= r < 4 && (c < i || (c == i && r < j)) :: state[c, r] == buf[at + (4 * c + r)]
      {
        state[i, j] := buf[at + (4 * i + j)];
      }
    }
    StateIs(state, BlockAt(buf, at));
  }

  method Save(state: array2<Octet>, buf: array<Octet>, at: nat)
    requires state.Length0 == 4 && state.Length1 == 4 && at + 16 <= buf.Length
    modifies buf
    ensures BlockAt(buf, at) == Bytes16(state)
    ensures buf[..at] == old(buf[..at]) && buf[at + 16..] == old(buf[at + 16..])
  {
    for k := 0 to 16
      invariant buf[at..at + k] == Bytes16(state)[..k]
      invariant buf[..at] == old(buf[..at]) && buf[at + 16..] == old(buf[at + 16..])
    {
      buf[at + k] := state[k / 4, k % 4];
      assert Bytes16(state)[k] == state[k / 4, k % 4];
    }
  }

  /** cipher on a block of a buffer. */
  method CipherAt(w: Keys, buf: array<Octet>, at: nat)
    requires at + 16 <= buf.Length
    modifies buf
    ensures BlockAt(buf, at) == Cipher(w, old(BlockAt(buf, at)))
    ensures buf[..at] == old(buf[..at]) && buf[at + 16..] == old(buf[at + 16..])
  {
    hide Cipher, Bytes16;
    var state := new Octet[4, 4]((_, _) => ZERO);
    Load(state, buf, at);
    CipherOf(state, w);
    Save(state, buf, at);
  }

  method InvCipherAt(w: Keys, buf: array<Octet>, at: nat)
    requires at + 16 <= buf.Length
    modifies buf
    ensures BlockAt(buf, at) == InvCipher(w, old(BlockAt(buf, at)))
    ensures buf[..at] == old(buf[..at]) && buf[at + 16..] == old(buf[at + 16..])
  {
    hide InvCipher, Bytes16;
    var state := new Octet[4, 4]((_, _) => ZERO);
    Load(state, buf, at);
    InvCipherOf(state, w);
    Save(state, buf, at);
  }

  // ----- the program's functions -----

  class Aes128 {
    const roundkey: array<Octet>
    var iv: array<Octet>    // _iv points into a buffer
    var ivAt: nat

    ghost predicate Valid()
      reads this
    {
      roundkey.Length == SCHEDULE && roundkey != iv && ivAt + 16 <= iv.Length
    }

    function Chain(): Block
      requires Valid()
      reads this, iv
    {
      BlockAt(iv, ivAt)
    }

    constructor ()
      ensures Valid() && fresh(roundkey) && fresh(iv)
    {
      roundkey := new Octet[SCHEDULE](_ => ZERO);
      iv := new Octet[16](_ => ZERO);
      ivAt := 0;
    }

    /** aes128_ecb_encrypt. */
    method EcbEncrypt(input: array<Octet>, key: Block, output: array<Octet>)
      requires Valid() && input.Length >= 16 && output.Length >= 16 && input != output && roundkey != output && roundkey != input
      modifies roundkey, output
      ensures roundkey[..] == Expanded(key) && BlockAt(output, 0) == Cipher(Expanded(key), BlockAt(input, 0))
    {
      hide Cipher, Expanded;
      BlockCopy(output, 0, input, 0);
      KeyExpansion(roundkey, key);
      CipherAt(roundkey[..], output, 0);
    }

    /** aes128_ecb_decrypt. */
    method EcbDecrypt(input: array<Octet>, key: Block, output: array<Octet>)
      requires Valid() && input.Length >= 16 && output.Length >= 16 && input != output && roundkey != output && roundkey != input
      modifies roundkey, output
      ensures roundkey[..] == Expanded(key) && BlockAt(output, 0) == InvCipher(Expanded(key), BlockAt(input, 0))
    {
      hide InvCipher, Expanded;
      BlockCopy(output, 0, input, 0);
      KeyExpansion(roundkey, key);
      InvCipherAt(roundkey[..], output, 0);
    }

    /** cor_with_iv. */
    method CorWithIv(buf: array<Octet>, at: nat)
      requires Valid() && at + 16 <= buf.Length && (buf != iv || at >= ivAt + 16)
      modifies buf
      ensures BlockAt(buf, at) == XorBlock(old(BlockAt(buf, at)), old(Chain()))
      ensures buf[..at] == old(buf[..at]) && buf[at + 16..] == old(buf[at + 16..])
    {
      hide Xor;
      ghost var b, c := BlockAt(buf, at), Chain();
      for i := 0 to 16
        invariant buf[at..at + i] == XorBlock(b, c)[..i] && buf[at + i..at + 16] == b[i..]
        invariant buf[..at] == old(buf[..at]) && buf[at + 16..] == old(buf[at + 16..])
      {
        assert iv[ivAt + i] == c[i] by {
          assert buf == iv ==> buf[..at][ivAt + i] == old(buf[..at])[ivAt + i];
        }
        assert buf[at + i] == buf[at + i..at + 16][0] == b[i];
        buf[at + i] := Xor(buf[at + i], iv[ivAt + i]);
        assert buf[at..at + i + 1] == XorBlock(b, c)[..i] + [Xor(b[i], c[i])];
        assert buf[at + i + 1..at + 16] == b[i + 1..];
      }
    }

    /** The loop body of aes128_cbc_encrypt_buffer. */
    method EncryptBlock(output: array<Octet>, input: array<Octet>, at: nat)
      requires Valid() && at + 16 <= input.Length && at + 16 <= output.Length
      requires input != output && input != iv && input != roundkey && output != roundkey
      requires iv != output || ivAt + 16 <= at
      modifies `iv, `ivAt, input, output
      ensures Valid() && iv == output && ivAt == at
      ensures Chain() == Cipher(roundkey[..], XorBlock(old(BlockAt(input, at)), old(Chain())))
      ensures output[..at] == old(output[..at]) && output[at + 16..] == old(output[at + 16..])
      ensures input[..at] == old(input[..at]) && input[at + 16..] == old(input[at + 16..])
    {
      hide Cipher, XorBlock;
      CorWithIv(input, at);
      BlockCopy(output, at, input, at);
      CipherAt(roundkey[..], output, at);
      iv, ivAt := output, at;
    }

    /** The loop body of aes128_cbc_decrypt_buffer. */
    method DecryptBlock(output: array<Octet>, input: array<Octet>, at: nat)
      requires Valid() && at + 16 <= input.Length && at + 16 <= output.Length
      requires input != output && output != iv && input != roundkey && output != roundkey
      modifies `iv, `ivAt, output
      ensures Valid() && iv == input && ivAt == at
      ensures BlockAt(output, at) == XorBlock(InvCipher(roundkey[..], BlockAt(input, at)), old(Chain()))
      ensures output[..at] == old(output[..at]) && output[at + 16..] == old(output[at + 16..])
    {
      hide InvCipher, XorBlock;
      BlockCopy(output, at, input, at);
      InvCipherAt(roundkey[..], output, at);
      CorWithIv(output, at);
      iv, ivAt := input, at;
    }

    /** aes128_cbc_encrypt_buffer, on whole blocks in separate buffers. */
    method CbcEncryptBuffer(output: array<Octet>, input: array<Octet>, length: nat, key: Block, start: array<Octet>)
      requires Valid() && length % 16 == 0 && 16 <= input.Length && 16 <= output.Length && start.Length >= 16
      requires length <= input.Length && length <= output.Length
      requires input != output && start != input && start != output
      requires roundkey != input && roundkey != output && roundkey != start
      modifies this, roundkey, input, output
      ensures Valid() && roundkey[..] == Expanded(key)
      ensures output[..length] == CbcEncrypt(Expanded(key), old(BlockAt(start, 0)), old(input[..length]))
    {
      hide Expanded, Cipher, XorBlock, CbcEncrypt;
      ghost var p, w, first := input[..length], Expanded(key), BlockAt(start, 0);
      BlockCopy(output, 0, input, 0);
      KeyExpansion(roundkey, key);
      iv, ivAt := start, 0;
      var i := 0;
      EncryptStart(w, first, p);
      while i < length
        invariant 0 <= i <= length && i % 16 == 0 && Valid() && roundkey[..] == w
        invariant iv == start || (iv == output && ivAt + 16 == i)
        invariant input[i..length] == p[i..]
        invariant Encrypted(w, Chain(), first, p, output[..i])
      {
        StepIn(length, i);
        Slices(input, i, length, p);
        ghost var chain, done := Chain(), output[..i];
        EncryptBlock(output, input, i);
        assert output[..i + 16] == done + Chain();
        EncryptNext(w, chain, first, p, done, Chain());
        assert input[i + 16..length] == input[i + 16..][..length - i - 16];
        i := i + 16;
      }
      EncryptEnd(w, Chain(), first, p, output[..length]);
    }

    /** aes128_cbc_decrypt_buffer, likewise. */
    method CbcDecryptBuffer(output: array<Octet>, input: array<Octet>, length: nat, key: Block, start: array<Octet>)
      requires Valid() && length % 16 == 0 && 16 <= input.Length && 16 <= output.Length && start.Length >= 16
      requires length <= input.Length && length <= output.Length
      requires input != output && start != input && start != output
      requires roundkey != input && roundkey != output && roundkey != start
      modifies this, roundkey, output
      ensures Valid() && roundkey[..] == Expanded(key)
      ensures output[..length] == CbcDecrypt(Expanded(key), BlockAt(start, 0), input[..length])
    {
      hide Expanded, InvCipher, XorBlock, CbcDecrypt;
      ghost var c, w, first := input[..length], Expanded(key), BlockAt(start, 0);
      BlockCopy(output, 0, input, 0);
      KeyExpansion(roundkey, key);
      iv, ivAt := start, 0;
      var i := 0;
      DecryptStart(w, first, c);
      while i < length
        invariant 0 <= i <= length && i % 16 == 0 && Valid() && roundkey[..] == w
        invariant iv == start || iv == input
        invariant Decrypted(w, Chain(), first, c, output[..i])
      {
        StepIn(length, i);
        ghost var chain, done := Chain(), output[..i];
        assert BlockAt(input, i) == c[i..i + 16];
        DecryptBlock(output, input, i);
        assert output[..i + 16] == done + BlockAt(output, i);
        DecryptNext(w, chain, first, c, done, BlockAt(output, i));
        i := i + 16;
      }
      DecryptEnd(w, Chain(), first, c, output[..length]);
    }

    /** Buffers that are encrypted and decrypted again come back. */
    method CbcThereAndBack(back: array<Octet>, middle: array<Octet>, input: array<Octet>, length: nat, key: Block, start: array<Octet>)
      requires Valid() && length % 16 == 0 && 16 <= input.Length && 16 <= middle.Length && 16 <= back.Length && start.Length >= 16
      requires length <= input.Length && length <= middle.Length && length <= back.Length
      requires input != middle && middle != back && input != back && start != input && start != middle && start != back
      requires roundkey != input && roundkey != middle && roundkey != back && roundkey != start
      modifies this, roundkey, input, middle, back
      ensures back[..length] == old(input[..length])
    {
      hide Expanded, CbcEncrypt, CbcDecrypt;
      ghost var p, first := input[..length], BlockAt(start, 0);
      CbcEncryptBuffer(middle, input, length, key, start);
      CbcDecryptBuffer(back, middle, length, key, start);
      CbcUndone(Expanded(key), first, p);
    }
  }

  /** What is encrypted so far, and what is left to encrypt. */
  ghost predicate Encrypted(w: Keys, chain: Block, first: Block, p: seq<Octet>, done: seq<Octet>)
  {
    |p| % 16 == 0 && |done| % 16 == 0 && |done| <= |p| && done + CbcEncrypt(w, chain, p[|done|..]) == CbcEncrypt(w, first, p)
  }

  lemma EncryptStart(w: Keys, first: Block, p: seq<Octet>)
    requires |p| % 16 == 0
    ensures Encrypted(w, first, first, p, [])
  {
    hide CbcEncrypt;
    assert p[0..] == p;
    assert [] + CbcEncrypt(w, first, p) == CbcEncrypt(w, first, p);
  }

  lemma EncryptNext(w: Keys, chain: Block, first: Block, p: seq<Octet>, done: seq<Octet>, b: Block)
    requires Encrypted(w, chain, first, p, done) && |done| + 16 <= |p|
    requires b == Cipher(w, XorBlock(p[|done|..|done| + 16], chain))
    ensures Encrypted(w, b, first, p, done + b)
  {
    hide Cipher, XorBlock;
    var rest := p[|done|..];
    assert rest[..16] == p[|done|..|done| + 16] && rest[16..] == p[|done + b|..];
    assert CbcEncrypt(w, chain, rest) == b + CbcEncrypt(w, b, rest[16..]);
    hide CbcEncrypt;
    Assoc(done, b, CbcEncrypt(w, b, rest[16..]));
  }

  lemma EncryptEnd(w: Keys, chain: Block, first: Block, p: seq<Octet>, done: seq<Octet>)
    requires Encrypted(w, chain, first, p, done) && |done| == |p|
    ensures done == CbcEncrypt(w, first, p)
  {
    assert p[|p|..] == [];
    assert CbcEncrypt(w, chain, []) == [];
  }

  ghost predicate Decrypted(w: Keys, chain: Block, first: Block, c: seq<Octet>, done: seq<Octet>)
  {
    |c| % 16 == 0 && |done| % 16 == 0 && |done| <= |c| && done + CbcDecrypt(w, chain, c[|done|..]) == CbcDecrypt(w, first, c)
  }

  lemma DecryptStart(w: Keys, first: Block, c: seq<Octet>)
    requires |c| % 16 == 0
    ensures Decrypted(w, first, first, c, [])
  {
    hide CbcDecrypt;
    assert c[0..] == c;
    assert [] + CbcDecrypt(w, first, c) == CbcDecrypt(w, first, c);
  }

  lemma DecryptNext(w: Keys, chain: Block, first: Block, c: seq<Octet>, done: seq<Octet>, b: Block)
    requires Decrypted(w, chain, first, c, done) && |done| + 16 <= |c|
    requires b == XorBlock(InvCipher(w, c[|done|..|done| + 16]), chain)
    ensures Decrypted(w, c[|done|..|done| + 16], first, c, done + b)
  {
    hide InvCipher, XorBlock;
    var rest := c[|done|..];
    assert rest[..16] == c[|done|..|done| + 16] && rest[16..] == c[|done + b|..];
    assert CbcDecrypt(w, chain, rest) == b + CbcDecrypt(w, rest[..16], rest[16..]);
    hide CbcDecrypt;
    Assoc(done, b, CbcDecrypt(w, rest[..16], rest[16..]));
  }

  lemma DecryptEnd(w: Keys, chain: Block, first: Block, c: seq<Octet>, done: seq<Octet>)
    requires Decrypted(w, chain, first, c, done) && |done| == |c|
    ensures done == CbcDecrypt(w, first, c)
  {
    assert c[|c|..] == [];
    assert CbcDecrypt(w, chain, []) == [];
  }

  lemma Slices(buf: array<Octet>, i: nat, length: nat, p: seq<Octet>)
    requires i + 16 <= length <= buf.Length && |p| == length && buf[i..length] == p[i..]
    ensures BlockAt(buf, i) == p[i..i + 16] && buf[i + 16..length] == p[i + 16..]
  {
    var rest := buf[i..length];
    assert BlockAt(buf, i) == rest[..16] by {
      hide *;
      assert |rest| == length - i;
      assert buf[i..i + 16] == rest[..16];
    }
    assert p[i..][..16] == p[i..i + 16];
    assert buf[i + 16..length] == rest[16..];
    assert p[i..][16..] == p[i + 16..];
  }

  lemma Assoc(a: seq<Octet>, b: seq<Octet>, c: seq<Octet>)
    ensures a + b + c == a + (b + c)
  {
  }

  lemma StepIn(n: nat, i: nat)
    requires i < n && n % 16 == 0 && i % 16 == 0
    ensures i + 16 <= n && (i + 16) % 16 == 0
  {
  }
}
