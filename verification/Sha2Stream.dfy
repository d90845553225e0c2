/**
 * The contexts of src/sha2.c: init, update and final, for all four algorithms.
 */
module Sha2Stream {
  import opened Bytes
  import opened Sha2
  import Sha256
  import Sha512

  /** The bytes of a context, kept aside. */
  datatype Saved = Saved(state: State, block: seq<byte>, len: nat, totLen: nat)

  /** Kept aside after the whole blocks d. */
  ghost predicate SavedOk(alg: Algorithm, s: Saved, d: seq<byte>) {
    hide Absorb, Start;
    && |s.block| == 2 * BlockSize(alg) && s.len < BlockSize(alg) && Blocks(alg, d)
    && s.totLen == |d| % UINT_MAX1 && s.state == Absorb(alg, Start(alg), d)
  }

  ghost function SavedFed(s: Saved, d: seq<byte>): seq<byte>
    requires s.len <= |s.block|
  {
    d + s.block[..s.len]
  }

  /** How much one update may take in with `len` bytes waiting: where the whole
      blocks behind the first one are more than 2^31 bytes, their offsets
      overflow a signed int, which C leaves undefined. */
  predicate Reach(alg: Algorithm, len: nat, n: nat) {
    && n < UINT_MAX1
    && (BlockSize(alg) <= len + n < UINT_MAX1 ==>
          (len + n - BlockSize(alg)) / BlockSize(alg) * BlockSize(alg) <= INT_MAX1)
  }

  class Context {
    const alg: Algorithm
    const words: array<Sha256.Word>   // h of the 32-bit contexts
    const longs: array<Sha512.Word>   // h of the 64-bit contexts
    const block: array<byte>
    var len: nat
    var totLen: nat
    ghost var done: seq<byte>         // the whole blocks taken in so far

    ghost predicate Shaped()
      reads this
    {
      words.Length == 8 && longs.Length == 8 && block.Length == 2 * BlockSize(alg)
    }

    function Now(): (s: State)
      requires Shaped()
      reads this, words, longs
      ensures StateOk(alg, s)
    {
      if Wide(alg) then LongWords(longs[..]) else Words(words[..])
    }

    /** The state is the digest of the whole blocks, and the rest is waiting. */
    ghost predicate Valid()
      reads this, words, longs, block
      ensures Valid() ==> Shaped() && len <= block.Length
    {
      Shaped() && len < BlockSize(alg) && totLen == |done| % UINT_MAX1 && Digested()
    }

    ghost predicate Digested()
      requires Shaped()
      reads this, words, longs
    {
      hide Absorb, Start;
      Blocks(alg, done) && Now() == Absorb(alg, Start(alg), done)
    }

    /** Everything fed into the context. */
    ghost function Fed(): seq<byte>
      requires Shaped() && len <= block.Length
      reads this, block
    {
      done + block[..len]
    }

    /** Exactly this has been fed into the context. */
    ghost predicate Took(text: seq<byte>)
      reads this, words, longs, block
      ensures Took(text) ==> Valid() && Fed() == text
    {
      hide Digested;
      Valid() && Fed() == text
    }

    lemma RestSize()
      requires Valid()
      ensures len == |Fed()| % BlockSize(alg)
    {
      hide Absorb, Start;
      RestIs(alg, done, block[..len]);
    }

    /** With whole blocks fed, nothing is waiting. */
    lemma StartsWhole(m: seq<byte>)
      requires Valid() && Fed() == m && Blocks(alg, m)
      ensures len == 0
    {
      RestSize();
    }

    constructor (alg: Algorithm)
      ensures Valid() && Fed() == [] && len == 0 && this.alg == alg && fresh(words) && fresh(longs) && fresh(block)
    {
      this.alg := alg;
      words, longs, block := new Sha256.Word[8], new Sha512.Word[8], new byte[2 * BlockSize(alg)];
      len, totLen, done := 0, 0, [];
      new;
      Init();
    }

    /** sha256_init and its siblings. */
    method Init()
      requires Shaped()
      modifies this, words, longs
      ensures Valid() && Fed() == [] && len == 0
    {
      hide Start, Absorb;
      var s := Start(alg);
      if Wide(alg) {
        for i := 0 to 8
          invariant forall j | 0 <= j < i :: longs[j] == s.longs[j]
        {
          longs[i] := s.longs[i];
        }
        assert longs[..] == s.longs;
      } else {
        for i := 0 to 8
          invariant forall j | 0 <= j < i :: words[j] == s.words[j]
        {
          words[i] := s.words[i];
        }
        assert words[..] == s.words;
      }
      len, totLen, done := 0, 0, [];
      AbsorbNothing(alg, s);
    }

    /** sha256_transf or sha512_transf. */
    method Transf(message: seq<byte>, blocks: nat)
      requires Shaped() && blocks * BlockSize(alg) <= |message| && blocks * BlockSize(alg) <= INT_MAX1
      modifies words, longs
      ensures Blocks(alg, message[..blocks * BlockSize(alg)])
      ensures Now() == Absorb(alg, old(Now()), message[..blocks * BlockSize(alg)])
    {
      hide Sha256.Absorb, Sha512.Absorb;
      if Wide(alg) {
        Sha512.Transf(longs, message, blocks);
      } else {
        Sha256.Transf(words, message, blocks);
      }
    }

    /** memcpy into the block. */
    method Copy(at: nat, data: seq<byte>)
      requires at + |data| <= block.Length
      modifies block
      ensures block[..at] == old(block[..at]) && block[at..at + |data|] == data
      ensures block[at + |data|..] == old(block[at + |data|..])
    {
      forall i | 0 <= i < |data| {
        block[at + i] := data[i];
      }
    }

    /** sha256_update and its siblings; lengths are 32-bit numbers, and what is
        fed is lost exactly when their sum overflows. */
    method Update(message: seq<byte>)
      requires Valid() && Reach(alg, len, |message|)
      modifies this, words, longs, block
      ensures Valid()
      ensures Fed() == old(Fed()) + message <==> old(len) + |message| < UINT_MAX1
    {
      hide Absorb, Sha256.Absorb, Sha512.Absorb;
      var room := BlockSize(alg) - len;
      var rem := if |message| < room then |message| else room;
      ghost var fed, rest := Fed(), block[..len];
      Copy(len, message[..rem]);
      assert block[..len + rem] == rest + message[..rem];
      if (len + |message|) % UINT_MAX1 < BlockSize(alg) {
        len := (len + |message|) % UINT_MAX1;
        if |rest| + |message| < UINT_MAX1 {
          assert message[..rem] == message;
          Tail(done, rest, message);
        } else {
          assert |Fed()| != |fed + message|;
        }
      } else {
        assert block[..BlockSize(alg)] == rest + message[..rem];
        UpdateBlocks(message[rem..], rest, message[..rem]);
        assert message[..rem] + message[rem..] == message;
        Tail(old(done), rest, message);
        Tail(rest, message[..rem], message[rem..]);
      }
    }

    /** The part of sha256_update that follows once the block is full. */
    method UpdateBlocks(shifted: seq<byte>, ghost rest: seq<byte>, ghost first: seq<byte>)
      requires Shaped() && Blocks(alg, done) && totLen == |done| % UINT_MAX1 && Now() == Absorb(alg, Start(alg), done)
      requires rest + first == block[..BlockSize(alg)] && |shifted| < UINT_MAX1
      requires |shifted| / BlockSize(alg) * BlockSize(alg) <= INT_MAX1
      modifies this, words, longs, block
      ensures Valid() && Fed() == old(done) + (rest + first + shifted)
    {
      hide Absorb, Sha256.Absorb, Sha512.Absorb;
      var size := BlockSize(alg);
      var blocks := |shifted| / size;
      ghost var d, full := done, block[..size];
      Transf(block[..size], 1);
      assert block[..size][..1 * size] == full;
      Transf(shifted, blocks);
      Division(alg, |shifted|);
      var rem := |shifted| % size;
      ghost var body, tail := shifted[..blocks * size], shifted[blocks * size..];
      assert shifted[blocks * size..blocks * size + rem] == tail && body + tail == shifted;
      Copy(0, shifted[blocks * size..blocks * size + rem]);
      len := rem;
      totLen := (totLen + (blocks + 1) * size) % UINT_MAX1;
      done := d + full + body;
      Taken(alg, d, full, body);
      Wraps(|d|, (blocks + 1) * size);
      assert block[..len] == tail;
      Four(d, full, body, tail);
    }

    /** sha256_final and its siblings. */
    method Final() returns (digest: seq<byte>)
      requires Valid()
      modifies words, longs, block
      ensures digest == Digest(alg, old(Fed()))
    {
      hide Absorb, Emit, Start, Padding, Sha256.Absorb, Sha512.Absorb;
      ghost var fed, rest, start := Fed(), block[..len], Now();
      var blocks := Pad(fed, rest);
      ghost var padding := Padding(alg, |fed|);
      RestIs(alg, done, rest);
      var last := block[..blocks * BlockSize(alg)];
      Transf(last, blocks);
      assert last[..blocks * BlockSize(alg)] == last == rest + padding;
      Tail(done, rest, padding);
      AbsorbConcat(alg, Start(alg), done, last);
      digest := Emit(alg, Now());
    }

    /** The part of sha256_final that completes the block. */
    method Pad(ghost fed: seq<byte>, ghost rest: seq<byte>) returns (blocks: nat)
      requires Valid() && fed == Fed() && rest == block[..len]
      modifies block
      ensures Span(alg, blocks) <= block.Length && block[..Span(alg, blocks)] == rest + Padding(alg, |fed|)
    {
      hide *;
      Padded();
      blocks := BlockNb(alg, len);
      Fill(Span(alg, blocks), LenB(totLen, len), rest);
    }

    lemma Padded()
      requires Valid()
      ensures var pmLen, lenB := Span(alg, BlockNb(alg, len)), LenB(totLen, len);
        && len + 5 <= pmLen <= block.Length && lenB < UINT_MAX1
        && Padding(alg, |Fed()|) == [0x80] + Zeros(pmLen - len - 5) + BigEndian(lenB, 4)
    {
      hide Absorb, Start, Now, StateOk, Padding, Zeros, BigEndian, BlockNb, LenB, Span;
      PadNumbers(alg, done, block[..len], totLen);
    }

    /** Zeros behind what waits in the block, then the stamp. */
    method Fill(pmLen: nat, lenB: nat, ghost rest: seq<byte>)
      requires len + 5 <= pmLen <= block.Length && lenB < UINT_MAX1 && rest == block[..len]
      modifies block
      ensures block[..pmLen] == rest + ([0x80] + Zeros(pmLen - len - 5) + BigEndian(lenB, 4))
    {
      hide *;
      ClearFrom(len, pmLen);
      assert block[..pmLen] == rest + Zeros(pmLen - len);
      Stamp(pmLen, lenB, rest);
    }

    /** The bit behind the message, and its length in bits at the end. */
    method Stamp(pmLen: nat, lenB: nat, ghost rest: seq<byte>)
      requires |rest| == len && len + 5 <= pmLen <= block.Length && lenB < UINT_MAX1
      requires block[..pmLen] == rest + Zeros(pmLen - len)
      modifies block
      ensures block[..pmLen] == rest + ([0x80] + Zeros(pmLen - len - 5) + BigEndian(lenB, 4))
    {
      hide BigEndian, Zeros;
      block[len] := 0x80;
      assert block[..pmLen] == (rest + Zeros(pmLen - len))[|rest| := 0x80];
      ghost var before := block[..pmLen];
      Copy(pmLen - 4, BigEndian(lenB, 4));
      assert block[..pmLen] == before[..pmLen - 4] + BigEndian(lenB, 4);
      Written(rest, pmLen - len, BigEndian(lenB, 4));
    }

    /** memset. */
    method ClearFrom(from: nat, to: nat)
      requires from <= to <= block.Length
      modifies block
      ensures block[..from] == old(block[..from]) && block[from..to] == Zeros(to - from)
    {
      forall i | from <= i < to {
        block[i] := 0;
      }
    }

    /** memcpy out of a context, as in hmac_sha256_init. */
    method Save() returns (s: Saved)
      requires Valid()
      ensures SavedOk(alg, s, done) && SavedFed(s, done) == Fed() && s.len == len
    {
      hide Absorb, Start;
      s := Saved(Now(), block[..], len, totLen);
      assert s.block[..len] == block[..len];
    }

    /** memcpy into a context, as in hmac_sha256_reinit. */
    method Restore(s: Saved, ghost d: seq<byte>)
      requires Shaped() && SavedOk(alg, s, d)
      modifies this, words, longs, block
      ensures Valid() && Fed() == SavedFed(s, d) && len == s.len
    {
      hide Absorb, Start;
      if Wide(alg) {
        forall i | 0 <= i < 8 {
          longs[i] := s.state.longs[i];
        }
        assert longs[..] == s.state.longs;
      } else {
        forall i | 0 <= i < 8 {
          words[i] := s.state.words[i];
        }
        assert words[..] == s.state.words;
      }
      forall i | 0 <= i < block.Length {
        block[i] := s.block[i];
      }
      len, totLen, done := s.len, s.totLen, d;
      assert block[..] == s.block;
      assert block[..len] == block[..][..len];
    }
  }

  // ----- arithmetic and sequences -----

  lemma Tail(d: seq<byte>, rest: seq<byte>, m: seq<byte>)
    ensures d + (rest + m) == d + rest + m
  {
  }

  lemma Four(d: seq<byte>, a: seq<byte>, b: seq<byte>, c: seq<byte>)
    ensures d + a + b + c == d + (a + (b + c))
  {
  }

  lemma Division(alg: Algorithm, n: nat)
    ensures n == n / BlockSize(alg) * BlockSize(alg) + n % BlockSize(alg) && n % BlockSize(alg) < BlockSize(alg)
    ensures n / BlockSize(alg) * BlockSize(alg) % BlockSize(alg) == 0
  {
  }

  lemma Taken(alg: Algorithm, d: seq<byte>, full: seq<byte>, body: seq<byte>)
    requires Blocks(alg, d) && |full| == BlockSize(alg) && Blocks(alg, body)
    ensures Blocks(alg, full) && Blocks(alg, d + full) && Blocks(alg, d + full + body)
    ensures Absorb(alg, Start(alg), d + full + body) == Absorb(alg, Absorb(alg, Absorb(alg, Start(alg), d), full), body)
  {
    hide Absorb;
    AbsorbConcat(alg, Start(alg), d, full);
    AbsorbConcat(alg, Start(alg), d + full, body);
  }

  lemma Wraps(a: nat, b: nat)
    ensures (a % UINT_MAX1 + b) % UINT_MAX1 == (a + b) % UINT_MAX1
  {
  }

  lemma RestIs(alg: Algorithm, d: seq<byte>, rest: seq<byte>)
    requires Blocks(alg, d) && |rest| < BlockSize(alg)
    ensures |d + rest| % BlockSize(alg) == |rest| == |rest| % BlockSize(alg)
  {
  }

  lemma PadSize(alg: Algorithm, rest: nat)
    requires rest < BlockSize(alg)
    ensures LastBlocks(alg, rest % BlockSize(alg)) * BlockSize(alg) - rest >= 1 + LengthBytes(alg)
    ensures LastBlocks(alg, rest % BlockSize(alg)) <= 2
  {
  }

  /** Zeros, overwritten by a byte in front and some at the end. */
  lemma Written(rest: seq<byte>, k: nat, tail: seq<byte>)
    requires k >= 5 && |tail| == 4
    ensures (rest + Zeros(k))[|rest| := 0x80][..|rest| + k - 4] + tail == rest + ([0x80] + Zeros(k - 5) + tail)
  {
    assert (rest + Zeros(k))[|rest| := 0x80][..|rest| + k - 4] == rest + ([0x80] + Zeros(k - 5));
  }

  lemma PaddingIs(alg: Algorithm, fed: seq<byte>, rest: nat, lenB: nat)
    requires rest == |fed| % BlockSize(alg) && lenB == 8 * |fed| % UINT_MAX1
    ensures LastBlocks(alg, rest) * BlockSize(alg) - rest >= 5
    ensures Padding(alg, |fed|) == [0x80] + Zeros(LastBlocks(alg, rest) * BlockSize(alg) - rest - 5) + BigEndian(lenB, 4)
  {
    PaddingFits(alg, |fed|);
  }

  /** block_nb: how many blocks are left, the padding included. */
  function BlockNb(alg: Algorithm, len: nat): nat {
    LastBlocks(alg, len % BlockSize(alg))
  }

  /** len_b: the length in bits, as far as 32 bits hold it. */
  function LenB(totLen: nat, len: nat): nat {
    (totLen + len) * 8 % UINT_MAX1
  }

  /** pm_len: the size of so many blocks. */
  function Span(alg: Algorithm, blocks: nat): nat {
    blocks * BlockSize(alg)
  }

  /** The numbers of sha256_final, for a context with `rest` in its block. */
  lemma PadNumbers(alg: Algorithm, d: seq<byte>, rest: seq<byte>, totLen: nat)
    requires Blocks(alg, d) && |rest| < BlockSize(alg) && totLen == |d| % UINT_MAX1
    ensures var pmLen, lenB := Span(alg, BlockNb(alg, |rest|)), LenB(totLen, |rest|);
      && |rest| + 5 <= pmLen <= 2 * BlockSize(alg) && lenB < UINT_MAX1
      && Padding(alg, |d + rest|) == [0x80] + Zeros(pmLen - |rest| - 5) + BigEndian(lenB, 4)
  {
    RestIs(alg, d, rest);
    BlockNbIs(alg, |rest|);
    LenBIs(d, rest, totLen);
    hide *;
    PaddingSpans(alg, d + rest, |rest|, LenB(totLen, |rest|));
  }

  lemma BlockNbIs(alg: Algorithm, rest: nat)
    requires rest < BlockSize(alg)
    ensures BlockNb(alg, rest) == LastBlocks(alg, rest) && Span(alg, BlockNb(alg, rest)) <= 2 * BlockSize(alg)
  {
    PadSize(alg, rest);
  }

  lemma LenBIs(d: seq<byte>, rest: seq<byte>, totLen: nat)
    requires totLen == |d| % UINT_MAX1
    ensures LenB(totLen, |rest|) == 8 * |d + rest| % UINT_MAX1 < UINT_MAX1
  {
    LengthInBits(|d|, |rest|);
  }

  lemma PaddingSpans(alg: Algorithm, fed: seq<byte>, rest: nat, lenB: nat)
    requires rest == |fed| % BlockSize(alg) && lenB == 8 * |fed| % UINT_MAX1
    ensures var pmLen := Span(alg, LastBlocks(alg, rest));
      rest + 5 <= pmLen && Padding(alg, |fed|) == [0x80] + Zeros(pmLen - rest - 5) + BigEndian(lenB, 4)
  {
    hide Padding, LastBlocks, BigEndian, Zeros;
    PaddingIs(alg, fed, rest, lenB);
  }

  lemma AddMultiple(x: nat, k: nat)
    ensures (x + k * UINT_MAX1) % UINT_MAX1 == x % UINT_MAX1
  {
  }

  lemma LengthInBits(a: nat, b: nat)
    ensures (a % UINT_MAX1 + b) * 8 % UINT_MAX1 == 8 * (a + b) % UINT_MAX1
  {
    var q, r := a / UINT_MAX1, a % UINT_MAX1;
    assert 8 * (a + b) == (r + b) * 8 + (8 * q) * UINT_MAX1;
    AddMultiple((r + b) * 8, 8 * q);
  }
}
