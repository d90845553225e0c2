/**
 * Whole-message digests, and keyed ones (src/hmac.c) after section 2 of RFC 2104.
 */
module Hmac {
  import opened Bytes
  import opened Sha2
  import opened Sha2Stream

  /** sha256 and its siblings. */
  method Hash(alg: Algorithm, message: seq<byte>) returns (digest: seq<byte>)
    requires Reach(alg, 0, |message|)
    ensures digest == Digest(alg, message)
    ensures |message| < 0x2000_0000 ==> digest == StandardDigest(alg, message)
  {
    Begin(message);
    assert 0 + |message| < UINT_MAX1;
    hide *;
    var ctx := new Context(alg);
    ctx.Update(message);
    digest := ctx.Final();
    Below(alg, message);
  }

  lemma Below(alg: Algorithm, message: seq<byte>)
    ensures |message| < 0x2000_0000 ==> Digest(alg, message) == StandardDigest(alg, message)
  {
    hide *;
    if |message| < 0x2000_0000 {
      DigestIsStandard(alg, message);
    }
  }

  lemma Begin(s: seq<byte>)
    ensures [] + s == s && s + [] == s
  {
  }

  function Flatten(pieces: seq<seq<byte>>): seq<byte> {
    if pieces == [] then [] else Flatten(pieces[..|pieces| - 1]) + pieces[|pieces| - 1]
  }

  /** No update overflows its 32-bit sum or reaches too far. */
  predicate Feedable(alg: Algorithm, pieces: seq<seq<byte>>) {
    forall i | 0 <= i < |pieces| ::
      var len := |Flatten(pieces[..i])| % BlockSize(alg);
      len + |pieces[i]| < UINT_MAX1 && Reach(alg, len, |pieces[i]|)
  }

  /** A digest does not depend on how its message is cut into pieces, and it is
      the standard one for messages below 2^29 bytes. */
  method HashPieces(alg: Algorithm, pieces: seq<seq<byte>>) returns (digest: seq<byte>)
    requires Feedable(alg, pieces)
    ensures digest == Digest(alg, Flatten(pieces))
    ensures |Flatten(pieces)| < 0x2000_0000 ==> digest == StandardDigest(alg, Flatten(pieces))
  {
    hide Digest, StandardDigest, Context.Valid, Context.Fed, Flatten;
    var ctx := new Context(alg);
    assert Flatten(pieces[..0]) == [] by {
      FlattenNone(pieces);
    }
    for i := 0 to |pieces|
      invariant fresh(ctx) && fresh(ctx.words) && fresh(ctx.longs) && fresh(ctx.block)
      invariant ctx.Valid() && ctx.alg == alg && ctx.Fed() == Flatten(pieces[..i])
    {
      Snoc(pieces, i);
      ctx.RestSize();
      assert ctx.len + |pieces[i]| < UINT_MAX1 && Reach(alg, ctx.len, |pieces[i]|);
      ctx.Update(pieces[i]);
    }
    assert pieces[..|pieces|] == pieces;
    digest := ctx.Final();
    Below(alg, Flatten(pieces));
  }

  lemma FlattenNone(pieces: seq<seq<byte>>)
    ensures Flatten(pieces[..0]) == []
  {
  }

  lemma Snoc(pieces: seq<seq<byte>>, i: nat)
    requires i < |pieces|
    ensures Flatten(pieces[..i + 1]) == Flatten(pieces[..i]) + pieces[i]
  {
    assert pieces[..i + 1][..i] == pieces[..i];
  }

  // ----- keyed digests -----

  /** The key, brought to the size of a block. */
  function BlockKey(alg: Algorithm, key: seq<byte>): (k: seq<byte>)
    ensures |k| == BlockSize(alg)
  {
    hide Digest;
    SizesFit(alg);
    var k := if |key| > BlockSize(alg) then Digest(alg, key) else key;
    k + Zeros(BlockSize(alg) - |k|)
  }

  lemma SizesFit(alg: Algorithm)
    ensures DigestSize(alg) <= BlockSize(alg) < UINT_MAX1
  {
  }

  /** Every byte of a block key exclusive-or a constant. */
  function Masked(k: seq<byte>, mask: byte): (r: seq<byte>)
    ensures |r| == |k|
  {
    seq(|k|, i requires 0 <= i < |k| => k[i] ^ mask)
  }

  const INNER: byte := 0x36
  const OUTER: byte := 0x5c

  /** Section 2 of RFC 2104. */
  function Mac(alg: Algorithm, key: seq<byte>, text: seq<byte>): (mac: seq<byte>)
    ensures |mac| == DigestSize(alg)
  {
    hide BlockKey, Masked;
    var k := BlockKey(alg, key);
    Digest(alg, Masked(k, OUTER) + Digest(alg, Masked(k, INNER) + text))
  }

  /** ... with the digests of the standard throughout. */
  function StandardMac(alg: Algorithm, key: seq<byte>, text: seq<byte>): (mac: seq<byte>)
    ensures |mac| == DigestSize(alg)
  {
    hide StandardDigest;
    SizesFit(alg);
    var key' := if |key| > BlockSize(alg) then StandardDigest(alg, key) else key;
    var k := key' + Zeros(BlockSize(alg) - |key'|);
    StandardDigest(alg, Masked(k, OUTER) + StandardDigest(alg, Masked(k, INNER) + text))
  }

  lemma MacIsStandard(alg: Algorithm, key: seq<byte>, text: seq<byte>)
    requires |key| < 0x2000_0000 && BlockSize(alg) + |text| < 0x2000_0000
    ensures Mac(alg, key, text) == StandardMac(alg, key, text)
  {
    hide Digest, StandardDigest, Masked;
    DigestIsStandard(alg, key);
    var k := BlockKey(alg, key);
    DigestIsStandard(alg, Masked(k, INNER) + text);
    DigestIsStandard(alg, Masked(k, OUTER) + Digest(alg, Masked(k, INNER) + text));
  }

  /** The two pads of hmac_sha256_init. */
  method Pads(alg: Algorithm, key: seq<byte>) returns (ipad: array<byte>, opad: array<byte>)
    requires Reach(alg, 0, |key|)
    ensures ipad[..] == Masked(BlockKey(alg, key), INNER) && opad[..] == Masked(BlockKey(alg, key), OUTER)
    ensures fresh(ipad) && fresh(opad)
  {
    hide Digest, StandardDigest;
    SizesFit(alg);
    var size := BlockSize(alg);
    ipad, opad := new byte[size], new byte[size];
    var used, num := key, size;
    if |key| != size {
      if |key| > size {
        num := DigestSize(alg);
        used := Hash(alg, key);
      } else {
        num := |key|;
      }
      forall i | num <= i < size {
        ipad[i] := INNER;
      }
      forall i | num <= i < size {
        opad[i] := OUTER;
      }
    }
    for i := 0 to num
      invariant forall j | 0 <= j < i :: ipad[j] == used[j] ^ INNER && opad[j] == used[j] ^ OUTER
      invariant forall j | num <= j < size :: ipad[j] == INNER && opad[j] == OUTER
    {
      ipad[i] := used[i] ^ INNER;
      opad[i] := used[i] ^ OUTER;
    }
    assert BlockKey(alg, key) == used + Zeros(size - num);
    ZeroMask(INNER);
    ZeroMask(OUTER);
  }

  lemma ZeroMask(m: byte)
    ensures 0 ^ m == m
  {
  }

  lemma MacIs(alg: Algorithm, key: seq<byte>, text: seq<byte>)
    ensures Mac(alg, key, text)
         == Digest(alg, Masked(BlockKey(alg, key), OUTER) + Digest(alg, Masked(BlockKey(alg, key), INNER) + text))
    ensures |Mac(alg, key, text)| == DigestSize(alg)
  {
    hide Digest;
  }

  class Hmac {
    const alg: Algorithm
    const inside: Context
    const outside: Context
    const insideStart: Saved          // ctx_inside_reinit
    const outsideStart: Saved
    ghost const insideDone: seq<byte>
    ghost const outsideDone: seq<byte>
    ghost const key: seq<byte>

    /** The contexts share no storage. */
    ghost predicate Shaped()
      reads inside, outside
    {
      && inside != outside && inside.words != outside.words && inside.longs != outside.longs && inside.block != outside.block
      && inside.Shaped() && outside.Shaped() && inside.alg == outside.alg == alg
    }

    /** What was kept aside holds the masked key. */
    ghost predicate Keyed()
    {
      && SavedOk(alg, insideStart, insideDone) && SavedOk(alg, outsideStart, outsideDone)
      && SavedFed(insideStart, insideDone) == Masked(BlockKey(alg, key), INNER)
      && SavedFed(outsideStart, outsideDone) == Masked(BlockKey(alg, key), OUTER) && outsideStart.len == 0
    }

    /** Ready for more text after `text`. */
    ghost predicate Holds(text: seq<byte>)
      reads inside, inside.words, inside.longs, inside.block
      reads outside, outside.words, outside.longs, outside.block
    {
      && Shaped() && Keyed() && outside.len == 0
      && inside.Took(Masked(BlockKey(alg, key), INNER) + text) && outside.Took(Masked(BlockKey(alg, key), OUTER))
    }

    /** hmac_sha256_init and its siblings. */
    constructor (alg: Algorithm, key: seq<byte>)
      requires Reach(alg, 0, |key|)
      ensures Holds([]) && inside.len == 0 && this.alg == alg && this.key == key
      ensures fresh(inside) && fresh(inside.words) && fresh(inside.longs) && fresh(inside.block)
      ensures fresh(outside) && fresh(outside.words) && fresh(outside.longs) && fresh(outside.block)
    {
      hide BlockKey, Masked, Context.Valid, SavedOk;
      var ipad, opad := Pads(alg, key);
      var a := Masks(alg, ipad[..]);
      var b := Masks(alg, opad[..]);
      var sa := a.Save();
      var sb := b.Save();
      insideStart, outsideStart := sa, sb;
      insideDone, outsideDone := a.done, b.done;
      this.alg, this.key := alg, key;
      inside, outside := a, b;
      new;
      Begin(ipad[..]);
    }

    /** hmac_sha256_update and its siblings. */
    method Update(message: seq<byte>, ghost text: seq<byte>)
      requires Holds(text) && inside.len + |message| < UINT_MAX1 && Reach(alg, inside.len, |message|)
      modifies inside, inside.words, inside.longs, inside.block
      ensures Holds(text + message)
    {
      hide Masked, BlockKey, Context.Valid, SavedOk;
      inside.Update(message);
      Join(Masked(BlockKey(alg, key), INNER), text, message);
    }

    /** hmac_sha256_final and its siblings. */
    method Final(macSize: nat, ghost text: seq<byte>) returns (mac: seq<byte>)
      requires Holds(text) && macSize <= DigestSize(alg)
      modifies inside.words, inside.longs, inside.block, outside, outside.words, outside.longs, outside.block
      ensures Shaped() && Keyed() && mac == Mac(alg, key, text)[..macSize]
    {
      MacIs(alg, key, text);
      hide Masked, BlockKey, Digest, Mac, Context.Valid, Context.Fed, SavedOk, DigestSize;
      var digest := inside.Final();
      DigestFits(alg, digest);
      outside.Update(digest);
      digest := outside.Final();
      mac := digest[..macSize];
    }

    /** hmac_sha256_reinit and its siblings. */
    method Reinit()
      requires Shaped() && Keyed()
      modifies inside, inside.words, inside.longs, inside.block, outside, outside.words, outside.longs, outside.block
      ensures Holds([])
    {
      hide Masked, BlockKey, Context.Valid, SavedOk;
      inside.Restore(insideStart, insideDone);
      outside.Restore(outsideStart, outsideDone);
      Begin(Masked(BlockKey(alg, key), INNER));
    }
  }

  /** A context that has taken in a masked key. */
  method Masks(alg: Algorithm, pad: seq<byte>) returns (c: Context)
    requires |pad| == BlockSize(alg)
    ensures c.alg == alg && c.Valid() && c.Fed() == pad && c.len == 0
    ensures fresh(c) && fresh(c.words) && fresh(c.longs) && fresh(c.block)
  {
    OneBlock(alg, pad);
    Begin(pad);
    hide Context.Valid, Context.Fed, Blocks, BlockSize;
    c := new Context(alg);
    c.Update(pad);
    c.StartsWhole(pad);
  }

  lemma OneBlock(alg: Algorithm, s: seq<byte>)
    requires |s| == BlockSize(alg)
    ensures Blocks(alg, []) && Blocks(alg, s) && Reach(alg, 0, |s|) && |s| < UINT_MAX1
  {
  }

  lemma Join(a: seq<byte>, b: seq<byte>, c: seq<byte>)
    ensures a + b + c == a + (b + c)
  {
  }

  lemma DigestFits(alg: Algorithm, digest: seq<byte>)
    requires |digest| == DigestSize(alg)
    ensures |digest| < UINT_MAX1 && Reach(alg, 0, |digest|)
  {
  }

  /** hmac_sha256 and its siblings. */
  method HmacOf(alg: Algorithm, key: seq<byte>, message: seq<byte>, macSize: nat) returns (mac: seq<byte>)
    requires Reach(alg, 0, |key|) && Reach(alg, 0, |message|) && macSize <= DigestSize(alg)
    ensures mac == Mac(alg, key, message)[..macSize]
    ensures |key| < 0x2000_0000 && BlockSize(alg) + |message| < 0x2000_0000
        ==> mac == StandardMac(alg, key, message)[..macSize]
  {
    hide Mac, StandardMac, BlockKey, Masked, Hmac.Holds, Hmac.Shaped, Hmac.Keyed, Context.Valid, Context.Fed, Context.Shaped, Digest, StandardDigest, Zeros;
    var ctx := new Hmac(alg, key);
    ctx.Update(message, []);
    Begin(message);
    mac := ctx.Final(macSize, message);
    if |key| < 0x2000_0000 && BlockSize(alg) + |message| < 0x2000_0000 {
      MacIsStandard(alg, key, message);
    }
  }
}
