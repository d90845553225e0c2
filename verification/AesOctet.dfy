/**
 * The bytes of the AES state as values of their own, with what is done to them.
 */
module AesOctet {
  import opened Bytes
  import AesTables
  import AesField

  datatype Octet = Octet(bits: byte)

  const ZERO := Octet(0)

  /** get_sbox_value and get_sbox_invert. */
  function Sub(x: Octet): Octet {
    Octet(AesTables.Sbox(x.bits))
  }

  function InvSub(x: Octet): Octet {
    Octet(AesTables.InvSbox(x.bits))
  }

  lemma SubUndone(x: Octet)
    ensures InvSub(Sub(x)) == x
  {
    hide AesTables.Sbox, AesTables.InvSbox;
    AesTables.SboxInverse(x.bits);
  }

  function Xor(x: Octet, y: Octet): Octet {
    Octet(AesField.Xor(x.bits, y.bits))
  }

  lemma XorUndone(x: Octet, y: Octet)
    ensures Xor(Xor(x, y), y) == x
  {
    AesField.Cancel(x.bits, y.bits, y.bits);
    hide AesField.Xor;
  }

  lemma XorAssoc(x: Octet, y: Octet, z: Octet)
    ensures Xor(Xor(x, y), z) == Xor(x, Xor(y, z))
  {
    AesField.XorAssoc(x.bits, y.bits, z.bits);
    hide AesField.Xor;
  }

  function Xtime(x: Octet): Octet {
    Octet(AesField.Xtime(x.bits))
  }

  /** tmp of mix_columns. */
  function Sum(a: Octet, b: Octet, c: Octet, d: Octet): Octet {
    Octet(AesField.Sum(a.bits, b.bits, c.bits, d.bits))
  }

  lemma SumTurns(a: Octet, b: Octet, c: Octet, d: Octet)
    ensures Sum(b, c, d, a) == Sum(a, b, c, d)
  {
    hide AesField.Sum;
    AesField.SumTurns(a.bits, b.bits, c.bits, d.bits);
  }

  /** One byte of a mixed, and of an unmixed, column. */
  function Mix(a: Octet, b: Octet, c: Octet, d: Octet): Octet {
    Octet(AesField.Mix(a.bits, b.bits, c.bits, d.bits))
  }

  function Unmix(a: Octet, b: Octet, c: Octet, d: Octet): Octet {
    Octet(AesField.Unmix(a.bits, b.bits, c.bits, d.bits))
  }

  lemma MixIs(a: Octet, b: Octet, c: Octet, d: Octet)
    ensures Mix(a, b, c, d) == Xor(a, Xor(Xtime(Xor(a, b)), Sum(a, b, c, d)))
  {
    hide AesField.Xor, AesField.Xtime, AesField.Sum;
  }

  lemma UnmixMix(a: Octet, b: Octet, c: Octet, d: Octet)
    ensures Unmix(Mix(a, b, c, d), Mix(b, c, d, a), Mix(c, d, a, b), Mix(d, a, b, c)) == a
  {
    hide AesField.Mix, AesField.Unmix;
    AesField.UnmixMix(a.bits, b.bits, c.bits, d.bits);
  }
}
