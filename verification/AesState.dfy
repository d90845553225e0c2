/**
 * The state of AES changed in place (src/aes.c): the steps of a round on a
 * four by four array, the ciphers, and the expansion of the key.
 */
module AesState {
  import opened AesOctet
  import opened Aes

  /** The bytes of a state, column by column. */
  function Bytes16(state: array2<Octet>): (s: Block)
    requires state.Length0 == 4 && state.Length1 == 4
    reads state
  {
    seq(16, k requires 0 <= k < 16 reads state => state[k / 4, k % 4])
  }

  /** A state is a block when they agree in every column and row. */
  lemma StateIs(state: array2<Octet>, s: Block)
    requires state.Length0 == 4 && state.Length1 == 4
    requires forall i, j | 0 <= i < 4 && 0 <= j < 4 :: state[i, j] == At(s, i, j)
    ensures Bytes16(state) == s
  {
    forall k | 0 <= k < 16 ensures Bytes16(state)[k] == s[k] {
      assert state[k / 4, k % 4] == At(s, k / 4, k % 4);
    }
  }

  function At(s: Block, i: int, j: int): Octet
    requires 0 <= i < 4 && 0 <= j < 4
  {
    s[4 * i + j]
  }

  lemma StateAt(state: array2<Octet>)
    requires state.Length0 == 4 && state.Length1 == 4
    ensures forall i, j | 0 <= i < 4 && 0 <= j < 4 :: At(Bytes16(state), i, j) == state[i, j]
  {
  }

  /** add_roundkey. */
  method AddRoundKeyTo(state: array2<Octet>, w: Keys, round: nat)
    requires state.Length0 == 4 && state.Length1 == 4 && round <= NR
    modifies state
    ensures Bytes16(state) == AddRoundKey(w, round, old(Bytes16(state)))
  {
    hide Xor;
    StateAt(state);
    ghost var s := Bytes16(state);
    for i := 0 to 4
      invariant forall c, r | 0 <= c < 4 && 0 <= r < 4 ::
        state[c, r] == if c < i then Xor(At(s, c, r), w[round * 16 + c * 4 + r]) else At(s, c, r)
    {
      for j := 0 to 4
        invariant forall c, r | 0 <= c < 4 && 0 <= r < 4 ::
          state[c, r] == if c < i || (c == i && r < j) then Xor(At(s, c, r), w[round * 16 + c * 4 + r]) else At(s, c, r)
      {
        state[i, j] := Xor(state[i, j], w[round * 16 + i * 4 + j]);
      }
    }
    StateIs(state, AddRoundKey(w, round, s));
  }

  /** subbytes. */
  method SubBytesOf(state: array2<Octet>)
    requires state.Length0 == 4 && state.Length1 == 4
    modifies state
    ensures Bytes16(state) == SubBytes(old(Bytes16(state)))
  {
    hide Sub;
    StateAt(state);
    ghost var s := Bytes16(state);
    for i := 0 to 4
      invariant forall c, r | 0 <= c < 4 && 0 <= r < 4 :: state[c, r] == if r < i then Sub(At(s, c, r)) else At(s, c, r)
    {
      for j := 0 to 4
        invariant forall c, r | 0 <= c < 4 && 0 <= r < 4 ::
          state[c, r] == if r < i || (r == i && c < j) then Sub(At(s, c, r)) else At(s, c, r)
      {
        state[j, i] := Sub(state[j, i]);
      }
    }
    StateIs(state, SubBytes(s));
  }

  /** inv_subbytes. */
  method InvSubBytesOf(state: array2<Octet>)
    requires state.Length0 == 4 && state.Length1 == 4
    modifies state
    ensures Bytes16(state) == InvSubBytes(old(Bytes16(state)))
  {
    hide InvSub;
    StateAt(state);
    ghost var s := Bytes16(state);
    for i := 0 to 4
      invariant forall c, r | 0 <= c < 4 && 0 <= r < 4 :: state[c, r] == if r < i then InvSub(At(s, c, r)) else At(s, c, r)
    {
      for j := 0 to 4
        invariant forall c, r | 0 <= c < 4 && 0 <= r < 4 ::
          state[c, r] == if r < i || (r == i && c < j) then InvSub(At(s, c, r)) else At(s, c, r)
      {
        state[j, i] := InvSub(state[j, i]);
      }
    }
    StateIs(state, InvSubBytes(s));
  }

  /** Column i + n, around. */
  function Plus(i: int, n: int): int {
    if i + n < 4 then i + n else i + n - 4
  }

  /** The first row of shift_rows: by one column. */
  method FirstRow(state: array2<Octet>)
    requires state.Length0 == 4 && state.Length1 == 4
    modifies state
    ensures forall i | 0 <= i < 4 :: state[i, 1] == old(state[Plus(i, 1), 1])
    ensures forall i, j | 0 <= i < 4 && 0 <= j < 4 && j != 1 :: state[i, j] == old(state[i, j])
  {
    var temp := state[0, 1];
    state[0, 1] := state[1, 1];
    state[1, 1] := state[2, 1];
    state[2, 1] := state[3, 1];
    state[3, 1] := temp;
  }

  /** The second row, of both directions: by two columns. */
  method SecondRow(state: array2<Octet>)
    requires state.Length0 == 4 && state.Length1 == 4
    modifies state
    ensures forall i | 0 <= i < 4 :: state[i, 2] == old(state[Plus(i, 2), 2])
    ensures forall i, j | 0 <= i < 4 && 0 <= j < 4 && j != 2 :: state[i, j] == old(state[i, j])
  {
    var temp := state[0, 2];
    state[0, 2] := state[2, 2];
    state[2, 2] := temp;
    temp := state[1, 2];
    state[1, 2] := state[3, 2];
    state[3, 2] := temp;
  }

  /** The third row of shift_rows: by three columns. */
  method ThirdRow(state: array2<Octet>)
    requires state.Length0 == 4 && state.Length1 == 4
    modifies state
    ensures forall i | 0 <= i < 4 :: state[i, 3] == old(state[Plus(i, 3), 3])
    ensures forall i, j | 0 <= i < 4 && 0 <= j < 4 && j != 3 :: state[i, j] == old(state[i, j])
  {
    var temp := state[0, 3];
    state[0, 3] := state[3, 3];
    state[3, 3] := state[2, 3];
    state[2, 3] := state[1, 3];
    state[1, 3] := temp;
  }

  /** The first row of inv_shift_rows. */
  method FirstRowBack(state: array2<Octet>)
    requires state.Length0 == 4 && state.Length1 == 4
    modifies state
    ensures forall i | 0 <= i < 4 :: state[i, 1] == old(state[Plus(i, 3), 1])
    ensures forall i, j | 0 <= i < 4 && 0 <= j < 4 && j != 1 :: state[i, j] == old(state[i, j])
  {
    var temp := state[3, 1];
    state[3, 1] := state[2, 1];
    state[2, 1] := state[1, 1];
    state[1, 1] := state[0, 1];
    state[0, 1] := temp;
  }

  /** The third row of inv_shift_rows. */
  method ThirdRowBack(state: array2<Octet>)
    requires state.Length0 == 4 && state.Length1 == 4
    modifies state
    ensures forall i | 0 <= i < 4 :: state[i, 3] == old(state[Plus(i, 1), 3])
    ensures forall i, j | 0 <= i < 4 && 0 <= j < 4 && j != 3 :: state[i, j] == old(state[i, j])
  {
    var temp := state[0, 3];
    state[0, 3] := state[1, 3];
    state[1, 3] := state[2, 3];
    state[2, 3] := state[3, 3];
    state[3, 3] := temp;
  }

  lemma ShiftedAt(s: Block)
    ensures forall i, j | 0 <= i < 4 && 0 <= j < 4 :: At(ShiftRows(s), i, j) == At(s, Plus(i, j), j)
  {
  }

  lemma ShiftedBackAt(s: Block)
    ensures forall i, j | 0 <= i < 4 && 0 <= j < 4 :: At(InvShiftRows(s), i, j) == At(s, Plus(i, if j == 0 then 0 else 4 - j), j)
  {
  }

  /** shift_rows. */
  method ShiftRowsOf(state: array2<Octet>)
    requires state.Length0 == 4 && state.Length1 == 4
    modifies state
    ensures Bytes16(state) == ShiftRows(old(Bytes16(state)))
  {
    StateAt(state);
    ghost var s := Bytes16(state);
    ShiftedAt(s);
    hide Bytes16, ShiftRows, At;
    FirstRow(state);
    SecondRow(state);
    ThirdRow(state);
    StateIs(state, ShiftRows(s));
  }

  /** inv_shift_rows. */
  method InvShiftRowsOf(state: array2<Octet>)
    requires state.Length0 == 4 && state.Length1 == 4
    modifies state
    ensures Bytes16(state) == InvShiftRows(old(Bytes16(state)))
  {
    StateAt(state);
    ghost var s := Bytes16(state);
    ShiftedBackAt(s);
    hide Bytes16, InvShiftRows, At;
    FirstRowBack(state);
    SecondRow(state);
    ThirdRowBack(state);
    StateIs(state, InvShiftRows(s));
  }

  /** What becomes of byte j of a column. */
  function Mixed(s: Block, i: int, j: int): Octet
    requires 0 <= i < 4 && 0 <= j < 4
  {
    var a, b, c, d := At(s, i, 0), At(s, i, 1), At(s, i, 2), At(s, i, 3);
    if j == 0 then Mix(a, b, c, d) else if j == 1 then Mix(b, c, d, a) else if j == 2 then Mix(c, d, a, b) else Mix(d, a, b, c)
  }

  lemma MixedIs(s: Block)
    ensures forall i, j | 0 <= i < 4 && 0 <= j < 4 :: At(MixColumns(s), i, j) == Mixed(s, i, j)
  {
    hide Mix;
  }

  function Unmixed(s: Block, i: int, j: int): Octet
    requires 0 <= i < 4 && 0 <= j < 4
  {
    var a, b, c, d := At(s, i, 0), At(s, i, 1), At(s, i, 2), At(s, i, 3);
    if j == 0 then Unmix(a, b, c, d) else if j == 1 then Unmix(b, c, d, a) else if j == 2 then Unmix(c, d, a, b) else Unmix(d, a, b, c)
  }

  lemma UnmixedIs(s: Block)
    ensures forall i, j | 0 <= i < 4 && 0 <= j < 4 :: At(InvMixColumns(s), i, j) == Unmixed(s, i, j)
  {
    hide Unmix;
  }

  /** mix_columns. */
  method MixColumnsOf(state: array2<Octet>)
    requires state.Length0 == 4 && state.Length1 == 4
    modifies state
    ensures Bytes16(state) == MixColumns(old(Bytes16(state)))
  {
    hide Xor, Xtime, Mix, Mixed;
    StateAt(state);
    ghost var s := Bytes16(state);
    for i := 0 to 4
      invariant forall c, r | 0 <= c < 4 && 0 <= r < 4 :: state[c, r] == if c < i then Mixed(s, c, r) else At(s, c, r)
    {
      MixColumn(state, i, s);
    }
    MixedIs(s);
    StateIs(state, MixColumns(s));
  }

  /** The loop body of mix_columns. */
  method MixColumn(state: array2<Octet>, i: nat, ghost s: Block)
    requires state.Length0 == 4 && state.Length1 == 4 && i < 4
    requires forall r | 0 <= r < 4 :: state[i, r] == At(s, i, r)
    modifies state
    ensures forall r | 0 <= r < 4 :: state[i, r] == Mixed(s, i, r)
    ensures forall c, r | 0 <= c < 4 && 0 <= r < 4 && c != i :: state[c, r] == old(state[c, r])
  {
    hide Xor, Xtime, Sum, Mix;
    ghost var a, b, c, d := state[i, 0], state[i, 1], state[i, 2], state[i, 3];
    var t := state[i, 0];
    var tmp := Sum(state[i, 0], state[i, 1], state[i, 2], state[i, 3]);
    SumTurns(a, b, c, d);
    SumTurns(b, c, d, a);
    SumTurns(c, d, a, b);
    MixIs(a, b, c, d);
    MixIs(b, c, d, a);
    MixIs(c, d, a, b);
    MixIs(d, a, b, c);
    var tm := Xtime(Xor(state[i, 0], state[i, 1]));
    state[i, 0] := Xor(state[i, 0], Xor(tm, tmp));
    tm := Xtime(Xor(state[i, 1], state[i, 2]));
    state[i, 1] := Xor(state[i, 1], Xor(tm, tmp));
    tm := Xtime(Xor(state[i, 2], state[i, 3]));
    state[i, 2] := Xor(state[i, 2], Xor(tm, tmp));
    tm := Xtime(Xor(state[i, 3], t));
    state[i, 3] := Xor(state[i, 3], Xor(tm, tmp));
  }

  /** inv_mix_columns. */
  method InvMixColumnsOf(state: array2<Octet>)
    requires state.Length0 == 4 && state.Length1 == 4
    modifies state
    ensures Bytes16(state) == InvMixColumns(old(Bytes16(state)))
  {
    hide Unmix, Unmixed;
    StateAt(state);
    ghost var s := Bytes16(state);
    for i := 0 to 4
      invariant forall c, r | 0 <= c < 4 && 0 <= r < 4 :: state[c, r] == if c < i then Unmixed(s, c, r) else At(s, c, r)
    {
      InvMixColumn(state, i, s);
    }
    UnmixedIs(s);
    StateIs(state, InvMixColumns(s));
  }

  /** The loop body of inv_mix_columns. */
  method InvMixColumn(state: array2<Octet>, i: nat, ghost s: Block)
    requires state.Length0 == 4 && state.Length1 == 4 && i < 4
    requires forall r | 0 <= r < 4 :: state[i, r] == At(s, i, r)
    modifies state
    ensures forall r | 0 <= r < 4 :: state[i, r] == Unmixed(s, i, r)
    ensures forall c, r | 0 <= c < 4 && 0 <= r < 4 && c != i :: state[c, r] == old(state[c, r])
  {
    hide Unmix, At;
    var a, b, c, d := state[i, 0], state[i, 1], state[i, 2], state[i, 3];
    state[i, 0] := Unmix(a, b, c, d);
    state[i, 1] := Unmix(b, c, d, a);
    state[i, 2] := Unmix(c, d, a, b);
    state[i, 3] := Unmix(d, a, b, c);
  }

  /** cipher. */
  method CipherOf(state: array2<Octet>, w: Keys)
    requires state.Length0 == 4 && state.Length1 == 4
    modifies state
    ensures Bytes16(state) == Cipher(w, old(Bytes16(state)))
  {
    hide SubBytes, ShiftRows, MixColumns, AddRoundKey, Bytes16;
    ghost var s := Bytes16(state);
    AddRoundKeyTo(state, w, 0);
    for round := 1 to NR
      invariant Bytes16(state) == Rounds(w, s, round - 1)
    {
      SubBytesOf(state);
      ShiftRowsOf(state);
      MixColumnsOf(state);
      AddRoundKeyTo(state, w, round);
    }
    SubBytesOf(state);
    ShiftRowsOf(state);
    AddRoundKeyTo(state, w, NR);
  }

  /** inv_cipher. */
  method InvCipherOf(state: array2<Octet>, w: Keys)
    requires state.Length0 == 4 && state.Length1 == 4
    modifies state
    ensures Bytes16(state) == InvCipher(w, old(Bytes16(state)))
  {
    hide InvSubBytes, InvShiftRows, InvMixColumns, AddRoundKey, Bytes16;
    ghost var s := Bytes16(state);
    AddRoundKeyTo(state, w, NR);
    var round := NR - 1;
    while round > 0
      invariant 0 <= round < NR && InvRounds(w, Bytes16(state), round) == InvCipher(w, s)
    {
      InvShiftRowsOf(state);
      InvSubBytesOf(state);
      AddRoundKeyTo(state, w, round);
      InvMixColumnsOf(state);
      round := round - 1;
    }
    InvShiftRowsOf(state);
    InvSubBytesOf(state);
    AddRoundKeyTo(state, w, 0);
  }
}
