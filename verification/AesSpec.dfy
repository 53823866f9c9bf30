// The cipher of FIPS 197: key expansion, encryption, the equivalent inverse
// cipher, and the theorem that the second undoes the first.

module AesSpec {
  import opened AesSbox
  import opened AesField

  // ------------------------------------------------------------------ state

  /** The state as four columns; XorState is AddRoundKey (section 5.1.4). */
  datatype State = State(c0: Col, c1: Col, c2: Col, c3: Col)

  function AddState(s: State, k: State): State {
    State(AddCol(s.c0, k.c0), AddCol(s.c1, k.c1), AddCol(s.c2, k.c2), AddCol(s.c3, k.c3))
  }

  function SubCol(x: Col): Col { Col(S(x.a), S(x.b), S(x.c), S(x.d)) }

  function InvSubCol(x: Col): Col { Col(Si(x.a), Si(x.b), Si(x.c), Si(x.d)) }

  function SubBytes(s: State): State {
    State(SubCol(s.c0), SubCol(s.c1), SubCol(s.c2), SubCol(s.c3))
  }

  function InvSubBytes(s: State): State {
    State(InvSubCol(s.c0), InvSubCol(s.c1), InvSubCol(s.c2), InvSubCol(s.c3))
  }

  /** Row r moves r places to the left (section 5.1.2). */
  function ShiftRows(s: State): State {
    State(Col(s.c0.a, s.c1.b, s.c2.c, s.c3.d), Col(s.c1.a, s.c2.b, s.c3.c, s.c0.d),
          Col(s.c2.a, s.c3.b, s.c0.c, s.c1.d), Col(s.c3.a, s.c0.b, s.c1.c, s.c2.d))
  }

  function InvShiftRows(s: State): State {
    State(Col(s.c0.a, s.c3.b, s.c2.c, s.c1.d), Col(s.c1.a, s.c0.b, s.c3.c, s.c2.d),
          Col(s.c2.a, s.c1.b, s.c0.c, s.c3.d), Col(s.c3.a, s.c2.b, s.c1.c, s.c0.d))
  }

  function MixColumns(s: State): State {
    State(MixCol(s.c0), MixCol(s.c1), MixCol(s.c2), MixCol(s.c3))
  }

  function InvMixColumns(s: State): State {
    State(InvMixCol(s.c0), InvMixCol(s.c1), InvMixCol(s.c2), InvMixCol(s.c3))
  }

  // ----------------------------------------------------------------- ciphers

  /** A key schedule as one state-sized round key per AddRoundKey. */
  type Schedule = seq<State>

  /** Section 5.1: the state after the initial AddRoundKey and r full rounds. */
  function Rounds(w: Schedule, r: nat, s: State): State
    requires r < |w|
  {
    if r == 0 then AddState(s, w[0])
    else AddState(MixColumns(ShiftRows(SubBytes(Rounds(w, r - 1, s)))), w[r])
  }

  /** The Cipher: all rounds but one, then a last one without MixColumns. */
  function Cipher(w: Schedule, s: State): State
    requires |w| >= 2
  {
    AddState(ShiftRows(SubBytes(Rounds(w, |w| - 2, s))), w[|w| - 1])
  }

  /** Section 5.3.5: rounds of the equivalent inverse cipher. */
  function InvRounds(d: Schedule, r: nat, s: State): State
    requires r < |d|
  {
    if r == 0 then AddState(s, d[0])
    else AddState(InvMixColumns(InvShiftRows(InvSubBytes(InvRounds(d, r - 1, s)))), d[r])
  }

  function EqInvCipher(d: Schedule, s: State): State
    requires |d| >= 2
  {
    AddState(InvShiftRows(InvSubBytes(InvRounds(d, |d| - 2, s))), d[|d| - 1])
  }

  /** The decryption schedule: round keys reversed, InvMixColumns on the inner ones. */
  function Decryption(w: Schedule): (d: Schedule)
    requires |w| >= 2
    ensures |d| == |w|
  {
    seq(|w|, i requires 0 <= i < |w| =>
      if i == 0 || i == |w| - 1 then w[|w| - 1 - i] else InvMixColumns(w[|w| - 1 - i]))
  }

  // ------------------------------------------------- decryption undoes encryption

  lemma AddCancels(x: bv8, k: bv8)
    ensures Add(Add(x, k), k) == x
  {
  }

  lemma AddColCancels(x: Col, k: Col)
    ensures AddCol(AddCol(x, k), k) == x
  {
    hide Add;
    AddCancels(x.a, k.a);
    AddCancels(x.b, k.b);
    AddCancels(x.c, k.c);
    AddCancels(x.d, k.d);
  }

  lemma AddStateCancels(s: State, k: State)
    ensures AddState(AddState(s, k), k) == s
  {
    hide AddCol;
    AddColCancels(s.c0, k.c0);
    AddColCancels(s.c1, k.c1);
    AddColCancels(s.c2, k.c2);
    AddColCancels(s.c3, k.c3);
  }

  lemma SubColUndone(x: Col)
    ensures InvSubCol(SubCol(x)) == x
  {
    hide S, Si;
    SboxInverse(x.a);
    SboxInverse(x.b);
    SboxInverse(x.c);
    SboxInverse(x.d);
  }

  /** The two inverse steps, in either order, undo the two forward ones. */
  lemma SubShiftUndone(s: State)
    ensures InvShiftRows(InvSubBytes(ShiftRows(SubBytes(s)))) == s
  {
    hide S, Si;
    SubColUndone(s.c0);
    SubColUndone(s.c1);
    SubColUndone(s.c2);
    SubColUndone(s.c3);
  }

  /** InvMixColumns passes through AddRoundKey and undoes MixColumns. */
  lemma MixUndone(s: State, k: State)
    ensures InvMixColumns(AddState(MixColumns(s), k)) == AddState(s, InvMixColumns(k))
  {
    hide MixCol, InvMixCol, AddCol;
    InvMixColLinear(MixCol(s.c0), k.c0);
    InvMixColLinear(MixCol(s.c1), k.c1);
    InvMixColLinear(MixCol(s.c2), k.c2);
    InvMixColLinear(MixCol(s.c3), k.c3);
    InvMixColUndoes(s.c0);
    InvMixColUndoes(s.c1);
    InvMixColUndoes(s.c2);
    InvMixColUndoes(s.c3);
  }

  /** After r rounds of decryption the state is that of encryption before its
      round |w| - 1 - r was mixed and keyed. */
  lemma {:induction false} InvRoundsMeet(w: Schedule, r: nat, s: State)
    requires |w| >= 2 && r <= |w| - 2
    ensures InvRounds(Decryption(w), r, Cipher(w, s))
         == ShiftRows(SubBytes(Rounds(w, |w| - 2 - r, s)))
  {
    hide AddState, ShiftRows, SubBytes, MixColumns, InvShiftRows, InvSubBytes, InvMixColumns;
    var d := Decryption(w);
    if r == 0 {
      AddStateCancels(ShiftRows(SubBytes(Rounds(w, |w| - 2, s))), w[|w| - 1]);
    } else {
      InvRoundsMeet(w, r - 1, s);
      var inner := Rounds(w, |w| - 1 - r, s);
      var mixed := ShiftRows(SubBytes(Rounds(w, |w| - 2 - r, s)));
      var k := w[|w| - 1 - r];
      SubShiftUndone(inner);
      MixUndone(mixed, k);
      AddStateCancels(mixed, InvMixColumns(k));
    }
  }

  /** For every schedule and every block, the equivalent inverse cipher under the
      decryption schedule undoes the cipher. */
  lemma DecryptionUndoesEncryption(w: Schedule, s: State)
    requires |w| >= 2
    ensures EqInvCipher(Decryption(w), Cipher(w, s)) == s
  {
    hide AddState, ShiftRows, SubBytes, MixColumns, InvShiftRows, InvSubBytes, InvMixColumns;
    InvRoundsMeet(w, |w| - 2, s);
    SubShiftUndone(Rounds(w, 0, s));
    AddStateCancels(s, w[0]);
  }
}
