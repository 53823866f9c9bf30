// The examples of FIPS 197, appendices A and C.1: no change of a table, of a round or
// of the key schedule leaves them as they are.

module AesVectors {
  import opened Common

  import opened AesSbox
  import opened AesField
  import opened AesSpec
  import opened AesWords
  import opened AesKeys
  import opened AesBlock

  /** The key 00 01 .. 0f, the plaintext and the ciphertext of C.1. */
  const KEY: seq<Col> := [K0.c0, K0.c1, K0.c2, K0.c3]
  const PLAIN: State := State(Col(0x00, 0x11, 0x22, 0x33), Col(0x44, 0x55, 0x66, 0x77),
                               Col(0x88, 0x99, 0xaa, 0xbb), Col(0xcc, 0xdd, 0xee, 0xff))
  const CIPHERED: State := State(Col(0x69, 0xc4, 0xe0, 0xd8), Col(0x6a, 0x7b, 0x04, 0x30),
                                  Col(0xd8, 0xcd, 0xb7, 0x80), Col(0x70, 0xb4, 0xc5, 0x5a))

  // The round keys.
  const K0: State := State(Col(0x00, 0x01, 0x02, 0x03), Col(0x04, 0x05, 0x06, 0x07),
                        Col(0x08, 0x09, 0x0a, 0x0b), Col(0x0c, 0x0d, 0x0e, 0x0f))
  const K1: State := State(Col(0xd6, 0xaa, 0x74, 0xfd), Col(0xd2, 0xaf, 0x72, 0xfa),
                        Col(0xda, 0xa6, 0x78, 0xf1), Col(0xd6, 0xab, 0x76, 0xfe))
  const K2: State := State(Col(0xb6, 0x92, 0xcf, 0x0b), Col(0x64, 0x3d, 0xbd, 0xf1),
                        Col(0xbe, 0x9b, 0xc5, 0x00), Col(0x68, 0x30, 0xb3, 0xfe))
  const K3: State := State(Col(0xb6, 0xff, 0x74, 0x4e), Col(0xd2, 0xc2, 0xc9, 0xbf),
                        Col(0x6c, 0x59, 0x0c, 0xbf), Col(0x04, 0x69, 0xbf, 0x41))
  const K4: State := State(Col(0x47, 0xf7, 0xf7, 0xbc), Col(0x95, 0x35, 0x3e, 0x03),
                        Col(0xf9, 0x6c, 0x32, 0xbc), Col(0xfd, 0x05, 0x8d, 0xfd))
  const K5: State := State(Col(0x3c, 0xaa, 0xa3, 0xe8), Col(0xa9, 0x9f, 0x9d, 0xeb),
                        Col(0x50, 0xf3, 0xaf, 0x57), Col(0xad, 0xf6, 0x22, 0xaa))
  const K6: State := State(Col(0x5e, 0x39, 0x0f, 0x7d), Col(0xf7, 0xa6, 0x92, 0x96),
                        Col(0xa7, 0x55, 0x3d, 0xc1), Col(0x0a, 0xa3, 0x1f, 0x6b))
  const K7: State := State(Col(0x14, 0xf9, 0x70, 0x1a), Col(0xe3, 0x5f, 0xe2, 0x8c),
                        Col(0x44, 0x0a, 0xdf, 0x4d), Col(0x4e, 0xa9, 0xc0, 0x26))
  const K8: State := State(Col(0x47, 0x43, 0x87, 0x35), Col(0xa4, 0x1c, 0x65, 0xb9),
                        Col(0xe0, 0x16, 0xba, 0xf4), Col(0xae, 0xbf, 0x7a, 0xd2))
  const K9: State := State(Col(0x54, 0x99, 0x32, 0xd1), Col(0xf0, 0x85, 0x57, 0x68),
                        Col(0x10, 0x93, 0xed, 0x9c), Col(0xbe, 0x2c, 0x97, 0x4e))
  const K10: State := State(Col(0x13, 0x11, 0x1d, 0x7f), Col(0xe3, 0x94, 0x4a, 0x17),
                         Col(0xf3, 0x07, 0xa7, 0x8b), Col(0x4d, 0x2b, 0x30, 0xc5))

  // The state after each full round, and after the SubBytes that follows.
  const S0: State := State(Col(0x00, 0x10, 0x20, 0x30), Col(0x40, 0x50, 0x60, 0x70),
                        Col(0x80, 0x90, 0xa0, 0xb0), Col(0xc0, 0xd0, 0xe0, 0xf0))
  const X0: State := State(Col(0x63, 0xca, 0xb7, 0x04), Col(0x09, 0x53, 0xd0, 0x51),
                        Col(0xcd, 0x60, 0xe0, 0xe7), Col(0xba, 0x70, 0xe1, 0x8c))
  const S1: State := State(Col(0x89, 0xd8, 0x10, 0xe8), Col(0x85, 0x5a, 0xce, 0x68),
                        Col(0x2d, 0x18, 0x43, 0xd8), Col(0xcb, 0x12, 0x8f, 0xe4))
  const X1: State := State(Col(0xa7, 0x61, 0xca, 0x9b), Col(0x97, 0xbe, 0x8b, 0x45),
                        Col(0xd8, 0xad, 0x1a, 0x61), Col(0x1f, 0xc9, 0x73, 0x69))
  const S2: State := State(Col(0x49, 0x15, 0x59, 0x8f), Col(0x55, 0xe5, 0xd7, 0xa0),
                        Col(0xda, 0xca, 0x94, 0xfa), Col(0x1f, 0x0a, 0x63, 0xf7))
  const X2: State := State(Col(0x3b, 0x59, 0xcb, 0x73), Col(0xfc, 0xd9, 0x0e, 0xe0),
                        Col(0x57, 0x74, 0x22, 0x2d), Col(0xc0, 0x67, 0xfb, 0x68))
  const S3: State := State(Col(0xfa, 0x63, 0x6a, 0x28), Col(0x25, 0xb3, 0x39, 0xc9),
                        Col(0x40, 0x66, 0x8a, 0x31), Col(0x57, 0x24, 0x4d, 0x17))
  const X3: State := State(Col(0x2d, 0xfb, 0x02, 0x34), Col(0x3f, 0x6d, 0x12, 0xdd),
                        Col(0x09, 0x33, 0x7e, 0xc7), Col(0x5b, 0x36, 0xe3, 0xf0))
  const S4: State := State(Col(0x24, 0x72, 0x40, 0x23), Col(0x69, 0x66, 0xb3, 0xfa),
                        Col(0x6e, 0xd2, 0x75, 0x32), Col(0x88, 0x42, 0x5b, 0x6c))
  const X4: State := State(Col(0x36, 0x40, 0x09, 0x26), Col(0xf9, 0x33, 0x6d, 0x2d),
                        Col(0x9f, 0xb5, 0x9d, 0x23), Col(0xc4, 0x2c, 0x39, 0x50))
  const S5: State := State(Col(0xc8, 0x16, 0x77, 0xbc), Col(0x9b, 0x7a, 0xc9, 0x3b),
                        Col(0x25, 0x02, 0x79, 0x92), Col(0xb0, 0x26, 0x19, 0x96))
  const X5: State := State(Col(0xe8, 0x47, 0xf5, 0x65), Col(0x14, 0xda, 0xdd, 0xe2),
                        Col(0x3f, 0x77, 0xb6, 0x4f), Col(0xe7, 0xf7, 0xd4, 0x90))
  const S6: State := State(Col(0xc6, 0x2f, 0xe1, 0x09), Col(0xf7, 0x5e, 0xed, 0xc3),
                        Col(0xcc, 0x79, 0x39, 0x5d), Col(0x84, 0xf9, 0xcf, 0x5d))
  const X6: State := State(Col(0xb4, 0x15, 0xf8, 0x01), Col(0x68, 0x58, 0x55, 0x2e),
                        Col(0x4b, 0xb6, 0x12, 0x4c), Col(0x5f, 0x99, 0x8a, 0x4c))
  const S7: State := State(Col(0xd1, 0x87, 0x6c, 0x0f), Col(0x79, 0xc4, 0x30, 0x0a),
                        Col(0xb4, 0x55, 0x94, 0xad), Col(0xd6, 0x6f, 0xf4, 0x1f))
  const X7: State := State(Col(0x3e, 0x17, 0x50, 0x76), Col(0xb6, 0x1c, 0x04, 0x67),
                        Col(0x8d, 0xfc, 0x22, 0x95), Col(0xf6, 0xa8, 0xbf, 0xc0))
  const S8: State := State(Col(0xfd, 0xe3, 0xba, 0xd2), Col(0x05, 0xe5, 0xd0, 0xd7),
                        Col(0x35, 0x47, 0x96, 0x4e), Col(0xf1, 0xfe, 0x37, 0xf1))
  const X8: State := State(Col(0x54, 0x11, 0xf4, 0xb5), Col(0x6b, 0xd9, 0x70, 0x0e),
                        Col(0x96, 0xa0, 0x90, 0x2f), Col(0xa1, 0xbb, 0x9a, 0xa1))
  const S9: State := State(Col(0xbd, 0x6e, 0x7c, 0x3d), Col(0xf2, 0xb5, 0x77, 0x9e),
                        Col(0x0b, 0x61, 0x21, 0x6e), Col(0x8b, 0x10, 0xb6, 0x89))
  const X9: State := State(Col(0x7a, 0x9f, 0x10, 0x27), Col(0x89, 0xd5, 0xf5, 0x0b),
                        Col(0x2b, 0xef, 0xfd, 0x9f), Col(0x3d, 0xca, 0x4e, 0xa7))

  // What SubWord makes of the rotated last word of each round key.
  const T0: Col := Col(0xd7, 0xab, 0x76, 0xfe)
  const T1: Col := Col(0x62, 0x38, 0xbb, 0xf6)
  const T2: Col := Col(0x04, 0x6d, 0xbb, 0x45)
  const T3: Col := Col(0xf9, 0x08, 0x83, 0xf2)
  const T4: Col := Col(0x6b, 0x5d, 0x54, 0x54)
  const T5: Col := Col(0x42, 0x93, 0xac, 0x95)
  const T6: Col := Col(0x0a, 0xc0, 0x7f, 0x67)
  const T7: Col := Col(0xd3, 0xba, 0xf7, 0x2f)
  const T8: Col := Col(0x08, 0xda, 0xb5, 0xe4)
  const T9: Col := Col(0x71, 0x88, 0x2f, 0xae)

  function KeyOf(r: nat): State
    requires r <= 10
  {
    match r
    case 0 => K0
    case 1 => K1
    case 2 => K2
    case 3 => K3
    case 4 => K4
    case 5 => K5
    case 6 => K6
    case 7 => K7
    case 8 => K8
    case 9 => K9
    case _ => K10
  }

  function StateOf(r: nat): State
    requires r <= 9
  {
    match r
    case 0 => S0
    case 1 => S1
    case 2 => S2
    case 3 => S3
    case 4 => S4
    case 5 => S5
    case 6 => S6
    case 7 => S7
    case 8 => S8
    case _ => S9
  }

  // ------------------------------------------------------------ the key schedule

  /** Four key words from the four before them, for a 128-bit key. */
  function NextKey(k: State, r: nat): State {
    var a := AddCol(k.c0, AddCol(SubCol(RotCol(k.c3)), Col(RconByte(r), 0, 0, 0)));
    var b := AddCol(k.c1, a);
    var c := AddCol(k.c2, b);
    State(a, b, c, AddCol(k.c3, c))
  }

  lemma Sub1()
    ensures SubCol(RotCol(K0.c3)) == T0
  {
  }

  lemma Key1()
    ensures NextKey(K0, 1) == K1
  {
    hide S, RconByte;
    Sub1();
    RconIs(1, 0x01);
  }

  lemma Sub2()
    ensures SubCol(RotCol(K1.c3)) == T1
  {
  }

  lemma Key2()
    ensures NextKey(K1, 2) == K2
  {
    hide S, RconByte;
    Sub2();
    RconIs(2, 0x02);
  }

  lemma Sub3()
    ensures SubCol(RotCol(K2.c3)) == T2
  {
  }

  lemma Key3()
    ensures NextKey(K2, 3) == K3
  {
    hide S, RconByte;
    Sub3();
    RconIs(3, 0x04);
  }

  lemma Sub4()
    ensures SubCol(RotCol(K3.c3)) == T3
  {
  }

  lemma Key4()
    ensures NextKey(K3, 4) == K4
  {
    hide S, RconByte;
    Sub4();
    RconIs(4, 0x08);
  }

  lemma Sub5()
    ensures SubCol(RotCol(K4.c3)) == T4
  {
  }

  lemma Key5()
    ensures NextKey(K4, 5) == K5
  {
    hide S, RconByte;
    Sub5();
    RconIs(5, 0x10);
  }

  lemma Sub6()
    ensures SubCol(RotCol(K5.c3)) == T5
  {
  }

  lemma Key6()
    ensures NextKey(K5, 6) == K6
  {
    hide S, RconByte;
    Sub6();
    RconIs(6, 0x20);
  }

  lemma Sub7()
    ensures SubCol(RotCol(K6.c3)) == T6
  {
  }

  lemma Key7()
    ensures NextKey(K6, 7) == K7
  {
    hide S, RconByte;
    Sub7();
    RconIs(7, 0x40);
  }

  lemma Sub8()
    ensures SubCol(RotCol(K7.c3)) == T7
  {
  }

  lemma Key8()
    ensures NextKey(K7, 8) == K8
  {
    hide S, RconByte;
    Sub8();
    RconIs(8, 0x80);
  }

  lemma Sub9()
    ensures SubCol(RotCol(K8.c3)) == T8
  {
  }

  lemma Key9()
    ensures NextKey(K8, 9) == K9
  {
    hide S, RconByte;
    Sub9();
    RconIs(9, 0x1b);
  }

  lemma Sub10()
    ensures SubCol(RotCol(K9.c3)) == T9
  {
  }

  lemma Key10()
    ensures NextKey(K9, 10) == K10
  {
    hide S, RconByte;
    Sub10();
    RconIs(10, 0x36);
  }

  lemma RconIs(r: nat, x: bv8)
    requires 0 < r <= 10 && ColOf(RCON[r - 1]) == Col(x, 0, 0, 0)
    ensures RconByte(r) == x
  {
    RconTable(r - 1);
  }

  lemma KeyStep(r: nat)
    requires 0 < r <= 10
    ensures NextKey(KeyOf(r - 1), r) == KeyOf(r)
  {
    hide NextKey;
    match r {
      case 1 => Key1();
      case 2 => Key2();
      case 3 => Key3();
      case 4 => Key4();
      case 5 => Key5();
      case 6 => Key6();
      case 7 => Key7();
      case 8 => Key8();
      case 9 => Key9();
      case _ => Key10();
    }
  }

  /** Words 4r to 4r + 3. */
  function Words(key: seq<Col>, r: nat): State
    requires |key| > 0
  {
    State(KeyWord(key, 4 * r), KeyWord(key, 4 * r + 1), KeyWord(key, 4 * r + 2), KeyWord(key, 4 * r + 3))
  }

  lemma NextWords(key: seq<Col>, r: nat)
    requires |key| == 4 && r > 0
    ensures Words(key, r) == NextKey(Words(key, r - 1), r)
  {
    hide S, Add, RconByte;
    DivUnique(4 * r, 4, r, 0);
    DivUnique(4 * r + 1, 4, r, 1);
    DivUnique(4 * r + 2, 4, r, 2);
    DivUnique(4 * r + 3, 4, r, 3);
  }

  lemma FirstWords()
    ensures Words(KEY, 0) == K0
  {
  }

  /** The key expansion of that key. */
  lemma {:induction false} ExpandsTo(r: nat)
    requires r <= 10
    ensures Words(KEY, r) == KeyOf(r)
  {
    hide Words, NextKey;
    if r == 0 {
      FirstWords();
    } else {
      ExpandsTo(r - 1);
      NextWords(KEY, r);
      KeyStep(r);
    }
  }

  // ------------------------------------------------------------------ the rounds

  lemma SubBytes0()
    ensures SubBytes(S0) == X0
  {
  }

  lemma SubBytes1()
    ensures SubBytes(S1) == X1
  {
  }

  lemma SubBytes2()
    ensures SubBytes(S2) == X2
  {
  }

  lemma SubBytes3()
    ensures SubBytes(S3) == X3
  {
  }

  lemma SubBytes4()
    ensures SubBytes(S4) == X4
  {
  }

  lemma SubBytes5()
    ensures SubBytes(S5) == X5
  {
  }

  lemma SubBytes6()
    ensures SubBytes(S6) == X6
  {
  }

  lemma SubBytes7()
    ensures SubBytes(S7) == X7
  {
  }

  lemma SubBytes8()
    ensures SubBytes(S8) == X8
  {
  }

  lemma SubBytes9()
    ensures SubBytes(S9) == X9
  {
  }

  lemma Mixed1()
    ensures AddState(MixColumns(ShiftRows(X0)), K1) == S1
  {
  }

  lemma Mixed2()
    ensures AddState(MixColumns(ShiftRows(X1)), K2) == S2
  {
  }

  lemma Mixed3()
    ensures AddState(MixColumns(ShiftRows(X2)), K3) == S3
  {
  }

  lemma Mixed4()
    ensures AddState(MixColumns(ShiftRows(X3)), K4) == S4
  {
  }

  lemma Mixed5()
    ensures AddState(MixColumns(ShiftRows(X4)), K5) == S5
  {
  }

  lemma Mixed6()
    ensures AddState(MixColumns(ShiftRows(X5)), K6) == S6
  {
  }

  lemma Mixed7()
    ensures AddState(MixColumns(ShiftRows(X6)), K7) == S7
  {
  }

  lemma Mixed8()
    ensures AddState(MixColumns(ShiftRows(X7)), K8) == S8
  {
  }

  lemma Mixed9()
    ensures AddState(MixColumns(ShiftRows(X8)), K9) == S9
  {
  }

  lemma FirstAndLast()
    ensures AddState(PLAIN, K0) == S0
    ensures AddState(ShiftRows(X9), K10) == CIPHERED
  {
  }

  lemma RoundStep(r: nat)
    requires 0 < r <= 9
    ensures AddState(MixColumns(ShiftRows(SubBytes(StateOf(r - 1)))), KeyOf(r)) == StateOf(r)
  {
    hide AddState, MixColumns, ShiftRows, SubBytes;
    match r {
      case 1 =>
        SubBytes0();
        Mixed1();
      case 2 =>
        SubBytes1();
        Mixed2();
      case 3 =>
        SubBytes2();
        Mixed3();
      case 4 =>
        SubBytes3();
        Mixed4();
      case 5 =>
        SubBytes4();
        Mixed5();
      case 6 =>
        SubBytes5();
        Mixed6();
      case 7 =>
        SubBytes6();
        Mixed7();
      case 8 =>
        SubBytes7();
        Mixed8();
      case _ =>
        SubBytes8();
        Mixed9();
    }
  }

  lemma {:induction false} RoundsReach(w: Schedule, r: nat)
    requires r <= 9 && |w| == 11 && forall i :: 0 <= i <= 10 ==> w[i] == KeyOf(i)
    ensures Rounds(w, r, PLAIN) == StateOf(r)
  {
    hide AddState, MixColumns, ShiftRows, SubBytes, StateOf, KeyOf;
    if r == 0 {
      FirstKeyed();
    } else {
      RoundsReach(w, r - 1);
      RoundStep(r);
    }
  }

  lemma FirstKeyed()
    ensures AddState(PLAIN, KeyOf(0)) == StateOf(0)
  {
    hide AddState;
    FirstAndLast();
  }

  lemma LastKeyed()
    ensures AddState(ShiftRows(SubBytes(StateOf(9))), KeyOf(10)) == CIPHERED
  {
    hide AddState, ShiftRows, SubBytes;
    SubBytes9();
    FirstAndLast();
  }

  /** The example of AES-128 in appendix C.1. */
  lemma CipherExample()
    ensures Cipher(ExpandedKey(KEY, 10), PLAIN) == CIPHERED
  {
    hide KeyWord, AddState, MixColumns, ShiftRows, SubBytes, StateOf, KeyOf, Rounds;
    var w := ExpandedKey(KEY, 10);
    forall i: nat | i <= 10 ensures w[i] == KeyOf(i) {
      ExpandsTo(i);
    }
    RoundsReach(w, 9);
    LastKeyed();
  }

  // ------------------------------------------------------------- longer keys

  const KEY192: seq<Col> := [
    Col(0x8e, 0x73, 0xb0, 0xf7), Col(0xda, 0x0e, 0x64, 0x52), Col(0xc8, 0x10, 0xf3, 0x2b),
    Col(0x80, 0x90, 0x79, 0xe5), Col(0x62, 0xf8, 0xea, 0xd2), Col(0x52, 0x2c, 0x6b, 0x7b)]

  const KEY256: seq<Col> := [
    Col(0x60, 0x3d, 0xeb, 0x10), Col(0x15, 0xca, 0x71, 0xbe), Col(0x2b, 0x73, 0xae, 0xf0), Col(0x85, 0x7d, 0x77, 0x81),
    Col(0x1f, 0x35, 0x2c, 0x07), Col(0x3b, 0x61, 0x08, 0xd7), Col(0x2d, 0x98, 0x10, 0xa3), Col(0x09, 0x14, 0xdf, 0xf4)]

  lemma SubLonger()
    ensures SubCol(RotCol(KEY192[5])) == Col(0x71, 0x7f, 0x21, 0x00)
    ensures SubCol(RotCol(KEY256[7])) == Col(0xfa, 0x9e, 0xbf, 0x01)
    ensures SubCol(Col(0x20, 0x67, 0xfc, 0xde)) == Col(0xb7, 0x85, 0xb0, 0x1d)
  {
  }

  /** The first computed word of appendices A.2 and A.3, and the first that a 256-bit
      key substitutes without rotating. */
  lemma LongerKeys()
    ensures KeyWord(KEY192, 6) == Col(0xfe, 0x0c, 0x91, 0xf7)
    ensures KeyWord(KEY256, 8) == Col(0x9b, 0xa3, 0x54, 0x11)
    ensures KeyWord(KEY256, 12) == Col(0xa8, 0xb0, 0x9c, 0x1a)
  {
    hide S, RconByte;
    SubLonger();
    RconIs(1, 0x01);
    assert KeyWord(KEY256, 8) == Col(0x9b, 0xa3, 0x54, 0x11);
    assert KeyWord(KEY256, 9) == Col(0x8e, 0x69, 0x25, 0xaf);
    assert KeyWord(KEY256, 10) == Col(0xa5, 0x1a, 0x8b, 0x5f);
    assert KeyWord(KEY256, 11) == Col(0x20, 0x67, 0xfc, 0xde);
  }

  // ------------------------------------------------------------------ the code

  const KEY_BYTES: seq<bv8> := [
    0x00, 0x01, 0x02, 0x03, 0x04, 0x05, 0x06, 0x07, 0x08, 0x09, 0x0a, 0x0b, 0x0c, 0x0d, 0x0e, 0x0f]

  const PLAIN_BYTES: Block := [
    0x00, 0x11, 0x22, 0x33, 0x44, 0x55, 0x66, 0x77, 0x88, 0x99, 0xaa, 0xbb, 0xcc, 0xdd, 0xee, 0xff]

  const CIPHERED_BYTES: Block := [
    0x69, 0xc4, 0xe0, 0xd8, 0x6a, 0x7b, 0x04, 0x30, 0xd8, 0xcd, 0xb7, 0x80, 0x70, 0xb4, 0xc5, 0x5a]

  lemma ExampleBytes()
    ensures UserCols(KEY_BYTES, 4) == KEY
    ensures BlockState(PLAIN_BYTES) == PLAIN && StateBytes(CIPHERED) == CIPHERED_BYTES
  {
  }

  lemma BlockExample()
    ensures EncBlock(ExpandedKey(UserCols(KEY_BYTES, 4), 10), PLAIN_BYTES) == CIPHERED_BYTES
  {
    hide ExpandedKey, UserCols, BlockState, StateBytes, Cipher;
    ExampleBytes();
    CipherExample();
  }

  lemma BlockExampleBack()
    ensures DecBlock(Decryption(ExpandedKey(UserCols(KEY_BYTES, 4), 10)), CIPHERED_BYTES) == PLAIN_BYTES
  {
    hide Decryption, EncBlock, DecBlock, ExpandedKey, UserCols;
    BlockExample();
    DecBlockUndoes(ExpandedKey(UserCols(KEY_BYTES, 4), 10), PLAIN_BYTES);
  }

  method Bytes(s: seq<bv8>) returns (a: array<bv8>)
    ensures fresh(a) && a[..] == s
  {
    a := new bv8[|s|](i requires 0 <= i < |s| => s[i]);
  }

  /** AES_set_encrypt_key and AES_encrypt on the example, byte for byte. */
  method EncryptExample() returns (status: int, out: array<bv8>)
    ensures status == 0 && out[..] == CIPHERED_BYTES
  {
    hide EncBlock, ExpandedKey, UserCols;
    var user := Bytes(KEY_BYTES);
    out := Bytes(PLAIN_BYTES);
    var key := new AesKey();
    status := key.SetEncryptKey(user, 128);
    assert out[0..16] == PLAIN_BYTES;
    BlockExample();
    Encrypt(out, 0, out, 0, key);
  }

  /** AES_set_decrypt_key and AES_decrypt the other way. */
  method DecryptExample() returns (status: int, out: array<bv8>)
    ensures status == 0 && out[..] == PLAIN_BYTES
  {
    hide DecBlock, Decryption, ExpandedKey, UserCols;
    var user := Bytes(KEY_BYTES);
    out := Bytes(CIPHERED_BYTES);
    var key := new AesKey();
    status := key.SetDecryptKey(user, 128);
    assert out[0..16] == CIPHERED_BYTES;
    BlockExampleBack();
    Decrypt(out, 0, out, 0, key);
  }
}
