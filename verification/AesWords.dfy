// 32-bit words as columns, and the lookup tables of Main/linux/aes.c given by
// the formulas in its comment. One table round is one round of the cipher.

module AesWords {
  import opened AesSbox
  import opened AesField
  import opened AesSpec

  function Pack(a: bv8, b: bv8, c: bv8, d: bv8): bv32 {
    ((a as bv32) << 24) ^ ((b as bv32) << 16) ^ ((c as bv32) << 8) ^ (d as bv32)
  }

  function B3(w: bv32): bv8 { (w >> 24) as bv8 }

  function B2(w: bv32): bv8 { ((w >> 16) & 0xff) as bv8 }

  function B1(w: bv32): bv8 { ((w >> 8) & 0xff) as bv8 }

  function B0(w: bv32): bv8 { (w & 0xff) as bv8 }

  function ColOf(w: bv32): Col { Col(B3(w), B2(w), B1(w), B0(w)) }

  function Te0(x: bv8): bv32 { Pack(Mul02(S(x)), S(x), S(x), Mul03(S(x))) }

  function Te1(x: bv8): bv32 { Pack(Mul03(S(x)), Mul02(S(x)), S(x), S(x)) }

  function Te2(x: bv8): bv32 { Pack(S(x), Mul03(S(x)), Mul02(S(x)), S(x)) }

  function Te3(x: bv8): bv32 { Pack(S(x), S(x), Mul03(S(x)), Mul02(S(x))) }

  function Te4(x: bv8): bv32 { Pack(S(x), S(x), S(x), S(x)) }

  function Td0(x: bv8): bv32 { Pack(Mul0e(Si(x)), Mul09(Si(x)), Mul0d(Si(x)), Mul0b(Si(x))) }

  function Td1(x: bv8): bv32 { Pack(Mul0b(Si(x)), Mul0e(Si(x)), Mul09(Si(x)), Mul0d(Si(x))) }

  function Td2(x: bv8): bv32 { Pack(Mul0d(Si(x)), Mul0b(Si(x)), Mul0e(Si(x)), Mul09(Si(x))) }

  function Td3(x: bv8): bv32 { Pack(Mul09(Si(x)), Mul0d(Si(x)), Mul0b(Si(x)), Mul0e(Si(x))) }

  function Td4(x: bv8): bv32 { Pack(Si(x), Si(x), Si(x), Si(x)) }

  // ------------------------------------------------------------- word algebra

  function Xor(x: bv32, y: bv32): bv32 { x ^ y }

  /** Four table entries and a key word, added from left to right. */
  function Xor5(p: bv32, q: bv32, r: bv32, t: bv32, k: bv32): bv32 {
    Xor(Xor(Xor(Xor(p, q), r), t), k)
  }

  lemma ColOfPack(a: bv8, b: bv8, c: bv8, d: bv8)
    ensures ColOf(Pack(a, b, c, d)) == Col(a, b, c, d)
  {
  }

  lemma ColOfXor(x: bv32, y: bv32)
    ensures ColOf(Xor(x, y)) == AddCol(ColOf(x), ColOf(y))
  {
  }

  /** Four table entries without a key word. */
  function Xor4(p: bv32, q: bv32, r: bv32, t: bv32): bv32 {
    Xor(Xor(Xor(p, q), r), t)
  }

  lemma ColOfXor4(p: bv32, q: bv32, r: bv32, t: bv32)
    ensures ColOf(Xor4(p, q, r, t)) == AddCol(AddCol(AddCol(ColOf(p), ColOf(q)), ColOf(r)), ColOf(t))
  {
    hide ColOf, AddCol, Xor;
    ColOfXor(p, q);
    ColOfXor(Xor(p, q), r);
    ColOfXor(Xor(Xor(p, q), r), t);
  }

  lemma ColOfXor5(p: bv32, q: bv32, r: bv32, t: bv32, k: bv32)
    ensures ColOf(Xor5(p, q, r, t, k))
         == AddCol(AddCol(AddCol(AddCol(ColOf(p), ColOf(q)), ColOf(r)), ColOf(t)), ColOf(k))
  {
    hide ColOf, AddCol, Xor;
    ColOfXor(p, q);
    ColOfXor(Xor(p, q), r);
    ColOfXor(Xor(Xor(p, q), r), t);
    ColOfXor(Xor(Xor(Xor(p, q), r), t), k);
  }

  lemma FourTerms(p: bv8, q: bv8, r: bv8, t: bv8)
    ensures Add(Add(Add(p, q), r), t) == Sum(p, q, r, t)
  {
    AddAssociative(Add(p, q), r, t);
  }

  /** One column of a table round: SubBytes, MixColumns, AddRoundKey. */
  lemma TableColumn(p: bv8, q: bv8, r: bv8, t: bv8, k: bv32)
    ensures ColOf(Xor5(Te0(p), Te1(q), Te2(r), Te3(t), k))
         == AddCol(MixCol(Col(S(p), S(q), S(r), S(t))), ColOf(k))
  {
    ColOfXor5(Te0(p), Te1(q), Te2(r), Te3(t), k);
    var (a, b, c, d) := (S(p), S(q), S(r), S(t));
    hide ColOf, Pack, Xor5, S, Mul02, Mul03, Add, Sum;
    ColOfPack(Mul02(a), a, a, Mul03(a));
    ColOfPack(Mul03(b), Mul02(b), b, b);
    ColOfPack(c, Mul03(c), Mul02(c), c);
    ColOfPack(d, d, Mul03(d), Mul02(d));
    FourTerms(Mul02(a), Mul03(b), c, d);
    FourTerms(a, Mul02(b), Mul03(c), d);
    FourTerms(a, b, Mul02(c), Mul03(d));
    FourTerms(Mul03(a), b, c, Mul02(d));
  }

  lemma InvTableSum(p: bv8, q: bv8, r: bv8, t: bv8)
    ensures ColOf(Xor4(Td0(p), Td1(q), Td2(r), Td3(t))) == InvMixCol(Col(Si(p), Si(q), Si(r), Si(t)))
  {
    ColOfXor4(Td0(p), Td1(q), Td2(r), Td3(t));
    var (a, b, c, d) := (Si(p), Si(q), Si(r), Si(t));
    hide ColOf, Pack, Xor4, Si, Mul09, Mul0b, Mul0d, Mul0e, Add, Sum;
    ColOfPack(Mul0e(a), Mul09(a), Mul0d(a), Mul0b(a));
    ColOfPack(Mul0b(b), Mul0e(b), Mul09(b), Mul0d(b));
    ColOfPack(Mul0d(c), Mul0b(c), Mul0e(c), Mul09(c));
    ColOfPack(Mul09(d), Mul0d(d), Mul0b(d), Mul0e(d));
    FourTerms(Mul0e(a), Mul0b(b), Mul0d(c), Mul09(d));
    FourTerms(Mul09(a), Mul0e(b), Mul0b(c), Mul0d(d));
    FourTerms(Mul0d(a), Mul09(b), Mul0e(c), Mul0b(d));
    FourTerms(Mul0b(a), Mul0d(b), Mul09(c), Mul0e(d));
  }

  /** One column of a table round of decryption. */
  lemma InvTableColumn(p: bv8, q: bv8, r: bv8, t: bv8, k: bv32)
    ensures ColOf(Xor5(Td0(p), Td1(q), Td2(r), Td3(t), k))
         == AddCol(InvMixCol(Col(Si(p), Si(q), Si(r), Si(t))), ColOf(k))
  {
    hide ColOf, Td0, Td1, Td2, Td3, AddCol, InvMixCol, Si, Xor;
    InvTableSum(p, q, r, t);
    ColOfXor(Xor4(Td0(p), Td1(q), Td2(r), Td3(t)), k);
  }

  /** Picking one byte from each of four words, as the last rounds and the key
      expansion do with Te4 and Td4. */
  function Select(p: bv32, q: bv32, r: bv32, t: bv32): bv32 {
    (p & 0xff000000) ^ (q & 0x00ff0000) ^ (r & 0x0000ff00) ^ (t & 0x000000ff)
  }

  lemma SelectBytes(p: bv32, q: bv32, r: bv32, t: bv32)
    ensures ColOf(Select(p, q, r, t)) == Col(B3(p), B2(q), B1(r), B0(t))
  {
  }

  lemma LastColumn(p: bv8, q: bv8, r: bv8, t: bv8, k: bv32)
    ensures ColOf(Xor(Select(Te4(p), Te4(q), Te4(r), Te4(t)), k))
         == AddCol(Col(S(p), S(q), S(r), S(t)), ColOf(k))
  {
    hide Select, Pack, S, AddCol, Xor, B0, B1, B2, B3;
    ColOfXor(Select(Te4(p), Te4(q), Te4(r), Te4(t)), k);
    SelectBytes(Te4(p), Te4(q), Te4(r), Te4(t));
    ColOfPack(S(p), S(p), S(p), S(p));
    ColOfPack(S(q), S(q), S(q), S(q));
    ColOfPack(S(r), S(r), S(r), S(r));
    ColOfPack(S(t), S(t), S(t), S(t));
  }

  lemma InvLastColumn(p: bv8, q: bv8, r: bv8, t: bv8, k: bv32)
    ensures ColOf(Xor(Select(Td4(p), Td4(q), Td4(r), Td4(t)), k))
         == AddCol(Col(Si(p), Si(q), Si(r), Si(t)), ColOf(k))
  {
    hide Select, Pack, Si, AddCol, Xor, B0, B1, B2, B3;
    ColOfXor(Select(Td4(p), Td4(q), Td4(r), Td4(t)), k);
    SelectBytes(Td4(p), Td4(q), Td4(r), Td4(t));
    ColOfPack(Si(p), Si(p), Si(p), Si(p));
    ColOfPack(Si(q), Si(q), Si(q), Si(q));
    ColOfPack(Si(r), Si(r), Si(r), Si(r));
    ColOfPack(Si(t), Si(t), Si(t), Si(t));
  }

  // ---------------------------------------------------------- whole rounds

  function StateOf(s0: bv32, s1: bv32, s2: bv32, s3: bv32): State {
    State(ColOf(s0), ColOf(s1), ColOf(s2), ColOf(s3))
  }

  function EncColumn(p: bv32, q: bv32, r: bv32, t: bv32, k: bv32): bv32 {
    Xor5(Te0(B3(p)), Te1(B2(q)), Te2(B1(r)), Te3(B0(t)), k)
  }

  function DecColumn(p: bv32, q: bv32, r: bv32, t: bv32, k: bv32): bv32 {
    Xor5(Td0(B3(p)), Td1(B2(q)), Td2(B1(r)), Td3(B0(t)), k)
  }

  function EncLast(p: bv32, q: bv32, r: bv32, t: bv32, k: bv32): bv32 {
    Xor(Select(Te4(B3(p)), Te4(B2(q)), Te4(B1(r)), Te4(B0(t))), k)
  }

  function DecLast(p: bv32, q: bv32, r: bv32, t: bv32, k: bv32): bv32 {
    Xor(Select(Td4(B3(p)), Td4(B2(q)), Td4(B1(r)), Td4(B0(t))), k)
  }

  /** Four table columns are one round of section 5.1 of FIPS 197. */
  lemma TableRound(s0: bv32, s1: bv32, s2: bv32, s3: bv32, k0: bv32, k1: bv32, k2: bv32, k3: bv32)
    ensures StateOf(EncColumn(s0, s1, s2, s3, k0), EncColumn(s1, s2, s3, s0, k1),
                    EncColumn(s2, s3, s0, s1, k2), EncColumn(s3, s0, s1, s2, k3))
         == AddState(MixColumns(ShiftRows(SubBytes(StateOf(s0, s1, s2, s3)))), StateOf(k0, k1, k2, k3))
  {
    hide B0, B1, B2, B3, S, MixCol, AddCol, Xor5, Te0, Te1, Te2, Te3;
    TableColumn(B3(s0), B2(s1), B1(s2), B0(s3), k0);
    TableColumn(B3(s1), B2(s2), B1(s3), B0(s0), k1);
    TableColumn(B3(s2), B2(s3), B1(s0), B0(s1), k2);
    TableColumn(B3(s3), B2(s0), B1(s1), B0(s2), k3);
  }

  lemma InvTableRound(s0: bv32, s1: bv32, s2: bv32, s3: bv32, k0: bv32, k1: bv32, k2: bv32, k3: bv32)
    ensures StateOf(DecColumn(s0, s3, s2, s1, k0), DecColumn(s1, s0, s3, s2, k1),
                    DecColumn(s2, s1, s0, s3, k2), DecColumn(s3, s2, s1, s0, k3))
         == AddState(InvMixColumns(InvShiftRows(InvSubBytes(StateOf(s0, s1, s2, s3)))),
                     StateOf(k0, k1, k2, k3))
  {
    hide B0, B1, B2, B3, Si, InvMixCol, AddCol, Xor5, Td0, Td1, Td2, Td3;
    InvTableColumn(B3(s0), B2(s3), B1(s2), B0(s1), k0);
    InvTableColumn(B3(s1), B2(s0), B1(s3), B0(s2), k1);
    InvTableColumn(B3(s2), B2(s1), B1(s0), B0(s3), k2);
    InvTableColumn(B3(s3), B2(s2), B1(s1), B0(s0), k3);
  }

  /** The last round, which has no MixColumns. */
  lemma LastRound(t0: bv32, t1: bv32, t2: bv32, t3: bv32, k0: bv32, k1: bv32, k2: bv32, k3: bv32)
    ensures StateOf(EncLast(t0, t1, t2, t3, k0), EncLast(t1, t2, t3, t0, k1),
                    EncLast(t2, t3, t0, t1, k2), EncLast(t3, t0, t1, t2, k3))
         == AddState(ShiftRows(SubBytes(StateOf(t0, t1, t2, t3))), StateOf(k0, k1, k2, k3))
  {
    hide B0, B1, B2, B3, S, AddCol, Xor, Te4, Select;
    LastColumn(B3(t0), B2(t1), B1(t2), B0(t3), k0);
    LastColumn(B3(t1), B2(t2), B1(t3), B0(t0), k1);
    LastColumn(B3(t2), B2(t3), B1(t0), B0(t1), k2);
    LastColumn(B3(t3), B2(t0), B1(t1), B0(t2), k3);
  }

  lemma InvLastRound(t0: bv32, t1: bv32, t2: bv32, t3: bv32, k0: bv32, k1: bv32, k2: bv32, k3: bv32)
    ensures StateOf(DecLast(t0, t3, t2, t1, k0), DecLast(t1, t0, t3, t2, k1),
                    DecLast(t2, t1, t0, t3, k2), DecLast(t3, t2, t1, t0, k3))
         == AddState(InvShiftRows(InvSubBytes(StateOf(t0, t1, t2, t3))), StateOf(k0, k1, k2, k3))
  {
    hide B0, B1, B2, B3, Si, AddCol, Xor, Td4, Select;
    InvLastColumn(B3(t0), B2(t3), B1(t2), B0(t1), k0);
    InvLastColumn(B3(t1), B2(t0), B1(t3), B0(t2), k1);
    InvLastColumn(B3(t2), B2(t1), B1(t0), B0(t3), k2);
    InvLastColumn(B3(t3), B2(t2), B1(t1), B0(t0), k3);
  }

  // ------------------------------------------------------ decryption round keys

  /** The word AES_set_decrypt_key puts in place of an inner round-key word. */
  function InvMixWord(w: bv32): bv32 {
    Xor4(Td0(B0(Te4(B3(w)))), Td1(B0(Te4(B2(w)))), Td2(B0(Te4(B1(w)))), Td3(B0(Te4(B0(w)))))
  }

  lemma LowByteTe4(x: bv8)
    ensures B0(Te4(x)) == S(x)
  {
    hide Pack, S, B0, B1, B2, B3;
    ColOfPack(S(x), S(x), S(x), S(x));
  }

  lemma InvMixWordCol(w: bv32)
    ensures ColOf(InvMixWord(w)) == InvMixCol(ColOf(w))
  {
    hide S, Si, Td0, Td1, Td2, Td3, Te4, Xor4, InvMixCol, B0, B1, B2, B3;
    LowByteTe4(B3(w));
    LowByteTe4(B2(w));
    LowByteTe4(B1(w));
    LowByteTe4(B0(w));
    SboxInverse(B3(w));
    SboxInverse(B2(w));
    SboxInverse(B1(w));
    SboxInverse(B0(w));
    InvTableSum(S(B3(w)), S(B2(w)), S(B1(w)), S(B0(w)));
  }
}
