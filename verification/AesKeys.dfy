// Key expansion (section 5.2 of FIPS 197) and AES_set_encrypt_key /
// AES_set_decrypt_key of Main/linux/aes.c, which fill and reverse it in place.

module AesKeys {
  import opened AesSbox
  import opened AesField
  import opened AesSpec
  import opened AesWords

  // ---------------------------------------------------------- specification

  function RotCol(x: Col): Col { Col(x.b, x.c, x.d, x.a) }

  /** x^(i-1) in the field, the first byte of Rcon[i]. */
  function RconByte(i: int): bv8
    decreases i
  {
    if i <= 1 then 1 else Mul02(RconByte(i - 1))
  }

  /** What is added to w[i - Nk] to give w[i]. */
  function KeyTemp(nk: nat, i: nat, prev: Col): Col
    requires nk > 0
  {
    if i % nk == 0 then AddCol(SubCol(RotCol(prev)), Col(RconByte(i / nk), 0, 0, 0))
    else if nk > 6 && i % nk == 4 then SubCol(prev)
    else prev
  }

  /** Word i of the expanded key. */
  function KeyWord(key: seq<Col>, i: nat): Col
    requires |key| > 0
    decreases i
  {
    if i < |key| then key[i]
    else AddCol(KeyWord(key, i - |key|), KeyTemp(|key|, i, KeyWord(key, i - 1)))
  }

  /** The nr + 1 round keys of an encryption. */
  function ExpandedKey(key: seq<Col>, nr: nat): (w: Schedule)
    requires |key| > 0
    ensures |w| == nr + 1
  {
    seq(nr + 1, (r: nat) => State(KeyWord(key, 4 * r), KeyWord(key, 4 * r + 1),
                           KeyWord(key, 4 * r + 2), KeyWord(key, 4 * r + 3)))
  }

  // ------------------------------------------------------------ in the code

  function GetU32(a: bv8, b: bv8, c: bv8, d: bv8): bv32 { Pack(a, b, c, d) }

  function UserWord(userKey: seq<bv8>, i: nat): bv32
    requires 4 * i + 3 < |userKey|
  {
    GetU32(userKey[4 * i], userKey[4 * i + 1], userKey[4 * i + 2], userKey[4 * i + 3])
  }

  function UserCols(userKey: seq<bv8>, nk: nat): (key: seq<Col>)
    requires 4 * nk <= |userKey|
    ensures |key| == nk
  {
    seq(nk, i requires 0 <= i < nk => Col(userKey[4 * i], userKey[4 * i + 1], userKey[4 * i + 2], userKey[4 * i + 3]))
  }

  const RCON: seq<bv32> := [
    0x01000000, 0x02000000, 0x04000000, 0x08000000, 0x10000000,
    0x20000000, 0x40000000, 0x80000000, 0x1B000000, 0x36000000
  ]

  lemma RconTable(i: nat)
    requires i < 10
    ensures ColOf(RCON[i]) == Col(RconByte(i + 1), 0, 0, 0)
  {
    assert RconByte(2) == 0x02 && RconByte(3) == 0x04 && RconByte(4) == 0x08;
    assert RconByte(5) == 0x10 && RconByte(6) == 0x20 && RconByte(7) == 0x40;
    assert RconByte(8) == 0x80 && RconByte(9) == 0x1b && RconByte(10) == 0x36;
  }

  /** The expression that starts each group of key words. */
  function RotSub(temp: bv32): bv32 {
    Select(Te4(B2(temp)), Te4(B1(temp)), Te4(B0(temp)), Te4(B3(temp)))
  }

  /** The expression in the middle of each group of a 256-bit key. */
  function SubOnly(temp: bv32): bv32 {
    Select(Te4(B3(temp)), Te4(B2(temp)), Te4(B1(temp)), Te4(B0(temp)))
  }

  lemma SelectTe4(p: bv8, q: bv8, r: bv8, t: bv8)
    ensures ColOf(Select(Te4(p), Te4(q), Te4(r), Te4(t))) == Col(S(p), S(q), S(r), S(t))
  {
    hide Select, Pack, S, B0, B1, B2, B3;
    SelectBytes(Te4(p), Te4(q), Te4(r), Te4(t));
    ColOfPack(S(p), S(p), S(p), S(p));
    ColOfPack(S(q), S(q), S(q), S(q));
    ColOfPack(S(r), S(r), S(r), S(r));
    ColOfPack(S(t), S(t), S(t), S(t));
  }

  lemma GroupWord(w: bv32, temp: bv32, i: nat)
    requires i < 10
    ensures ColOf(Xor(Xor(w, RotSub(temp)), RCON[i]))
         == AddCol(ColOf(w), AddCol(SubCol(RotCol(ColOf(temp))), Col(RconByte(i + 1), 0, 0, 0)))
  {
    hide Select, S, Xor, Add, Te4, B0, B1, B2, B3, RconByte;
    RconTable(i);
    ColOfXor(w, RotSub(temp));
    ColOfXor(Xor(w, RotSub(temp)), RCON[i]);
    SelectTe4(B2(temp), B1(temp), B0(temp), B3(temp));
    var x, y, z := ColOf(w), SubCol(RotCol(ColOf(temp))), ColOf(RCON[i]);
    AddAssociative(x.a, y.a, z.a);
    AddAssociative(x.b, y.b, z.b);
    AddAssociative(x.c, y.c, z.c);
    AddAssociative(x.d, y.d, z.d);
  }

  lemma MiddleWord(w: bv32, temp: bv32)
    ensures ColOf(Xor(w, SubOnly(temp))) == AddCol(ColOf(w), SubCol(ColOf(temp)))
  {
    hide Select, S, Xor, Add, Te4, B0, B1, B2, B3;
    ColOfXor(w, SubOnly(temp));
    SelectTe4(B3(temp), B2(temp), B1(temp), B0(temp));
  }

  lemma UserWordCol(userKey: seq<bv8>, nk: nat, i: nat)
    requires 4 * nk <= |userKey| && i < nk
    ensures ColOf(UserWord(userKey, i)) == UserCols(userKey, nk)[i]
  {
    hide ColOf, Pack;
    ColOfPack(userKey[4 * i], userKey[4 * i + 1], userKey[4 * i + 2], userKey[4 * i + 3]);
  }

  /** The first n words of an array are the first n words of the expanded key. */
  ghost predicate Filled(rk: seq<bv32>, key: seq<Col>, n: nat)
    requires |key| > 0
  {
    n <= |rk| && forall j :: 0 <= j < n ==> ColOf(rk[j]) == KeyWord(key, j)
  }

  // --------------------------------------------------------------- the class

  /** AES_KEY: room for 60 words, of which 4 * (rounds + 1) are in use. */
  class AesKey {
    var rdKey: array<bv32>
    var rounds: nat

    constructor ()
      ensures fresh(rdKey) && rdKey.Length == 60 && rounds == 0
    {
      rdKey := new bv32[60];
      rounds := 0;
    }

    predicate Valid()
      reads this
    {
      rdKey.Length == 60 && rounds in {10, 12, 14}
    }

    /** The round keys in use, as four words each. */
    function Quads(): (q: seq<Quad>)
      reads this, rdKey
      requires Valid()
      ensures |q| == rounds + 1
    {
      QuadsOf(rdKey[..], rounds)
    }

    /** The schedule the words in use stand for. */
    function Keys(): (w: Schedule)
      reads this, rdKey
      requires Valid()
      ensures |w| == rounds + 1
    {
      ScheduleOf(Quads())
    }

    /** rk[n] = rk[n - nk] ^ rk[n - 1], for a word that starts no group. */
    method PlainWord(n: nat, nk: nat, ghost key: seq<Col>)
      requires |key| == nk && nk in {4, 6, 8} && nk <= n < rdKey.Length
      requires n % nk != 0 && (nk == 8 ==> n % nk != 4)
      requires Filled(rdKey[..], key, n)
      modifies rdKey
      ensures Filled(rdKey[..], key, n + 1)
    {
      hide ColOf, AddCol, Xor, RconByte;
      ColOfXor(rdKey[n - nk], rdKey[n - 1]);
      rdKey[n] := Xor(rdKey[n - nk], rdKey[n - 1]);
    }

    /** The first word of group i + 1, with RotWord, SubWord and Rcon. */
    method FirstWord(n: nat, nk: nat, i: nat, ghost key: seq<Col>)
      requires |key| == nk && nk in {4, 6, 8} && i < 10 && n == nk * (i + 1) < rdKey.Length
      requires Filled(rdKey[..], key, n)
      modifies rdKey
      ensures Filled(rdKey[..], key, n + 1)
    {
      hide ColOf, AddCol, Xor, RotSub, SubCol, RotCol, RconByte;
      var temp := rdKey[n - 1];
      GroupWord(rdKey[n - nk], temp, i);
      rdKey[n] := Xor(Xor(rdKey[n - nk], RotSub(temp)), RCON[i]);
    }

    /** The fifth word of a group of a 256-bit key, with SubWord alone. */
    method FifthWord(n: nat, ghost key: seq<Col>)
      requires |key| == 8 <= n < rdKey.Length && n % 8 == 4
      requires Filled(rdKey[..], key, n)
      modifies rdKey
      ensures Filled(rdKey[..], key, n + 1)
    {
      hide ColOf, AddCol, Xor, SubOnly, SubCol, RconByte;
      var temp := rdKey[n - 1];
      MiddleWord(rdKey[n - 8], temp);
      rdKey[n] := Xor(rdKey[n - 8], SubOnly(temp));
    }

    /** The user key becomes the first words. */
    method LoadUserKey(userKey: array<bv8>, nk: nat)
      requires 0 < nk <= 8 && 4 * nk <= userKey.Length && rdKey.Length == 60
      modifies rdKey
      ensures Filled(rdKey[..], UserCols(userKey[..], nk), nk)
    {
      hide ColOf, GetU32;
      ghost var key := UserCols(userKey[..], nk);
      var i := 0;
      while i < nk
        invariant 0 <= i <= nk && Filled(rdKey[..], key, i)
      {
        UserWordCol(userKey[..], nk, i);
        rdKey[i] := GetU32(userKey[4 * i], userKey[4 * i + 1], userKey[4 * i + 2], userKey[4 * i + 3]);
        i := i + 1;
      }
    }

    method Expand128(ghost key: seq<Col>)
      requires |key| == 4 && rdKey.Length == 60 && Filled(rdKey[..], key, 4)
      modifies rdKey
      ensures Filled(rdKey[..], key, 44)
    {
      hide Filled;
      var i := 0;
      while true
        invariant 0 <= i < 10 && Filled(rdKey[..], key, 4 * i + 4)
        decreases 10 - i
      {
        var rk := 4 * i;
        FirstWord(rk + 4, 4, i, key);
        PlainWord(rk + 5, 4, key);
        PlainWord(rk + 6, 4, key);
        PlainWord(rk + 7, 4, key);
        i := i + 1;
        if i == 10 {
          return;
        }
      }
    }

    method Expand192(ghost key: seq<Col>)
      requires |key| == 6 && rdKey.Length == 60 && Filled(rdKey[..], key, 6)
      modifies rdKey
      ensures Filled(rdKey[..], key, 52)
    {
      hide Filled;
      var i := 0;
      while true
        invariant 0 <= i < 8 && Filled(rdKey[..], key, 6 * i + 6)
        decreases 8 - i
      {
        var rk := 6 * i;
        FirstWord(rk + 6, 6, i, key);
        PlainWord(rk + 7, 6, key);
        PlainWord(rk + 8, 6, key);
        PlainWord(rk + 9, 6, key);
        i := i + 1;
        if i == 8 {
          return;
        }
        PlainWord(rk + 10, 6, key);
        PlainWord(rk + 11, 6, key);
      }
    }

    method Expand256(ghost key: seq<Col>)
      requires |key| == 8 && rdKey.Length == 60 && Filled(rdKey[..], key, 8)
      modifies rdKey
      ensures Filled(rdKey[..], key, 60)
    {
      hide Filled;
      var i := 0;
      while true
        invariant 0 <= i < 7 && Filled(rdKey[..], key, 8 * i + 8)
        decreases 7 - i
      {
        var rk := 8 * i;
        FirstWord(rk + 8, 8, i, key);
        PlainWord(rk + 9, 8, key);
        PlainWord(rk + 10, 8, key);
        PlainWord(rk + 11, 8, key);
        i := i + 1;
        if i == 7 {
          return;
        }
        FifthWord(rk + 12, key);
        PlainWord(rk + 13, 8, key);
        PlainWord(rk + 14, 8, key);
        PlainWord(rk + 15, 8, key);
      }
    }

    /** AES_set_encrypt_key: 0 and the expanded key of section 5.2, or the error
        code for a null pointer (-1) or an unsupported length (-2). */
    method SetEncryptKey(userKey: array?<bv8>, bits: int) returns (status: int)
      requires rdKey.Length == 60
      requires userKey != null && bits in {128, 192, 256} ==> bits / 8 <= userKey.Length
      modifies this`rounds, rdKey
      ensures status == if userKey == null then -1 else if bits !in {128, 192, 256} then -2 else 0
      ensures status == 0 ==>
        Valid() && rounds == bits / 32 + 6 && Keys() == ExpandedKey(UserCols(userKey[..], bits / 32), rounds)
      ensures status != 0 ==> rounds == old(rounds) && rdKey[..] == old(rdKey[..])
    {
      if userKey == null {
        return -1;
      }
      if bits != 128 && bits != 192 && bits != 256 {
        return -2;
      }
      hide Filled;
      ghost var key := UserCols(userKey[..], bits / 32);
      LoadUserKey(userKey, bits / 32);
      if bits == 128 {
        rounds := 10;
        Expand128(key);
      } else if bits == 192 {
        rounds := 12;
        Expand192(key);
      } else {
        rounds := 14;
        Expand256(key);
      }
      FilledIsExpanded(rdKey[..], key, rounds);
      return 0;
    }

    /** Trades four words at i with four words at j. */
    method SwapWords(i: nat, j: nat)
      requires i + 4 <= j && j + 4 <= rdKey.Length
      modifies rdKey
      ensures forall n: nat :: i <= n < i + 4 ==> rdKey[n] == old(rdKey[..])[n + (j - i)]
      ensures forall n: nat :: j <= n < j + 4 ==> rdKey[n] == old(rdKey[..])[n - (j - i)]
      ensures forall n: nat :: n < i || i + 4 <= n < j || j + 4 <= n < rdKey.Length ==>
        rdKey[n] == old(rdKey[..])[n]
    {
      for k := 0 to 4
        invariant forall n: nat :: i <= n < i + k ==> rdKey[n] == old(rdKey[..])[n + (j - i)]
        invariant forall n: nat :: j <= n < j + k ==> rdKey[n] == old(rdKey[..])[n - (j - i)]
        invariant forall n: nat :: n < i || i + k <= n < j || j + k <= n < rdKey.Length ==>
          rdKey[n] == old(rdKey[..])[n]
      {
        rdKey[i + k], rdKey[j + k] := rdKey[j + k], rdKey[i + k];
      }
    }

    /** Trades round keys a and b. */
    method SwapRoundKeys(a: nat, b: nat)
      requires Valid() && a < b <= rounds
      modifies rdKey
      ensures Quads() == old(Quads())[a := old(Quads())[b]][b := old(Quads())[a]]
    {
      SwapWords(4 * a, 4 * b);
    }

    /** "invert the order of the round keys". */
    method ReverseRoundKeys()
      requires Valid()
      modifies rdKey
      ensures Quads() == Reversed(old(Quads()), |old(Quads())|)
    {
      hide Quads;
      ghost var before := Quads();
      var i, j := 0, rounds;
      assert Reversed(before, 0) == before;
      while i < j
        invariant 0 <= i <= rounds && j == rounds - i && i <= j + 1
        invariant Quads() == Reversed(before, i)
      {
        ReversedStep(before, i);
        SwapRoundKeys(i, j);
        i, j := i + 1, j - 1;
      }
      assert Reversed(before, i) == Reversed(before, |before|);
    }

    method TransformWords(rk: nat)
      requires rk + 4 <= rdKey.Length
      modifies rdKey
      ensures forall n: nat :: n < rdKey.Length ==>
        rdKey[n] == if rk <= n < rk + 4 then InvMixWord(old(rdKey[..])[n]) else old(rdKey[..])[n]
    {
      hide InvMixWord;
      for k := 0 to 4
        invariant forall n: nat :: n < rdKey.Length ==>
          rdKey[n] == if rk <= n < rk + k then InvMixWord(old(rdKey[..])[n]) else old(rdKey[..])[n]
      {
        rdKey[rk + k] := InvMixWord(rdKey[rk + k]);
      }
    }

    method TransformRoundKey(a: nat)
      requires Valid() && a <= rounds
      modifies rdKey
      ensures Quads() == old(Quads())[a := InvMixQuad(old(Quads())[a])]
    {
      hide InvMixWord;
      TransformWords(4 * a);
    }

    /** "apply the inverse MixColumn transform to all round keys but the first
        and the last". */
    method TransformInner()
      requires Valid()
      modifies rdKey
      ensures Quads() == Transformed(old(Quads()), rounds)
    {
      hide Quads, InvMixQuad;
      ghost var before := Quads();
      var i := 1;
      assert Transformed(before, 1) == before;
      while i < rounds
        invariant 1 <= i <= rounds && Quads() == Transformed(before, i)
      {
        assert Transformed(before, i + 1) == Transformed(before, i)[i := InvMixQuad(before[i])];
        TransformRoundKey(i);
        i := i + 1;
      }
    }

    /** AES_set_decrypt_key: the decryption schedule of section 5.3.5 belonging to
        the schedule AES_set_encrypt_key computes, or its error code. */
    method SetDecryptKey(userKey: array?<bv8>, bits: int) returns (status: int)
      requires rdKey.Length == 60
      requires userKey != null && bits in {128, 192, 256} ==> bits / 8 <= userKey.Length
      modifies this`rounds, rdKey
      ensures status == if userKey == null then -1 else if bits !in {128, 192, 256} then -2 else 0
      ensures status == 0 ==>
        Valid() && rounds == bits / 32 + 6
        && Keys() == Decryption(ExpandedKey(UserCols(userKey[..], bits / 32), rounds))
      ensures status != 0 ==> rounds == old(rounds) && rdKey[..] == old(rdKey[..])
    {
      status := SetEncryptKey(userKey, bits);
      if status < 0 {
        return;
      }
      hide ExpandedKey, UserCols, Quads, ScheduleOf, Reversed, Transformed, Decryption;
      DecryptionQuads(Quads());
      ReverseRoundKeys();
      TransformInner();
    }
  }

  lemma FilledIsExpanded(rk: seq<bv32>, key: seq<Col>, nr: nat)
    requires |key| > 0 && Filled(rk, key, 4 * nr + 4)
    ensures ScheduleOf(QuadsOf(rk, nr)) == ExpandedKey(key, nr)
  {
    hide ColOf, KeyWord;
    forall r: nat | r <= nr
      ensures ScheduleOf(QuadsOf(rk, nr))[r] == ExpandedKey(key, nr)[r]
    {
      assert 4 * r + 3 < 4 * nr + 4;
    }
  }

  /** The four words of a round key. */
  type Quad = (bv32, bv32, bv32, bv32)

  function QuadsOf(rk: seq<bv32>, nr: nat): (q: seq<Quad>)
    requires 4 * nr + 3 < |rk|
    ensures |q| == nr + 1
  {
    seq(nr + 1, (r: nat) requires r <= nr => (rk[4 * r], rk[4 * r + 1], rk[4 * r + 2], rk[4 * r + 3]))
  }

  function QuadState(q: Quad): State {
    StateOf(q.0, q.1, q.2, q.3)
  }

  function ScheduleOf(qs: seq<Quad>): (w: Schedule)
    ensures |w| == |qs|
  {
    seq(|qs|, (r: nat) requires r < |qs| => QuadState(qs[r]))
  }

  function InvMixQuad(q: Quad): Quad {
    (InvMixWord(q.0), InvMixWord(q.1), InvMixWord(q.2), InvMixWord(q.3))
  }

  lemma InvMixQuadState(q: Quad)
    ensures QuadState(InvMixQuad(q)) == InvMixColumns(QuadState(q))
  {
    hide ColOf, InvMixWord, InvMixCol;
    InvMixWordCol(q.0);
    InvMixWordCol(q.1);
    InvMixWordCol(q.2);
    InvMixWordCol(q.3);
  }

  /** The round keys with the first i and the last i in each other's places. */
  function Reversed(q: seq<Quad>, i: nat): (r: seq<Quad>)
    ensures |r| == |q|
  {
    seq(|q|, (r: nat) requires r < |q| => if i <= r < |q| - i then q[r] else q[|q| - 1 - r])
  }

  lemma ReversedStep(q: seq<Quad>, i: nat)
    requires i < |q| - 1 - i
    ensures Reversed(q, i + 1)
         == Reversed(q, i)[i := Reversed(q, i)[|q| - 1 - i]][|q| - 1 - i := Reversed(q, i)[i]]
  {
  }

  /** The round keys 1 to i - 1 transformed. */
  function Transformed(q: seq<Quad>, i: nat): (r: seq<Quad>)
    ensures |r| == |q|
  {
    seq(|q|, (r: nat) requires r < |q| => if 0 < r < i then InvMixQuad(q[r]) else q[r])
  }

  /** Reversing the round keys and transforming the inner ones is the decryption
      schedule. */
  lemma DecryptionQuads(enc: seq<Quad>)
    requires |enc| >= 2
    ensures ScheduleOf(Transformed(Reversed(enc, |enc|), |enc| - 1)) == Decryption(ScheduleOf(enc))
  {
    hide QuadState, InvMixQuad, InvMixColumns;
    forall r: nat | r < |enc|
      ensures ScheduleOf(Transformed(Reversed(enc, |enc|), |enc| - 1))[r] == Decryption(ScheduleOf(enc))[r]
    {
      InvMixQuadState(enc[|enc| - 1 - r]);
    }
  }
}
