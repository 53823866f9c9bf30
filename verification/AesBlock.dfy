// AES_encrypt and AES_decrypt of Main/linux/aes.c: two table rounds per loop
// turn over a moving key pointer, proved to be the ciphers of FIPS 197.

module AesBlock {
  import opened AesSbox
  import opened AesField
  import opened AesSpec
  import opened AesWords
  import opened AesKeys

  type Block = b: seq<bv8> | |b| == 16 witness seq(16, i => 0)

  function ColAt(b: seq<bv8>, i: nat): Col
    requires 4 * i + 3 < |b|
  {
    Col(b[4 * i], b[4 * i + 1], b[4 * i + 2], b[4 * i + 3])
  }

  function BlockState(b: Block): State {
    State(ColAt(b, 0), ColAt(b, 1), ColAt(b, 2), ColAt(b, 3))
  }

  function ColBytes(x: Col): seq<bv8> { [x.a, x.b, x.c, x.d] }

  function StateBytes(s: State): Block {
    ColBytes(s.c0) + ColBytes(s.c1) + ColBytes(s.c2) + ColBytes(s.c3)
  }

  function EncBlock(w: Schedule, b: Block): Block
    requires |w| >= 2
  {
    StateBytes(Cipher(w, BlockState(b)))
  }

  function DecBlock(d: Schedule, b: Block): Block
    requires |d| >= 2
  {
    StateBytes(EqInvCipher(d, BlockState(b)))
  }

  lemma StateBytesState(s: State)
    ensures BlockState(StateBytes(s)) == s
  {
  }

  lemma BlockStateBytes(b: Block)
    ensures StateBytes(BlockState(b)) == b
  {
  }

  /** For every key schedule, decrypting an encrypted block gives it back. */
  lemma DecBlockUndoes(w: Schedule, b: Block)
    requires |w| >= 2
    ensures DecBlock(Decryption(w), EncBlock(w, b)) == b
  {
    hide Cipher, EqInvCipher, BlockState, StateBytes, Decryption;
    StateBytesState(Cipher(w, BlockState(b)));
    DecryptionUndoesEncryption(w, BlockState(b));
    BlockStateBytes(b);
  }

  // ---------------------------------------------------------------- the code

  /** PUTU32 */
  method PutU32(out: array<bv8>, off: nat, w: bv32)
    requires off + 4 <= out.Length
    modifies out
    ensures out[..] == old(out[..])[..off] + ColBytes(ColOf(w)) + old(out[..])[off + 4..]
  {
    hide B0, B1, B2, B3;
    out[off] := B3(w);
    out[off + 1] := B2(w);
    out[off + 2] := B1(w);
    out[off + 3] := B0(w);
  }

  lemma Splice(o: seq<bv8>, off: nat, b0: seq<bv8>, b1: seq<bv8>, b2: seq<bv8>, b3: seq<bv8>)
    requires off + 16 <= |o| && |b0| == |b1| == |b2| == |b3| == 4
    ensures var o1 := o[..off] + b0 + o[off + 4..];
      var o2 := o1[..off + 4] + b1 + o1[off + 8..];
      var o3 := o2[..off + 8] + b2 + o2[off + 12..];
      o3[..off + 12] + b3 + o3[off + 16..] == o[..off] + (b0 + b1 + b2 + b3) + o[off + 16..]
  {
    var o1 := o[..off] + b0 + o[off + 4..];
    var o2 := o1[..off + 4] + b1 + o1[off + 8..];
    var o3 := o2[..off + 8] + b2 + o2[off + 12..];
    assert o1[..off + 4] == o[..off] + b0 && o1[off + 8..] == o[off + 8..];
    assert o2[..off + 8] == o[..off] + b0 + b1 && o2[off + 12..] == o[off + 12..];
    assert o3[..off + 12] == o[..off] + b0 + b1 + b2 && o3[off + 16..] == o[off + 16..];
  }

  /** Writing a cipher state: sixteen bytes change, the others do not. */
  method PutState(out: array<bv8>, off: nat, s0: bv32, s1: bv32, s2: bv32, s3: bv32)
    requires off + 16 <= out.Length
    modifies out
    ensures out[..] == old(out[..])[..off] + StateBytes(StateOf(s0, s1, s2, s3)) + old(out[..])[off + 16..]
  {
    hide ColOf;
    ghost var o := out[..];
    ghost var b0, b1, b2, b3 := ColBytes(ColOf(s0)), ColBytes(ColOf(s1)), ColBytes(ColOf(s2)), ColBytes(ColOf(s3));
    PutU32(out, off, s0);
    PutU32(out, off + 4, s1);
    PutU32(out, off + 8, s2);
    PutU32(out, off + 12, s3);
    Splice(o, off, b0, b1, b2, b3);
  }

  /** GETU32 of four words and the first AddRoundKey. */
  method GetState(inp: array<bv8>, off: nat, key: AesKey)
    returns (s0: bv32, s1: bv32, s2: bv32, s3: bv32)
    requires off + 16 <= inp.Length && key.Valid()
    ensures StateOf(s0, s1, s2, s3) == AddState(BlockState(inp[off..off + 16]), key.Keys()[0])
  {
    hide ColOf, AddCol, Xor, Pack;
    ghost var b: Block := inp[off..off + 16];
    var w0 := GetU32(inp[off], inp[off + 1], inp[off + 2], inp[off + 3]);
    var w1 := GetU32(inp[off + 4], inp[off + 5], inp[off + 6], inp[off + 7]);
    var w2 := GetU32(inp[off + 8], inp[off + 9], inp[off + 10], inp[off + 11]);
    var w3 := GetU32(inp[off + 12], inp[off + 13], inp[off + 14], inp[off + 15]);
    ColOfPack(b[0], b[1], b[2], b[3]);
    ColOfPack(b[4], b[5], b[6], b[7]);
    ColOfPack(b[8], b[9], b[10], b[11]);
    ColOfPack(b[12], b[13], b[14], b[15]);
    assert StateOf(w0, w1, w2, w3) == BlockState(b);
    s0, s1, s2, s3 := Xor(w0, key.rdKey[0]), Xor(w1, key.rdKey[1]), Xor(w2, key.rdKey[2]), Xor(w3, key.rdKey[3]);
    hide GetU32, BlockState;
    ColOfXor(w0, key.rdKey[0]);
    ColOfXor(w1, key.rdKey[1]);
    ColOfXor(w2, key.rdKey[2]);
    ColOfXor(w3, key.rdKey[3]);
  }

  /** One encryption round with the round key at rk. */
  method EncRound(s0: bv32, s1: bv32, s2: bv32, s3: bv32, key: AesKey, rk: nat)
    returns (t0: bv32, t1: bv32, t2: bv32, t3: bv32)
    requires key.Valid() && rk % 4 == 0 && rk / 4 <= key.rounds
    ensures StateOf(t0, t1, t2, t3)
         == AddState(MixColumns(ShiftRows(SubBytes(StateOf(s0, s1, s2, s3)))), key.Keys()[rk / 4])
  {
    hide EncColumn, AddState, MixColumns, ShiftRows, SubBytes, ColOf;
    var k := key.rdKey;
    t0 := EncColumn(s0, s1, s2, s3, k[rk]);
    t1 := EncColumn(s1, s2, s3, s0, k[rk + 1]);
    t2 := EncColumn(s2, s3, s0, s1, k[rk + 2]);
    t3 := EncColumn(s3, s0, s1, s2, k[rk + 3]);
    assert key.Keys()[rk / 4] == StateOf(k[rk], k[rk + 1], k[rk + 2], k[rk + 3]);
    hide StateOf;
    TableRound(s0, s1, s2, s3, k[rk], k[rk + 1], k[rk + 2], k[rk + 3]);
  }

  method DecRound(s0: bv32, s1: bv32, s2: bv32, s3: bv32, key: AesKey, rk: nat)
    returns (t0: bv32, t1: bv32, t2: bv32, t3: bv32)
    requires key.Valid() && rk % 4 == 0 && rk / 4 <= key.rounds
    ensures StateOf(t0, t1, t2, t3)
         == AddState(InvMixColumns(InvShiftRows(InvSubBytes(StateOf(s0, s1, s2, s3)))), key.Keys()[rk / 4])
  {
    hide DecColumn, AddState, InvMixColumns, InvShiftRows, InvSubBytes, ColOf;
    var k := key.rdKey;
    t0 := DecColumn(s0, s3, s2, s1, k[rk]);
    t1 := DecColumn(s1, s0, s3, s2, k[rk + 1]);
    t2 := DecColumn(s2, s1, s0, s3, k[rk + 2]);
    t3 := DecColumn(s3, s2, s1, s0, k[rk + 3]);
    assert key.Keys()[rk / 4] == StateOf(k[rk], k[rk + 1], k[rk + 2], k[rk + 3]);
    hide StateOf;
    InvTableRound(s0, s1, s2, s3, k[rk], k[rk + 1], k[rk + 2], k[rk + 3]);
  }

  /** The last round, with the round key at rk. */
  method EncFinal(t0: bv32, t1: bv32, t2: bv32, t3: bv32, key: AesKey, rk: nat)
    returns (s0: bv32, s1: bv32, s2: bv32, s3: bv32)
    requires key.Valid() && rk == 4 * key.rounds
    ensures StateOf(s0, s1, s2, s3)
         == AddState(ShiftRows(SubBytes(StateOf(t0, t1, t2, t3))), key.Keys()[key.rounds])
  {
    hide AddState, ShiftRows, SubBytes, EncLast, StateOf, key.Keys;
    var k := key.rdKey;
    LastKey(key);
    LastRound(t0, t1, t2, t3, k[rk], k[rk + 1], k[rk + 2], k[rk + 3]);
    s0 := EncLast(t0, t1, t2, t3, k[rk]);
    s1 := EncLast(t1, t2, t3, t0, k[rk + 1]);
    s2 := EncLast(t2, t3, t0, t1, k[rk + 2]);
    s3 := EncLast(t3, t0, t1, t2, k[rk + 3]);
  }

  /** AES_encrypt: the output block is the Cipher of section 5.1 applied to the
      input block, also when the two overlap; nothing else is written. */
  method Encrypt(inp: array<bv8>, inOff: nat, out: array<bv8>, outOff: nat, key: AesKey)
    requires key.Valid() && inOff + 16 <= inp.Length && outOff + 16 <= out.Length
    modifies out
    ensures out[..] == old(out[..])[..outOff] + old(EncBlock(key.Keys(), inp[inOff..inOff + 16]))
                       + old(out[..])[outOff + 16..]
  {
    hide AddState, ShiftRows, SubBytes, MixColumns, StateOf, StateBytes, BlockState, key.Keys;
    ghost var w, b := key.Keys(), BlockState(inp[inOff..inOff + 16]);
    var s0, s1, s2, s3 := GetState(inp, inOff, key);
    var t0, t1, t2, t3;
    var r, rk := key.rounds / 2, 0;
    while true
      invariant out[..] == old(out[..]) && key.Keys() == w
      invariant 0 < r && rk == 4 * key.rounds - 8 * r && rk % 8 == 0
      invariant StateOf(s0, s1, s2, s3) == Rounds(w, rk / 4, b)
      decreases r
    {
      t0, t1, t2, t3 := EncRound(s0, s1, s2, s3, key, rk + 4);
      rk := rk + 8;
      r := r - 1;
      if r == 0 {
        break;
      }
      s0, s1, s2, s3 := EncRound(t0, t1, t2, t3, key, rk);
    }
    assert StateOf(t0, t1, t2, t3) == Rounds(w, |w| - 2, b);
    s0, s1, s2, s3 := EncFinal(t0, t1, t2, t3, key, rk);
    assert StateOf(s0, s1, s2, s3) == Cipher(w, b);
    PutState(out, outOff, s0, s1, s2, s3);
  }

  /** The last round, with the round key at rk. */
  method DecFinal(t0: bv32, t1: bv32, t2: bv32, t3: bv32, key: AesKey, rk: nat)
    returns (s0: bv32, s1: bv32, s2: bv32, s3: bv32)
    requires key.Valid() && rk == 4 * key.rounds
    ensures StateOf(s0, s1, s2, s3)
         == AddState(InvShiftRows(InvSubBytes(StateOf(t0, t1, t2, t3))), key.Keys()[key.rounds])
  {
    hide AddState, InvShiftRows, InvSubBytes, DecLast, StateOf, key.Keys;
    var k := key.rdKey;
    LastKey(key);
    InvLastRound(t0, t1, t2, t3, k[rk], k[rk + 1], k[rk + 2], k[rk + 3]);
    s0 := DecLast(t0, t3, t2, t1, k[rk]);
    s1 := DecLast(t1, t0, t3, t2, k[rk + 1]);
    s2 := DecLast(t2, t1, t0, t3, k[rk + 2]);
    s3 := DecLast(t3, t2, t1, t0, k[rk + 3]);
  }

  /** AES_decrypt: the equivalent inverse cipher of section 5.3.5, likewise. */
  method Decrypt(inp: array<bv8>, inOff: nat, out: array<bv8>, outOff: nat, key: AesKey)
    requires key.Valid() && inOff + 16 <= inp.Length && outOff + 16 <= out.Length
    modifies out
    ensures out[..] == old(out[..])[..outOff] + old(DecBlock(key.Keys(), inp[inOff..inOff + 16]))
                       + old(out[..])[outOff + 16..]
  {
    hide AddState, InvShiftRows, InvSubBytes, InvMixColumns, StateOf, StateBytes, BlockState, key.Keys;
    ghost var w, b := key.Keys(), BlockState(inp[inOff..inOff + 16]);
    var s0, s1, s2, s3 := GetState(inp, inOff, key);
    var t0, t1, t2, t3;
    var r, rk := key.rounds / 2, 0;
    while true
      invariant out[..] == old(out[..]) && key.Keys() == w
      invariant 0 < r && rk == 4 * key.rounds - 8 * r && rk % 8 == 0
      invariant StateOf(s0, s1, s2, s3) == InvRounds(w, rk / 4, b)
      decreases r
    {
      t0, t1, t2, t3 := DecRound(s0, s1, s2, s3, key, rk + 4);
      rk := rk + 8;
      r := r - 1;
      if r == 0 {
        break;
      }
      s0, s1, s2, s3 := DecRound(t0, t1, t2, t3, key, rk);
    }
    assert StateOf(t0, t1, t2, t3) == InvRounds(w, |w| - 2, b);
    s0, s1, s2, s3 := DecFinal(t0, t1, t2, t3, key, rk);
    assert StateOf(s0, s1, s2, s3) == EqInvCipher(w, b);
    PutState(out, outOff, s0, s1, s2, s3);
  }

  lemma LastKey(key: AesKey)
    requires key.Valid()
    ensures var k := 4 * key.rounds;
      key.Keys()[key.rounds] == StateOf(key.rdKey[k], key.rdKey[k + 1], key.rdKey[k + 2], key.rdKey[k + 3])
  {
  }

  /** Both key schedules from one user key. */
  method BothSchedules(userKey: array<bv8>, bits: int) returns (status: int, enc: AesKey, dec: AesKey)
    requires bits in {128, 192, 256} ==> bits / 8 <= userKey.Length
    ensures status == if bits in {128, 192, 256} then 0 else -2
    ensures fresh(enc) && fresh(enc.rdKey) && fresh(dec) && fresh(dec.rdKey) && enc.rdKey != dec.rdKey
    ensures status == 0 ==> enc.Valid() && dec.Valid() && dec.Keys() == Decryption(enc.Keys())
  {
    hide Decryption, ExpandedKey, UserCols;
    enc := new AesKey();
    dec := new AesKey();
    status := enc.SetEncryptKey(userKey, bits);
    if status == 0 {
      status := dec.SetDecryptKey(userKey, bits);
    }
  }

  /** The whole way: a block encrypted under one schedule and decrypted under the
      other is back, for every user key of a supported length. */
  method EncryptThenDecrypt(userKey: array<bv8>, bits: int, block: array<bv8>) returns (status: int, back: array<bv8>)
    requires block.Length == 16 && (bits in {128, 192, 256} ==> bits / 8 <= userKey.Length)
    ensures status == if bits in {128, 192, 256} then 0 else -2
    ensures fresh(back) && (status == 0 ==> back[..] == block[..])
  {
    hide Decryption, EncBlock, DecBlock;
    back := new bv8[16];
    var enc, dec;
    status, enc, dec := BothSchedules(userKey, bits);
    if status != 0 { return; }
    ghost var b: Block := block[0..16];
    Encrypt(block, 0, back, 0, enc);
    assert back[0..16] == EncBlock(enc.Keys(), b);
    Decrypt(back, 0, back, 0, dec);
    DecBlockUndoes(enc.Keys(), b);
    assert block[..] == b;
  }
}
