// AES_cbc_encrypt of Main/linux/aes.c: cipher block chaining (section 6.2 of
// NIST SP 800-38A) with the code's own treatment of a partial last block.

module AesCbc {
  import opened AesField
  import opened AesSpec
  import opened AesKeys
  import opened AesBlock

  /** Output bytes and the ivec left behind. */
  datatype Chained = Chained(out: seq<bv8>, iv: Block)

  function XorBlock(a: Block, b: Block): Block {
    seq(16, i requires 0 <= i < 16 => Add(a[i], b[i]))
  }

  /** A partial block is completed with bytes of the chaining value. */
  function Padded(p: seq<bv8>, iv: Block): Block
    requires |p| <= 16
  {
    seq(16, i requires 0 <= i < 16 => if i < |p| then Add(p[i], iv[i]) else iv[i])
  }

  function XorPrefix(t: Block, iv: Block, n: nat): (p: seq<bv8>)
    requires n <= 16
    ensures |p| == n
  {
    seq(n, i requires 0 <= i < n => Add(t[i], iv[i]))
  }

  /** n rounded up to whole blocks. */
  function RoundUp(n: nat): (m: nat)
    ensures n <= m < n + 16 && m % 16 == 0
  {
    if n == 0 then 0 else if n < 16 then 16 else 16 + RoundUp(n - 16)
  }

  function CbcEnc(w: Schedule, iv: Block, p: seq<bv8>): (r: Chained)
    requires |w| >= 2
    ensures |r.out| == RoundUp(|p|)
    decreases |p|
  {
    if |p| >= 16 then
      var c := EncBlock(w, XorBlock(p[..16], iv));
      var r := CbcEnc(w, c, p[16..]);
      Chained(c + r.out, r.iv)
    else if |p| > 0 then
      var c := EncBlock(w, Padded(p, iv));
      Chained(c, c)
    else Chained([], iv)
  }

  /** Decryption of n bytes; the last, partial block leaves the decrypted block,
      not the ciphertext, in ivec. */
  function CbcDec(d: Schedule, iv: Block, c: seq<bv8>, n: nat): (r: Chained)
    requires |d| >= 2 && RoundUp(n) <= |c|
    ensures |r.out| == n
    decreases n
  {
    if n >= 16 then
      var r := CbcDec(d, c[..16], c[16..], n - 16);
      Chained(XorBlock(DecBlock(d, c[..16]), iv) + r.out, r.iv)
    else if n > 0 then
      var t := DecBlock(d, c[..16]);
      Chained(XorPrefix(t, iv, n), t)
    else Chained([], iv)
  }

  // --------------------------------------------------------------- properties

  lemma XorBlockUndoes(a: Block, b: Block)
    ensures XorBlock(XorBlock(a, b), b) == a
  {
    forall i | 0 <= i < 16 ensures XorBlock(XorBlock(a, b), b)[i] == a[i] {
      AddCancels(a[i], b[i]);
    }
  }

  lemma PaddedUndoes(p: seq<bv8>, iv: Block)
    requires |p| <= 16
    ensures XorPrefix(Padded(p, iv), iv, |p|) == p
  {
    forall i | 0 <= i < |p| ensures XorPrefix(Padded(p, iv), iv, |p|)[i] == p[i] {
      AddCancels(p[i], iv[i]);
    }
  }

  /** The chaining value and the bytes left when fewer than 16 remain. */
  function LastIv(w: Schedule, iv: Block, p: seq<bv8>): Block
    requires |w| >= 2
    decreases |p|
  {
    if |p| < 16 then iv else LastIv(w, EncBlock(w, XorBlock(p[..16], iv)), p[16..])
  }

  function Tail(p: seq<bv8>): (t: seq<bv8>)
    ensures |t| == |p| % 16
  {
    p[|p| - |p| % 16..]
  }

  lemma EncWhole(w: Schedule, iv: Block, p: seq<bv8>)
    requires |w| >= 2 && |p| >= 16
    ensures var c := EncBlock(w, XorBlock(p[..16], iv)); var r := CbcEnc(w, c, p[16..]);
      CbcEnc(w, iv, p) == Chained(c + r.out, r.iv)
  {
    hide EncBlock, XorBlock, RoundUp;
  }

  lemma EncPartial(w: Schedule, iv: Block, p: seq<bv8>)
    requires |w| >= 2 && |p| < 16
    ensures RoundUp(|p|) == if |p| > 0 then 16 else 0
    ensures CbcEnc(w, iv, p) == if |p| > 0 then Chained(EncBlock(w, Padded(p, iv)), EncBlock(w, Padded(p, iv))) else Chained([], iv)
  {
    hide EncBlock, Padded;
  }

  lemma Mod16(n: nat)
    requires n >= 16
    ensures (n - 16) % 16 == n % 16 <= n - 16
  {
  }

  lemma TailWhole(p: seq<bv8>)
    requires |p| >= 16
    ensures Tail(p[16..]) == Tail(p)
  {
    Mod16(|p|);
    DropDrop(p, 16, |p| - |p| % 16);
  }

  lemma DropDrop(p: seq<bv8>, a: nat, b: nat)
    requires a <= b <= |p|
    ensures p[a..][b - a..] == p[b..]
  {
  }

  lemma LastIvWhole(w: Schedule, iv: Block, p: seq<bv8>)
    requires |w| >= 2 && |p| >= 16
    ensures LastIv(w, iv, p) == LastIv(w, EncBlock(w, XorBlock(p[..16], iv)), p[16..])
  {
    hide EncBlock, XorBlock;
  }

  lemma DecWhole(d: Schedule, iv: Block, c: Block, more: seq<bv8>, n: nat)
    requires |d| >= 2 && n >= 16 && RoundUp(n - 16) <= |more|
    ensures RoundUp(n) <= |c + more|
    ensures var r := CbcDec(d, c, more, n - 16);
      CbcDec(d, iv, c + more, n) == Chained(XorBlock(DecBlock(d, c), iv) + r.out, r.iv)
  {
    hide DecBlock, XorBlock;
    assert (c + more)[..16] == c && (c + more)[16..] == more;
  }

  /** What a round trip with p bytes has to give. */
  ghost predicate RoundTrips(w: Schedule, iv: Block, p: seq<bv8>)
    requires |w| >= 2
  {
    var e := CbcEnc(w, iv, p);
    var r := CbcDec(Decryption(w), iv, e.out, |p|);
    && r.out == p
    && (|p| % 16 == 0 ==> r.iv == e.iv)
    && (|p| % 16 != 0 ==> r.iv == Padded(Tail(p), LastIv(w, iv, p)) && e.iv == EncBlock(w, r.iv))
  }

  lemma PartialRoundTrips(w: Schedule, iv: Block, p: seq<bv8>)
    requires |w| >= 2 && |p| < 16
    ensures RoundTrips(w, iv, p)
  {
    hide EncBlock, DecBlock, Decryption, Padded, XorPrefix;
    if |p| > 0 {
      DecBlockUndoes(w, Padded(p, iv));
      PaddedUndoes(p, iv);
      var c := EncBlock(w, Padded(p, iv));
      assert c[..16] == c && Tail(p) == p;
    }
  }

  lemma WholeRoundTrips(w: Schedule, iv: Block, p: seq<bv8>)
    requires |w| >= 2 && |p| >= 16
    requires RoundTrips(w, EncBlock(w, XorBlock(p[..16], iv)), p[16..])
    ensures RoundTrips(w, iv, p)
  {
    hide EncBlock, DecBlock, Decryption, XorBlock, Padded, CbcEnc, CbcDec, LastIv, Tail, RoundUp;
    var x := XorBlock(p[..16], iv);
    var c := EncBlock(w, x);
    EncWhole(w, iv, p);
    TailWhole(p);
    Mod16(|p|);
    LastIvWhole(w, iv, p);
    DecWhole(Decryption(w), iv, c, CbcEnc(w, c, p[16..]).out, |p|);
    DecBlockUndoes(w, x);
    XorBlockUndoes(p[..16], iv);
    assert p[..16] + p[16..] == p;
  }

  /** Decrypting what was encrypted gives back every byte, whatever the length;
      ivec ends up the same when the length is a multiple of 16, and otherwise
      holds the padded last block whose encryption encrypting left there. */
  lemma CbcRoundTrip(w: Schedule, iv: Block, p: seq<bv8>)
    requires |w| >= 2
    ensures var e := CbcEnc(w, iv, p); var r := CbcDec(Decryption(w), iv, e.out, |p|);
      && r.out == p
      && (|p| % 16 == 0 ==> r.iv == e.iv)
      && (|p| % 16 != 0 ==>
           r.iv == Padded(Tail(p), LastIv(w, iv, p)) && e.iv == EncBlock(w, r.iv))
  {
    hide EncBlock, Decryption, Padded, CbcEnc, CbcDec, LastIv, Tail;
    AllRoundTrip(w, iv, p);
  }

  lemma {:induction false} AllRoundTrip(w: Schedule, iv: Block, p: seq<bv8>)
    requires |w| >= 2
    ensures RoundTrips(w, iv, p)
    decreases |p|
  {
    hide RoundTrips;
    if |p| >= 16 {
      AllRoundTrip(w, EncBlock(w, XorBlock(p[..16], iv)), p[16..]);
      WholeRoundTrips(w, iv, p);
    } else {
      PartialRoundTrips(w, iv, p);
    }
  }

  /** After a round trip the two sides hold the same ivec exactly when there is no
      partial block, or its padded form happens to be a fixed point of the cipher. */
  lemma IvecsAgree(w: Schedule, iv: Block, p: seq<bv8>)
    requires |w| >= 2
    ensures CbcDec(Decryption(w), iv, CbcEnc(w, iv, p).out, |p|).iv == CbcEnc(w, iv, p).iv
      <==> |p| % 16 == 0
           || (var b := Padded(Tail(p), LastIv(w, iv, p)); EncBlock(w, b) == b)
  {
    CbcRoundTrip(w, iv, p);
  }

  /** Block b is block i of p, cut or not, added to what was chained: the ivec, or the
      ciphertext block before; behind the end of p it is the chained block itself. */
  ghost predicate IsChained(iv: Block, p: seq<bv8>, out: seq<bv8>, i: nat, b: Block)
    requires 16 * i <= |out|
  {
    forall j :: 0 <= j < 16 ==>
      var prev := if i == 0 then iv[j] else out[16 * i - 16 + j];
      b[j] == if 16 * i + j < |p| then Add(p[16 * i + j], prev) else prev
  }

  /** Section 6.2 of SP 800-38A, block by block, also for a cut last block. */
  lemma {:induction false} CbcBlock(w: Schedule, iv: Block, p: seq<bv8>, i: nat, b: Block)
    requires |w| >= 2 && 16 * i < |p|
    requires 16 * i + 16 <= |CbcEnc(w, iv, p).out| && IsChained(iv, p, CbcEnc(w, iv, p).out, i, b)
    ensures CbcEnc(w, iv, p).out[16 * i..16 * i + 16] == EncBlock(w, b)
    decreases |p|
  {
    hide EncBlock, Add;
    var out := CbcEnc(w, iv, p).out;
    if i == 0 {
      var c: Block := if |p| >= 16 then XorBlock(p[..16], iv) else Padded(p, iv);
      assert b == c;
    } else {
      var c := EncBlock(w, XorBlock(p[..16], iv));
      var r := CbcEnc(w, c, p[16..]);
      assert out == c + r.out;
      assert r.out == out[16..];
      assert IsChained(c, p[16..], r.out, i - 1, b);
      CbcBlock(w, c, p[16..], i - 1, b);
      assert out[16 * i..16 * i + 16] == r.out[16 * (i - 1)..16 * (i - 1) + 16];
    }
  }

  /** Each byte of the plaintext: of the decrypted block, added to the ciphertext block
      before or the ivec. */
  lemma {:induction false} CbcDecByte(d: Schedule, iv: Block, c: seq<bv8>, n: nat, i: nat, j: nat)
    requires |d| >= 2 && RoundUp(n) <= |c| && j < 16 && 16 * i + j < n && 16 * i + 16 <= |c|
    ensures CbcDec(d, iv, c, n).out[16 * i + j]
         == Add(DecBlock(d, c[16 * i..16 * i + 16])[j], if i == 0 then iv[j] else c[16 * i - 16 + j])
    decreases n
  {
    hide DecBlock, Add;
    if i > 0 {
      CbcDecByte(d, c[..16], c[16..], n - 16, i - 1, j);
      assert c[16..][16 * (i - 1)..16 * (i - 1) + 16] == c[16 * i..16 * i + 16];
    } else {
      assert c[0..16] == c[..16];
    }
  }

  /** Encrypting a block-aligned prefix and then the rest with the ivec it left is
      encrypting the whole. */
  lemma {:induction false} CbcComposes(w: Schedule, iv: Block, a: seq<bv8>, b: seq<bv8>)
    requires |w| >= 2 && |a| % 16 == 0
    ensures var e := CbcEnc(w, iv, a);
      CbcEnc(w, iv, a + b) == Chained(e.out + CbcEnc(w, e.iv, b).out, CbcEnc(w, e.iv, b).iv)
    decreases |a|
  {
    hide EncBlock, XorBlock, Padded;
    var e := CbcEnc(w, iv, a);
    if a == [] {
      assert [] + b == b;
      assert [] + CbcEnc(w, iv, b).out == CbcEnc(w, iv, b).out;
    } else {
      assert |a| >= 16;
      var c := EncBlock(w, XorBlock(a[..16], iv));
      assert (a + b)[..16] == a[..16] && (a + b)[16..] == a[16..] + b;
      CbcComposes(w, c, a[16..], b);
      var rest := CbcEnc(w, c, a[16..]);
      assert c + (rest.out + CbcEnc(w, rest.iv, b).out) == c + rest.out + CbcEnc(w, rest.iv, b).out;
    }
  }

  /** Whole blocks do not change how the rest is rounded. */
  lemma {:induction false} RoundUpAdds(m: nat, n: nat)
    requires m % 16 == 0
    ensures RoundUp(m) == m && RoundUp(m + n) == m + RoundUp(n)
    decreases m
  {
    if m > 0 {
      RoundUpAdds(m - 16, n);
    }
  }

  /** The same for decryption. */
  lemma {:induction false} CbcDecComposes(d: Schedule, iv: Block, c: seq<bv8>, m: nat, n: nat)
    requires |d| >= 2 && RoundUp(m) == m && RoundUp(m + n) == m + RoundUp(n) <= |c|
    ensures var e := CbcDec(d, iv, c, m);
      CbcDec(d, iv, c, m + n)
      == Chained(e.out + CbcDec(d, e.iv, c[m..], n).out, CbcDec(d, e.iv, c[m..], n).iv)
    decreases m
  {
    hide DecBlock, XorBlock, XorPrefix;
    var e := CbcDec(d, iv, c, m);
    if m == 0 {
      assert c[0..] == c;
      assert [] + CbcDec(d, iv, c, n).out == CbcDec(d, iv, c, n).out;
    } else {
      var o := XorBlock(DecBlock(d, c[..16]), iv);
      RoundUpAdds(m - 16, n);
      CbcDecComposes(d, c[..16], c[16..], m - 16, n);
      assert c[16..][m - 16..] == c[m..];
      var rest := CbcDec(d, c[..16], c[16..], m - 16);
      assert o + (rest.out + CbcDec(d, rest.iv, c[m..], n).out)
          == o + rest.out + CbcDec(d, rest.iv, c[m..], n).out;
    }
  }

  // ---------------------------------------------------------------- the code

  /** `for(n=0; n < len; ++n) tmp[n] = in[n] ^ ivec[n]` and the completion of a
      partial block; a whole block is the case len == 16. */
  method XorIn(tmp: array<bv8>, inp: array<bv8>, pos: nat, len: nat, ivec: array<bv8>)
    requires tmp.Length == 16 == ivec.Length && len <= 16 && pos + len <= inp.Length
    requires tmp != inp && tmp != ivec
    modifies tmp
    ensures tmp[..] == Padded(inp[pos..pos + len], ivec[..])
  {
    for n := 0 to len
      invariant forall k :: 0 <= k < n ==> tmp[k] == Add(inp[pos + k], ivec[k])
    {
      tmp[n] := inp[pos + n] ^ ivec[n];
    }
    for n := len to 16
      invariant forall k :: 0 <= k < len ==> tmp[k] == Add(inp[pos + k], ivec[k])
      invariant forall k :: len <= k < n ==> tmp[k] == ivec[k]
    {
      tmp[n] := ivec[n];
    }
  }

  /** memcpy of one block. */
  method CopyBlock(dst: array<bv8>, dstOff: nat, src: array<bv8>, srcOff: nat)
    requires dstOff + 16 <= dst.Length && srcOff + 16 <= src.Length && dst != src
    modifies dst
    ensures dst[..] == old(dst[..])[..dstOff] + src[srcOff..srcOff + 16] + old(dst[..])[dstOff + 16..]
  {
    for n := 0 to 16
      invariant forall k :: 0 <= k < dst.Length ==>
        dst[k] == if dstOff <= k < dstOff + n then src[srcOff + k - dstOff] else old(dst[..])[k]
    {
      dst[dstOff + n] := src[srcOff + n];
    }
  }

  lemma PaddedWhole(p: Block, iv: Block)
    ensures Padded(p, iv) == XorBlock(p, iv)
  {
  }

  /** One whole block of encryption, at pos in both buffers. */
  method EncryptOne(inp: array<bv8>, out: array<bv8>, pos: nat, key: AesKey, ivec: array<bv8>, tmp: array<bv8>)
    requires key.Valid() && pos + 16 <= inp.Length && pos + 16 <= out.Length
    requires tmp.Length == 16 == ivec.Length && tmp != inp && tmp != out && tmp != ivec
    requires ivec != inp && ivec != out
    modifies out, ivec, tmp
    ensures inp[pos + 16..] == old(inp[pos + 16..])
    ensures key.Keys() == old(key.Keys())
    ensures ivec[..] == old(EncBlock(key.Keys(), XorBlock(inp[pos..pos + 16], ivec[..])))
    ensures out[..] == old(out[..])[..pos] + ivec[..] + old(out[..])[pos + 16..]
  {
    hide EncBlock, XorBlock, Padded, key.Keys;
    PaddedWhole(inp[pos..pos + 16], ivec[..]);
    XorIn(tmp, inp, pos, 16, ivec);
    assert tmp[0..16] == tmp[..];
    Encrypt(tmp, 0, out, pos, key);
    CopyBlock(ivec, 0, out, pos);
  }

  /** Encryption after pos bytes: the output so far is the beginning of the whole
      output, and encrypting the rest from here gives the rest of it. */
  ghost predicate EncAt(w: Schedule, p: seq<bv8>, total: Chained, orig: seq<bv8>, out: seq<bv8>, iv: Block, pos: nat)
    requires |w| >= 2
  {
    && pos <= |p| && pos <= |total.out| <= |orig| && out == total.out[..pos] + orig[pos..]
    && CbcEnc(w, iv, p[pos..]) == Chained(total.out[pos..], total.iv)
  }

  lemma EncStep(w: Schedule, p: seq<bv8>, total: Chained, orig: seq<bv8>, out: seq<bv8>, iv: Block, pos: nat, out': seq<bv8>)
    requires |w| >= 2 && EncAt(w, p, total, orig, out, iv, pos) && pos + 16 <= |p|
    requires pos + 16 <= |out|
    requires out' == out[..pos] + EncBlock(w, XorBlock(p[pos..pos + 16], iv)) + out[pos + 16..]
    ensures EncAt(w, p, total, orig, out', EncBlock(w, XorBlock(p[pos..pos + 16], iv)), pos + 16)
  {
    hide EncBlock, XorBlock, CbcEnc;
    EncWhole(w, iv, p[pos..]);
    assert p[pos..][..16] == p[pos..pos + 16] && p[pos..][16..] == p[pos + 16..];
    var c := EncBlock(w, XorBlock(p[pos..pos + 16], iv));
    var rest := CbcEnc(w, c, p[pos + 16..]);
    assert total.out[pos..] == c + rest.out;
    Advance(total.out, orig, out, pos, c, rest.out);
  }

  lemma EncEnd(w: Schedule, p: seq<bv8>, total: Chained, orig: seq<bv8>, out: seq<bv8>, iv: Block, pos: nat, out': seq<bv8>)
    requires |w| >= 2 && EncAt(w, p, total, orig, out, iv, pos)
    requires var r := CbcEnc(w, iv, p[pos..]).out;
      pos + |r| <= |out| && out' == out[..pos] + r + out[pos + |r|..]
    ensures out' == total.out + orig[|total.out|..] && CbcEnc(w, iv, p[pos..]).iv == total.iv
  {
    hide CbcEnc;
    Advance(total.out, orig, out, pos, CbcEnc(w, iv, p[pos..]).out, []);
  }

  /** What a buffer holds after pos bytes are done, when `block` follows them. */
  lemma Advance(total: seq<bv8>, orig: seq<bv8>, out: seq<bv8>, pos: nat, block: seq<bv8>, more: seq<bv8>)
    requires pos <= |total| <= |orig| && out == total[..pos] + orig[pos..]
    requires total[pos..] == block + more
    ensures var n := pos + |block|;
      n <= |total| && n <= |out|
      && out[..pos] + block + out[n..] == total[..n] + orig[n..] && total[n..] == more
  {
    var n := pos + |block|;
    assert total == total[..pos] + (block + more);
    assert total[..n] == total[..pos] + block;
    assert out[n..] == orig[n..];
  }

  /** The partial last block, if any: `if (len)`. */
  method EncryptTail(inp: array<bv8>, out: array<bv8>, pos: nat, len: nat, key: AesKey, ivec: array<bv8>,
                     tmp: array<bv8>)
    requires key.Valid() && len < 16 && pos + len <= inp.Length && pos + RoundUp(len) <= out.Length
    requires tmp.Length == 16 == ivec.Length && tmp != inp && tmp != out && tmp != ivec
    requires ivec != inp && ivec != out
    modifies out, ivec, tmp
    ensures var r := old(CbcEnc(key.Keys(), ivec[..], inp[pos..pos + len]));
      ivec[..] == r.iv && out[..] == old(out[..])[..pos] + r.out + old(out[..])[pos + RoundUp(len)..]
  {
    hide EncBlock, Padded, key.Keys, CbcEnc, RoundUp;
    EncPartial(key.Keys(), ivec[..], inp[pos..pos + len]);
    if len > 0 {
      XorIn(tmp, inp, pos, len, ivec);
      assert tmp[0..16] == tmp[..];
      Encrypt(tmp, 0, tmp, 0, key);
      CopyBlock(out, pos, tmp, 0);
      CopyBlock(ivec, 0, tmp, 0);
    }
  }

  lemma NextBlock(i: seq<bv8>, p: seq<bv8>, pos: nat)
    requires pos + 16 <= |p| <= |i| && i[pos..|p|] == p[pos..]
    ensures i[pos..pos + 16] == p[pos..pos + 16]
  {
    assert i[pos..pos + 16] == i[pos..|p|][..16] && p[pos..pos + 16] == p[pos..][..16];
  }

  /** Input not read yet is not overwritten. */
  lemma RestUnread(i: seq<bv8>, i': seq<bv8>, p: seq<bv8>, pos: nat)
    requires pos + 16 <= |p| <= |i| == |i'| && i[pos..|p|] == p[pos..] && i'[pos + 16..] == i[pos + 16..]
    ensures i'[pos + 16..|p|] == p[pos + 16..]
  {
    var n := |p| - (pos + 16);
    assert i'[pos + 16..|p|] == i'[pos + 16..][..n] == i[pos + 16..][..n] == i[pos..|p|][16..];
    assert p[pos..][16..] == p[pos + 16..];
  }

  /** AES_cbc_encrypt with enc set. `inp` and `out` may be the same buffer; the
      output is written in whole blocks. */
  method CbcEncrypt(inp: array<bv8>, out: array<bv8>, length: nat, key: AesKey, ivec: array<bv8>)
    requires key.Valid() && length <= inp.Length && RoundUp(length) <= out.Length
    requires ivec.Length == 16 && ivec != inp && ivec != out
    modifies out, ivec
    ensures var r := old(CbcEnc(key.Keys(), ivec[..], inp[..length]));
      out[..] == r.out + old(out[..])[|r.out|..] && ivec[..] == r.iv
  {
    hide EncBlock, XorBlock, key.Keys, CbcEnc, EncAt;
    ghost var w, p, orig := key.Keys(), inp[..length], out[..];
    ghost var total, size := CbcEnc(w, ivec[..], p), RoundUp(length);
    var tmp := new bv8[16];
    var pos: nat, len: nat := 0, length;
    EncBegin(w, p, total, orig, ivec[..]);
    while len >= 16
      invariant pos + len == length && pos + RoundUp(len) == size <= out.Length
      invariant key.Keys() == w && inp[..][pos..|p|] == p[pos..]
      invariant EncAt(w, p, total, orig, out[..], ivec[..], pos)
    {
      ghost var i, o, iv := inp[..], out[..], ivec[..];
      NextBlock(i, p, pos);
      EncryptOne(inp, out, pos, key, ivec, tmp);
      EncStep(w, p, total, orig, o, iv, pos, out[..]);
      RestUnread(i, inp[..], p, pos);
      pos, len := pos + 16, len - 16;
    }
    ghost var o, iv := out[..], ivec[..];
    EncryptTail(inp, out, pos, len, key, ivec, tmp);
    EncEnd(w, p, total, orig, o, iv, pos, out[..]);
  }

  lemma EncBegin(w: Schedule, p: seq<bv8>, total: Chained, orig: seq<bv8>, iv: Block)
    requires |w| >= 2 && total == CbcEnc(w, iv, p) && |total.out| <= |orig|
    ensures EncAt(w, p, total, orig, orig, iv, 0)
  {
    hide CbcEnc;
    assert p[0..] == p && total.out[0..] == total.out;
  }

  lemma Spliced(o: seq<bv8>, o': seq<bv8>, pos: nat, x: seq<bv8>)
    requires pos + |x| <= |o| == |o'|
    requires forall k :: 0 <= k < |o| ==> o'[k] == if pos <= k < pos + |x| then x[k - pos] else o[k]
    ensures o' == o[..pos] + x + o[pos + |x|..]
  {
  }

  /** `out[n] = src[n] ^ ivec[n]` for the first len bytes of a block; in the whole
      blocks src is out itself. */
  method XorOut(src: array<bv8>, srcOff: nat, out: array<bv8>, pos: nat, len: nat, ivec: array<bv8>)
    requires len <= 16 == ivec.Length && srcOff + 16 <= src.Length && pos + len <= out.Length
    requires ivec != out && (src == out ==> srcOff == pos)
    modifies out
    ensures out[..] == old(out[..])[..pos] + old(XorPrefix(src[srcOff..srcOff + 16], ivec[..], len))
                       + old(out[..])[pos + len..]
  {
    ghost var t: Block, iv: Block, was := src[srcOff..srcOff + 16], ivec[..], out[..];
    hide Add;
    for n := 0 to len
      invariant forall k :: n <= k < 16 ==> src[srcOff + k] == t[k]
      invariant ivec[..] == iv
      invariant forall k :: 0 <= k < out.Length ==>
        out[k] == if pos <= k < pos + n then Add(t[k - pos], iv[k - pos]) else was[k]
    {
      out[pos + n] := Add(src[srcOff + n], ivec[n]);
    }
    Spliced(was, out[..], pos, XorPrefix(t, iv, len));
  }

  lemma XorPrefixWhole(t: Block, iv: Block)
    ensures XorPrefix(t, iv, 16) == XorBlock(t, iv)
  {
  }

  /** One whole block of decryption. */
  method DecryptOne(inp: array<bv8>, out: array<bv8>, pos: nat, key: AesKey, ivec: array<bv8>, tmp: array<bv8>)
    requires key.Valid() && pos + 16 <= inp.Length && pos + 16 <= out.Length
    requires tmp.Length == 16 == ivec.Length && tmp != inp && tmp != out && tmp != ivec
    requires ivec != inp && ivec != out
    modifies out, ivec, tmp
    ensures inp[pos + 16..] == old(inp[pos + 16..])
    ensures key.Keys() == old(key.Keys())
    ensures ivec[..] == old(inp[pos..pos + 16])
    ensures out[..] == old(out[..])[..pos]
                       + old(XorBlock(DecBlock(key.Keys(), inp[pos..pos + 16]), ivec[..]))
                       + old(out[..])[pos + 16..]
  {
    hide DecBlock, XorBlock, XorPrefix, key.Keys;
    ghost var plain := DecBlock(key.Keys(), inp[pos..pos + 16]);
    XorPrefixWhole(plain, ivec[..]);
    CopyBlock(tmp, 0, inp, pos);
    Decrypt(inp, pos, out, pos, key);
    assert out[pos..pos + 16] == plain;
    XorOut(out, pos, out, pos, 16, ivec);
    CopyBlock(ivec, 0, tmp, 0);
  }

  method DecryptTail(inp: array<bv8>, out: array<bv8>, pos: nat, len: nat, key: AesKey, ivec: array<bv8>,
                     tmp: array<bv8>)
    requires key.Valid() && len < 16 && pos + RoundUp(len) <= inp.Length && pos + len <= out.Length
    requires tmp.Length == 16 == ivec.Length && tmp != inp && tmp != out && tmp != ivec
    requires ivec != inp && ivec != out
    modifies out, ivec, tmp
    ensures var r := old(CbcDec(key.Keys(), ivec[..], inp[pos..pos + RoundUp(len)], len));
      ivec[..] == r.iv && out[..] == old(out[..])[..pos] + r.out + old(out[..])[pos + len..]
  {
    hide DecBlock, XorPrefix, key.Keys;
    if len > 0 {
      CopyBlock(tmp, 0, inp, pos);
      assert tmp[0..16] == tmp[..];
      Decrypt(tmp, 0, tmp, 0, key);
      assert tmp[0..16] == tmp[..];
      XorOut(tmp, 0, out, pos, len, ivec);
      CopyBlock(ivec, 0, tmp, 0);
    }
  }

  /** Decryption after pos of n bytes. */
  ghost predicate DecAt(d: Schedule, c: seq<bv8>, n: nat, total: Chained, orig: seq<bv8>, out: seq<bv8>, iv: Block, pos: nat)
    requires |d| >= 2
  {
    && pos <= n && pos <= |total.out| <= |orig| && out == total.out[..pos] + orig[pos..]
    && pos <= |c| && RoundUp(n - pos) <= |c| - pos
    && CbcDec(d, iv, c[pos..], n - pos) == Chained(total.out[pos..], total.iv)
  }

  lemma DecBegin(d: Schedule, c: seq<bv8>, n: nat, total: Chained, orig: seq<bv8>, iv: Block)
    requires |d| >= 2 && RoundUp(n) <= |c| && total == CbcDec(d, iv, c, n) && n <= |orig|
    ensures DecAt(d, c, n, total, orig, orig, iv, 0)
  {
    hide CbcDec;
    assert c[0..] == c && total.out[0..] == total.out;
  }

  lemma DecStep(d: Schedule, c: seq<bv8>, n: nat, total: Chained, orig: seq<bv8>, out: seq<bv8>, iv: Block,
                pos: nat, out': seq<bv8>)
    requires |d| >= 2 && DecAt(d, c, n, total, orig, out, iv, pos) && pos + 16 <= n && pos + 16 <= |out|
    requires pos + 16 <= |c|
    requires out' == out[..pos] + XorBlock(DecBlock(d, c[pos..pos + 16]), iv) + out[pos + 16..]
    ensures DecAt(d, c, n, total, orig, out', c[pos..pos + 16], pos + 16)
  {
    hide DecBlock, XorBlock, CbcDec;
    assert RoundUp(n - pos) == 16 + RoundUp(n - pos - 16);
    var b, more := c[pos..pos + 16], c[pos + 16..];
    assert c[pos..] == b + more;
    DecWhole(d, iv, b, more, n - pos);
    var o, rest := XorBlock(DecBlock(d, b), iv), CbcDec(d, b, more, n - pos - 16);
    assert total.out[pos..] == o + rest.out;
    Advance(total.out, orig, out, pos, o, rest.out);
  }

  lemma DecEnd(d: Schedule, c: seq<bv8>, n: nat, total: Chained, orig: seq<bv8>, out: seq<bv8>, iv: Block,
               pos: nat, out': seq<bv8>)
    requires |d| >= 2 && DecAt(d, c, n, total, orig, out, iv, pos)
    requires var r := CbcDec(d, iv, c[pos..], n - pos).out;
      n <= |out| && out' == out[..pos] + r + out[n..]
    ensures out' == total.out + orig[|total.out|..] && CbcDec(d, iv, c[pos..], n - pos).iv == total.iv
  {
    hide CbcDec;
    Advance(total.out, orig, out, pos, CbcDec(d, iv, c[pos..], n - pos).out, []);
  }

  /** AES_cbc_encrypt with enc clear. The input holds whole blocks; exactly
      `length` bytes are written. */
  method CbcDecrypt(inp: array<bv8>, out: array<bv8>, length: nat, key: AesKey, ivec: array<bv8>)
    requires key.Valid() && RoundUp(length) <= inp.Length && length <= out.Length
    requires ivec.Length == 16 && ivec != inp && ivec != out
    modifies out, ivec
    ensures var r := old(CbcDec(key.Keys(), ivec[..], inp[..RoundUp(length)], length));
      out[..] == r.out + old(out[..])[length..] && ivec[..] == r.iv
  {
    hide DecBlock, XorBlock, key.Keys, CbcDec, DecAt;
    ghost var d, c, orig := key.Keys(), inp[..RoundUp(length)], out[..];
    ghost var total := CbcDec(d, ivec[..], c, length);
    var tmp := new bv8[16];
    var pos: nat, len: nat := 0, length;
    DecBegin(d, c, length, total, orig, ivec[..]);
    while len >= 16
      invariant pos + len == length && pos + RoundUp(len) == |c| <= inp.Length
      invariant key.Keys() == d && inp[..][pos..|c|] == c[pos..]
      invariant DecAt(d, c, length, total, orig, out[..], ivec[..], pos)
    {
      ghost var i, o, iv := inp[..], out[..], ivec[..];
      NextBlock(i, c, pos);
      DecryptOne(inp, out, pos, key, ivec, tmp);
      DecStep(d, c, length, total, orig, o, iv, pos, out[..]);
      RestUnread(i, inp[..], c, pos);
      pos, len := pos + 16, len - 16;
    }
    ghost var o, iv := out[..], ivec[..];
    DecryptTail(inp, out, pos, len, key, ivec, tmp);
    DecEnd(d, c, length, total, orig, o, iv, pos, out[..]);
  }

  /** The whole way with chaining: data of any length, encrypted with one schedule
      and decrypted with the other from the same starting ivec, is back. */
  method EncryptThenDecrypt(userKey: array<bv8>, bits: int, iv: Block, data: array<bv8>)
    returns (status: int, back: array<bv8>)
    requires bits in {128, 192, 256} ==> bits / 8 <= userKey.Length
    ensures status == if bits in {128, 192, 256} then 0 else -2
    ensures fresh(back) && back.Length == data.Length && (status == 0 ==> back[..] == data[..])
  {
    hide CbcEnc, CbcDec, Decryption, EncBlock, RoundUp;
    back := new bv8[data.Length];
    var enc, dec;
    status, enc, dec := BothSchedules(userKey, bits);
    if status != 0 { return; }
    var n := data.Length;
    var secret := new bv8[RoundUp(n)];
    var ivec := FreshIvec(iv);
    ghost var w := enc.Keys();
    CbcEncrypt(data, secret, n, enc, ivec);
    assert data[..n] == data[..] && secret[..] == CbcEnc(w, iv, data[..]).out;
    ivec := FreshIvec(iv);
    CbcDecrypt(secret, back, n, dec, ivec);
    assert secret[..RoundUp(n)] == secret[..];
    CbcRoundTrip(w, iv, data[..]);
  }

  method FreshIvec(iv: Block) returns (ivec: array<bv8>)
    ensures fresh(ivec) && ivec[..] == iv
  {
    ivec := new bv8[16](i requires 0 <= i < 16 => iv[i]);
  }
}
