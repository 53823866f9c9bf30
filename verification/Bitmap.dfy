// Ranges of bits (Main/linux/bitmap.c): setting and clearing a range word by word,
// and finding an aligned run of zero bits.

module Bitmap {
  import opened Common
  import opened Bitops

  // ---------------------------------------------------------- setting a range

  /** Bits lo .. hi are v, the others as before. */
  ghost predicate RangeIs(was: seq<Word>, now: seq<Word>, lo: nat, hi: nat, v: bool) {
    && |now| == |was|
    && forall i :: 0 <= i < 64 * |was| ==> BitAt(now, i) == if lo <= i < hi then v else BitAt(was, i)
  }

  /** The mask of one word: bits from `from` up to, but not including, `to`. */
  ghost predicate IsMask(mask: Word, from: nat, to: nat) {
    forall i :: 0 <= i < 64 ==> mask[i] == (from <= i < to)
  }

  lemma WordStep(was: seq<Word>, mid: seq<Word>, now: seq<Word>, k: nat, mask: Word, from: nat, to: nat, lo: nat, v: bool)
    requires k < |was| && from < 64 && to <= 64 && IsMask(mask, from, to)
    requires lo <= 64 * k + from && (lo < 64 * k + from ==> from == 0)
    requires RangeIs(was, mid, lo, 64 * k + from, v)
    requires now == mid[k := if v then Or(mid[k], mask) else And(mid[k], Not(mask))]
    ensures to >= from ==> RangeIs(was, now, lo, 64 * k + to, v)
  {
    if to >= from {
      forall i | 0 <= i < 64 * |was|
        ensures BitAt(now, i) == if lo <= i < 64 * k + to then v else BitAt(was, i)
      {
        assert BitAt(mid, i) == if lo <= i < 64 * k + from then v else BitAt(was, i);
        if i / 64 == k {
          assert BitAt(now, i) == if mask[i % 64] then v else BitAt(mid, i);
        }
      }
    }
  }

  /** BITMAP_LAST_WORD_MASK */
  function LastWordMask(n: nat): Word {
    if n % 64 == 0 then ONES else seq(64, i requires 0 <= i < 64 => i < n % 64)
  }

  /** bitmap_set (v) and bitmap_clear (!v), which differ only in the word update. */
  method SetRange(bits: array<Word>, start: nat, count: nat, v: bool)
    requires start + count <= 64 * bits.Length
    modifies bits
    ensures RangeIs(old(bits[..]), bits[..], start, start + count, v)
  {
    hide IsMask, RangeIs;
    ghost var was := bits[..];
    var p := start / 64;
    var size := start + count;
    var nr := count;
    var bitsToSet := 64 - start % 64;
    var mask := Shl(ONES, start % 64);
    ghost var from := start % 64;
    FirstMask(start % 64);
    RangeEmpty(was, start, v);
    while nr - bitsToSet >= 0
      invariant 0 <= nr && from == 64 - bitsToSet && 0 <= from < 64 && IsMask(mask, from, 64)
      invariant 64 * p + from + nr == size && start <= 64 * p + from
      invariant start < 64 * p + from ==> from == 0
      invariant |bits[..]| == |was| && RangeIs(was, bits[..], start, 64 * p + from, v)
      decreases nr
    {
      ghost var mid := bits[..];
      bits[p] := if v then Or(bits[p], mask) else And(bits[p], Not(mask));
      WordStep(was, mid, bits[..], p, mask, from, 64, start, v);
      nr := nr - bitsToSet;
      bitsToSet, from := 64, 0;
      mask := ONES;
      FirstMask(0);
      p := p + 1;
    }
    if nr > 0 {
      ghost var mid := bits[..];
      var last := And(mask, LastWordMask(size));
      LastMask(mask, from, size);
      bits[p] := if v then Or(bits[p], last) else And(bits[p], Not(last));
      WordStep(was, mid, bits[..], p, last, from, from + nr, start, v);
    }
  }

  lemma FirstMask(from: nat)
    requires from < 64
    ensures IsMask(Shl(ONES, from), from, 64)
    ensures IsMask(ONES, 0, 64)
  {
  }

  lemma LastMask(mask: Word, from: nat, size: nat)
    requires IsMask(mask, from, 64) && size % 64 > from
    ensures IsMask(And(mask, LastWordMask(size)), from, size % 64)
  {
  }

  lemma RangeEmpty(was: seq<Word>, start: nat, v: bool)
    ensures RangeIs(was, was, start, start, v)
  {
  }

  // ------------------------------------------------------- one bit at a time

  lemma OneBit(was: seq<Word>, now: seq<Word>, nr: nat, b: bool)
    requires nr < 64 * |was| && |now| == |was|
    requires now == was[nr / 64 := was[nr / 64][nr % 64 := b]]
    ensures RangeIs(was, now, nr, nr + 1, b)
  {
    forall i | 0 <= i < 64 * |was| ensures BitAt(now, i) == if i == nr then b else BitAt(was, i) {
      if i / 64 == nr / 64 && i % 64 == nr % 64 {
        assert i == nr;
      }
    }
  }

  /** BIT_MASK */
  function BitMask(nr: nat): Word { Shl([true] + seq(63, i => false), nr % 64) }

  lemma BitMaskIs(nr: nat)
    ensures forall i :: 0 <= i < 64 ==> BitMask(nr)[i] == (i == nr % 64)
  {
  }

  /** test_and_set_bit (set_bit without the result) */
  method TestAndSetBit(bits: array<Word>, nr: nat) returns (was: bool)
    requires nr < 64 * bits.Length
    modifies bits
    ensures was == BitAt(old(bits[..]), nr)
    ensures RangeIs(old(bits[..]), bits[..], nr, nr + 1, true)
  {
    ghost var before := bits[..];
    var mask, p := BitMask(nr), nr / 64;
    var w := bits[p];
    BitMaskIs(nr);
    bits[p] := Or(w, mask);
    assert Or(w, mask) == w[nr % 64 := true];
    OneBit(before, bits[..], nr, true);
    was := !IsZero(And(w, mask));
    assert And(w, mask)[nr % 64] == w[nr % 64];
  }

  /** test_and_clear_bit */
  method TestAndClearBit(bits: array<Word>, nr: nat) returns (was: bool)
    requires nr < 64 * bits.Length
    modifies bits
    ensures was == BitAt(old(bits[..]), nr)
    ensures RangeIs(old(bits[..]), bits[..], nr, nr + 1, false)
  {
    ghost var before := bits[..];
    var mask, p := BitMask(nr), nr / 64;
    var w := bits[p];
    BitMaskIs(nr);
    bits[p] := And(w, Not(mask));
    assert And(w, Not(mask)) == w[nr % 64 := false];
    OneBit(before, bits[..], nr, false);
    was := !IsZero(And(w, mask));
    assert And(w, mask)[nr % 64] == w[nr % 64];
  }

  /** test_bit */
  method TestBit(bits: array<Word>, nr: nat) returns (set_: bool)
    requires nr < 64 * bits.Length
    ensures set_ == BitAt(bits[..], nr)
  {
    set_ := Shr(bits[nr / 64], nr % 64)[0];
  }

  // ------------------------------------------------------- an aligned zero area

  function PowerOfTwo(k: nat): (p: nat)
    ensures p > 0
  {
    if k == 0 then 1 else 2 * PowerOfTwo(k - 1)
  }

  /** The bits of x that y lacks. */
  function AndNot(x: nat, y: nat): nat {
    if x == 0 then 0 else 2 * AndNot(x / 2, y / 2) + (if y % 2 == 0 then x % 2 else 0)
  }

  /** ALIGN_MASK */
  function AlignMask(x: nat, mask: nat): nat { AndNot(x + mask, mask) }

  /** Clearing the k low bits is dividing by the power of two and multiplying back. */
  lemma {:induction false} ClearLow(x: nat, k: nat)
    ensures AndNot(x, PowerOfTwo(k) - 1) == x / PowerOfTwo(k) * PowerOfTwo(k)
    decreases k, x
  {
    if k == 0 {
      if x != 0 {
        ClearLow(x / 2, 0);
      }
    } else if x != 0 {
      ClearLow(x / 2, k - 1);
      DoubleClear(x, PowerOfTwo(k - 1));
    } else {
      DivUnique(0, PowerOfTwo(k), 0, 0);
    }
  }

  lemma DoubleClear(x: nat, p: nat)
    requires p > 0
    ensures 2 * (x / 2 / p * p) == x / (2 * p) * (2 * p)
    ensures x > 0 ==> AndNot(x, 2 * p - 1) == 2 * AndNot(x / 2, p - 1)
  {
    var q := x / 2 / p;
    var r := x / 2 % p;
    assert x / 2 == q * p + r;
    assert 2 * (q * p) == q * (2 * p);
    DivUnique(x, 2 * p, q, 2 * r + x % 2);
    assert (2 * p - 1) / 2 == p - 1 && (2 * p - 1) % 2 == 1;
  }

  /** The n low bits of x, the lowest first, and the number that bits stand for. */
  function BitsOf(x: nat, n: nat): (s: seq<bool>)
    ensures |s| == n
  {
    if n == 0 then [] else [x % 2 == 1] + BitsOf(x / 2, n - 1)
  }

  function NumberOf(s: seq<bool>): nat {
    if s == [] then 0 else (if s[0] then 1 else 0) + 2 * NumberOf(s[1..])
  }

  lemma {:induction false} AndNotBits(x: nat, y: nat, n: nat, s: seq<bool>)
    requires x < PowerOfTwo(n) && |s| == n
    requires forall i :: 0 <= i < n ==> s[i] == (BitsOf(x, n)[i] && !BitsOf(y, n)[i])
    ensures NumberOf(s) == AndNot(x, y)
  {
    if n != 0 {
      forall i | 0 <= i < n - 1
        ensures s[1..][i] == (BitsOf(x / 2, n - 1)[i] && !BitsOf(y / 2, n - 1)[i])
      {
        assert s[i + 1] == (BitsOf(x, n)[i + 1] && !BitsOf(y, n)[i + 1]);
      }
      AndNotBits(x / 2, y / 2, n - 1, s[1..]);
      assert s[0] == (BitsOf(x, n)[0] && !BitsOf(y, n)[0]);
    }
  }

  /** The macro's & and ~ on 64-bit words, when the sum fits into one, give AlignMask. */
  lemma AlignMaskOnWords(x: nat, mask: nat)
    requires x + mask < PowerOfTwo(64)
    ensures NumberOf(And(BitsOf(x + mask, 64), Not(BitsOf(mask, 64)))) == AlignMask(x, mask)
  {
    AndNotBits(x + mask, mask, 64, And(BitsOf(x + mask, 64), Not(BitsOf(mask, 64))));
  }

  lemma LeastMultiple(x: nat, align: nat, y: nat)
    requires align > 0
    ensures var up := (x + align - 1) / align * align;
      up % align == 0 && up >= x && (y % align == 0 && y >= x ==> y >= up)
  {
    var q := (x + align - 1) / align;
    var r := (x + align - 1) % align;
    assert x + align - 1 == q * align + r;
    DivUnique(q * align, align, q, 0);
    assert (q - 1) * align == q * align - align;
    if y % align == 0 && y >= x && y < q * align {
      var z := y / align;
      assert y == z * align;
      if z >= q {
        MulLe(q, z, align);
      } else {
        MulLe(z, q - 1, align);
      }
    }
  }

  /** For a mask that is one less than a power of two, the macro gives the least
      multiple of that power that is not below x. */
  lemma AlignUpIs(x: nat, k: nat, y: nat)
    ensures var up, align := AlignMask(x, PowerOfTwo(k) - 1), PowerOfTwo(k);
      && up % align == 0 && up >= x
      && (y % align == 0 && y >= x ==> y >= up)
  {
    hide AndNot, PowerOfTwo;
    ClearLow(x + PowerOfTwo(k) - 1, k);
    LeastMultiple(x, PowerOfTwo(k), y);
  }

  /** nr zero bits from index i, all below size. */
  ghost predicate ZeroArea(bits: seq<Word>, size: nat, i: nat, nr: nat)
    requires size <= 64 * |bits|
  {
    i + nr <= size && forall k :: i <= k < i + nr ==> !BitAt(bits, k)
  }

  /** bitmap_find_next_zero_area: the least aligned index from start on that has nr
      zero bits within size; a value above size exactly when there is none. For nr
      = 0, the first zero bit or the size, aligned. The mask is one less than a power
      of two. */
  method FindNextZeroArea(bits: seq<Word>, size: nat, start0: nat, nr: nat, alignMask: nat, ghost k: nat)
    returns (r: nat)
    requires size <= 64 * |bits| && alignMask == PowerOfTwo(k) - 1
    ensures var align := PowerOfTwo(k);
      nr >= 1 && r <= size ==>
        r >= start0 && r % align == 0 && ZeroArea(bits, size, r, nr)
        && forall i :: start0 <= i < r && i % align == 0 ==> !ZeroArea(bits, size, i, nr)
    ensures var align := PowerOfTwo(k);
      nr >= 1 && r > size ==> forall i :: i >= start0 && i % align == 0 ==> !ZeroArea(bits, size, i, nr)
    ensures nr == 0 ==> r == AlignMask(Scan(bits, size, start0, false), alignMask)
  {
    ghost var align := PowerOfTwo(k);
    var start := start0;
    while true
      invariant start0 <= start && (start > start0 ==> start <= size)
      invariant nr >= 1 ==> forall i :: start0 <= i < start && i % align == 0 ==> !ZeroArea(bits, size, i, nr)
      invariant nr == 0 ==> start == start0
      decreases size + 1 - start
    {
      var zero := FindNextZeroBit(bits, size, start);
      var index := AlignMask(zero, alignMask);
      if nr >= 1 {
        NoAreaBelow(bits, size, start, zero, nr, k);
      }
      AlignUpIs(zero, k, 0);
      var end := index + nr;
      if end > size {
        return end;
      }
      var i := FindNextBit(bits, end, index);
      if i >= end {
        return index;
      }
      if nr >= 1 {
        NoAreaAcross(bits, size, index, i, nr);
      }
      start := i + 1;
    }
  }

  /** Between start and the next zero bit no area begins, nor before its alignment. */
  lemma NoAreaBelow(bits: seq<Word>, size: nat, start: nat, zero: nat, nr: nat, k: nat)
    requires size <= 64 * |bits| && nr >= 1 && zero == Scan(bits, size, start, false)
    ensures forall i :: start <= i < AlignMask(zero, PowerOfTwo(k) - 1) && i % PowerOfTwo(k) == 0 ==>
      !ZeroArea(bits, size, i, nr)
  {
    forall i: nat | start <= i < AlignMask(zero, PowerOfTwo(k) - 1) && i % PowerOfTwo(k) == 0
      ensures !ZeroArea(bits, size, i, nr)
    {
      AlignUpIs(zero, k, i);
      if i < size {
        assert BitAt(bits, i);
      }
    }
  }

  /** A set bit at i rules out every area from `index` to i. */
  lemma NoAreaAcross(bits: seq<Word>, size: nat, index: nat, i: nat, nr: nat)
    requires size <= 64 * |bits| && index <= i < index + nr <= size
    requires BitAt(bits, i)
    ensures forall j :: index <= j <= i ==> !ZeroArea(bits, size, j, nr)
  {
  }
}
