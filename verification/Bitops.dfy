// Word-at-a-time bit searching and setting (Main/linux/bitops.h, bitops.c,
// bitmap.c). An unsigned long is its 64 bits, bit 0 first: these files use no
// other operation on words than &, |, ^, ~, << and >>.

module Bitops {
  type Word = w: seq<bool> | |w| == 64 witness seq(64, i => false)

  const ONES: Word := seq(64, i => true)

  function And(a: Word, b: Word): Word { seq(64, i requires 0 <= i < 64 => a[i] && b[i]) }

  function Or(a: Word, b: Word): Word { seq(64, i requires 0 <= i < 64 => a[i] || b[i]) }

  function Not(a: Word): Word { seq(64, i requires 0 <= i < 64 => !a[i]) }

  function Shl(a: Word, n: nat): Word { seq(64, i requires 0 <= i < 64 => i >= n && a[i - n]) }

  function Shr(a: Word, n: nat): Word { seq(64, i requires 0 <= i < 64 => i + n < 64 && a[i + n]) }

  predicate IsZero(a: Word) { forall i :: 0 <= i < 64 ==> !a[i] }

  predicate LowZero(a: Word, n: nat) { forall i :: 0 <= i < 64 && i < n ==> !a[i] }

  predicate HighZero(a: Word, n: nat) { forall i :: 0 <= i < 64 && i >= 64 - n ==> !a[i] }

  function BitAt(bits: seq<Word>, i: nat): bool
    requires i < 64 * |bits|
  {
    bits[i / 64][i % 64]
  }

  /** The first index from i on whose bit is v, or size. */
  function Scan(bits: seq<Word>, size: nat, i: nat, v: bool): (r: nat)
    requires size <= 64 * |bits|
    ensures r <= size
    ensures i <= size ==> i <= r
    ensures i >= size ==> r == size
    ensures r < size ==> BitAt(bits, r) == v
    ensures forall k :: i <= k < r && k < size ==> BitAt(bits, k) != v
    decreases size - i
  {
    if i >= size then size
    else if BitAt(bits, i) == v then i
    else Scan(bits, size, i + 1, v)
  }

  lemma {:induction false} ScanFrom(bits: seq<Word>, size: nat, i: nat, j: nat, v: bool)
    requires size <= 64 * |bits| && i <= j <= size
    requires forall k :: i <= k < j ==> BitAt(bits, k) != v
    ensures Scan(bits, size, i, v) == Scan(bits, size, j, v)
    decreases j - i
  {
    if i < j {
      ScanFrom(bits, size, i + 1, j, v);
    }
  }

  // --------------------------------------------------------- within a word

  /** The lowest set bit of word is among the `window` lowest bits of w, which are
      the bits of word from num on. */
  ghost predicate LowWindow(word: Word, w: Word, num: nat, window: nat) {
    && num + window <= 64
    && (forall i :: 0 <= i < window ==> w[i] == word[i + num])
    && LowZero(word, num) && !LowZero(w, window)
  }

  lemma HalveLow(word: Word, w: Word, num: nat, half: nat)
    requires half > 0 && LowWindow(word, w, num, 2 * half)
    ensures LowZero(w, half) ==> LowWindow(word, Shr(w, half), num + half, half)
    ensures !LowZero(w, half) ==> LowWindow(word, w, num, half)
  {
    if LowZero(w, half) {
      var k :| 0 <= k < 2 * half && w[k];
      assert Shr(w, half)[k - half];
      forall i | 0 <= i < num + half ensures !word[i] {
        if i >= num {
          assert w[i - num] == word[i - num + num];
        }
      }
    }
  }

  /** One test of bitops_ffsl: skip the lower half of the window if it is zero. */
  method NarrowLow(word: Word, w: Word, num: nat, half: nat) returns (w': Word, num': nat)
    requires half > 0 && LowWindow(word, w, num, 2 * half)
    ensures LowWindow(word, w', num', half)
  {
    HalveLow(word, w, num, half);
    w', num' := w, num;
    if LowZero(w, half) {
      num' := num + half;
      w' := Shr(w, half);
    }
  }

  /** bitops_ffsl: the lowest set bit, halving the window at each test. */
  method Ffsl(word: Word) returns (num: nat)
    requires !IsZero(word)
    ensures num < 64 && word[num] && LowZero(word, num)
  {
    var w;
    w, num := NarrowLow(word, word, 0, 32);
    w, num := NarrowLow(word, w, num, 16);
    w, num := NarrowLow(word, w, num, 8);
    w, num := NarrowLow(word, w, num, 4);
    w, num := NarrowLow(word, w, num, 2);
    w, num := NarrowLow(word, w, num, 1);
    LastLow(word, w, num);
  }

  lemma LastLow(word: Word, w: Word, num: nat)
    requires LowWindow(word, w, num, 1)
    ensures num < 64 && word[num] && LowZero(word, num)
  {
    assert w[0] == word[0 + num];
  }

  predicate NoneAbove(word: Word, num: nat) { forall i :: num < i < 64 ==> !word[i] }

  /** The highest set bit of word is among the `window` highest bits of w, which
      are the bits of word from num down. */
  ghost predicate HighWindow(word: Word, w: Word, num: nat, window: nat) {
    && window <= num + 1 <= 64
    && (forall i :: 64 - window <= i < 64 ==> w[i] == word[i - (63 - num)])
    && NoneAbove(word, num) && !HighZero(w, window)
  }

  lemma HalveHigh(word: Word, w: Word, num: nat, half: nat)
    requires 0 < half <= 32 && HighWindow(word, w, num, 2 * half)
    ensures HighZero(w, half) ==> HighWindow(word, Shl(w, half), num - half, half)
    ensures !HighZero(w, half) ==> HighWindow(word, w, num, half)
  {
    if HighZero(w, half) {
      var k :| 64 - 2 * half <= k < 64 && w[k];
      assert Shl(w, half)[k + half];
      forall i | num - half < i < 64 ensures !word[i] {
        if i <= num {
          assert w[i + (63 - num)] == word[i];
        }
      }
    }
  }

  /** One test of bitops_flsl: skip the upper half of the window if it is zero. */
  method NarrowHigh(word: Word, w: Word, num: nat, half: nat) returns (w': Word, num': nat)
    requires 0 < half <= 32 && HighWindow(word, w, num, 2 * half)
    ensures HighWindow(word, w', num', half)
  {
    HalveHigh(word, w, num, half);
    w', num' := w, num;
    if HighZero(w, half) {
      num' := num - half;
      w' := Shl(w, half);
    }
  }

  /** bitops_flsl: the highest set bit. */
  method Flsl(word: Word) returns (num: nat)
    requires !IsZero(word)
    ensures num < 64 && word[num] && NoneAbove(word, num)
  {
    var w;
    w, num := NarrowHigh(word, word, 63, 32);
    w, num := NarrowHigh(word, w, num, 16);
    w, num := NarrowHigh(word, w, num, 8);
    w, num := NarrowHigh(word, w, num, 4);
    w, num := NarrowHigh(word, w, num, 2);
    w, num := NarrowHigh(word, w, num, 1);
    LastHigh(word, w, num);
  }

  lemma LastHigh(word: Word, w: Word, num: nat)
    requires HighWindow(word, w, num, 1)
    ensures num < 64 && word[num] && NoneAbove(word, num)
  {
    assert w[63] == word[63 - (63 - num)];
  }

  /** ffz */
  method Ffz(word: Word) returns (num: nat)
    requires !IsZero(Not(word))
    ensures num < 64 && !word[num] && forall i :: 0 <= i < num ==> word[i]
  {
    num := Ffsl(Not(word));
    forall i | 0 <= i < num ensures word[i] {
      assert !Not(word)[i];
    }
  }

  // ------------------------------------------------------------ across words

  /** Bits of word k at positions lo .. hi all differ from v. */
  ghost predicate NoneIn(w: Word, lo: nat, hi: nat, v: bool) {
    forall i :: 0 <= i < 64 && lo <= i < hi ==> w[i] != v
  }

  lemma WordClear(bits: seq<Word>, k: nat, lo: nat, hi: nat, v: bool)
    requires k < |bits| && hi <= 64 && NoneIn(bits[k], lo, hi, v)
    ensures forall i :: 64 * k + lo <= i < 64 * k + hi ==> BitAt(bits, i) != v
  {
    forall i | 64 * k + lo <= i < 64 * k + hi ensures BitAt(bits, i) != v {
      assert i / 64 == k && i % 64 == i - 64 * k;
    }
  }

  lemma ScanHit(bits: seq<Word>, size: nat, i: nat, r: nat, v: bool)
    requires size <= 64 * |bits| && i <= r < size && BitAt(bits, r) == v
    requires forall k :: i <= k < r ==> BitAt(bits, k) != v
    ensures Scan(bits, size, i, v) == r
  {
    ScanFrom(bits, size, i, r, v);
  }

  /** found_first and found_middle of find_next_bit: the answer lies in word k,
      whose first `left` bits count (all of them if left >= 64); tmp has the bits
      below `from` cleared. */
  method FinishSet(bits: seq<Word>, size: nat, offset: nat, k: nat, tmp0: Word, from: nat, partial: bool)
    returns (r: nat)
    requires offset <= size <= 64 * |bits| && k < |bits| && from < 64 && offset <= 64 * k + from < size
    requires forall i :: offset <= i < 64 * k + from ==> !BitAt(bits, i)
    requires forall i :: 0 <= i < 64 ==> tmp0[i] == (i >= from && bits[k][i])
    requires if partial then size - 64 * k < 64 else size - 64 * k >= 64 && !IsZero(tmp0)
    ensures r == Scan(bits, size, offset, true)
  {
    var result := 64 * k;
    var tmp := tmp0;
    if partial {
      var left := size - result;
      tmp := And(tmp, Shr(ONES, 64 - left));
      if IsZero(tmp) {
        assert NoneIn(bits[k], from, left, true) by {
          forall i | from <= i < left ensures !bits[k][i] {
            assert !tmp[i];
          }
        }
        WordClear(bits, k, from, left, true);
        ScanFrom(bits, size, offset, size, true);
        return result + left;
      }
    }
    var low := Ffsl(tmp);
    assert NoneIn(bits[k], from, low, true) by {
      forall i | from <= i < low ensures !bits[k][i] {
        assert !tmp[i];
      }
    }
    WordClear(bits, k, from, low, true);
    r := result + low;
    assert r / 64 == k && r % 64 == low;
    ScanHit(bits, size, offset, r, true);
  }

  /** find_next_bit equals a linear scan. */
  method FindNextBit(bits: seq<Word>, size: nat, offset: nat) returns (r: nat)
    requires size <= 64 * |bits|
    ensures r == Scan(bits, size, offset, true)
  {
    if offset >= size {
      return size;
    }
    var k := offset / 64;
    var o := offset % 64;
    if o != 0 {
      var tmp := And(bits[k], Shl(ONES, o));
      if size - 64 * k < 64 {
        r := FinishSet(bits, size, offset, k, tmp, o, true);
        return;
      }
      if !IsZero(tmp) {
        r := FinishSet(bits, size, offset, k, tmp, o, false);
        return;
      }
      assert NoneIn(bits[k], o, 64, true) by {
        forall i | o <= i < 64 ensures !bits[k][i] {
          assert !tmp[i];
        }
      }
      WordClear(bits, k, o, 64, true);
      k := k + 1;
    }
    while size - 64 * k >= 64
      invariant offset <= 64 * k <= size
      invariant forall i :: offset <= i < 64 * k ==> !BitAt(bits, i)
    {
      if !IsZero(bits[k]) {
        r := FinishSet(bits, size, offset, k, bits[k], 0, false);
        return;
      }
      WordClear(bits, k, 0, 64, true);
      k := k + 1;
    }
    if size == 64 * k {
      ScanFrom(bits, size, offset, size, true);
      return size;
    }
    r := FinishSet(bits, size, offset, k, bits[k], 0, true);
  }

  /** The same for zero bits, with ones put in the bits that do not count. */
  method FinishZero(bits: seq<Word>, size: nat, offset: nat, k: nat, tmp0: Word, from: nat, partial: bool)
    returns (r: nat)
    requires offset <= size <= 64 * |bits| && k < |bits| && from < 64 && offset <= 64 * k + from < size
    requires forall i :: offset <= i < 64 * k + from ==> BitAt(bits, i)
    requires forall i :: 0 <= i < 64 ==> tmp0[i] == (i < from || bits[k][i])
    requires if partial then size - 64 * k < 64 else size - 64 * k >= 64 && !IsZero(Not(tmp0))
    ensures r == Scan(bits, size, offset, false)
  {
    var result := 64 * k;
    var tmp := tmp0;
    if partial {
      var left := size - result;
      tmp := Or(tmp, Shl(ONES, left));
      if tmp == ONES {
        assert NoneIn(bits[k], from, left, false) by {
          forall i | from <= i < left ensures bits[k][i] {
            assert tmp[i];
          }
        }
        WordClear(bits, k, from, left, false);
        ScanFrom(bits, size, offset, size, false);
        return result + left;
      }
      NotOnes(tmp);
    }
    var low := Ffz(tmp);
    assert NoneIn(bits[k], from, low, false) by {
      forall i | from <= i < low ensures bits[k][i] {
        assert tmp[i];
      }
    }
    WordClear(bits, k, from, low, false);
    r := result + low;
    assert r / 64 == k && r % 64 == low;
    ScanHit(bits, size, offset, r, false);
  }

  lemma NotOnes(w: Word)
    requires w != ONES
    ensures !IsZero(Not(w))
  {
    if IsZero(Not(w)) {
      NotZeroOnes(w);
    }
  }

  lemma NotZeroOnes(w: Word)
    requires IsZero(Not(w))
    ensures w == ONES
  {
    forall i | 0 <= i < 64 ensures w[i] {
      assert !Not(w)[i];
    }
  }

  /** find_next_zero_bit equals a linear scan. */
  method FindNextZeroBit(bits: seq<Word>, size: nat, offset: nat) returns (r: nat)
    requires size <= 64 * |bits|
    ensures r == Scan(bits, size, offset, false)
  {
    if offset >= size {
      return size;
    }
    var k := offset / 64;
    var o := offset % 64;
    if o != 0 {
      var tmp := Or(bits[k], Shr(ONES, 64 - o));
      if size - 64 * k < 64 {
        r := FinishZero(bits, size, offset, k, tmp, o, true);
        return;
      }
      if !IsZero(Not(tmp)) {
        r := FinishZero(bits, size, offset, k, tmp, o, false);
        return;
      }
      NotZeroOnes(tmp);
      assert NoneIn(bits[k], o, 64, false) by {
        forall i | o <= i < 64 ensures bits[k][i] {
          assert tmp[i];
        }
      }
      WordClear(bits, k, o, 64, false);
      k := k + 1;
    }
    while size - 64 * k >= 64
      invariant offset <= 64 * k <= size
      invariant forall i :: offset <= i < 64 * k ==> BitAt(bits, i)
    {
      if !IsZero(Not(bits[k])) {
        r := FinishZero(bits, size, offset, k, bits[k], 0, false);
        return;
      }
      NotZeroOnes(bits[k]);
      WordClear(bits, k, 0, 64, false);
      k := k + 1;
    }
    if size == 64 * k {
      ScanFrom(bits, size, offset, size, false);
      return size;
    }
    r := FinishZero(bits, size, offset, k, bits[k], 0, true);
  }

  /** find_last_bit: the highest set bit below size, or size. */
  method FindLastBit(bits: seq<Word>, size: nat) returns (r: nat)
    requires size <= 64 * |bits|
    ensures r <= size
    ensures r < size ==> BitAt(bits, r) && forall i :: r < i < size ==> !BitAt(bits, i)
    ensures r == size ==> forall i :: 0 <= i < size ==> !BitAt(bits, i)
  {
    var words := size / 64;
    var rest := size % 64;
    if rest != 0 {
      var tmp := And(bits[words], Shr(ONES, 64 - rest));
      if !IsZero(tmp) {
        var high := Flsl(tmp);
        assert NoneIn(bits[words], high + 1, rest, true) by {
          forall i | high < i < rest ensures !bits[words][i] {
            assert !tmp[i];
          }
        }
        WordClear(bits, words, high + 1, rest, true);
        r := words * 64 + high;
        assert r / 64 == words && r % 64 == high;
        return;
      }
      assert NoneIn(bits[words], 0, rest, true) by {
        forall i | 0 <= i < rest ensures !bits[words][i] {
          assert !tmp[i];
        }
      }
      WordClear(bits, words, 0, rest, true);
    }
    while words > 0
      invariant 0 <= words && 64 * words <= size
      invariant forall i :: 64 * words <= i < size ==> !BitAt(bits, i)
    {
      words := words - 1;
      if !IsZero(bits[words]) {
        var high := Flsl(bits[words]);
        WordClear(bits, words, high + 1, 64, true);
        r := words * 64 + high;
        assert r / 64 == words && r % 64 == high;
        return;
      }
      WordClear(bits, words, 0, 64, true);
    }
    return size;
  }
}
