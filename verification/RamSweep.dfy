// The round-robin sweep of ram_save_block inspects every page before it gives
// up, and each page it sends leaves one dirty page less.

module RamSweep {
  import opened Common
  import opened Wire
  import opened RamState

  function Index(bs: seq<Block>, b: nat, p: nat): nat
    requires b <= |bs|
  {
    TotalPages(bs[..b]) + p
  }

  lemma IndexStep(bs: seq<Block>, b: nat)
    requires b < |bs|
    ensures Index(bs, b + 1, 0) == Index(bs, b, bs[b].pages)
  {
    assert bs[..b + 1][..b] == bs[..b];
  }

  lemma {:induction false} IndexMonotone(bs: seq<Block>, b: nat, c: nat)
    requires b <= c <= |bs|
    ensures Index(bs, b, 0) <= Index(bs, c, 0)
    decreases c - b
  {
    if b < c {
      IndexStep(bs, b);
      IndexMonotone(bs, b + 1, c);
    }
  }

  lemma IndexBound(bs: seq<Block>, b: nat, p: nat)
    requires IsSlot(bs, b, p)
    ensures Index(bs, b, p) < TotalPages(bs)
  {
    IndexStep(bs, b);
    IndexMonotone(bs, b + 1, |bs|);
    assert bs[..|bs|] == bs;
  }

  lemma IndexInjective(bs: seq<Block>, b: nat, p: nat, c: nat, q: nat)
    requires IsSlot(bs, b, p) && IsSlot(bs, c, q)
    requires Index(bs, b, p) == Index(bs, c, q)
    ensures b == c && p == q
  {
    IndexStep(bs, b);
    IndexStep(bs, c);
    if b < c {
      IndexMonotone(bs, b + 1, c);
    } else if c < b {
      IndexMonotone(bs, c + 1, b);
    }
  }

  /** Steps of the sweep from (b, p) to (c, q), wrapping at the end. */
  function Dist(bs: seq<Block>, b: nat, p: nat, c: nat, q: nat): int
    requires IsSlot(bs, b, p) && IsSlot(bs, c, q)
  {
    var i, j := Index(bs, b, p), Index(bs, c, q);
    if i <= j then j - i else j - i + TotalPages(bs)
  }

  lemma DistStep(bs: seq<Block>, b: nat, p: nat, c: nat, q: nat)
    requires IsSlot(bs, b, p) && IsSlot(bs, c, q) && (b, p) != (c, q)
    requires bs[0].pages > 0 && (b + 1 < |bs| ==> bs[b + 1].pages > 0)
    ensures var n := NextSlot(bs, b, p);
            IsSlot(bs, n.0, n.1) && Dist(bs, n.0, n.1, c, q) == Dist(bs, b, p, c, q) - 1
  {
    IndexStep(bs, b);
    IndexBound(bs, b, p);
    IndexBound(bs, c, q);
    if Index(bs, b, p) == Index(bs, c, q) {
      IndexInjective(bs, b, p, c, q);
    }
    if b + 1 == |bs| {
      assert bs[..b + 1] == bs;
    }
  }

  /** One step forward is one step further from any start, until it wraps. */
  lemma DistAdvance(bs: seq<Block>, b: nat, p: nat, c: nat, q: nat)
    requires IsSlot(bs, b, p) && IsSlot(bs, c, q)
    requires bs[0].pages > 0 && (c + 1 < |bs| ==> bs[c + 1].pages > 0)
    ensures var n := NextSlot(bs, c, q); var d := Dist(bs, b, p, c, q) + 1;
            && IsSlot(bs, n.0, n.1)
            && Dist(bs, b, p, n.0, n.1) == (if d < TotalPages(bs) then d else 0)
            && (n == (b, p) <==> d == TotalPages(bs))
  {
    IndexStep(bs, c);
    IndexBound(bs, b, p);
    IndexBound(bs, c, q);
    if c + 1 == |bs| {
      assert bs[..c + 1] == bs;
    }
    var n := NextSlot(bs, c, q);
    IndexBound(bs, n.0, n.1);
    if Index(bs, n.0, n.1) == Index(bs, b, p) {
      IndexInjective(bs, n.0, n.1, b, p);
    }
  }

  /** The sweep finds the nearest dirty page in sweep order, and misses only
      when the n pages it looks at are all clean. */
  lemma {:induction false} SweepIsNearest(s: Sender, b: nat, p: nat, n: nat, c: nat, q: nat)
    requires Valid(s) && IsSlot(s.blocks, b, p) && IsSlot(s.blocks, c, q)
    requires IsDirty(s, c, q) && Dist(s.blocks, b, p, c, q) < n
    ensures var r := Sweep(s, b, p, n);
            r.Some? && Dist(s.blocks, b, p, r.value.0, r.value.1) <= Dist(s.blocks, b, p, c, q)
    decreases n
  {
    assert s.blocks[0] in s.blocks && (b + 1 < |s.blocks| ==> s.blocks[b + 1] in s.blocks);
    DistNonNegative(s.blocks, b, p, c, q);
    if !IsDirty(s, b, p) {
      var next := NextSlot(s.blocks, b, p);
      DistStep(s.blocks, b, p, c, q);
      SweepIsNearest(s, next.0, next.1, n - 1, c, q);
      var r := Sweep(s, next.0, next.1, n - 1).value;
      DistStep(s.blocks, b, p, r.0, r.1);
    }
  }

  lemma DistNonNegative(bs: seq<Block>, b: nat, p: nat, c: nat, q: nat)
    requires IsSlot(bs, b, p) && IsSlot(bs, c, q)
    ensures 0 <= Dist(bs, b, p, c, q) < TotalPages(bs)
  {
    IndexBound(bs, b, p);
    IndexBound(bs, c, q);
  }

  lemma FullSweep(s: Sender, b: nat, p: nat)
    requires Valid(s) && IsSlot(s.blocks, b, p)
    ensures Sweep(s, b, p, TotalPages(s.blocks)).None? <==> NoneDirty(s)
  {
    forall c, q | IsSlot(s.blocks, c, q) && IsDirty(s, c, q)
      ensures Sweep(s, b, p, TotalPages(s.blocks)).Some?
    {
      DistNonNegative(s.blocks, b, p, c, q);
      SweepIsNearest(s, b, p, TotalPages(s.blocks), c, q);
    }
  }

  // ------------------------------------------------- counting dirty pages

  lemma {:induction false} ClearOutside(dirty: seq<bv8>, a: nat, lo: nat, n: nat)
    requires lo + n <= |dirty| && a < |dirty| && (a < lo || lo + n <= a)
    ensures DirtyIn(Clear(dirty, a), lo, n) == DirtyIn(dirty, lo, n)
  {
    if n > 0 {
      ClearOutside(dirty, a, lo, n - 1);
    }
  }

  lemma ClearedBit(x: bv8)
    ensures (x & !MIGRATION_DIRTY_FLAG) & MIGRATION_DIRTY_FLAG == 0
  {
  }

  lemma {:induction false} ClearInside(dirty: seq<bv8>, a: nat, lo: nat, n: nat)
    requires lo + n <= |dirty| && lo <= a < lo + n
    requires dirty[a] & MIGRATION_DIRTY_FLAG != 0
    ensures DirtyIn(Clear(dirty, a), lo, n) + 1 == DirtyIn(dirty, lo, n)
  {
    if a == lo + n - 1 {
      ClearOutside(dirty, a, lo, n - 1);
      ClearedBit(dirty[a]);
    } else {
      ClearInside(dirty, a, lo, n - 1);
    }
  }

  lemma {:induction false} PairwiseAt(bs: seq<Block>, i: nat, j: nat)
    requires Pairwise(bs) && i < j < |bs|
    ensures Apart(bs[i], bs[j])
  {
    if i == 0 {
      assert bs[j] == bs[1..][j - 1];
    } else {
      PairwiseAt(bs[1..], i - 1, j - 1);
    }
  }

  lemma ApartAt(bs: seq<Block>, i: nat, j: nat)
    requires Pairwise(bs) && i < |bs| && j < |bs| && i != j
    ensures Apart(bs[i], bs[j])
  {
    if i < j { PairwiseAt(bs, i, j); } else { PairwiseAt(bs, j, i); }
  }

  /** Clearing one page of block b changes the count over the first k blocks by
      one exactly when block b is among them. */
  lemma {:induction false} ClearCounts(bs: seq<Block>, k: nat, dirty: seq<bv8>, b: nat, p: nat)
    requires Pairwise(bs) && k <= |bs| && IsSlot(bs, b, p)
    requires forall x :: x in bs ==> x.first + x.pages <= |dirty|
    requires bs[b] in bs && dirty[bs[b].first + p] & MIGRATION_DIRTY_FLAG != 0
    ensures (forall x :: x in bs[..k] ==> x in bs)
    ensures DirtyOf(bs[..k], Clear(dirty, bs[b].first + p)) + (if b < k then 1 else 0)
         == DirtyOf(bs[..k], dirty)
  {
    if k > 0 {
      assert bs[..k][..k - 1] == bs[..k - 1];
      assert bs[k - 1] in bs;
      ClearCounts(bs, k - 1, dirty, b, p);
      if b == k - 1 {
        ClearInside(dirty, bs[b].first + p, bs[b].first, bs[b].pages);
      } else {
        ApartAt(bs, b, k - 1);
        ClearOutside(dirty, bs[b].first + p, bs[k - 1].first, bs[k - 1].pages);
      }
    }
  }

  /** cpu_physical_memory_reset_dirty takes the migration flag from one byte and
      nothing else: the flags of the other clients stay. */
  lemma ClearKeepsFlags(dirty: seq<bv8>, a: nat, i: nat)
    requires a < |dirty| && i < |dirty|
    ensures var d := Clear(dirty, a);
      && d[a] & MIGRATION_DIRTY_FLAG == 0
      && d[a] | MIGRATION_DIRTY_FLAG == dirty[a] | MIGRATION_DIRTY_FLAG
      && (i != a ==> d[i] == dirty[i])
  {
    RestKept(dirty[a]);
  }

  lemma RestKept(x: bv8)
    ensures (x & !MIGRATION_DIRTY_FLAG) & MIGRATION_DIRTY_FLAG == 0
    ensures (x & !MIGRATION_DIRTY_FLAG) | MIGRATION_DIRTY_FLAG == x | MIGRATION_DIRTY_FLAG
  {
  }

  /** Stage 1 takes no flag from any byte, sets all of them on the pages of the blocks
      that lack the migration flag, and touches no other byte. */
  lemma MarkAllMarks(bs: seq<Block>, dirty: seq<bv8>, i: nat)
    requires i < |dirty|
    ensures var d := MarkAll(bs, dirty);
      && d[i] | dirty[i] == d[i]
      && (d[i] & MIGRATION_DIRTY_FLAG == dirty[i] & MIGRATION_DIRTY_FLAG
          <== forall x :: x in bs ==> !(x.first <= i < x.first + x.pages))
      && (d[i] & MIGRATION_DIRTY_FLAG != 0 <== exists x :: x in bs && x.first <= i < x.first + x.pages)
      && (d[i] != dirty[i] ==> dirty[i] & MIGRATION_DIRTY_FLAG == 0 && d[i] == 0xff)
      && MarkAll(bs, d) == d
  {
    AllFlags(dirty[i]);
    var d := MarkAll(bs, dirty);
    forall k | 0 <= k < |d| ensures MarkAll(bs, d)[k] == d[k] {
      AllFlags(dirty[k]);
    }
  }

  lemma AllFlags(x: bv8)
    ensures x | 0xff == 0xff && x | x == x && 0xff as bv8 & MIGRATION_DIRTY_FLAG != 0
    ensures 0xff as bv8 | x == 0xff
  {
  }

  /** A store of the guest sets every flag of one page and changes its contents; all
      other dirty bytes and all other pages stay. */
  lemma WriteMarks(s: Sender, w: Write, i: nat, id: Id, p: nat)
    requires Machine(s) && WriteFits(s, w) && i < |s.dirty| && id in s.mem && p < |s.mem[id]|
    ensures s.blocks[w.block] in s.blocks
    ensures var x, t := s.blocks[w.block], GuestWrite(s, w);
      && t == s.(mem := t.mem, dirty := t.dirty) && |t.dirty| == |s.dirty| && t.mem.Keys == s.mem.Keys
      && t.dirty[i] == (if i == x.first + w.page then 0xff else s.dirty[i])
      && |t.mem[id]| == |s.mem[id]|
      && t.mem[id][p] == (if (id, p) == (x.id, w.page) then w.data else s.mem[id][p])
  {
  }

  /** Pages other than the cleared one keep their dirty bit. */
  lemma ClearKeepsOthers(s: Sender, s': Sender, b: nat, p: nat, c: nat, q: nat)
    requires Valid(s) && IsSlot(s.blocks, b, p) && IsSlot(s.blocks, c, q)
    requires s.blocks[b] in s.blocks && s.blocks[c] in s.blocks
    requires s'.blocks == s.blocks && s'.dirty == Clear(s.dirty, s.blocks[b].first + p)
    ensures IsDirty(s', c, q) <==> IsDirty(s, c, q) && (b, p) != (c, q)
  {
    ClearedBit(s.dirty[s.blocks[b].first + p]);
    if b != c {
      ApartAt(s.blocks, b, c);
    }
  }

  /** Together with ClearCounts, what Remaining counts: it is zero when no page is dirty,
      and one less when a dirty page has been cleared. */
  lemma RemainingZero(s: Sender)
    requires Valid(s)
    ensures Remaining(s) == 0 <==> NoneDirty(s)
  {
    BlocksClean(s.blocks, s.dirty, |s.blocks|);
    assert s.blocks[..|s.blocks|] == s.blocks;
    if NoneDirty(s) {
      forall b: nat | b < |s.blocks| ensures CleanFrom(s.dirty, s.blocks[b].first, s.blocks[b].pages) {
        assert s.blocks[b] in s.blocks;
        forall i | s.blocks[b].first <= i < s.blocks[b].first + s.blocks[b].pages
          ensures s.dirty[i] & MIGRATION_DIRTY_FLAG == 0
        {
          assert IsSlot(s.blocks, b, i - s.blocks[b].first);
        }
      }
    }
  }

  predicate CleanFrom(dirty: seq<bv8>, lo: nat, n: nat)
    requires lo + n <= |dirty|
  {
    forall i :: lo <= i < lo + n ==> dirty[i] & MIGRATION_DIRTY_FLAG == 0
  }

  lemma {:induction false} BlocksClean(bs: seq<Block>, dirty: seq<bv8>, k: nat)
    requires k <= |bs| && forall x :: x in bs ==> x.first + x.pages <= |dirty|
    ensures DirtyOf(bs[..k], dirty) == 0 <==>
      forall b: nat :: b < k ==> bs[b] in bs && CleanFrom(dirty, bs[b].first, bs[b].pages)
  {
    if k > 0 {
      assert bs[..k][..k - 1] == bs[..k - 1] && bs[k - 1] in bs;
      BlocksClean(bs, dirty, k - 1);
      PagesClean(dirty, bs[k - 1].first, bs[k - 1].pages);
      hide CleanFrom;
    }
  }

  lemma {:induction false} PagesClean(dirty: seq<bv8>, lo: nat, n: nat)
    requires lo + n <= |dirty|
    ensures DirtyIn(dirty, lo, n) == 0 <==> CleanFrom(dirty, lo, n)
  {
    if n > 0 {
      PagesClean(dirty, lo, n - 1);
    }
  }

  /** ram_save_block returns 0 exactly when no page is dirty, and then changes
      nothing; otherwise it leaves one dirty page less. */
  lemma SaveBlockProgress(s: Sender)
    requires Ready(s)
    ensures var r := SaveBlock(s);
      && Ready(r.s) && r.s.last.Some?
      && r.s.ps == s.ps && r.s.blocks == s.blocks && r.s.mem == s.mem
      && (r.sent == 0 <==> NoneDirty(s))
      && (r.sent == 0 ==> r.out == [] && r.s == s)
      && (r.sent != 0 ==> Remaining(r.s) + 1 == Remaining(s))
  {
    hide Sweep, DirtyOf, DirtyIn, Clear, Uniform, PageRecord;
    assert s.blocks[0] in s.blocks;
    var r := SaveBlock(s);
    FullSweep(s, StartBlock(s), s.lastPage);
    if r.sent != 0 {
      assert s.blocks[..|s.blocks|] == s.blocks;
      ClearCounts(s.blocks, |s.blocks|, s.dirty, r.s.last.value, r.s.lastPage);
    } else {
      assert IsSlot(s.blocks, 0, 0);
    }
  }

  /** bytes_sent is the size of what stands behind the header and the name: one byte, or
      the whole page. */
  lemma SentIsBody(s: Sender)
    requires Ready(s) && SaveBlock(s).sent != 0
    ensures var r := SaveBlock(s);
      && r.s.last.Some? && r.s.last.value < |s.blocks|
      && |r.out| == 8 + (if s.last == r.s.last then 0 else 1 + |s.blocks[r.s.last.value].id|) + r.sent
      && (r.sent == 1 || r.sent == s.ps)
  {
    hide Sweep, PutBe64, Uniform;
    assert s.blocks[0] in s.blocks;
  }

  /** The page ram_save_block sends is dirty, and no dirty page is nearer to the
      cursor in sweep order. */
  lemma SaveBlockNearest(s: Sender, c: nat, q: nat)
    requires Ready(s) && SaveBlock(s).sent != 0
    requires IsSlot(s.blocks, c, q) && IsDirty(s, c, q)
    ensures var r := SaveBlock(s).s;
      && r.last.Some? && IsSlot(s.blocks, r.last.value, r.lastPage)
      && s.blocks[r.last.value] in s.blocks && IsDirty(s, r.last.value, r.lastPage)
      && IsSlot(s.blocks, StartBlock(s), s.lastPage)
      && Dist(s.blocks, StartBlock(s), s.lastPage, r.last.value, r.lastPage)
         <= Dist(s.blocks, StartBlock(s), s.lastPage, c, q)
  {
    assert s.blocks[0] in s.blocks;
    DistNonNegative(s.blocks, StartBlock(s), s.lastPage, c, q);
    SweepIsNearest(s, StartBlock(s), s.lastPage, TotalPages(s.blocks), c, q);
  }
}
