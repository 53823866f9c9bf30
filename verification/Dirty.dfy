// The dirty bitmap of a block device (Main/linux/block.c): one bit for each chunk
// of 2048 sectors, and a count of the bits that are set.

module Dirty {
  import opened Common
  import opened Bitops
  import opened Bitmap

  function FirstChunk(sector: nat): nat { sector / CHUNK_SECTORS }

  function LastChunk(sector: nat, n: nat): int { CDiv(sector + n - 1, CHUNK_SECTORS) }

  /** Number of set bits among the first k. */
  function Count(bits: seq<Word>, k: nat): nat
    requires k <= 64 * |bits|
  {
    if k == 0 then 0 else Count(bits, k - 1) + if BitAt(bits, k - 1) then 1 else 0
  }

  lemma {:induction false} CountSame(a: seq<Word>, b: seq<Word>, k: nat)
    requires |a| == |b| && k <= 64 * |a| && forall i :: 0 <= i < k ==> BitAt(a, i) == BitAt(b, i)
    ensures Count(a, k) == Count(b, k)
  {
    if k > 0 {
      CountSame(a, b, k - 1);
    }
  }

  /** Changing one bit changes the count by at most one. */
  lemma {:induction false} CountOne(a: seq<Word>, b: seq<Word>, k: nat, i: nat, v: bool)
    requires i < k <= 64 * |a| && RangeIs(a, b, i, i + 1, v)
    ensures Count(b, k) - Count(a, k)
         == (if v && !BitAt(a, i) then 1 else if !v && BitAt(a, i) then -1 else 0)
  {
    if i == k - 1 {
      CountSame(a, b, k - 1);
    } else {
      CountOne(a, b, k - 1, i, v);
    }
  }

  lemma {:induction false} CountZero(a: seq<Word>, k: nat)
    requires k <= 64 * |a|
    ensures Count(a, k) == 0 <==> forall i :: 0 <= i < k ==> !BitAt(a, i)
  {
    if k > 0 {
      CountZero(a, k - 1);
    }
  }

  class DirtyTracker {
    /** Length of the device in sectors. */
    const sectors: nat
    var bitmap: array?<Word>
    var dirtyCount: int

    constructor (sectors: nat)
      ensures this.sectors == sectors && bitmap == null && dirtyCount == 0
    {
      this.sectors := sectors;
      bitmap, dirtyCount := null, 0;
    }

    /** Room for every chunk of the device, and one more bit for the chunk a write
        of no sectors at the very end falls into. */
    ghost predicate Sized()
      reads this
    {
      bitmap != null ==> sectors / CHUNK_SECTORS < 64 * bitmap.Length
    }

    /** The count is the number of set bits. */
    ghost predicate Exact()
      reads this, bitmap
    {
      dirtyCount == if bitmap == null then 0 else Count(bitmap[..], 64 * bitmap.Length)
    }

    /** set_dirty_bitmap: exactly the chunks from the first to the last sector's
        take the value; the count stays exact. */
    method SetDirtyBitmap(sector: nat, n: nat, dirty: bool)
      requires bitmap != null && Sized() && Exact() && sector + n <= sectors
      modifies this`dirtyCount, bitmap
      ensures Exact()
      ensures FirstChunk(sector) <= LastChunk(sector, n) + 1
      ensures RangeIs(old(bitmap[..]), bitmap[..], FirstChunk(sector), LastChunk(sector, n) + 1, dirty)
    {
      hide RangeIs, Count;
      var start, end := sector / CHUNK_SECTORS, CDiv(sector + n - 1, CHUNK_SECTORS);
      ghost var was := bitmap[..];
      ghost var first := start;
      Chunks(sector, n, sectors);
      RangeEmpty(was, start, dirty);
      while start <= end
        invariant first <= start <= end + 1 && end < 64 * bitmap.Length
        invariant |bitmap[..]| == |was| && RangeIs(was, bitmap[..], first, start, dirty)
        invariant Exact()
      {
        ghost var mid := bitmap[..];
        var idx, bit := start / 64, start % 64;
        var val := bitmap[idx];
        if dirty {
          if !val[bit] {
            dirtyCount := dirtyCount + 1;
            val := val[bit := true];
          }
        } else {
          if val[bit] {
            dirtyCount := dirtyCount - 1;
            val := val[bit := false];
          }
        }
        bitmap[idx] := val;
        assert mid[idx][bit := dirty] == val;
        OneBit(mid, bitmap[..], start, dirty);
        CountOne(mid, bitmap[..], 64 * bitmap.Length, start, dirty);
        RangeExtend(was, mid, bitmap[..], first, start, dirty);
        start := start + 1;
      }
    }

    /** bdrv_set_dirty_tracking: enabling starts with a clean bitmap only when
        tracking was off; the count is zeroed in any case, so it is exact afterwards
        if and only if tracking was off or no bit was set, which the count itself
        tells beforehand. */
    method SetDirtyTracking(enable: bool)
      requires Sized()
      modifies this
      ensures Sized() && dirtyCount == 0
      ensures enable && old(bitmap) == null ==> bitmap != null && fresh(bitmap) && Exact()
      ensures enable && old(bitmap) == null ==>
        forall i :: 0 <= i < 64 * bitmap.Length ==> !BitAt(bitmap[..], i)
      ensures enable && old(bitmap) != null ==> bitmap == old(bitmap) && bitmap[..] == old(bitmap[..])
      ensures enable ==>
        (Exact() <==> old(bitmap) == null || forall i :: 0 <= i < 64 * old(bitmap).Length ==> !BitAt(old(bitmap[..]), i))
      ensures enable && old(Exact()) ==> (Exact() <==> old(dirtyCount) == 0)
      ensures !enable ==> bitmap == null && Exact()
    {
      if bitmap != null {
        CountZero(bitmap[..], 64 * bitmap.Length);
      }
      dirtyCount := 0;
      if enable {
        if bitmap == null {
          var n := sectors / CHUNK_SECTORS / 64 + 1;
          var b := new Word[n](i => seq(64, j => false));
          bitmap := b;
          CountZero(bitmap[..], 64 * n);
        }
      } else {
        bitmap := null;
      }
    }

    /** bdrv_get_dirty */
    method GetDirty(sector: nat) returns (dirty: bool)
      requires Sized()
      ensures dirty <==>
        bitmap != null && sector < sectors && FirstChunk(sector) < 64 * bitmap.Length && BitAt(bitmap[..], FirstChunk(sector))
    {
      if bitmap != null && sector < sectors {
        var chunk := sector / CHUNK_SECTORS;
        assert chunk <= sectors / CHUNK_SECTORS;
        dirty := bitmap[chunk / 64][chunk % 64];
      } else {
        dirty := false;
      }
    }
  }

  lemma RangeExtend(was: seq<Word>, mid: seq<Word>, now: seq<Word>, lo: nat, hi: nat, v: bool)
    requires lo <= hi < 64 * |was| && RangeIs(was, mid, lo, hi, v) && RangeIs(mid, now, hi, hi + 1, v)
    ensures RangeIs(was, now, lo, hi + 1, v)
  {
    forall i | 0 <= i < 64 * |was| ensures BitAt(now, i) == if lo <= i < hi + 1 then v else BitAt(was, i) {
      assert BitAt(mid, i) == if lo <= i < hi then v else BitAt(was, i);
    }
  }

  /** The chunks a request touches, as the C code computes them: a request of no
      sectors touches its chunk, except at a chunk boundary other than sector 0. */
  lemma Chunks(sector: nat, n: nat, total: nat)
    requires sector + n <= total
    ensures FirstChunk(sector) <= LastChunk(sector, n) + 1 && LastChunk(sector, n) <= total / CHUNK_SECTORS
    ensures forall c: nat :: n > 0 ==>
      (HoldsSector(sector, n, c) <==> FirstChunk(sector) <= c <= LastChunk(sector, n))
    ensures n == 0 ==>
      (LastChunk(sector, n) == FirstChunk(sector) <==> sector == 0 || sector % CHUNK_SECTORS != 0)
  {
    if n > 0 {
      forall c: nat
        ensures HoldsSector(sector, n, c) <==> FirstChunk(sector) <= c <= LastChunk(sector, n)
      {
        if FirstChunk(sector) <= c <= LastChunk(sector, n) {
          var s := if c == sector / CHUNK_SECTORS then sector else c * CHUNK_SECTORS;
          assert sector <= s < sector + n && FirstChunk(s) == c;
        }
      }
    }
  }

  /** Some sector of the request lies in chunk c. */
  ghost predicate HoldsSector(sector: nat, n: nat, c: nat) {
    exists s: nat :: sector <= s < sector + n && FirstChunk(s) == c
  }

  // ------------------------------------------------------ histories of a device

  /** One operation on a tracked device. */
  datatype Op = WriteOp(sector: nat, n: nat) | ResetOp(sector: nat, n: nat)

  predicate Touches(op: Op, chunk: nat) {
    FirstChunk(op.sector) <= chunk <= LastChunk(op.sector, op.n)
  }

  /** A chunk is dirty when the last operation that touched it was a write. */
  function DirtyAfter(ops: seq<Op>, chunk: nat): bool {
    if ops == [] then false
    else
      var op := ops[|ops| - 1];
      if Touches(op, chunk) then op.WriteOp? else DirtyAfter(ops[..|ops| - 1], chunk)
  }

  /** Operation i is a write that touched the chunk, and no later reset did. */
  ghost predicate Marks(ops: seq<Op>, i: nat, chunk: nat) {
    && i < |ops| && ops[i].WriteOp? && Touches(ops[i], chunk)
    && forall j :: i < j < |ops| && ops[j].ResetOp? ==> !Touches(ops[j], chunk)
  }

  lemma MarksLast(ops: seq<Op>, i: nat, chunk: nat)
    requires i < |ops| - 1
    ensures Marks(ops, i, chunk)
      <==> (Marks(ops[..|ops| - 1], i, chunk) && !(ops[|ops| - 1].ResetOp? && Touches(ops[|ops| - 1], chunk)))
  {
    var before := ops[..|ops| - 1];
    assert forall j :: 0 <= j < |before| ==> before[j] == ops[j];
  }

  /** Dirty means: some write marked the chunk and no later reset touched it. */
  lemma {:induction false} DirtyAfterIff(ops: seq<Op>, chunk: nat)
    ensures DirtyAfter(ops, chunk) <==> exists i: nat :: Marks(ops, i, chunk)
  {
    if ops != [] {
      var n := |ops| - 1;
      DirtyAfterIff(ops[..n], chunk);
      if i: nat :| Marks(ops, i, chunk) {
        if i < n {
          MarksLast(ops, i, chunk);
        }
      }
      if i: nat :| Marks(ops[..n], i, chunk) {
        MarksLast(ops, i, chunk);
      }
      if Touches(ops[n], chunk) && ops[n].WriteOp? {
        assert Marks(ops, n, chunk);
      }
    }
  }

  /** Tracking switched on, then any run of writes and resets: the count is exact,
      and bdrv_get_dirty tells whether a write has marked the sector's chunk since
      the last reset that touched it. */
  method Track(d: DirtyTracker, ops: seq<Op>)
    requires d.bitmap == null && forall op :: op in ops ==> op.sector + op.n <= d.sectors
    modifies d
    ensures d.bitmap != null && d.Sized() && d.Exact()
    ensures forall c: nat :: c < 64 * d.bitmap.Length ==> BitAt(d.bitmap[..], c) == DirtyAfter(ops, c)
  {
    hide RangeIs, Touches;
    d.SetDirtyTracking(true);
    var k := 0;
    assert ops[..0] == [];
    while k < |ops|
      invariant 0 <= k <= |ops| && d.bitmap != null && fresh(d.bitmap) && d.Sized() && d.Exact()
      invariant forall c: nat :: c < 64 * d.bitmap.Length ==> BitAt(d.bitmap[..], c) == DirtyAfter(ops[..k], c)
    {
      ghost var was := d.bitmap[..];
      assert ops[k] in ops;
      d.SetDirtyBitmap(ops[k].sector, ops[k].n, ops[k].WriteOp?);
      assert ops[..k + 1][..k] == ops[..k] && ops[..k + 1][k] == ops[k];
      OpEffect(was, d.bitmap[..], ops[..k + 1]);
      k := k + 1;
    }
    assert ops[..k] == ops;
  }

  lemma OpEffect(was: seq<Word>, now: seq<Word>, ops: seq<Op>)
    requires ops != []
    requires var op := ops[|ops| - 1];
      FirstChunk(op.sector) <= LastChunk(op.sector, op.n) + 1
      && RangeIs(was, now, FirstChunk(op.sector), LastChunk(op.sector, op.n) + 1, op.WriteOp?)
    requires forall c: nat :: c < 64 * |was| ==> BitAt(was, c) == DirtyAfter(ops[..|ops| - 1], c)
    ensures forall c: nat :: c < 64 * |now| ==> BitAt(now, c) == DirtyAfter(ops, c)
  {
  }

  predicate CleanAfter(ops: seq<Op>, chunks: nat) {
    forall c :: 0 <= c < chunks ==> !DirtyAfter(ops, c)
  }

  /** Any history of a tracked device, then tracking enabled again: the count is
      still exact if and only if no chunk is dirty after that history. */
  method EnableExactIff(d: DirtyTracker, ops: seq<Op>)
    requires d.bitmap == null && forall op :: op in ops ==> op.sector + op.n <= d.sectors
    modifies d
    ensures d.bitmap != null
    ensures d.Exact() <==> CleanAfter(ops, 64 * d.bitmap.Length)
    ensures forall c: nat :: c < 64 * d.bitmap.Length ==> BitAt(d.bitmap[..], c) == DirtyAfter(ops, c)
  {
    Track(d, ops);
    ghost var was := d.bitmap[..];
    d.SetDirtyTracking(true);
    assert d.bitmap[..] == was && |was| == d.bitmap.Length;
    assert forall c: nat :: c < 64 * |was| ==> BitAt(was, c) == DirtyAfter(ops, c);
    if d.Exact() {
      forall c | 0 <= c < 64 * |was| ensures !DirtyAfter(ops, c) {
        assert !BitAt(was, c);
      }
    } else {
      var c :| 0 <= c < 64 * d.bitmap.Length && BitAt(was, c);
      assert DirtyAfter(ops, c);
    }
  }

  /** One write, then tracking enabled again: a bit is set and the count is zero. */
  method EnableTwiceLosesCount() returns (d: DirtyTracker)
    ensures d.bitmap != null && !d.Exact() && d.dirtyCount == 0 && 0 < 64 * d.bitmap.Length && BitAt(d.bitmap[..], 0)
  {
    d := new DirtyTracker(1);
    Track(d, [WriteOp(0, 1)]);
    assert DirtyAfter([WriteOp(0, 1)], 0);
    assert BitAt(d.bitmap[..], 0);
    CountZero(d.bitmap[..], 64 * d.bitmap.Length);
    d.SetDirtyTracking(true);
  }
}
