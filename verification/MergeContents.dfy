// When does writing the merged requests have the effect of writing the originals,
// whatever the buffers hold? For every batch, driver hook and vector length.

module MergeContents {
  import opened Common
  import opened Wire
  import opened Iovec
  import opened Merge

  /** The address of byte i of a vector. */
  function Address(segs: seq<Seg>, i: nat): nat
    requires i < Size(segs)
  {
    if i < segs[0].len then segs[0].base + i else Address(segs[1..], i - segs[0].len)
  }

  lemma {:induction false} FlatAt(m: seq<byte>, segs: seq<Seg>, i: nat)
    requires InMemory(m, segs) && i < Size(segs)
    ensures Address(segs, i) < |m| && Flat(m, segs)[i] == m[Address(segs, i)]
  {
    hide Flat;
    FlatFront(m, segs);
    if i >= segs[0].len {
      FlatAt(m, segs[1..], i - segs[0].len);
    }
  }

  /** As many bytes as sectors; that can be told without the memory. */
  predicate Whole(reqs: seq<Request>) {
    forall r :: r in reqs ==> Size(r.qiov) == SECTOR_SIZE * r.sectors
  }

  /** Where byte p of the disk comes from when the requests are written in order. */
  function Source(reqs: seq<Request>, p: nat): Option<nat>
    requires Whole(reqs)
  {
    if reqs == [] then None
    else
      var r := reqs[|reqs| - 1];
      assert r in reqs;
      if Covers(r, p) then Some(Address(r.qiov, p - Start(r)))
      else Source(reqs[..|reqs| - 1], p)
  }

  lemma {:induction false} ReadIsSource(m: seq<byte>, reqs: seq<Request>, p: nat)
    requires AllFit(m, reqs)
    ensures Whole(reqs)
    ensures var a := Source(reqs, p);
      && (a.Some? ==> a.value < |m|)
      && ReadBack(m, reqs, p) == if a.Some? then Written(m[a.value]) else Untouched
  {
    if reqs != [] {
      var r := reqs[|reqs| - 1];
      assert r in reqs;
      if Covers(r, p) {
        FlatAt(m, r.qiov, p - Start(r));
      } else {
        ReadIsSource(m, reqs[..|reqs| - 1], p);
      }
    }
  }

  /** What merging does depends on the size of the memory, not on its contents. */
  ghost predicate SameMerge(m: seq<byte>, s: Merged, m': seq<byte>, s': Merged) {
    && s'.outs == s.outs && s'.gaps == s.gaps && |s'.m| == |s.m|
    && |m| <= |s.m| && s.m == m + Zeros(|s.m| - |m|)
    && |m'| <= |s'.m| && s'.m == m' + Zeros(|s'.m| - |m'|)
  }

  lemma StepSame(hook: Hook, m: seq<byte>, s: Merged, m': seq<byte>, s': Merged, q: Request)
    requires |m| == |m'| && SameMerge(m, s, m', s')
    requires s.outs != [] && s.outs[|s.outs| - 1].sector <= q.sector
    ensures SameMerge(m, Step(hook, s, q), m', Step(hook, s', q))
  {
    var last := s.outs[|s.outs| - 1];
    var n := GapSize(last, q);
    assert CombineVector(s.m, last, q) == CombineVector(s'.m, last, q);
    MoreZeros(m, |s.m| - |m|, n);
    MoreZeros(m', |s'.m| - |m'|, n);
  }

  lemma MoreZeros(m: seq<byte>, a: nat, b: nat)
    ensures m + Zeros(a) + Zeros(b) == m + Zeros(a + b)
  {
  }

  lemma {:induction false} MergeSame(hook: Hook, m: seq<byte>, m': seq<byte>, rs: seq<Request>, k: nat)
    requires |m| == |m'| && 0 < k <= |rs| && Sorted(rs)
    ensures SameMerge(m, MergeUpTo(hook, m, rs, k), m', MergeUpTo(hook, m', rs, k))
    decreases k
  {
    if k == 1 {
      assert m + Zeros(0) == m && m' + Zeros(0) == m';
    } else {
      MergeSame(hook, m, m', rs, k - 1);
      assert rs[k - 2].sector <= rs[k - 1].sector;
      hide SameMerge, Step;
      StepSame(hook, m, MergeUpTo(hook, m, rs, k - 1), m', MergeUpTo(hook, m', rs, k - 1), rs[k - 1]);
    }
  }

  lemma FitBySize(m: seq<byte>, m': seq<byte>, rs: seq<Request>)
    requires |m| == |m'| && AllFit(m, rs)
    ensures AllFit(m', rs)
  {
    forall r | r in rs ensures Fits(m', r) {
    }
  }

  /** Outside approved gaps, the merged requests write what the originals write, for
      these contents of the memory. */
  ghost predicate InvisibleFor(hook: Hook, m: seq<byte>, rs: seq<Request>)
    requires rs != [] && Sorted(rs) && AllFit(m, rs)
  {
    MergeShape(hook, m, rs, |rs|);
    var s := MergeAll(hook, m, rs);
    forall p: nat :: !InGaps(s.gaps, p) ==> ReadBack(s.m, s.outs, p) == ReadBack(m, rs, p)
  }

  /** Outside approved gaps, every byte of the disk still comes from where it came. */
  ghost predicate SameSources(hook: Hook, m: seq<byte>, rs: seq<Request>)
    requires rs != [] && Sorted(rs) && AllFit(m, rs)
  {
    MergeShape(hook, m, rs, |rs|);
    var s := MergeAll(hook, m, rs);
    assert Whole(s.outs) && Whole(rs);
    forall p: nat :: !InGaps(s.gaps, p) ==> Source(s.outs, p) == Source(rs, p)
  }

  lemma SameSourcesInvisible(hook: Hook, m: seq<byte>, m': seq<byte>, rs: seq<Request>)
    requires |m| == |m'| && rs != [] && Sorted(rs) && AllFit(m, rs) && AllFit(m', rs) && SameSources(hook, m, rs)
    ensures InvisibleFor(hook, m', rs)
  {
    MergeSame(hook, m, m', rs, |rs|);
    MergeShape(hook, m', rs, |rs|);
    var s := MergeAll(hook, m', rs);
    forall p: nat | !InGaps(s.gaps, p) ensures ReadBack(s.m, s.outs, p) == ReadBack(m', rs, p) {
      ReadIsSource(s.m, s.outs, p);
      ReadIsSource(m', rs, p);
    }
  }

  /** Contents for which the bytes at two different addresses differ. */
  lemma Distinguishes(m: seq<byte>, heap: seq<byte>, a: Option<nat>, b: Option<nat>) returns (m': seq<byte>)
    requires a != b && |m| <= |heap| && (a.Some? ==> a.value < |heap|) && (b.Some? ==> b.value < |m|)
    requires heap == m + Zeros(|heap| - |m|)
    ensures |m'| == |m|
    ensures var heap' := m' + Zeros(|heap| - |m|);
      (if a.Some? then Written(heap'[a.value]) else Untouched) != (if b.Some? then Written(m'[b.value]) else Untouched)
  {
    m' := m;
    if b.Some? {
      m' := m[b.value := if a.Some? && heap[a.value] == 1 then 0 else 1];
    }
  }

  /** A byte that comes from elsewhere shows for some contents. */
  lemma OtherSourceShows(hook: Hook, m: seq<byte>, rs: seq<Request>, p: nat) returns (m': seq<byte>)
    requires rs != [] && Sorted(rs) && AllFit(m, rs)
    requires AllFit(MergeAll(hook, m, rs).m, MergeAll(hook, m, rs).outs) && Whole(MergeAll(hook, m, rs).outs) && Whole(rs)
    requires !InGaps(MergeAll(hook, m, rs).gaps, p)
    requires Source(MergeAll(hook, m, rs).outs, p) != Source(rs, p)
    ensures |m'| == |m| && AllFit(m', rs) && !InvisibleFor(hook, m', rs)
  {
    hide Source, ReadBack, AllFit, Whole, Sorted, MergeUpTo;
    var s := MergeAll(hook, m, rs);
    MergeSame(hook, m, m, rs, |rs|);
    ReadIsSource(m, rs, p);
    ReadIsSource(s.m, s.outs, p);
    m' := Distinguishes(m, s.m, Source(s.outs, p), Source(rs, p));
    FitBySize(m, m', rs);
    MergeSame(hook, m, m', rs, |rs|);
    MergeShape(hook, m', rs, |rs|);
    var t := MergeAll(hook, m', rs);
    ReadIsSource(t.m, t.outs, p);
    ReadIsSource(m', rs, p);
    assert ReadBack(t.m, t.outs, p) != ReadBack(m', rs, p);
  }

  /** Exactly when merging is invisible whatever the buffers hold: when every byte
      outside the approved gaps is still taken from the same address, which the
      requests alone tell. */
  lemma InvisibleIffSameSources(hook: Hook, m: seq<byte>, rs: seq<Request>)
    requires rs != [] && Sorted(rs) && AllFit(m, rs)
    ensures forall m' :: |m'| == |m| ==> AllFit(m', rs)
    ensures (forall m' :: |m'| == |m| ==> AllFit(m', rs) && InvisibleFor(hook, m', rs)) <==> SameSources(hook, m, rs)
  {
    hide InvisibleFor;
    forall m': seq<byte> | |m'| == |m| ensures AllFit(m', rs) {
      FitBySize(m, m', rs);
    }
    if SameSources(hook, m, rs) {
      forall m': seq<byte> | |m'| == |m| ensures InvisibleFor(hook, m', rs) {
        SameSourcesInvisible(hook, m, m', rs);
      }
    } else {
      MergeShape(hook, m, rs, |rs|);
      var s := MergeAll(hook, m, rs);
      assert Whole(s.outs) && Whole(rs);
      var p: nat :| !InGaps(s.gaps, p) && Source(s.outs, p) != Source(rs, p);
      var _ := OtherSourceShows(hook, m, rs, p);
    }
  }

  /** Without a lost tail it is. */
  lemma NoLostTailSameSources(hook: Hook, m: seq<byte>, rs: seq<Request>)
    requires rs != [] && Sorted(rs) && AllFit(m, rs) && NoLostTail(rs)
    ensures SameSources(hook, m, rs)
  {
    forall m': seq<byte> | |m'| == |m| ensures AllFit(m', rs) && InvisibleFor(hook, m', rs) {
      FitBySize(m, m', rs);
      MergeShape(hook, m', rs, |rs|);
      forall p: nat | !InGaps(MergeAll(hook, m', rs).gaps, p)
        ensures ReadBack(MergeAll(hook, m', rs).m, MergeAll(hook, m', rs).outs, p) == ReadBack(m', rs, p)
      {
        MergePreserves(hook, m', rs, p);
      }
    }
    InvisibleIffSameSources(hook, m, rs);
  }
}
