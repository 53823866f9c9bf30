// multiwrite_merge (Main/linux/block.c): sorted write requests that touch are
// combined into one vector. When does writing the merged requests have the same
// effect as writing the originals?

module Merge {
  import opened Common
  import opened Wire
  import opened Iovec

  const IOV_MAX: nat := 1024

  /** The fields of a BlockRequest that merging reads or changes. */
  datatype Request = Request(sector: nat, sectors: nat, qiov: seq<Seg>)

  function Start(r: Request): nat { SECTOR_SIZE * r.sector }

  function End(r: Request): nat { SECTOR_SIZE * (r.sector + r.sectors) }

  /** The vector lies in memory and has as many bytes as the request's sectors. */
  ghost predicate Fits(m: seq<byte>, r: Request) {
    InMemory(m, r.qiov) && Size(r.qiov) == SECTOR_SIZE * r.sectors
  }

  ghost predicate AllFit(m: seq<byte>, rs: seq<Request>) {
    forall r :: r in rs ==> Fits(m, r)
  }

  ghost predicate Sorted(rs: seq<Request>) {
    forall i, j :: 0 <= i < j < |rs| ==> rs[i].sector <= rs[j].sector
  }

  predicate Covers(r: Request, p: nat) {
    Start(r) <= p < End(r)
  }

  datatype Byte = Untouched | Written(value: byte)

  /** What byte p of the disk holds after the requests are written in order:
      the last request that covers it wins. */
  function ReadBack(m: seq<byte>, rs: seq<Request>, p: nat): Byte
    requires AllFit(m, rs)
  {
    if rs == [] then Untouched
    else
      var r := rs[|rs| - 1];
      assert r in rs;
      if Covers(r, p) then Written(Flat(m, r.qiov)[p - Start(r)])
      else ReadBack(m, rs[..|rs| - 1], p)
  }

  /** bdrv_merge_requests: may approve merging across a gap. */
  type Hook = (Request, Request) -> bool

  /** The merge decision for the request under construction and the next one. */
  predicate Merges(hook: Hook, last: Request, q: Request) {
    (q.sector <= last.sector + last.sectors || hook(last, q))
    && |last.qiov| + |q.qiov| + 1 <= IOV_MAX
  }

  datatype Gap = Gap(lo: nat, hi: nat)

  /** Memory (with the zero buffers allocated so far), requests that remain, and
      the byte ranges that were filled with zeros. */
  datatype Merged = Merged(m: seq<byte>, outs: seq<Request>, gaps: seq<Gap>)

  /** Bytes between the end of one request and the start of the next. */
  function GapSize(last: Request, q: Request): nat {
    if Start(q) > End(last) then Start(q) - End(last) else 0
  }

  function Zeros(n: nat): (z: seq<byte>)
    ensures |z| == n
  {
    seq(n, i => 0)
  }

  /** The vector over a zero buffer allocated behind memory m. */
  function ZeroVector(m: seq<byte>, n: nat): seq<Seg> {
    if n > 0 then [Seg(|m|, n)] else []
  }

  /** What is left of the first request, zeros for a gap, the second request. */
  function CombineVector(m: seq<byte>, last: Request, q: Request): seq<Seg>
    requires last.sector <= q.sector
  {
    CopySegs(last.qiov, 0, Start(q) - Start(last)) + ZeroVector(m, GapSize(last, q))
    + CopySegs(q.qiov, 0, Size(q.qiov))
  }

  function Combine(m: seq<byte>, last: Request, q: Request): (r: (seq<byte>, Request))
    requires last.sector <= q.sector
  {
    var segs := CombineVector(m, last, q);
    (m + Zeros(GapSize(last, q)), Request(last.sector, Size(segs) / SECTOR_SIZE, segs))
  }

  function Step(hook: Hook, s: Merged, q: Request): Merged
    requires s.outs != [] && s.outs[|s.outs| - 1].sector <= q.sector
  {
    var n := |s.outs| - 1;
    var last := s.outs[n];
    if Merges(hook, last, q) then
      var (m', r) := Combine(s.m, last, q);
      Merged(m', s.outs[..n] + [r],
             if Start(q) > End(last) then s.gaps + [Gap(End(last), Start(q))] else s.gaps)
    else Merged(s.m, s.outs + [q], s.gaps)
  }

  /** The state after the first k sorted requests. */
  function MergeUpTo(hook: Hook, m: seq<byte>, rs: seq<Request>, k: nat): (s: Merged)
    requires 0 < k <= |rs| && Sorted(rs)
    ensures s.outs != [] && s.outs[|s.outs| - 1].sector <= rs[k - 1].sector
    ensures |s.outs| <= k
    decreases k
  {
    if k == 1 then Merged(m, [rs[0]], [])
    else Step(hook, MergeUpTo(hook, m, rs, k - 1), rs[k - 1])
  }

  function MergeAll(hook: Hook, m: seq<byte>, rs: seq<Request>): (s: Merged)
    requires rs != [] && Sorted(rs)
  {
    MergeUpTo(hook, m, rs, |rs|)
  }

  predicate InGaps(gaps: seq<Gap>, p: nat) {
    exists i :: 0 <= i < |gaps| && gaps[i].lo <= p < gaps[i].hi
  }

  /** No request before the k-th reaches beyond byte e. */
  ghost predicate EndBy(rs: seq<Request>, k: nat, e: nat)
    requires k <= |rs|
  {
    forall j :: 0 <= j < k ==> End(rs[j]) <= e
  }

  /** Whenever a request ends before an earlier one, the next request begins no
      later than where it ends. Nondecreasing ends are a special case. */
  ghost predicate NoLostTail(rs: seq<Request>)
    requires rs != []
  {
    && (forall k :: 0 < k < |rs| && End(rs[k - 1]) < Start(rs[k]) ==> EndBy(rs, k, End(rs[k - 1])))
    && EndBy(rs, |rs|, End(rs[|rs| - 1]))
  }

  lemma NondecreasingEndsSuffice(rs: seq<Request>)
    requires rs != [] && forall i, j :: 0 <= i < j < |rs| ==> End(rs[i]) <= End(rs[j])
    ensures NoLostTail(rs)
  {
  }

  // ------------------------------------------------------------ one merge step

  lemma {:induction false} FlatGrows(m: seq<byte>, z: seq<byte>, segs: seq<Seg>)
    requires InMemory(m, segs)
    ensures InMemory(m + z, segs) && Flat(m + z, segs) == Flat(m, segs)
  {
    if segs != [] {
      assert segs[0] in segs;
      FlatGrows(m, z, segs[1..]);
      assert (m + z)[segs[0].base..segs[0].base + segs[0].len] == m[segs[0].base..segs[0].base + segs[0].len];
    }
  }

  function Take(d: seq<byte>, n: nat): seq<byte> { if n < |d| then d[..n] else d }

  function CombineBytes(m: seq<byte>, last: Request, q: Request): seq<byte>
    requires last.sector <= q.sector && Fits(m, last) && Fits(m, q)
  {
    Take(Flat(m, last.qiov), Start(q) - Start(last)) + Zeros(GapSize(last, q)) + Flat(m, q.qiov)
  }

  lemma CombineFlat(m: seq<byte>, last: Request, q: Request)
    requires last.sector <= q.sector && Fits(m, last) && Fits(m, q)
    ensures var segs := CombineVector(m, last, q); var m' := m + Zeros(GapSize(last, q));
      InMemory(m', segs) && Flat(m', segs) == CombineBytes(m, last, q)
  {
    hide Flat, Size, CopySegs, Clip, Take, ZeroVector, Zeros, GapSize;
    var n, gap := Start(q) - Start(last), GapSize(last, q);
    var z := Zeros(gap);
    var head, zeros, tail := CopySegs(last.qiov, 0, n), ZeroVector(m, gap), CopySegs(q.qiov, 0, Size(q.qiov));
    CopyIsClip(m, last.qiov, 0, n);
    CopyAll(m, q.qiov);
    ClipIsTake(Flat(m, last.qiov), n);
    FlatGrows(m, z, head);
    FlatGrows(m, z, tail);
    ZeroFlat(m, gap);
    FlatAppend(m + z, head, zeros);
    FlatAppend(m + z, head + zeros, tail);
  }

  /** A combined request covers the two, and its vector has the right bytes. */
  lemma CombineFits(m: seq<byte>, last: Request, q: Request)
    requires last.sector <= q.sector && Fits(m, last) && Fits(m, q)
    ensures var (m', r) := Combine(m, last, q);
      && Fits(m', r) && Flat(m', r.qiov) == CombineBytes(m, last, q)
      && Start(r) == Start(last) && End(r) == End(q)
      && |r.qiov| <= |last.qiov| + |q.qiov| + 1
  {
    hide Flat, CopySegs;
    CombineFlat(m, last, q);
    assert |CombineBytes(m, last, q)| == End(q) - Start(last);
  }

  /** Requests that touch are combined without a buffer, and without an entry for one. */
  lemma NoBuffer(m: seq<byte>, last: Request, q: Request)
    requires last.sector <= q.sector && Start(q) <= End(last)
    ensures var c := Combine(m, last, q); c.0 == m && |c.1.qiov| <= |last.qiov| + |q.qiov|
  {
    assert Zeros(0) == [] && m + [] == m;
  }

  lemma ClipIsTake(d: seq<byte>, n: nat)
    ensures Clip(d, 0, n) == Take(d, n)
  {
    assert d[0..] == d;
  }

  lemma ZeroFlat(m: seq<byte>, n: nat)
    ensures InMemory(m + Zeros(n), ZeroVector(m, n)) && Flat(m + Zeros(n), ZeroVector(m, n)) == Zeros(n)
  {
    if n > 0 {
      assert [Seg(|m|, n)][1..] == [];
      assert (m + Zeros(n))[|m|..|m| + n] + [] == Zeros(n);
    }
  }

  // ---------------------------------------------------------- what is read back

  lemma ReadAppend(m: seq<byte>, rs: seq<Request>, r: Request, p: nat)
    requires AllFit(m, rs) && Fits(m, r)
    ensures AllFit(m, rs + [r])
    ensures ReadBack(m, rs + [r], p)
         == if Covers(r, p) then Written(Flat(m, r.qiov)[p - Start(r)]) else ReadBack(m, rs, p)
  {
    assert (rs + [r])[..|rs|] == rs;
  }

  lemma {:induction false} ReadGrows(m: seq<byte>, z: seq<byte>, rs: seq<Request>, p: nat)
    requires AllFit(m, rs)
    ensures AllFit(m + z, rs) && ReadBack(m + z, rs, p) == ReadBack(m, rs, p)
  {
    forall r | r in rs ensures Fits(m + z, r) {
      FlatGrows(m, z, r.qiov);
    }
    if rs != [] {
      var r := rs[|rs| - 1];
      assert r in rs;
      FlatGrows(m, z, r.qiov);
      ReadGrows(m, z, rs[..|rs| - 1], p);
    }
  }

  /** Nothing is read back where no request reaches. */
  lemma {:induction false} UntouchedBeyond(m: seq<byte>, rs: seq<Request>, p: nat)
    requires AllFit(m, rs) && forall j :: 0 <= j < |rs| ==> !Covers(rs[j], p)
    ensures ReadBack(m, rs, p) == Untouched
  {
    if rs != [] {
      UntouchedBeyond(m, rs[..|rs| - 1], p);
    }
  }

  lemma {:induction false} TouchedWhere(m: seq<byte>, rs: seq<Request>, j: nat, p: nat)
    requires AllFit(m, rs) && j < |rs| && Covers(rs[j], p)
    ensures ReadBack(m, rs, p) != Untouched
  {
    if j < |rs| - 1 {
      TouchedWhere(m, rs[..|rs| - 1], j, p);
    }
  }

  /** Byte p after one combining step, in terms of the requests before it. */
  lemma CombineRead(m: seq<byte>, init: seq<Request>, last: Request, q: Request, p: nat)
    requires AllFit(m, init) && Fits(m, last) && Fits(m, q) && last.sector <= q.sector
    ensures var (m', r) := Combine(m, last, q);
      && AllFit(m', init + [r]) && AllFit(m, init + [last])
      && (Covers(q, p) ==> ReadBack(m', init + [r], p) == Written(Flat(m, q.qiov)[p - Start(q)]))
      && (p < Start(q) && p < End(last) ==> ReadBack(m', init + [r], p) == ReadBack(m, init + [last], p))
      && (End(last) <= p < Start(q) ==> ReadBack(m', init + [r], p) == Written(0))
      && (p >= End(q) ==> ReadBack(m', init + [r], p) == ReadBack(m, init, p))
  {
    hide ReadBack, Flat;
    CombineFits(m, last, q);
    var (m', r) := Combine(m, last, q);
    ReadGrows(m, Zeros(GapSize(last, q)), init, p);
    ReadAppend(m', init, r, p);
    ReadAppend(m, init, last, p);
  }

  // ---------------------------------------------------------------- invariants

  /** What holds of the merge state whatever the requests' ends are. */
  ghost predicate Shape(m: seq<byte>, rs: seq<Request>, k: nat, s: Merged)
    requires 0 < k <= |rs|
  {
    && |m| <= |s.m| && s.m[..|m|] == m
    && AllFit(s.m, s.outs) && AllFit(s.m, rs)
    && s.outs != []
    && s.outs[|s.outs| - 1].sector <= rs[k - 1].sector
    && End(s.outs[|s.outs| - 1]) == End(rs[k - 1])
    && (forall i :: 0 <= i < |s.gaps| ==> s.gaps[i].hi <= Start(rs[k - 1]))
  }

  lemma StepShape(hook: Hook, m: seq<byte>, rs: seq<Request>, k: nat, s: Merged)
    requires 0 < k < |rs| && Sorted(rs) && Shape(m, rs, k, s)
    ensures Shape(m, rs, k + 1, Step(hook, s, rs[k]))
  {
    var n := |s.outs| - 1;
    var last, q := s.outs[n], rs[k];
    assert last in s.outs && q in rs;
    assert rs[k - 1].sector <= q.sector;
    if Merges(hook, last, q) {
      hide Combine, Flat, CombineBytes;
      CombineFits(s.m, last, q);
      var z := Zeros(GapSize(last, q));
      CombineMemory(s.m, last, q);
      GrowFits(s.m, z, s.outs);
      GrowFits(s.m, z, rs);
    }
  }

  lemma CombineMemory(m: seq<byte>, last: Request, q: Request)
    requires last.sector <= q.sector
    ensures Combine(m, last, q).0 == m + Zeros(GapSize(last, q))
  {
  }

  lemma GrowFits(m: seq<byte>, z: seq<byte>, rs: seq<Request>)
    requires AllFit(m, rs)
    ensures AllFit(m + z, rs)
  {
    forall r | r in rs ensures Fits(m + z, r) {
      FlatGrows(m, z, r.qiov);
    }
  }

  /** The merged requests lie in memory with as many bytes as they have sectors, and
      the last one ends where the last input ends, whatever lies between. */
  lemma {:induction false} MergeShape(hook: Hook, m: seq<byte>, rs: seq<Request>, k: nat)
    requires 0 < k <= |rs| && Sorted(rs) && AllFit(m, rs)
    ensures Shape(m, rs, k, MergeUpTo(hook, m, rs, k))
    decreases k
  {
    hide Step, Fits;
    if k > 1 {
      MergeShape(hook, m, rs, k - 1);
      StepShape(hook, m, rs, k - 1, MergeUpTo(hook, m, rs, k - 1));
    }
  }

  ghost predicate VectorsFit(rs: seq<Request>) {
    forall r :: r in rs ==> |r.qiov| <= IOV_MAX
  }

  lemma StepVectorsFit(hook: Hook, s: Merged, q: Request)
    requires s.outs != [] && VectorsFit(s.outs) && |q.qiov| <= IOV_MAX && Fits(s.m, q)
    requires var last := s.outs[|s.outs| - 1]; last.sector <= q.sector && Fits(s.m, last)
    ensures VectorsFit(Step(hook, s, q).outs)
  {
    hide Combine, Fits, Flat, CombineBytes;
    CombineFits(s.m, s.outs[|s.outs| - 1], q);
  }

  /** Every merged vector has at most IOV_MAX entries if the inputs do. */
  lemma {:induction false} MergedVectorsFit(hook: Hook, m: seq<byte>, rs: seq<Request>, k: nat)
    requires 0 < k <= |rs| && Sorted(rs) && AllFit(m, rs) && VectorsFit(rs)
    ensures VectorsFit(MergeUpTo(hook, m, rs, k).outs)
    decreases k
  {
    hide Step, Fits, Sorted;
    if k > 1 {
      MergedVectorsFit(hook, m, rs, k - 1);
      MergeShape(hook, m, rs, k - 1);
      var s := MergeUpTo(hook, m, rs, k - 1);
      SortedAt(rs, k - 2, k - 1);
      assert s.outs[|s.outs| - 1] in s.outs && rs[k - 1] in rs;
      StepVectorsFit(hook, s, rs[k - 1]);
    }
  }

  /** Why request q did not join the one before it: their vectors and a buffer of zeros
      are too many entries, or there is a gap that the driver does not want filled. */
  predicate Barrier(hook: Hook, last: Request, q: Request) {
    || |last.qiov| + |q.qiov| + 1 > IOV_MAX
    || (last.sector + last.sectors < q.sector && !hook(last, q))
  }

  /** The request that opened output i + 1 could not join output i. */
  ghost predicate Opened(hook: Hook, s: Merged, rs: seq<Request>, k: nat, i: nat)
    requires k <= |rs| && i + 1 < |s.outs|
  {
    exists j: nat :: j < k && rs[j].sector == s.outs[i + 1].sector && Barrier(hook, s.outs[i], rs[j])
  }

  /** Nothing that may be merged is left apart. */
  lemma {:induction false} MergeIsMaximal(hook: Hook, m: seq<byte>, rs: seq<Request>, k: nat, i: nat)
    requires 0 < k <= |rs| && Sorted(rs) && i + 1 < |MergeUpTo(hook, m, rs, k).outs|
    ensures Opened(hook, MergeUpTo(hook, m, rs, k), rs, k, i)
    decreases k
  {
    hide Step, Opened, Sorted;
    if k > 1 {
      var s := MergeUpTo(hook, m, rs, k - 1);
      UpToStep(hook, m, rs, k);
      hide MergeUpTo;
      if i + 1 < |s.outs| {
        MergeIsMaximal(hook, m, rs, k - 1, i);
      }
      StepMaximal(hook, s, rs, k, i);
    }
  }

  lemma StepMaximal(hook: Hook, s: Merged, rs: seq<Request>, k: nat, i: nat)
    requires 1 < k <= |rs| && s.outs != [] && s.outs[|s.outs| - 1].sector <= rs[k - 1].sector
    requires i + 1 < |s.outs| ==> Opened(hook, s, rs, k - 1, i)
    requires i + 1 < |Step(hook, s, rs[k - 1]).outs|
    ensures Opened(hook, Step(hook, s, rs[k - 1]), rs, k, i)
  {
    hide Combine;
    var s', n := Step(hook, s, rs[k - 1]), |s.outs| - 1;
    CombineStart(s.m, s.outs[n], rs[k - 1]);
    if i + 1 <= n {
      var j: nat :| j < k - 1 && rs[j].sector == s.outs[i + 1].sector && Barrier(hook, s.outs[i], rs[j]);
      assert s'.outs[i] == s.outs[i] && s'.outs[i + 1].sector == s.outs[i + 1].sector;
    } else {
      assert s'.outs == s.outs + [rs[k - 1]];
      assert Barrier(hook, s'.outs[i], rs[k - 1]);
    }
  }

  lemma CombineStart(m: seq<byte>, last: Request, q: Request)
    requires last.sector <= q.sector
    ensures Combine(m, last, q).1.sector == last.sector
  {
  }

  lemma SortedAt(rs: seq<Request>, i: nat, j: nat)
    requires Sorted(rs) && i < j < |rs|
    ensures rs[i].sector <= rs[j].sector
  {
  }

  /** Byte p is as the originals leave it, up to the last byte merged so far. */
  ghost predicate PointAgrees(s: Merged, done: seq<Request>, e: nat, p: nat)
    requires AllFit(s.m, s.outs) && AllFit(s.m, done)
  {
    && (p < e ==>
         if InGaps(s.gaps, p) then ReadBack(s.m, done, p) == Untouched && ReadBack(s.m, s.outs, p) == Written(0)
         else ReadBack(s.m, s.outs, p) == ReadBack(s.m, done, p))
    && (ReadBack(s.m, done, p) == Untouched ==> ReadBack(s.m, s.outs, p) == Untouched || InGaps(s.gaps, p))
  }

  lemma GapsBehind(s: Merged, bound: nat, p: nat)
    requires (forall i :: 0 <= i < |s.gaps| ==> s.gaps[i].hi <= bound) && p >= bound
    ensures !InGaps(s.gaps, p)
  {
  }

  lemma InGapsAppend(gaps: seq<Gap>, g: Gap, p: nat)
    ensures InGaps(gaps + [g], p) <==> InGaps(gaps, p) || g.lo <= p < g.hi
  {
    if g.lo <= p < g.hi {
      assert (gaps + [g])[|gaps|] == g;
    }
    if i :| 0 <= i < |gaps| && gaps[i].lo <= p < gaps[i].hi {
      assert (gaps + [g])[i] == gaps[i];
    }
  }

  lemma CombineAgrees(m: seq<byte>, s: Merged, init: seq<Request>, last: Request, done: seq<Request>, q: Request, p: nat)
    requires s.outs == init + [last] && AllFit(s.m, s.outs) && AllFit(s.m, done) && Fits(s.m, q)
    requires last.sector <= q.sector && Fits(s.m, last) && AllFit(s.m, init)
    requires forall i :: 0 <= i < |s.gaps| ==> s.gaps[i].hi <= Start(q) && s.gaps[i].hi <= End(last)
    requires PointAgrees(s, done, End(last), p)
    requires End(last) < Start(q) ==> forall r :: r in done ==> End(r) <= End(last)
    ensures var (m', r) := Combine(s.m, last, q);
      var s' := Merged(m', init + [r],
                       if Start(q) > End(last) then s.gaps + [Gap(End(last), Start(q))] else s.gaps);
      && AllFit(m', init + [r]) && AllFit(m', done + [q]) && PointAgrees(s', done + [q], End(q), p)
  {
    hide ReadBack, Flat, Combine, Fits;
    CombineRead(s.m, init, last, q, p);
    CombineMemory(s.m, last, q);
    ReadAppend(s.m, done, q, p);
    ReadGrows(s.m, Zeros(GapSize(last, q)), done + [q], p);
    InGapsAppend(s.gaps, Gap(End(last), Start(q)), p);
    if p >= Start(q) {
      GapsBehind(s, Start(q), p);
      if p >= End(q) {
        ReadAppend(s.m, init, last, p);
      }
    } else if p >= End(last) {
      UntouchedBeyond(s.m, done, p);
      GapsBehind(s, End(last), p);
    }
  }

  lemma AppendAgrees(s: Merged, e: nat, done: seq<Request>, q: Request, p: nat)
    requires AllFit(s.m, s.outs) && AllFit(s.m, done) && Fits(s.m, q)
    requires forall i :: 0 <= i < |s.gaps| ==> s.gaps[i].hi <= Start(q) && s.gaps[i].hi <= e
    requires PointAgrees(s, done, e, p)
    requires e < Start(q) ==> forall r :: r in done ==> End(r) <= e
    ensures AllFit(s.m, s.outs + [q]) && AllFit(s.m, done + [q])
    ensures PointAgrees(s.(outs := s.outs + [q]), done + [q], End(q), p)
  {
    hide ReadBack, Flat, Fits;
    ReadAppend(s.m, done, q, p);
    ReadAppend(s.m, s.outs, q, p);
    if p >= Start(q) {
      GapsBehind(s, Start(q), p);
    } else if p >= e {
      UntouchedBeyond(s.m, done, p);
      GapsBehind(s, e, p);
    }
  }

  lemma StepAgrees(hook: Hook, m: seq<byte>, rs: seq<Request>, k: nat, s: Merged, p: nat)
    requires 0 < k < |rs| && Sorted(rs) && Shape(m, rs, k, s)
    requires PointAgrees(s, rs[..k], End(rs[k - 1]), p)
    requires End(rs[k - 1]) < Start(rs[k]) ==> EndBy(rs, k, End(rs[k - 1]))
    ensures var s' := Step(hook, s, rs[k]);
      AllFit(s'.m, s'.outs) && AllFit(s'.m, rs[..k + 1]) && PointAgrees(s', rs[..k + 1], End(rs[k]), p)
  {
    var n := |s.outs| - 1;
    var last, q := s.outs[n], rs[k];
    assert last in s.outs && q in rs && rs[k - 1].sector <= q.sector;
    assert rs[..k + 1] == rs[..k] + [q] && s.outs == s.outs[..n] + [last];
    hide Combine, PointAgrees, Fits;
    if Merges(hook, last, q) {
      CombineAgrees(m, s, s.outs[..n], last, rs[..k], q, p);
    } else {
      AppendAgrees(s, End(rs[k - 1]), rs[..k], q, p);
    }
  }

  lemma {:induction false} UpToAgrees(hook: Hook, m: seq<byte>, rs: seq<Request>, k: nat, p: nat)
    requires 0 < k <= |rs| && Sorted(rs) && AllFit(m, rs) && NoLostTail(rs)
    ensures var s := MergeUpTo(hook, m, rs, k);
      AllFit(s.m, s.outs) && AllFit(s.m, rs[..k]) && PointAgrees(s, rs[..k], End(rs[k - 1]), p)
    decreases k
  {
    hide Step, Fits;
    if k == 1 {
      assert rs[..1] == [rs[0]];
    } else {
      UpToAgrees(hook, m, rs, k - 1, p);
      MergeShape(hook, m, rs, k - 1);
      hide PointAgrees, Shape, EndBy;
      StepAgrees(hook, m, rs, k - 1, MergeUpTo(hook, m, rs, k - 1), p);
    }
  }

  /** Without a lost tail, writing the merged requests in order leaves every byte
      as writing the originals in order does, except that the gaps the driver
      approved, which no request covers, become zero. */
  lemma MergePreserves(hook: Hook, m: seq<byte>, rs: seq<Request>, p: nat)
    requires rs != [] && Sorted(rs) && AllFit(m, rs) && NoLostTail(rs)
    ensures var s := MergeAll(hook, m, rs);
      && AllFit(s.m, s.outs)
      && (InGaps(s.gaps, p) ==> ReadBack(m, rs, p) == Untouched && ReadBack(s.m, s.outs, p) == Written(0))
      && (!InGaps(s.gaps, p) ==> ReadBack(s.m, s.outs, p) == ReadBack(m, rs, p))
  {
    var s := MergeAll(hook, m, rs);
    UpToAgrees(hook, m, rs, |rs|, p);
    MergeShape(hook, m, rs, |rs|);
    assert rs[..|rs|] == rs;
    SameOriginals(m, s.m, rs, p);
    hide ReadBack;
    if p >= End(rs[|rs| - 1]) {
      UntouchedBeyond(m, rs, p);
      GapsBehind(s, Start(rs[|rs| - 1]), p);
    }
  }

  lemma SameOriginals(m: seq<byte>, m': seq<byte>, rs: seq<Request>, p: nat)
    requires AllFit(m, rs) && |m| <= |m'| && m'[..|m|] == m
    ensures AllFit(m', rs) && ReadBack(m', rs, p) == ReadBack(m, rs, p)
  {
    assert m + m'[|m|..] == m';
    ReadGrows(m, m'[|m|..], rs, p);
  }

  // ------------------------------------------------------- exactly when it is safe

  /** A driver without bdrv_merge_requests. */
  ghost predicate NoHook(hook: Hook) {
    forall a, b :: !hook(a, b)
  }

  /** Vector entries, with one spare for a zero buffer for each request. */
  function Weight(rs: seq<Request>): nat {
    if rs == [] then 0 else Weight(rs[..|rs| - 1]) + |rs[|rs| - 1].qiov| + 1
  }

  /** No hook, and room in IOV_MAX for merging everything. */
  ghost predicate PlainBatch(hook: Hook, rs: seq<Request>) {
    NoHook(hook) && Weight(rs) <= IOV_MAX
  }

  lemma {:induction false} WeightPrefix(rs: seq<Request>, k: nat)
    requires k <= |rs|
    ensures Weight(rs[..k]) <= Weight(rs)
  {
    if k < |rs| {
      WeightPrefix(rs[..|rs| - 1], k);
      assert rs[..|rs| - 1][..k] == rs[..k];
    } else {
      assert rs[..k] == rs;
    }
  }

  /** Finished requests end before the one under construction starts. */
  ghost predicate Separate(s: Merged) {
    && s.outs != [] && s.gaps == []
    && forall i :: 0 <= i < |s.outs| - 1 ==> End(s.outs[i]) < Start(s.outs[|s.outs| - 1])
  }

  /** One step without a hook: combine exactly the requests that touch. */
  lemma PlainStep(hook: Hook, s: Merged, q: Request)
    requires NoHook(hook) && s.outs != []
    requires var last := s.outs[|s.outs| - 1];
      last.sector <= q.sector && Fits(s.m, last) && Fits(s.m, q) && |last.qiov| + |q.qiov| + 1 <= IOV_MAX
    ensures var n := |s.outs| - 1; var last := s.outs[n]; var s' := Step(hook, s, q);
      && s'.gaps == s.gaps
      && (Start(q) > End(last) ==> s'.outs == s.outs + [q])
      && (Start(q) <= End(last) ==>
           && |s'.outs| == n + 1 && s'.outs[..n] == s.outs[..n]
           && Start(s'.outs[n]) == Start(last) && End(s'.outs[n]) == End(q)
           && |s'.outs[n].qiov| <= |last.qiov| + |q.qiov| + 1)
  {
    CombineFits(s.m, s.outs[|s.outs| - 1], q);
    hide Combine, Fits;
  }

  lemma StepSeparate(hook: Hook, s: Merged, q: Request)
    requires Separate(s) && NoHook(hook)
    requires var last := s.outs[|s.outs| - 1];
      last.sector <= q.sector && Fits(s.m, last) && Fits(s.m, q) && |last.qiov| + |q.qiov| + 1 <= IOV_MAX
    ensures Separate(Step(hook, s, q))
  {
    PlainStep(hook, s, q);
    hide Step, Fits;
    var s' := Step(hook, s, q);
    var n := |s.outs| - 1;
    forall i | 0 <= i < |s'.outs| - 1 ensures End(s'.outs[i]) < Start(s'.outs[|s'.outs| - 1]) {
      if Start(q) <= End(s.outs[n]) {
        assert s'.outs[..n][i] == s.outs[..n][i];
      }
    }
  }

  lemma UpToStep(hook: Hook, m: seq<byte>, rs: seq<Request>, k: nat)
    requires 1 < k <= |rs| && Sorted(rs)
    ensures MergeUpTo(hook, m, rs, k - 1).outs[|MergeUpTo(hook, m, rs, k - 1).outs| - 1].sector <= rs[k - 1].sector
    ensures MergeUpTo(hook, m, rs, k) == Step(hook, MergeUpTo(hook, m, rs, k - 1), rs[k - 1])
  {
    hide Step;
  }

  lemma WeightStep(rs: seq<Request>, k: nat)
    requires 0 < k <= |rs|
    ensures Weight(rs[..k]) == Weight(rs[..k - 1]) + |rs[k - 1].qiov| + 1
  {
    assert rs[..k][..k - 1] == rs[..k - 1];
  }

  lemma {:induction false} MergeSeparate(hook: Hook, m: seq<byte>, rs: seq<Request>, k: nat)
    requires 0 < k <= |rs| && Sorted(rs) && AllFit(m, rs) && PlainBatch(hook, rs)
    ensures var s := MergeUpTo(hook, m, rs, k);
      Separate(s) && |s.outs[|s.outs| - 1].qiov| + 1 <= Weight(rs[..k])
    decreases k
  {
    assert NoHook(hook);
    hide Step, Fits, NoHook, PlainBatch, Sorted, AllFit, Weight, Start, End;
    WeightStep(rs, k);
    if k > 1 {
      hide MergeUpTo, Separate;
      var s := MergeUpTo(hook, m, rs, k - 1);
      UpToStep(hook, m, rs, k);
      MergeSeparate(hook, m, rs, k - 1);
      StepReady(hook, m, rs, k - 1);
      StepSeparate(hook, s, rs[k - 1]);
      PlainStep(hook, s, rs[k - 1]);
    }
  }

  /** What the next step needs. */
  lemma StepReady(hook: Hook, m: seq<byte>, rs: seq<Request>, k: nat)
    requires 0 < k < |rs| && Sorted(rs) && AllFit(m, rs) && PlainBatch(hook, rs)
    requires var s := MergeUpTo(hook, m, rs, k); |s.outs[|s.outs| - 1].qiov| + 1 <= Weight(rs[..k])
    ensures var s := MergeUpTo(hook, m, rs, k); var last := s.outs[|s.outs| - 1];
      && last.sector <= rs[k].sector && Fits(s.m, last) && Fits(s.m, rs[k])
      && |last.qiov| + |rs[k].qiov| + 1 <= IOV_MAX && End(last) == End(rs[k - 1])
  {
    hide MergeUpTo, Fits;
    MergeShape(hook, m, rs, k);
    var s := MergeUpTo(hook, m, rs, k);
    assert s.outs[|s.outs| - 1] in s.outs && rs[k] in rs && rs[k - 1].sector <= rs[k].sector;
    assert rs[..k + 1][..k] == rs[..k];
    WeightPrefix(rs, k + 1);
  }

  /** A byte that nothing kept so far covers, and that every later request lies
      beyond, stays untouched to the end. */
  ghost predicate Missed(s: Merged, p: nat) {
    forall o :: o in s.outs ==> End(o) <= p || p < Start(o)
  }

  lemma FirstMissed(hook: Hook, m: seq<byte>, rs: seq<Request>, k: nat, p: nat)
    requires 0 < k < |rs| && Sorted(rs) && AllFit(m, rs) && PlainBatch(hook, rs)
    requires p == End(rs[k - 1]) < Start(rs[k])
    ensures MissedUpTo(hook, m, rs, k + 1, p)
  {
    assert NoHook(hook);
    hide Fits, NoHook, PlainBatch, Sorted, AllFit, Weight;
    MergeSeparate(hook, m, rs, k);
    StepReady(hook, m, rs, k);
    var s := MergeUpTo(hook, m, rs, k);
    hide Step;
    PlainStep(hook, s, rs[k]);
    EndsBy(s, p);
    MissedAppend(s, Step(hook, s, rs[k]), rs[k], p);
  }

  lemma StepMissed(hook: Hook, s: Merged, q: Request, p: nat)
    requires NoHook(hook) && s.outs != [] && Missed(s, p) && p < Start(s.outs[|s.outs| - 1]) && p < Start(q)
    requires var last := s.outs[|s.outs| - 1];
      last.sector <= q.sector && Fits(s.m, last) && Fits(s.m, q) && |last.qiov| + |q.qiov| + 1 <= IOV_MAX
    ensures var s' := Step(hook, s, q); Missed(s', p) && p < Start(s'.outs[|s'.outs| - 1])
  {
    hide Fits, NoHook, Missed, Step, Start, End;
    PlainStep(hook, s, q);
    MissedStep(s, Step(hook, s, q), q, p);
  }

  /** The merge state after n requests leaves byte p out for good. */
  ghost predicate MissedUpTo(hook: Hook, m: seq<byte>, rs: seq<Request>, n: nat, p: nat)
    requires 0 < n <= |rs| && Sorted(rs)
  {
    var s := MergeUpTo(hook, m, rs, n);
    Missed(s, p) && p < Start(s.outs[|s.outs| - 1])
  }

  lemma NextMissed(hook: Hook, m: seq<byte>, rs: seq<Request>, n: nat, p: nat)
    requires 1 < n <= |rs| && Sorted(rs) && AllFit(m, rs) && PlainBatch(hook, rs)
    requires MissedUpTo(hook, m, rs, n - 1, p) && p < Start(rs[n - 1])
    ensures MissedUpTo(hook, m, rs, n, p)
  {
    assert NoHook(hook);
    hide Fits, NoHook, PlainBatch, Sorted, AllFit, Weight, Missed, Separate, Step, Start, End, MergeUpTo;
    MergeSeparate(hook, m, rs, n - 1);
    StepReady(hook, m, rs, n - 1);
    UpToStep(hook, m, rs, n);
    StepMissed(hook, MergeUpTo(hook, m, rs, n - 1), rs[n - 1], p);
  }

  lemma {:induction false} StaysMissed(hook: Hook, m: seq<byte>, rs: seq<Request>, k: nat, n: nat, p: nat)
    requires 0 < k < n <= |rs| && Sorted(rs) && AllFit(m, rs) && PlainBatch(hook, rs)
    requires p == End(rs[k - 1]) < Start(rs[k])
    ensures MissedUpTo(hook, m, rs, n, p)
    decreases n
  {
    assert rs[k].sector <= rs[n - 1].sector;
    hide AllFit, PlainBatch, MissedUpTo, Sorted;
    if n == k + 1 {
      FirstMissed(hook, m, rs, k, p);
    } else {
      StaysMissed(hook, m, rs, k, n - 1, p);
      NextMissed(hook, m, rs, n, p);
    }
  }

  lemma MissedAppend(s: Merged, s': Merged, q: Request, p: nat)
    requires Missed(s, p) && p < Start(q) && s'.outs == s.outs + [q]
    ensures Missed(s', p)
  {
  }

  lemma MissedStep(s: Merged, s': Merged, q: Request, p: nat)
    requires s.outs != [] && Missed(s, p) && p < Start(s.outs[|s.outs| - 1]) && p < Start(q)
    requires var n := |s.outs| - 1;
      s'.outs == s.outs + [q]
      || (|s'.outs| == n + 1 && s'.outs[..n] == s.outs[..n] && Start(s'.outs[n]) == Start(s.outs[n]))
    ensures Missed(s', p) && p < Start(s'.outs[|s'.outs| - 1])
  {
    var n := |s.outs| - 1;
    forall o | o in s'.outs ensures End(o) <= p || p < Start(o) {
      if s'.outs != s.outs + [q] && o != s'.outs[n] {
        assert o in s'.outs[..n];
      }
    }
  }

  lemma EndsBy(s: Merged, p: nat)
    requires Separate(s) && End(s.outs[|s.outs| - 1]) <= p
    ensures Missed(s, p)
  {
    forall o | o in s.outs ensures End(o) <= p {
      var i :| 0 <= i < |s.outs| && s.outs[i] == o;
      assert Start(s.outs[|s.outs| - 1]) <= End(s.outs[|s.outs| - 1]);
    }
  }

  /** A lost tail is seen on the disk: some byte an original wrote is untouched. */
  lemma LostByte(hook: Hook, m: seq<byte>, rs: seq<Request>) returns (p: nat)
    requires rs != [] && Sorted(rs) && AllFit(m, rs) && PlainBatch(hook, rs)
    requires !NoLostTail(rs)
    ensures var s := MergeAll(hook, m, rs);
      AllFit(s.m, s.outs) && ReadBack(s.m, s.outs, p) == Untouched && ReadBack(m, rs, p) != Untouched
  {
    var s := MergeAll(hook, m, rs);
    MergeShape(hook, m, rs, |rs|);
    var k: nat, j: nat;
    k, j := LostTail(rs);
    p := End(rs[k - 1]);
    assert Covers(rs[j], p) by {
      assert rs[j].sector <= rs[k - 1].sector;
    }
    hide MergeUpTo, ReadBack, Flat, PlainBatch, Fits, Covers, NoLostTail, Sorted, Start, End;
    LostMissed(hook, m, rs, k, p);
    MissedUncovered(s, p);
    UntouchedBeyond(s.m, s.outs, p);
    TouchedWhere(m, rs, j, p);
  }

  lemma MissedUncovered(s: Merged, p: nat)
    requires Missed(s, p)
    ensures forall j :: 0 <= j < |s.outs| ==> !Covers(s.outs[j], p)
  {
  }

  lemma LostMissed(hook: Hook, m: seq<byte>, rs: seq<Request>, k: nat, p: nat)
    requires 0 < k <= |rs| && Sorted(rs) && AllFit(m, rs) && PlainBatch(hook, rs)
    requires p == End(rs[k - 1]) && (k < |rs| ==> p < Start(rs[k]))
    ensures Missed(MergeAll(hook, m, rs), p)
  {
    hide PlainBatch, Sorted, Missed, MergeUpTo;
    if k == |rs| {
      MergeShape(hook, m, rs, |rs|);
      MergeSeparate(hook, m, rs, |rs|);
      EndsBy(MergeAll(hook, m, rs), p);
    } else {
      StaysMissed(hook, m, rs, k, |rs|, p);
    }
  }

  lemma LostTail(rs: seq<Request>) returns (k: nat, j: nat)
    requires rs != [] && !NoLostTail(rs)
    ensures j < k <= |rs| && End(rs[j]) > End(rs[k - 1])
    ensures k < |rs| ==> End(rs[k - 1]) < Start(rs[k])
  {
    hide Start, End, EndBy;
    if !EndBy(rs, |rs|, End(rs[|rs| - 1])) {
      k := |rs|;
    } else {
      k :| 0 < k < |rs| && End(rs[k - 1]) < Start(rs[k]) && !EndBy(rs, k, End(rs[k - 1]));
    }
    j := Beyond(rs, k, End(rs[k - 1]));
  }

  lemma Beyond(rs: seq<Request>, k: nat, e: nat) returns (j: nat)
    requires k <= |rs| && !EndBy(rs, k, e)
    ensures j < k && End(rs[j]) > e
  {
    hide End;
    j :| j < k && End(rs[j]) > e;
  }

  /** For a driver without a merge hook and vectors that stay within IOV_MAX:
      merging is invisible on every disk if and only if no tail is lost. */
  lemma MergeSafeIff(hook: Hook, m: seq<byte>, rs: seq<Request>)
    requires rs != [] && Sorted(rs) && AllFit(m, rs) && PlainBatch(hook, rs)
    ensures var s := MergeAll(hook, m, rs);
      AllFit(s.m, s.outs)
      && ((forall p :: p >= 0 ==> ReadBack(s.m, s.outs, p) == ReadBack(m, rs, p)) <==> NoLostTail(rs))
  {
    hide NoLostTail, ReadBack, MergeUpTo, Sorted;
    var s := MergeAll(hook, m, rs);
    MergeShape(hook, m, rs, |rs|);
    if NoLostTail(rs) {
      MergeSeparate(hook, m, rs, |rs|);
      forall p: nat ensures ReadBack(s.m, s.outs, p) == ReadBack(m, rs, p) {
        MergePreserves(hook, m, rs, p);
      }
    } else {
      var p := LostByte(hook, m, rs);
    }
  }

  /** Ten sectors at 0, and two sectors at 2 that they strictly contain. */
  function ContainedBatch(): seq<Request> {
    [Request(0, 10, [Seg(0, 5120)]), Request(2, 2, [Seg(5120, 1024)])]
  }

  /** The tail of the first request of that batch is dropped: some byte it writes
      is not written by the merged request. */
  lemma ContainedBatchLoses(hook: Hook, m: seq<byte>) returns (p: nat)
    requires NoHook(hook) && |m| >= 6144
    ensures var rs := ContainedBatch();
      Sorted(rs) && AllFit(m, rs)
      && var s := MergeAll(hook, m, rs);
         AllFit(s.m, s.outs) && ReadBack(s.m, s.outs, p) == Untouched && ReadBack(m, rs, p) != Untouched
  {
    var rs := ContainedBatch();
    assert [Seg(0, 5120)][1..] == [] && [Seg(5120, 1024)][1..] == [];
    assert rs[..1] == [rs[0]] && rs[..1][..0] == [];
    assert !EndBy(rs, 2, End(rs[1])) by {
      assert End(rs[0]) > End(rs[1]);
    }
    assert Weight(rs[..1]) == 2;
    assert Weight(rs) == 4;
    p := LostByte(hook, m, rs);
  }

  // ---------------------------------------------------------------- the code

  function InsertRequest(r: Request, rs: seq<Request>): seq<Request> {
    if rs == [] || r.sector <= rs[0].sector then [r] + rs else [rs[0]] + InsertRequest(r, rs[1..])
  }

  lemma {:induction false} InsertPermutes(r: Request, rs: seq<Request>)
    ensures multiset(InsertRequest(r, rs)) == multiset{r} + multiset(rs)
  {
    if !(rs == [] || r.sector <= rs[0].sector) {
      InsertPermutes(r, rs[1..]);
      assert rs == [rs[0]] + rs[1..];
    }
  }

  lemma {:induction false} InsertMembers(r: Request, rs: seq<Request>)
    ensures forall o :: o in InsertRequest(r, rs) ==> o == r || o in rs
  {
    if rs != [] {
      InsertMembers(r, rs[1..]);
    }
  }

  lemma {:induction false} InsertSorted(r: Request, rs: seq<Request>)
    requires Sorted(rs)
    ensures Sorted(InsertRequest(r, rs))
  {
    if !(rs == [] || r.sector <= rs[0].sector) {
      var tail := InsertRequest(r, rs[1..]);
      InsertSorted(r, rs[1..]);
      InsertMembers(r, rs[1..]);
      forall j | 0 <= j < |tail| ensures rs[0].sector <= tail[j].sector {
        assert tail[j] in tail;
      }
    }
  }

  /** What qsort with multiwrite_req_compare leaves: the same requests, sorted by
      sector (the order of equal sectors is the library's choice). */
  method SortRequests(reqs: array<Request>)
    modifies reqs
    ensures Sorted(reqs[..]) && multiset(reqs[..]) == multiset(old(reqs[..]))
  {
    var sorted := [];
    var i := reqs.Length;
    while i > 0
      invariant 0 <= i <= reqs.Length && reqs[..] == old(reqs[..])
      invariant Sorted(sorted) && multiset(sorted) == multiset(reqs[i..])
    {
      i := i - 1;
      assert reqs[i..] == [reqs[i]] + reqs[i + 1..];
      InsertSorted(reqs[i], sorted);
      InsertPermutes(reqs[i], sorted);
      sorted := InsertRequest(reqs[i], sorted);
    }
    assert reqs[0..] == reqs[..];
    SameCardinality(sorted, reqs[..]);
    i := 0;
    while i < reqs.Length
      invariant 0 <= i <= reqs.Length && reqs[..i] == sorted[..i]
    {
      reqs[i] := sorted[i];
      assert reqs[..i + 1] == reqs[..i] + [reqs[i]];
      i := i + 1;
    }
    assert reqs[..] == sorted;
  }

  lemma SameCardinality(a: seq<Request>, b: seq<Request>)
    requires multiset(a) == multiset(b)
    ensures |a| == |b|
  {
    assert |multiset(a)| == |multiset(b)|;
  }

  /** multiwrite_merge: sorts the array, compacts it in place and returns how many
      requests remain. `heap` is memory with the zero buffers allocated on the way. */
  method MultiwriteMerge(reqs: array<Request>, m: seq<byte>, hook: Hook)
    returns (num: nat, heap: seq<byte>, ghost rs: seq<Request>)
    requires reqs.Length > 0
    modifies reqs
    ensures Sorted(rs) && multiset(rs) == multiset(old(reqs[..])) && |rs| == reqs.Length
    ensures num <= reqs.Length
      && reqs[..num] == MergeAll(hook, m, rs).outs && heap == MergeAll(hook, m, rs).m
  {
    SortRequests(reqs);
    rs := reqs[..];
    num, heap := Compact(reqs, m, hook, rs);
  }

  /** The loop of multiwrite_merge, over the sorted array. */
  method Compact(reqs: array<Request>, m: seq<byte>, hook: Hook, ghost rs: seq<Request>)
    returns (num: nat, heap: seq<byte>)
    requires reqs.Length > 0 && rs == reqs[..] && Sorted(rs)
    modifies reqs
    ensures num <= reqs.Length
      && reqs[..num] == MergeAll(hook, m, rs).outs && heap == MergeAll(hook, m, rs).m
  {
    heap := m;
    hide Step;
    var outidx := 0;
    ghost var s := MergeUpTo(hook, m, rs, 1);
    var i := 1;
    hide Sorted, MergeUpTo;
    while i < reqs.Length
      invariant 1 <= i <= reqs.Length && outidx < i
      invariant forall j :: i <= j < reqs.Length ==> reqs[j] == rs[j]
      invariant s == MergeUpTo(hook, m, rs, i) && reqs[..outidx + 1] == s.outs && heap == s.m
    {
      assert reqs[outidx] == s.outs[outidx];
      UpToStep(hook, m, rs, i + 1);
      ghost var s' := Step(hook, s, rs[i]);
      outidx, heap := MergeStep(reqs, outidx, i, heap, hook, s);
      s := s';
      i := i + 1;
    }
    num := outidx + 1;
  }

  /** The loop body: combine request i with request outidx, or move it down. */
  method MergeStep(reqs: array<Request>, outidx: nat, i: nat, m: seq<byte>, hook: Hook, ghost s: Merged)
    returns (newOutidx: nat, heap: seq<byte>)
    requires outidx < i < reqs.Length && reqs[outidx].sector <= reqs[i].sector
    requires reqs[..outidx + 1] == s.outs && m == s.m
    modifies reqs
    ensures outidx <= newOutidx <= i && newOutidx <= outidx + 1
    ensures var s' := Step(hook, s, old(reqs[i])); reqs[..newOutidx + 1] == s'.outs && heap == s'.m
    ensures forall j :: i < j < reqs.Length ==> reqs[j] == old(reqs[j])
  {
    hide Combine;
    assert reqs[outidx] == s.outs[outidx];
    if Merges(hook, reqs[outidx], reqs[i]) {
      var combined := Combine(m, reqs[outidx], reqs[i]);
      reqs[outidx] := combined.1;
      return outidx, combined.0;
    } else {
      reqs[outidx + 1] := reqs[i];
      return outidx + 1, m;
    }
  }
}
