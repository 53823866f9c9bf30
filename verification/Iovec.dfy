// I/O vectors (Main/linux/cutils.c): lists of address ranges in one memory, and
// the functions that append, gather, scatter and fill them.

module Iovec {
  import opened Wire

  /** struct iovec: iov_base and iov_len. */
  datatype Seg = Seg(base: nat, len: nat)

  ghost predicate InMemory(m: seq<byte>, segs: seq<Seg>) {
    forall s :: s in segs ==> s.base + s.len <= |m|
  }

  function Size(segs: seq<Seg>): nat {
    if segs == [] then 0 else segs[0].len + Size(segs[1..])
  }

  /** The bytes of one segment. */
  function SegBytes(m: seq<byte>, s: Seg): (d: seq<byte>)
    requires s.base + s.len <= |m|
    ensures |d| == s.len
  {
    m[s.base..s.base + s.len]
  }

  /** The bytes a vector stands for, in order. */
  function Flat(m: seq<byte>, segs: seq<Seg>): (d: seq<byte>)
    requires InMemory(m, segs)
    ensures |d| == Size(segs)
  {
    if segs == [] then []
    else
      assert segs[0] in segs;
      SegBytes(m, segs[0]) + Flat(m, segs[1..])
  }

  function Min(a: nat, b: nat): nat { if a < b then a else b }

  /** d without its first skip bytes, cut after size bytes. */
  function Clip(d: seq<byte>, skip: nat, size: nat): seq<byte> {
    var rest := d[Min(skip, |d|)..];
    rest[..Min(size, |rest|)]
  }

  /** The segments qemu_iovec_copy appends. */
  function CopySegs(src: seq<Seg>, skip: nat, size: nat): (r: seq<Seg>)
    ensures |r| <= |src|
  {
    if src == [] || size == 0 then []
    else if skip >= src[0].len then CopySegs(src[1..], skip - src[0].len, size)
    else
      var len := src[0].len - skip;
      if len > size then [Seg(src[0].base + skip, size)]
      else [Seg(src[0].base + skip, len)] + CopySegs(src[1..], 0, size - len)
  }

  // --------------------------------------------------------------- properties

  lemma {:induction false} FlatAppend(m: seq<byte>, a: seq<Seg>, b: seq<Seg>)
    requires InMemory(m, a) && InMemory(m, b)
    ensures InMemory(m, a + b) && Flat(m, a + b) == Flat(m, a) + Flat(m, b)
  {
    if a == [] {
      assert a + b == b;
    } else {
      assert (a + b)[1..] == a[1..] + b;
      FlatAppend(m, a[1..], b);
    }
  }

  lemma {:induction false} SizeAppend(a: seq<Seg>, b: seq<Seg>)
    ensures Size(a + b) == Size(a) + Size(b)
  {
    if a == [] {
      assert a + b == b;
    } else {
      assert (a + b)[1..] == a[1..] + b;
      SizeAppend(a[1..], b);
    }
  }

  lemma ClipBehind(a: seq<byte>, b: seq<byte>, skip: nat, size: nat)
    requires skip >= |a|
    ensures Clip(a + b, skip, size) == Clip(b, skip - |a|, size)
  {
    assert (a + b)[Min(skip, |a + b|)..] == b[Min(skip - |a|, |b|)..];
  }

  lemma ClipWithin(a: seq<byte>, b: seq<byte>, skip: nat, size: nat)
    requires skip + size < |a|
    ensures Clip(a + b, skip, size) == a[skip..skip + size]
  {
  }

  lemma ClipAcross(a: seq<byte>, b: seq<byte>, skip: nat, size: nat)
    requires skip < |a| <= skip + size
    ensures Clip(a + b, skip, size) == a[skip..] + Clip(b, 0, size - (|a| - skip))
  {
    assert (a + b)[skip..] == a[skip..] + b;
    assert b[0..] == b;
  }

  /** A piece of a segment in front of a vector. */
  lemma FlatPart(m: seq<byte>, s: Seg, skip: nat, size: nat, more: seq<Seg>)
    requires s.base + s.len <= |m| && skip + size <= s.len && InMemory(m, more)
    ensures InMemory(m, [Seg(s.base + skip, size)] + more)
    ensures Flat(m, [Seg(s.base + skip, size)] + more)
         == SegBytes(m, s)[skip..skip + size] + Flat(m, more)
  {
    hide Flat, InMemory;
    FlatCons(m, Seg(s.base + skip, size), more);
    SliceSlice(m, s.base, s.base + s.len, skip, skip + size);
  }

  /** The copy of src stands for the clipped bytes. */
  ghost predicate Copies(m: seq<byte>, src: seq<Seg>, skip: nat, size: nat)
    requires InMemory(m, src)
  {
    && InMemory(m, CopySegs(src, skip, size))
    && Flat(m, CopySegs(src, skip, size)) == Clip(Flat(m, src), skip, size)
  }

  /** The last part of a segment in front of a vector. */
  lemma FlatDrop(m: seq<byte>, s: Seg, skip: nat, more: seq<Seg>)
    requires s.base + s.len <= |m| && skip <= s.len && InMemory(m, more)
    ensures InMemory(m, [Seg(s.base + skip, s.len - skip)] + more)
    ensures Flat(m, [Seg(s.base + skip, s.len - skip)] + more) == SegBytes(m, s)[skip..] + Flat(m, more)
  {
    hide Flat, InMemory;
    FlatPart(m, s, skip, s.len - skip, more);
    assert SegBytes(m, s)[skip..skip + (s.len - skip)] == SegBytes(m, s)[skip..];
  }

  /** A piece of a segment alone. */
  lemma FlatOne(m: seq<byte>, s: Seg, skip: nat, size: nat)
    requires s.base + s.len <= |m| && skip + size <= s.len
    ensures InMemory(m, [Seg(s.base + skip, size)])
    ensures Flat(m, [Seg(s.base + skip, size)]) == SegBytes(m, s)[skip..skip + size]
  {
    FlatNil(m);
    FlatPart(m, s, skip, size, []);
    hide Flat, SegBytes;
    assert [Seg(s.base + skip, size)] + [] == [Seg(s.base + skip, size)];
  }

  /** The first segment's bytes come first. */
  lemma FlatFront(m: seq<byte>, src: seq<Seg>)
    requires InMemory(m, src) && src != []
    ensures src[0].base + src[0].len <= |m| && InMemory(m, src[1..])
    ensures |SegBytes(m, src[0])| == src[0].len && Flat(m, src) == SegBytes(m, src[0]) + Flat(m, src[1..])
  {
    assert src[0] in src;
  }

  lemma CopyWithin(m: seq<byte>, src: seq<Seg>, skip: nat, size: nat)
    requires InMemory(m, src) && src != [] && 0 < size && skip < src[0].len && size < src[0].len - skip
    ensures Copies(m, src, skip, size)
  {
    hide Flat, InMemory, Clip, SegBytes, CopySegs;
    FlatFront(m, src);
    FlatOne(m, src[0], skip, size);
    CutWithin(src, skip, size);
    ClipWithin(SegBytes(m, src[0]), Flat(m, src[1..]), skip, size);
  }

  lemma CutWithin(src: seq<Seg>, skip: nat, size: nat)
    requires src != [] && 0 < size && skip < src[0].len && size < src[0].len - skip
    ensures CopySegs(src, skip, size) == [Seg(src[0].base + skip, size)]
  {
  }

  lemma CutNone(src: seq<Seg>, skip: nat, size: nat)
    requires src != [] && 0 < size && skip >= src[0].len
    ensures CopySegs(src, skip, size) == CopySegs(src[1..], skip - src[0].len, size)
  {
  }

  lemma CutFirst(src: seq<Seg>, skip: nat, size: nat)
    requires src != [] && 0 < size && skip < src[0].len <= skip + size
    ensures CopySegs(src, skip, size)
         == [Seg(src[0].base + skip, src[0].len - skip)] + CopySegs(src[1..], 0, size - (src[0].len - skip))
  {
  }

  lemma CopyAcross(m: seq<byte>, src: seq<Seg>, skip: nat, size: nat)
    requires InMemory(m, src) && src != [] && 0 < size && skip < src[0].len <= skip + size
    requires Copies(m, src[1..], 0, size - (src[0].len - skip))
    ensures Copies(m, src, skip, size)
  {
    hide Flat, InMemory, Clip, SegBytes, CopySegs;
    FlatFront(m, src);
    CutFirst(src, skip, size);
    ClipAcross(SegBytes(m, src[0]), Flat(m, src[1..]), skip, size);
    FlatDrop(m, src[0], skip, CopySegs(src[1..], 0, size - (src[0].len - skip)));
  }

  lemma CopyBehind(m: seq<byte>, src: seq<Seg>, skip: nat, size: nat)
    requires InMemory(m, src) && src != [] && 0 < size && skip >= src[0].len
    requires Copies(m, src[1..], skip - src[0].len, size)
    ensures Copies(m, src, skip, size)
  {
    hide Flat, InMemory, Clip, SegBytes, CopySegs;
    FlatFront(m, src);
    CutNone(src, skip, size);
    ClipBehind(SegBytes(m, src[0]), Flat(m, src[1..]), skip, size);
  }

  lemma CopyNothing(m: seq<byte>, src: seq<Seg>, skip: nat, size: nat)
    requires InMemory(m, src) && (src == [] || size == 0)
    ensures Copies(m, src, skip, size)
  {
  }

  /** Copied segments stand for exactly the clipped bytes of the source. */
  lemma {:induction false} CopyIsClip(m: seq<byte>, src: seq<Seg>, skip: nat, size: nat)
    requires InMemory(m, src)
    ensures InMemory(m, CopySegs(src, skip, size))
    ensures Flat(m, CopySegs(src, skip, size)) == Clip(Flat(m, src), skip, size)
  {
    hide Flat, Clip, CopySegs, InMemory;
    if src == [] || size == 0 {
      CopyNothing(m, src, skip, size);
    } else {
      FlatFront(m, src);
      if skip >= src[0].len {
        CopyIsClip(m, src[1..], skip - src[0].len, size);
        CopyBehind(m, src, skip, size);
      } else if src[0].len - skip > size {
        CopyWithin(m, src, skip, size);
      } else {
        CopyIsClip(m, src[1..], 0, size - (src[0].len - skip));
        CopyAcross(m, src, skip, size);
      }
    }
  }

  lemma SliceSlice(m: seq<byte>, a: nat, b: nat, i: nat, j: nat)
    requires a <= b <= |m| && i <= j <= b - a
    ensures m[a..b][i..j] == m[a + i..a + j]
  {
    forall k | 0 <= k < j - i ensures m[a..b][i..j][k] == m[a + i..a + j][k] {
    }
  }

  lemma FlatNil(m: seq<byte>)
    ensures Flat(m, []) == []
  {
  }

  lemma FlatCons(m: seq<byte>, s: Seg, segs: seq<Seg>)
    requires s.base + s.len <= |m| && InMemory(m, segs)
    ensures InMemory(m, [s] + segs) && Flat(m, [s] + segs) == SegBytes(m, s) + Flat(m, segs)
  {
    InMemoryCons(m, s, segs);
    hide InMemory;
    assert ([s] + segs)[1..] == segs;
  }

  lemma InMemoryCons(m: seq<byte>, s: Seg, segs: seq<Seg>)
    requires s.base + s.len <= |m| && InMemory(m, segs)
    ensures InMemory(m, [s] + segs)
  {
  }

  /** Copying a whole vector keeps its bytes (empty segments may be dropped). */
  lemma CopyAll(m: seq<byte>, src: seq<Seg>)
    requires InMemory(m, src)
    ensures InMemory(m, CopySegs(src, 0, Size(src)))
    ensures Flat(m, CopySegs(src, 0, Size(src))) == Flat(m, src)
  {
    CopyIsClip(m, src, 0, Size(src));
  }

  // ---------------------------------------------------------------- disjointness

  predicate Disjoint(s: Seg, t: Seg) {
    s.base + s.len <= t.base || t.base + t.len <= s.base
  }

  ghost predicate AllDisjoint(segs: seq<Seg>) {
    segs == [] || ((forall t :: t in segs[1..] ==> Disjoint(segs[0], t)) && AllDisjoint(segs[1..]))
  }

  /** qemu_iovec_from_buffer: the first bytes of the vector become d. */
  function Scatter(m: seq<byte>, segs: seq<Seg>, d: seq<byte>): (r: seq<byte>)
    requires InMemory(m, segs)
    ensures |r| == |m|
    decreases |segs|
  {
    if segs == [] || d == [] then m
    else
      assert segs[0] in segs;
      var n := Min(|d|, segs[0].len);
      Scatter(Splice(m, segs[0].base, d[..n]), segs[1..], d[n..])
  }

  lemma {:induction false} SpliceElsewhere(m: seq<byte>, a: nat, d: seq<byte>, segs: seq<Seg>)
    requires a + |d| <= |m| && InMemory(m, segs)
    requires forall t :: t in segs ==> Disjoint(Seg(a, |d|), t)
    ensures InMemory(Splice(m, a, d), segs) && Flat(Splice(m, a, d), segs) == Flat(m, segs)
  {
    if segs != [] {
      var t := segs[0];
      assert t in segs;
      SpliceElsewhere(m, a, d, segs[1..]);
      assert Splice(m, a, d)[t.base..t.base + t.len] == m[t.base..t.base + t.len];
    }
  }

  /** Bytes outside every segment are not touched. */
  lemma {:induction false} ScatterFrame(m: seq<byte>, segs: seq<Seg>, d: seq<byte>, a: nat)
    requires InMemory(m, segs) && a < |m|
    requires forall t :: t in segs ==> a < t.base || t.base + t.len <= a
    ensures Scatter(m, segs, d)[a] == m[a]
    decreases |segs|
  {
    if segs != [] && d != [] {
      assert segs[0] in segs;
      var n := Min(|d|, segs[0].len);
      ScatterFrame(Splice(m, segs[0].base, d[..n]), segs[1..], d[n..], a);
    }
  }

  /** After a scatter into disjoint segments the vector stands for d, followed by
      what it stood for behind |d|. */
  lemma {:induction false} ScatterFlat(m: seq<byte>, segs: seq<Seg>, d: seq<byte>)
    requires InMemory(m, segs) && AllDisjoint(segs) && |d| <= Size(segs)
    ensures InMemory(Scatter(m, segs, d), segs)
    ensures Flat(Scatter(m, segs, d), segs) == d + Flat(m, segs)[|d|..]
    decreases |segs|
  {
    if segs == [] || d == [] {
      assert [] + Flat(m, segs)[0..] == Flat(m, segs);
    } else {
      var s, rest := segs[0], segs[1..];
      assert s in segs;
      var n := Min(|d|, s.len);
      var m1 := Splice(m, s.base, d[..n]);
      var m2 := Scatter(m1, rest, d[n..]);
      SpliceElsewhere(m, s.base, d[..n], rest);
      ScatterFlat(m1, rest, d[n..]);
      ScatterKeeps(m1, rest, d[n..], s);
      var old0 := m[s.base..s.base + s.len];
      SpliceWithin(m, s, d[..n]);
      hide Scatter, Splice;
      Refill(old0, Flat(m, rest), d, n);
    }
  }

  /** A segment disjoint from the others keeps its bytes. */
  lemma ScatterKeeps(m: seq<byte>, segs: seq<Seg>, d: seq<byte>, s: Seg)
    requires InMemory(m, segs) && s.base + s.len <= |m|
    requires forall t :: t in segs ==> Disjoint(s, t)
    ensures Scatter(m, segs, d)[s.base..s.base + s.len] == m[s.base..s.base + s.len]
  {
    forall a | s.base <= a < s.base + s.len ensures Scatter(m, segs, d)[a] == m[a] {
      ScatterFrame(m, segs, d, a);
    }
  }

  lemma SpliceWithin(m: seq<byte>, s: Seg, d: seq<byte>)
    requires s.base + s.len <= |m| && |d| <= s.len
    ensures Splice(m, s.base, d)[s.base..s.base + s.len] == d + m[s.base..s.base + s.len][|d|..]
  {
  }

  lemma Refill(head: seq<byte>, tail: seq<byte>, d: seq<byte>, n: nat)
    requires n == Min(|d|, |head|) && |d| <= |head| + |tail|
    ensures (d[..n] + head[n..]) + (d[n..] + tail[|d| - n..]) == d + (head + tail)[|d|..]
  {
    assert d[..n] + d[n..] == d;
    if n < |head| {
      assert d[n..] == [] && tail[0..] == tail;
      assert (head + tail)[|d|..] == head[n..] + tail;
    } else {
      assert head[n..] == [];
      assert (head + tail)[|d|..] == tail[|d| - n..];
    }
  }

  /** from_buffer, then to_buffer, is the identity on a buffer of the vector's size. */
  lemma GatherScatter(m: seq<byte>, segs: seq<Seg>, d: seq<byte>)
    requires InMemory(m, segs) && AllDisjoint(segs) && |d| == Size(segs)
    ensures InMemory(Scatter(m, segs, d), segs) && Flat(Scatter(m, segs, d), segs) == d
  {
    ScatterFlat(m, segs, d);
  }

  function Repeat(c: byte, n: nat): (d: seq<byte>)
    ensures |d| == n
  {
    seq(n, i => c)
  }

  /** memset_skip: bytes skip .. skip + count of the vector become c. */
  function FillSegs(m: seq<byte>, segs: seq<Seg>, c: byte, count: nat, skip: nat): (r: seq<byte>)
    requires InMemory(m, segs)
    ensures |r| == |m|
    decreases |segs|
  {
    if segs == [] || count == 0 then m
    else
      var s := segs[0];
      assert s in segs;
      if skip >= s.len then FillSegs(m, segs[1..], c, count, skip - s.len)
      else if s.len - skip > count then Splice(m, s.base + skip, Repeat(c, count))
      else FillSegs(Splice(m, s.base + skip, Repeat(c, s.len - skip)), segs[1..], c, count - (s.len - skip), 0)
  }

  lemma FillDone(m: seq<byte>, segs: seq<Seg>, c: byte, count: nat, skip: nat)
    requires InMemory(m, segs) && (segs == [] || count == 0)
    ensures FillSegs(m, segs, c, count, skip) == m
  {
  }

  lemma FillUnfold(m: seq<byte>, segs: seq<Seg>, c: byte, count: nat, skip: nat)
    requires InMemory(m, segs) && segs != [] && count > 0
    ensures var s := segs[0]; var n := s.len - skip;
      && (skip >= s.len ==> FillSegs(m, segs, c, count, skip) == FillSegs(m, segs[1..], c, count, skip - s.len))
      && (0 < n && n > count ==>
           s.base + skip + count <= |m| && FillSegs(m, segs, c, count, skip) == Splice(m, s.base + skip, Repeat(c, count)))
      && (0 < n <= count ==>
           s.base + skip + n <= |m| && InMemory(m, segs[1..])
           && FillSegs(m, segs, c, count, skip)
              == FillSegs(Splice(m, s.base + skip, Repeat(c, n)), segs[1..], c, count - n, 0))
  {
    assert segs[0] in segs;
    hide Splice;
  }

  /** d with bytes skip .. skip + count set to c, as far as d reaches. */
  function FillRange(d: seq<byte>, c: byte, count: nat, skip: nat): (r: seq<byte>)
    ensures |r| == |d|
  {
    seq(|d|, i requires 0 <= i < |d| => if skip <= i < skip + count then c else d[i])
  }

  /** Bytes outside every segment are not touched. */
  lemma {:induction false} FillFrame(m: seq<byte>, segs: seq<Seg>, c: byte, count: nat, skip: nat, a: nat)
    requires InMemory(m, segs) && a < |m|
    requires forall t :: t in segs ==> a < t.base || t.base + t.len <= a
    ensures FillSegs(m, segs, c, count, skip)[a] == m[a]
    decreases |segs|
  {
    if segs != [] && count != 0 {
      var s := segs[0];
      assert s in segs;
      if skip >= s.len {
        FillFrame(m, segs[1..], c, count, skip - s.len, a);
      } else if s.len - skip <= count {
        FillFrame(Splice(m, s.base + skip, Repeat(c, s.len - skip)), segs[1..], c, count - (s.len - skip), 0, a);
      }
    }
  }

  lemma FillKeeps(m: seq<byte>, segs: seq<Seg>, c: byte, count: nat, s: Seg)
    requires InMemory(m, segs) && s.base + s.len <= |m|
    requires forall t :: t in segs ==> Disjoint(s, t)
    ensures FillSegs(m, segs, c, count, 0)[s.base..s.base + s.len] == m[s.base..s.base + s.len]
  {
    forall a | s.base <= a < s.base + s.len ensures FillSegs(m, segs, c, count, 0)[a] == m[a] {
      FillFrame(m, segs, c, count, 0, a);
    }
  }

  lemma FillSplit(a: seq<byte>, b: seq<byte>, c: byte, count: nat, skip: nat)
    ensures skip >= |a| ==> FillRange(a + b, c, count, skip) == a + FillRange(b, c, count, skip - |a|)
    ensures skip < |a| && |a| - skip > count ==>
      FillRange(a + b, c, count, skip) == (a[..skip] + Repeat(c, count) + a[skip + count..]) + b
    ensures skip < |a| && |a| - skip <= count ==>
      FillRange(a + b, c, count, skip)
      == (a[..skip] + Repeat(c, |a| - skip)) + FillRange(b, c, count - (|a| - skip), 0)
  {
  }

  lemma SpliceInside(m: seq<byte>, s: Seg, skip: nat, d: seq<byte>)
    requires s.base + s.len <= |m| && skip + |d| <= s.len
    ensures var head := m[s.base..s.base + s.len];
      Splice(m, s.base + skip, d)[s.base..s.base + s.len] == head[..skip] + d + head[skip + |d|..]
  {
  }

  /** The fill starts behind the first segment. */
  lemma FillBehind(m: seq<byte>, s: Seg, rest: seq<Seg>, c: byte, count: nat, skip: nat)
    requires InMemory(m, [s] + rest) && AllDisjoint([s] + rest) && skip >= s.len && count > 0
    requires InMemory(m, rest)
    requires var m2 := FillSegs(m, rest, c, count, skip - s.len);
      InMemory(m2, rest) && Flat(m2, rest) == FillRange(Flat(m, rest), c, count, skip - s.len)
    ensures var m2 := FillSegs(m, rest, c, count, skip - s.len);
      InMemory(m2, [s] + rest) && Flat(m2, [s] + rest) == FillRange(Flat(m, [s] + rest), c, count, skip)
  {
    hide FillRange, FillSegs, Flat;
    assert ([s] + rest)[1..] == rest && s in [s] + rest;
    var m2 := FillSegs(m, rest, c, count, skip - s.len);
    forall a | s.base <= a < s.base + s.len ensures m2[a] == m[a] {
      FillFrame(m, rest, c, count, skip - s.len, a);
    }
    FlatCons(m, s, rest);
    FlatCons(m2, s, rest);
    var head := m[s.base..s.base + s.len];
    assert m2[s.base..s.base + s.len] == head;
    FillSplit(head, Flat(m, rest), c, count, skip);
  }

  /** The fill ends inside the first segment. */
  lemma FillInside(m: seq<byte>, s: Seg, rest: seq<Seg>, c: byte, count: nat, skip: nat)
    requires InMemory(m, [s] + rest) && AllDisjoint([s] + rest) && skip + count < s.len
    requires InMemory(m, rest) && s.base + s.len <= |m|
    ensures var m2 := Splice(m, s.base + skip, Repeat(c, count));
      InMemory(m2, [s] + rest) && Flat(m2, [s] + rest) == FillRange(Flat(m, [s] + rest), c, count, skip)
  {
    hide FillRange, Splice, Flat;
    assert ([s] + rest)[1..] == rest;
    var d := Repeat(c, count);
    var m2 := Splice(m, s.base + skip, d);
    FlatCons(m, s, rest);
    FlatCons(m2, s, rest);
    SpliceInside(m, s, skip, d);
    SpliceElsewhere(m, s.base + skip, d, rest);
    FillSplit(m[s.base..s.base + s.len], Flat(m, rest), c, count, skip);
  }

  /** The fill covers the first segment's end. */
  lemma FillAcross(m: seq<byte>, s: Seg, rest: seq<Seg>, c: byte, count: nat, skip: nat)
    requires InMemory(m, [s] + rest) && AllDisjoint([s] + rest) && skip < s.len <= skip + count
    requires InMemory(m, rest) && s.base + s.len <= |m|
    requires var m1 := Splice(m, s.base + skip, Repeat(c, s.len - skip));
      var m2 := FillSegs(m1, rest, c, count - (s.len - skip), 0);
      InMemory(m2, rest) && Flat(m2, rest) == FillRange(Flat(m1, rest), c, count - (s.len - skip), 0)
    ensures var m1 := Splice(m, s.base + skip, Repeat(c, s.len - skip));
      var m2 := FillSegs(m1, rest, c, count - (s.len - skip), 0);
      InMemory(m2, [s] + rest) && Flat(m2, [s] + rest) == FillRange(Flat(m, [s] + rest), c, count, skip)
  {
    hide FillRange, FillSegs, Splice, Flat;
    assert ([s] + rest)[1..] == rest;
    var d := Repeat(c, s.len - skip);
    var m1 := Splice(m, s.base + skip, d);
    var m2 := FillSegs(m1, rest, c, count - (s.len - skip), 0);
    FlatCons(m, s, rest);
    FlatCons(m2, s, rest);
    SpliceInside(m, s, skip, d);
    SpliceElsewhere(m, s.base + skip, d, rest);
    FillKeeps(m1, rest, c, count - (s.len - skip), s);
    var head := m[s.base..s.base + s.len];
    assert head[..skip] + d + head[skip + |d|..] == head[..skip] + d;
    FillSplit(head, Flat(m, rest), c, count, skip);
  }

  /** On disjoint segments memset_skip is a fill of a range of the flat bytes. */
  lemma {:induction false} FillFlat(m: seq<byte>, segs: seq<Seg>, c: byte, count: nat, skip: nat)
    requires InMemory(m, segs) && AllDisjoint(segs)
    ensures InMemory(FillSegs(m, segs, c, count, skip), segs)
    ensures Flat(FillSegs(m, segs, c, count, skip), segs) == FillRange(Flat(m, segs), c, count, skip)
    decreases |segs|
  {
    hide Splice, Flat;
    if segs == [] || count == 0 {
      assert FillRange(Flat(m, segs), c, count, skip) == Flat(m, segs);
    } else {
      hide FillRange;
      var s, rest := segs[0], segs[1..];
      assert s in segs && segs == [s] + rest;
      if skip >= s.len {
        FillFlat(m, rest, c, count, skip - s.len);
        FillBehind(m, s, rest, c, count, skip);
      } else if s.len - skip > count {
        FillInside(m, s, rest, c, count, skip);
      } else {
        FillFlat(Splice(m, s.base + skip, Repeat(c, s.len - skip)), rest, c, count - (s.len - skip), 0);
        FillAcross(m, s, rest, c, count, skip);
      }
    }
  }

  // ---------------------------------------------------------------- the code

  /** QEMUIOVector; nalloc is -1 for one that wraps an external array. */
  class QemuIoVector {
    var iov: seq<Seg>
    var nalloc: int
    var size: nat

    predicate Valid()
      reads this
    {
      size == Size(iov) && (nalloc == -1 || |iov| <= nalloc)
    }

    /** qemu_iovec_init */
    constructor (allocHint: nat)
      ensures Valid() && iov == [] && nalloc == allocHint
    {
      iov, nalloc, size := [], allocHint, 0;
    }

    /** qemu_iovec_add */
    method Add(base: nat, len: nat)
      requires Valid() && nalloc != -1
      modifies this
      ensures Valid() && nalloc != -1 && iov == old(iov) + [Seg(base, len)]
      ensures nalloc == old(if |iov| == nalloc then 2 * nalloc + 1 else nalloc)
    {
      if |iov| == nalloc {
        nalloc := 2 * nalloc + 1;
      }
      SizeAppend(iov, [Seg(base, len)]);
      assert [Seg(base, len)][1..] == [];
      iov := iov + [Seg(base, len)];
      size := size + len;
    }

    /** qemu_iovec_copy: appends the clipped source, for any memory. */
    method Copy(src: seq<Seg>, skipBytes: nat, total: nat)
      requires Valid() && nalloc != -1
      modifies this
      ensures Valid() && nalloc != -1 && iov == old(iov) + CopySegs(src, skipBytes, total)
      ensures forall m :: InMemory(m, old(iov)) && InMemory(m, src) ==>
        InMemory(m, iov) && Flat(m, iov) == Flat(m, old(iov)) + Clip(Flat(m, src), skipBytes, total)
    {
      var i, done: nat, skip: nat := 0, 0, skipBytes;
      assert src[0..] == src;
      while i < |src| && done != total
        invariant 0 <= i <= |src| && done <= total && Valid() && nalloc != -1
        invariant iov + CopySegs(src[i..], skip, total - done) == old(iov) + CopySegs(src, skipBytes, total)
      {
        var s := src[i];
        assert src[i..][1..] == src[i + 1..];
        if skip >= s.len {
          skip := skip - s.len;
          i := i + 1;
          continue;
        }
        var base, len := s.base + skip, s.len - skip;
        skip := 0;
        if done + len > total {
          Add(base, total - done);
          CopiedFlat(old(iov), src, skipBytes, total);
          return;
        }
        ghost var before, rest := iov, CopySegs(src[i + 1..], 0, total - done - len);
        Add(base, len);
        assert before + ([Seg(base, len)] + rest) == iov + rest;
        done := done + len;
        i := i + 1;
      }
      assert iov + [] == iov;
      CopiedFlat(old(iov), src, skipBytes, total);
    }

    /** qemu_iovec_concat */
    method Concat(src: seq<Seg>, total: nat)
      requires Valid() && nalloc != -1
      modifies this
      ensures Valid() && nalloc != -1 && iov == old(iov) + CopySegs(src, 0, total)
    {
      Copy(src, 0, total);
    }
  }

  lemma CopiedFlat(dst: seq<Seg>, src: seq<Seg>, skip: nat, size: nat)
    ensures forall m :: InMemory(m, dst) && InMemory(m, src) ==>
      InMemory(m, dst + CopySegs(src, skip, size))
      && Flat(m, dst + CopySegs(src, skip, size)) == Flat(m, dst) + Clip(Flat(m, src), skip, size)
  {
    forall m | InMemory(m, dst) && InMemory(m, src)
      ensures InMemory(m, dst + CopySegs(src, skip, size))
        && Flat(m, dst + CopySegs(src, skip, size)) == Flat(m, dst) + Clip(Flat(m, src), skip, size)
    {
      CopyIsClip(m, src, skip, size);
      FlatAppend(m, dst, CopySegs(src, skip, size));
    }
  }

  /** memcpy to a memory address. */
  method MemCopy(mem: array<byte>, a: nat, d: seq<byte>)
    requires a + |d| <= mem.Length
    modifies mem
    ensures mem[..] == Splice(old(mem[..]), a, d)
  {
    for k := 0 to |d|
      invariant forall n :: 0 <= n < mem.Length ==> mem[n] == if a <= n < a + k then d[n - a] else old(mem[..])[n]
    {
      mem[a + k] := d[k];
    }
  }

  /** qemu_iovec_to_buffer */
  method ToBuffer(mem: array<byte>, iov: seq<Seg>) returns (buf: seq<byte>)
    requires InMemory(mem[..], iov)
    ensures buf == Flat(mem[..], iov)
  {
    hide Flat;
    ghost var m := mem[..];
    buf := [];
    var i := 0;
    assert iov[0..] == iov && [] + Flat(m, iov) == Flat(m, iov);
    while i < |iov|
      invariant 0 <= i <= |iov| && InMemory(m, iov[i..])
      invariant buf + Flat(m, iov[i..]) == Flat(m, iov)
    {
      assert iov[i..] == [iov[i]] + iov[i + 1..] && iov[i] in iov;
      FlatCons(m, iov[i], iov[i + 1..]);
      ghost var piece, rest := m[iov[i].base..iov[i].base + iov[i].len], Flat(m, iov[i + 1..]);
      assert buf + (piece + rest) == buf + piece + rest;
      buf := buf + mem[iov[i].base..iov[i].base + iov[i].len];
      i := i + 1;
    }
    FlatNil(m);
    assert buf + [] == buf && iov[i..] == [];
  }

  /** qemu_iovec_from_buffer with the whole of buf */
  method FromBuffer(mem: array<byte>, iov: seq<Seg>, buf: seq<byte>)
    requires InMemory(mem[..], iov)
    modifies mem
    ensures mem[..] == Scatter(old(mem[..]), iov, buf)
  {
    hide Scatter, Splice;
    var i, p := 0, 0;
    assert iov[0..] == iov && buf[0..] == buf;
    while i < |iov| && p < |buf|
      invariant 0 <= i <= |iov| && 0 <= p <= |buf| && InMemory(mem[..], iov[i..])
      invariant Scatter(mem[..], iov[i..], buf[p..]) == Scatter(old(mem[..]), iov, buf)
    {
      assert iov[i..][1..] == iov[i + 1..] && iov[i] in iov[i..];
      var copy := |buf| - p;
      if copy > iov[i].len {
        copy := iov[i].len;
      }
      assert buf[p..][..copy] == buf[p..p + copy] && buf[p..][copy..] == buf[p + copy..];
      ScatterStep(mem[..], iov[i..], buf[p..]);
      MemCopy(mem, iov[i].base, buf[p..p + copy]);
      p := p + copy;
      i := i + 1;
    }
    ScatterDone(mem[..], iov[i..], buf[p..]);
  }

  lemma ScatterStep(m: seq<byte>, segs: seq<Seg>, d: seq<byte>)
    requires InMemory(m, segs) && segs != [] && d != []
    ensures segs[0].base + segs[0].len <= |m|
    ensures var n := Min(|d|, segs[0].len);
      Scatter(m, segs, d) == Scatter(Splice(m, segs[0].base, d[..n]), segs[1..], d[n..])
  {
    assert segs[0] in segs;
  }

  lemma ScatterDone(m: seq<byte>, segs: seq<Seg>, d: seq<byte>)
    requires InMemory(m, segs) && (segs == [] || d == [])
    ensures Scatter(m, segs, d) == m
  {
  }

  /** qemu_iovec_memset_skip */
  method MemsetSkip(mem: array<byte>, iov: seq<Seg>, c: byte, count: nat, skipBytes: nat)
    requires InMemory(mem[..], iov)
    modifies mem
    ensures mem[..] == FillSegs(old(mem[..]), iov, c, count, skipBytes)
  {
    var i, done: nat, skip: nat := 0, 0, skipBytes;
    assert iov[0..] == iov;
    hide FillSegs;
    while i < |iov| && done != count
      invariant 0 <= i <= |iov| && done <= count && InMemory(mem[..], iov[i..])
      invariant FillSegs(mem[..], iov[i..], c, count - done, skip) == FillSegs(old(mem[..]), iov, c, count, skipBytes)
    {
      assert iov[i..][1..] == iov[i + 1..] && iov[i..][0] == iov[i];
      var n;
      n, skip := MemsetOne(mem, iov[i], c, count - done, skip, iov[i..]);
      done := done + n;
      i := i + 1;
    }
    FillDone(mem[..], iov[i..], c, count - done, skip);
  }

  /** One segment: how many bytes were set, and how many are still to be skipped.
      When the segment reaches beyond the count, the source leaves the loop; here
      nothing is left to set, which ends it as well. */
  method MemsetOne(mem: array<byte>, s: Seg, c: byte, count: nat, skip: nat, ghost segs: seq<Seg>)
    returns (n: nat, left: nat)
    requires InMemory(mem[..], segs) && segs != [] && segs[0] == s && count > 0
    modifies mem
    ensures n <= count && InMemory(mem[..], segs[1..])
    ensures FillSegs(mem[..], segs[1..], c, count - n, left) == FillSegs(old(mem[..]), segs, c, count, skip)
  {
    hide FillSegs, Splice, Repeat;
    FillUnfold(mem[..], segs, c, count, skip);
    if skip >= s.len {
      return 0, skip - s.len;
    }
    var base, len := s.base + skip, s.len - skip;
    if len > count {
      MemCopy(mem, base, Repeat(c, count));
      FillDone(mem[..], segs[1..], c, 0, 0);
      return count, 0;
    }
    MemCopy(mem, base, Repeat(c, len));
    return len, 0;
  }
}
