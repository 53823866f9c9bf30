// bdrv_pread and bdrv_pwrite (Main/linux/block.c): byte access built from sector
// access, through a head, whole sectors and a tail, refines a flat byte array, also
// on a protocol device that grows (Main/linux/block/raw-posix.c).

module ByteAccess {
  import opened Common
  import opened Wire

  /** Byte q of a device, which continues with zeros behind its end. */
  function At(data: seq<byte>, q: int): byte {
    if 0 <= q < |data| then data[q] else 0
  }

  /** A write has changed or appended nothing outside bytes lo .. hi of a. */
  ghost predicate SameOutside(a: seq<byte>, b: seq<byte>, lo: int, hi: int) {
    && |a| <= |b| && (|b| <= |a| || |b| <= hi)
    && forall q :: !(lo <= q < hi) ==> At(b, q) == At(a, q)
  }

  /** The first byte of the sector holding byte off, and the end of the last. */
  function SectorFloor(off: int): int { off - off % SECTOR_SIZE }

  function SectorCeil(off: int): int { SectorFloor(off + SECTOR_SIZE - 1) }

  /** The sectors of a request all lie on a device of `size` bytes, or it grows. */
  predicate Reaches(grows: bool, size: nat, offset: int, count: nat) {
    0 <= offset && (grows || SectorCeil(offset + count) <= size)
  }

  // -------------------------------------------------------------- what is read

  /** Where the driver's request for byte q of a pread begins: the head's sector, the
      whole sectors or the tail's sector. */
  function PieceStart(offset: int, count: nat, q: int): int {
    if offset % SECTOR_SIZE != 0 && q < SectorCeil(offset) then SectorFloor(offset)
    else if q < SectorFloor(offset + count) then SectorCeil(offset)
    else SectorFloor(offset + count)
  }

  /** Byte i of a driver's request at pos into the buffer `was`. */
  function Fetched(data: seq<byte>, pos: int, was: seq<byte>, i: nat): byte
    requires i < |was|
  {
    if pos + i < |data| || pos >= |data| then At(data, pos + i) else was[i]
  }

  /** The driver provides byte q: it is on the device, or the request for it begins
      at or behind the end. A request across the end leaves the rest unset. */
  predicate Provided(size: nat, offset: int, count: nat, q: int) {
    q < size || PieceStart(offset, count, q) >= size
  }

  /** Byte q goes from the driver to the caller's buffer without a copy. */
  predicate InPlace(offset: int, count: nat, q: int) {
    SectorCeil(offset) <= q < SectorFloor(offset + count)
  }

  /** `out` are the first bytes of a pread into the buffer `was`. */
  ghost predicate ReadTo(data: seq<byte>, offset: int, was: seq<byte>, out: seq<byte>) {
    && |out| <= |was|
    && forall i :: 0 <= i < |out| ==>
      && (Provided(|data|, offset, |was|, offset + i) ==> out[i] == At(data, offset + i))
      && (!Provided(|data|, offset, |was|, offset + i) && InPlace(offset, |was|, offset + i) ==> out[i] == was[i])
  }

  /** Some request of a pread begins before the end of the device and ends behind it. */
  predicate Crosses(size: nat, offset: int, count: nat) {
    var first, run, last := SectorFloor(offset), SectorCeil(offset), SectorFloor(offset + count);
    || (offset % SECTOR_SIZE != 0 && first < size < first + SECTOR_SIZE)
    || run < size < last
    || ((offset + count) % SECTOR_SIZE != 0 && last < size < last + SECTOR_SIZE)
  }

  ghost predicate AllProvided(size: nat, offset: int, count: nat) {
    forall q :: offset <= q < offset + count ==> Provided(size, offset, count, q)
  }

  /** Exactly when the driver provides all bytes of a pread. */
  lemma AllProvidedIff(size: nat, offset: int, count: nat)
    requires count > 0
    ensures AllProvided(size, offset, count) <==> offset + count <= size || !Crosses(size, offset, count)
  {
    if offset + count > size {
      if Crosses(size, offset, count) {
        var q := if size >= offset then size else offset;
        CrossingLeaves(size, offset, count, q);
      } else {
        forall q | offset <= q < offset + count ensures Provided(size, offset, count, q) {
          WithinPiece(size, offset, count, q);
        }
      }
    }
  }

  lemma CrossingLeaves(size: nat, offset: int, count: nat, q: int)
    requires count > 0 && offset + count > size && Crosses(size, offset, count)
    requires q == if size >= offset then size else offset
    ensures offset <= q < offset + count && !Provided(size, offset, count, q)
  {
    hide PieceStart;
    var first, run, last := SectorFloor(offset), SectorCeil(offset), SectorFloor(offset + count);
    assert run == if offset % SECTOR_SIZE != 0 then first + SECTOR_SIZE else first;
    PieceAt(offset, count, q);
  }

  lemma PieceAt(offset: int, count: nat, q: int)
    ensures PieceStart(offset, count, q) ==
      if offset % SECTOR_SIZE != 0 && q < SectorFloor(offset) + SECTOR_SIZE then SectorFloor(offset)
      else if q < SectorFloor(offset + count) then SectorCeil(offset)
      else SectorFloor(offset + count)
  {
  }

  lemma WithinPiece(size: nat, offset: int, count: nat, q: int)
    requires offset <= q < offset + count && !Crosses(size, offset, count)
    ensures Provided(size, offset, count, q)
  {
  }

  /** A pread none of whose requests crosses the end reads zeros behind it. */
  lemma NoCrossingReadsAll(data: seq<byte>, offset: int, was: seq<byte>, out: seq<byte>)
    requires ReadTo(data, offset, was, out) && |out| == |was|
    requires offset + |was| <= |data| || !Crosses(|data|, offset, |was|)
    ensures forall i :: 0 <= i < |out| ==> out[i] == At(data, offset + i)
  {
    hide Crosses, PieceStart;
    if was != [] {
      AllProvidedIff(|data|, offset, |was|);
    }
    forall i | 0 <= i < |out| ensures out[i] == At(data, offset + i) {
      assert Provided(|data|, offset, |was|, offset + i);
    }
  }

  // ----------------------------------------------------------- what is written

  /** Behind the end of the device, but in its last, partial sector. */
  predicate Loose(size: nat, q: int) { size <= q < SectorCeil(size) }

  /** buf has been written at off: those bytes are buf, all others are as they were,
      but that the rest of a partial last sector may be anything. */
  ghost predicate Wrote(a: seq<byte>, b: seq<byte>, off: int, buf: seq<byte>) {
    && |b| == (if SectorCeil(off + |buf|) > |a| then SectorCeil(off + |buf|) else |a|)
    && (forall q :: off <= q < off + |buf| ==> At(b, q) == buf[q - off])
    && forall q :: !(off <= q < off + |buf|) && !Loose(|a|, q) ==> At(b, q) == At(a, q)
  }

  /** On a device that need not grow this is replacing the bytes. */
  lemma WroteInside(a: seq<byte>, b: seq<byte>, off: nat, buf: seq<byte>)
    requires Wrote(a, b, off, buf) && SectorCeil(off + |buf|) <= |a|
    ensures off + |buf| <= |a| && b == Splice(a, off, buf)
  {
    var c := Splice(a, off, buf);
    assert |b| == |c|;
    forall q | 0 <= q < |b| ensures b[q] == c[q] {
      assert At(b, q) == b[q] && At(a, q) == a[q];
    }
  }

  lemma SameOutsideRefl(a: seq<byte>, lo: int, hi: int)
    ensures SameOutside(a, a, lo, hi)
  {
  }

  lemma FloorBelow(a: int, b: int)
    requires a <= b
    ensures SectorFloor(a) <= SectorFloor(b)
  {
    var q, r := a / SECTOR_SIZE, b / SECTOR_SIZE;
    assert a == q * SECTOR_SIZE + a % SECTOR_SIZE && b == r * SECTOR_SIZE + b % SECTOR_SIZE;
    assert q <= r;
  }

  lemma FloorMonotone(a: int, b: int)
    requires a <= b
    ensures SectorFloor(a) <= SectorFloor(b) && SectorCeil(a) <= SectorCeil(b)
  {
    hide SectorFloor;
    FloorBelow(a, b);
    FloorBelow(a + SECTOR_SIZE - 1, b + SECTOR_SIZE - 1);
  }

  /** A change within a part of the sectors of the whole request. */
  lemma ChangeWithin(start: seq<byte>, a: seq<byte>, b: seq<byte>, o: int, n: nat, offset: int, total: nat)
    requires offset <= o && o + n <= offset + total
    requires SameOutside(start, a, SectorFloor(offset), SectorCeil(offset + total))
    requires SameOutside(a, b, SectorFloor(o), SectorCeil(o + n))
    ensures SameOutside(start, b, SectorFloor(offset), SectorCeil(offset + total))
  {
    FloorMonotone(offset, o);
    FloorMonotone(o + n, offset + total);
  }

  /** The first i bytes are in place (or none were due); then j are. */
  lemma WroteMore(start: seq<byte>, now: seq<byte>, b: seq<byte>, off: int, buf: seq<byte>, i: nat, j: nat)
    requires i < j <= |buf|
    requires if i == 0 then now == start else Wrote(start, now, off, buf[..i])
    requires Wrote(now, b, off + i, buf[i..j])
    ensures Wrote(start, b, off, buf[..j])
  {
    hide SectorFloor, SectorCeil, Loose;
    FloorMonotone(off + i, off + j);
    CeilAbove(off + i);
    forall q ensures At(b, q) == At(now, q) || off + i <= q < off + j || Loose(|start|, q) {
      NotLoose(|now|, q);
    }
    forall q | off <= q < off + j ensures At(b, q) == buf[..j][q - off] {
      if q < off + i {
        assert At(now, q) == buf[..i][q - off];
        BelowNotLoose(|now|, q);
      } else {
        assert At(b, q) == buf[i..j][q - (off + i)];
      }
    }
  }

  lemma CeilAbove(x: int)
    ensures SectorCeil(x) >= x && SectorCeil(x) % SECTOR_SIZE == 0
  {
  }

  lemma NotLoose(size: nat, q: int)
    ensures size % SECTOR_SIZE == 0 ==> !Loose(size, q)
  {
  }

  lemma BelowNotLoose(size: nat, q: int)
    ensures q < size ==> !Loose(size, q)
  {
  }

  /** Part of one sector is on the device when that sector is. */
  lemma PartReaches(grows: bool, size: nat, offset: int, len: nat)
    requires 0 < len <= SECTOR_SIZE - offset % SECTOR_SIZE
    ensures Reaches(grows, size, offset, len) <==> offset >= 0 && (grows || SectorFloor(offset) + SECTOR_SIZE <= size)
    ensures SectorCeil(offset + len) == SectorFloor(offset) + SECTOR_SIZE
  {
  }

  /** Every part of a request that is on the device is; and the last part decides. */
  lemma ReachesPart(grows: bool, size: nat, offset: int, total: nat, a: nat, b: nat)
    requires a + b <= total
    ensures Reaches(grows, size, offset, total) ==> Reaches(grows, size, offset + a, b)
    ensures a + b == total && 0 <= offset && Reaches(grows, size, offset + a, b) ==> Reaches(grows, size, offset, total)
  {
    FloorMonotone(offset + a + b, offset + total);
  }

  /** A device that does not grow keeps its length, so what it reaches is the same. */
  lemma ReachesGrown(grows: bool, size: nat, larger: nat, offset: int, count: nat)
    requires grows || larger == size
    ensures Reaches(grows, size, offset, count) <==> Reaches(grows, larger, offset, count)
  {
  }

  lemma CeilIn(base: int, n: nat)
    requires base % SECTOR_SIZE == 0 && 0 < n <= SECTOR_SIZE
    ensures SectorCeil(base + n) == base + SECTOR_SIZE
  {
  }

  lemma LooseIn(base: int, size: nat, q: int)
    requires base % SECTOR_SIZE == 0 && base < size <= q < base + SECTOR_SIZE
    ensures Loose(size, q)
  {
  }

  /** Rewriting one sector with part of it replaced. */
  lemma PatchWrites(a: seq<byte>, b: seq<byte>, base: nat, was: seq<byte>, tmp: seq<byte>, skip: nat, buf: seq<byte>)
    requires base % SECTOR_SIZE == 0 && |was| == |tmp| == SECTOR_SIZE && 0 < |buf| && skip + |buf| <= SECTOR_SIZE
    requires forall i :: 0 <= i < SECTOR_SIZE ==> tmp[i] == Fetched(a, base, was, i)
    requires Wrote(a, b, base, tmp[..skip] + buf + tmp[skip + |buf|..])
    ensures Wrote(a, b, base + skip, buf)
  {
    hide SectorFloor, SectorCeil, Loose;
    CeilIn(base, SECTOR_SIZE);
    CeilIn(base, skip + |buf|);
    var sector := tmp[..skip] + buf + tmp[skip + |buf|..];
    forall q | base + skip <= q < base + skip + |buf| ensures At(b, q) == buf[q - (base + skip)] {
      assert At(b, q) == sector[q - base];
    }
    forall q | !(base + skip <= q < base + skip + |buf|) && !Loose(|a|, q) ensures At(b, q) == At(a, q) {
      if base <= q < base + SECTOR_SIZE {
        assert At(b, q) == sector[q - base] == tmp[q - base];
        if base < |a| <= q {
          LooseIn(base, |a|, q);
        }
      }
    }
  }

  // ------------------------------------------------------------------ the code

  class BlockDevice {
    const inserted: bool
    const readOnly: bool
    /** A protocol device, whose file grows when it is written behind its end. */
    const growable: bool
    var data: seq<byte>
    /** How many driver calls have failed. */
    ghost var failures: nat

    constructor (data: seq<byte>, inserted: bool, readOnly: bool, growable: bool)
      ensures this.data == data && this.inserted == inserted && this.readOnly == readOnly
      ensures this.growable == growable
    {
      this.data, this.inserted, this.readOnly, this.growable := data, inserted, readOnly, growable;
      failures := 0;
    }

    /** No driver call has failed since. */
    twostate predicate Worked()
      reads this`failures
    {
      failures == old(failures)
    }

    /** A driver call, which may fail with any error. */
    method Driver() returns (ret: int)
      modifies this`failures
      ensures ret <= 0 && old(failures) <= failures && (ret == 0 <==> Worked())
    {
      ret := *;
      if ret >= 0 {
        return 0;
      }
      failures := failures + 1;
    }

    /** bdrv_check_request: whole sectors within the length of a device that does not
        grow. */
    predicate InRange(sector: int, n: nat)
      reads this
    {
      growable || (sector >= 0 && (sector + n) * SECTOR_SIZE <= |data|)
    }

    /** bdrv_read into the buffer `was`: range check, then the driver, which may fail
        and refuses what begins in front of the file. Sectors behind the end read as
        zeros; of a request across the end the driver sets, and counts, only the
        bytes that are there. */
    method Read(sector: int, was: seq<byte>) returns (ret: int, buf: seq<byte>)
      requires |was| % SECTOR_SIZE == 0
      modifies this`failures
      ensures old(failures) <= failures && |buf| == |was|
      ensures ret >= 0 <==> inserted && sector >= 0 && InRange(sector, |was| / SECTOR_SIZE) && Worked()
      ensures !inserted ==> ret == -ENOMEDIUM
      ensures inserted && !InRange(sector, |was| / SECTOR_SIZE) ==> ret == -EIO
      ensures var pos := sector * SECTOR_SIZE; ret >= 0 ==>
        && ret == (if pos < |data| < pos + |was| then |data| - pos else 0)
        && forall i :: 0 <= i < |was| ==> buf[i] == Fetched(data, pos, was, i)
    {
      buf := was;
      if !inserted { return -ENOMEDIUM, buf; }
      if !InRange(sector, |was| / SECTOR_SIZE) { return -EIO, buf; }
      if sector < 0 { return -EINVAL, buf; }
      ret := Driver();
      if ret < 0 { return; }
      var pos, size := sector * SECTOR_SIZE, |data|;
      var d := data;
      buf := seq(|was|, i requires 0 <= i < |was| => Fetched(d, pos, was, i));
      ret := if pos < size < pos + |was| then size - pos else 0;
    }

    /** bdrv_write: a driver write that fails may leave anything in its sectors, up
        to any point. */
    method Write(sector: int, buf: seq<byte>) returns (ret: int)
      requires |buf| % SECTOR_SIZE == 0 && buf != []
      modifies this`data, this`failures
      ensures ret <= 0 && old(failures) <= failures
      ensures ret == 0 <==>
        inserted && !readOnly && sector >= 0 && old(InRange(sector, |buf| / SECTOR_SIZE)) && Worked()
      ensures ret == 0 ==> Wrote(old(data), data, sector * SECTOR_SIZE, buf)
      ensures SameOutside(old(data), data, sector * SECTOR_SIZE, sector * SECTOR_SIZE + |buf|)
      ensures !growable ==> |data| == |old(data)|
      ensures !inserted || readOnly || !old(InRange(sector, |buf| / SECTOR_SIZE)) ==> ret < 0 && data == old(data)
    {
      if !inserted { return -ENOMEDIUM; }
      if readOnly { return -EACCES; }
      if !InRange(sector, |buf| / SECTOR_SIZE) { return -EIO; }
      if sector < 0 { return -EINVAL; }
      ret := Driver();
      var written := buf;
      if ret < 0 {
        written := *;
        if |written| > |buf| {
          written := [];
        }
      }
      Store(sector * SECTOR_SIZE, written);
    }

    /** Bytes go to the file; one that is too short is filled up with zeros. */
    method Store(pos: nat, bytes: seq<byte>)
      modifies this`data
      ensures |data| == if bytes != [] && pos + |bytes| > |old(data)| then pos + |bytes| else |old(data)|
      ensures forall q :: pos <= q < pos + |bytes| ==> At(data, q) == bytes[q - pos]
      ensures forall q :: !(pos <= q < pos + |bytes|) ==> At(data, q) == At(old(data), q)
    {
      if bytes == [] {
        return;
      }
      var d, n := data, pos + |bytes|;
      var size := if n > |d| then n else |d|;
      data := seq(size, q requires 0 <= q < size => if pos <= q < n then bytes[q - pos] else At(d, q));
    }

    /** Part of one sector, through a sector-sized buffer that holds anything before. */
    method ReadPart(offset: int, len: nat) returns (ret: int, out: seq<byte>)
      requires 0 < len <= SECTOR_SIZE - offset % SECTOR_SIZE
      modifies this`failures
      ensures old(failures) <= failures
      ensures ret >= 0 <==> inserted && Reaches(growable, |data|, offset, len) && Worked()
      ensures ret >= 0 ==> 0 <= offset && |out| == len && PartRead(data, offset, out)
    {
      hide Reaches;
      PartReaches(growable, |data|, offset, len);
      var tmp := AnySector();
      ret, tmp := Read(offset / SECTOR_SIZE, tmp);
      if ret < 0 { return ret, []; }
      var skip := offset % SECTOR_SIZE;
      out := tmp[skip..skip + len];
    }

    /** A buffer on the stack. */
    method AnySector() returns (tmp: seq<byte>)
      ensures |tmp| == SECTOR_SIZE
    {
      tmp := *;
      if |tmp| != SECTOR_SIZE {
        tmp := seq(SECTOR_SIZE, i => 0);
      }
    }

    /** The number of bytes up to the next sector boundary, cut at count. */
    method HeadLength(offset: int, count: nat) returns (len: nat)
      ensures len <= count && (len > 0 ==> len <= SECTOR_SIZE - offset % SECTOR_SIZE && offset % SECTOR_SIZE != 0)
      ensures len < count ==> (offset + len) % SECTOR_SIZE == 0 && offset + len == SectorCeil(offset)
      ensures offset % SECTOR_SIZE == 0 ==> len == 0
    {
      len := (SECTOR_SIZE - offset) % SECTOR_SIZE;
      if len > count {
        len := count;
      }
    }

    /** bdrv_pread into the buffer `was`, for every offset and count. It succeeds
        exactly when there is a medium, the sectors of the request are on it or it
        grows, and no driver call fails; then it returns the bytes of the flat device,
        which continues with zeros. The exception are bytes behind the end for which
        the driver was asked together with bytes before it: read in place, they are
        those of the buffer. */
    method Pread(offset: int, was: seq<byte>) returns (ret: int, out: seq<byte>)
      modifies this`failures
      ensures ret == |was| || ret < 0
      ensures old(failures) <= failures
      ensures ret >= 0 <==> was == [] || (inserted && Reaches(growable, |data|, offset, |was|) && Worked())
      ensures ret >= 0 ==> |out| == |was| && ReadTo(data, offset, was, out)
      ensures ret >= 0 && was != [] && !growable ==>
        0 <= offset && offset + |was| <= |data| && out == data[offset..offset + |was|]
    {
      hide ReadTo, Provided, InPlace, PieceStart, SectorCeil, SectorFloor;
      ret, out := PreadParts(offset, was);
      if ret >= 0 && was != [] && !growable {
        ReachesInside(|data|, offset, |was|);
        NoCrossingReadsAll(data, offset, was, out);
      }
    }

    /** The pieces of bdrv_pread: the head first. */
    method PreadParts(offset: int, was: seq<byte>) returns (ret: int, out: seq<byte>)
      modifies this`failures
      ensures ret == |was| || ret < 0
      ensures old(failures) <= failures
      ensures ret >= 0 <==> was == [] || (inserted && Reaches(growable, |data|, offset, |was|) && Worked())
      ensures ret >= 0 ==> |out| == |was| && ReadTo(data, offset, was, out)
    {
      hide Reaches, Piece, PartRead, ReadTo, Provided, InPlace, PieceStart, SectorCeil, SectorFloor;
      out := [];
      ReadNothing(data, offset, was);
      var len := HeadLength(offset, |was|);
      if len > 0 {
        var part;
        ReachesPart(growable, |data|, offset, |was|, 0, len);
        ret, part := ReadPart(offset, len);
        if ret < 0 { return ret, []; }
        HeadPiece(data, offset, was, part);
        JoinRead(data, offset, was, [], part, SectorFloor(offset));
        out := [] + part;
        if len == |was| {
          return len, out;
        }
      }
      if was == [] {
        return 0, out;
      }
      ret, out := PreadRest(offset, was, out);
    }

    /** The whole sectors "in place", and the tail. */
    method PreadRest(offset: int, was: seq<byte>, first: seq<byte>) returns (ret: int, out: seq<byte>)
      requires |first| < |was| && (offset + |first|) % SECTOR_SIZE == 0 && offset + |first| == SectorCeil(offset)
      requires ReadTo(data, offset, was, first) && (first != [] ==> 0 <= offset)
      modifies this`failures
      ensures ret == |was| || ret < 0
      ensures old(failures) <= failures
      ensures ret >= 0 <==> inserted && Reaches(growable, |data|, offset, |was|) && Worked()
      ensures ret >= 0 ==> |out| == |was| && ReadTo(data, offset, was, out)
    {
      hide Reaches, Piece, PartRead, ReadTo, Provided, InPlace, PieceStart;
      out := first;
      var pos := offset + |first|;
      var n := (|was| - |first|) / SECTOR_SIZE;
      RunEnds(pos, |was| - |first|);
      if n > 0 {
        var bytes, part := n * SECTOR_SIZE, first;
        ReachesPart(growable, |data|, offset, |was|, |first|, bytes);
        ReachesWhole(growable, |data|, pos, bytes);
        ret, part := Read(pos / SECTOR_SIZE, was[|first|..|first| + bytes]);
        if ret < 0 { return; }
        RunPiece(data, offset, was, |first|, part);
        JoinRead(data, offset, was, first, part, pos);
        out := first + part;
        if |out| == |was| {
          return |was|, out;
        }
      }
      ret, out := PreadTail(offset, was, out);
    }

    /** The part of the last sector. */
    method PreadTail(offset: int, was: seq<byte>, first: seq<byte>) returns (ret: int, out: seq<byte>)
      requires |first| < |was| < |first| + SECTOR_SIZE && (offset + |first|) % SECTOR_SIZE == 0
      requires SectorCeil(offset) <= offset + |first|
      requires ReadTo(data, offset, was, first) && (first != [] ==> 0 <= offset)
      modifies this`failures
      ensures ret == |was| || ret < 0
      ensures old(failures) <= failures
      ensures ret >= 0 <==> inserted && Reaches(growable, |data|, offset, |was|) && Worked()
      ensures ret >= 0 ==> |out| == |was| && ReadTo(data, offset, was, out)
    {
      hide Reaches, Piece, PartRead, ReadTo, Provided, InPlace, PieceStart, SectorCeil;
      out := first;
      var pos, count := offset + |first|, |was| - |first|;
      ReachesPart(growable, |data|, offset, |was|, |first|, count);
      var part;
      ret, part := ReadPart(pos, count);
      if ret < 0 { return; }
      TailPiece(data, offset, was, pos, part);
      JoinRead(data, offset, was, first, part, pos);
      out := first + part;
      ret := |was|;
    }

    /** Read-modify-write of part of one sector. */
    method Patch(offset: int, buf: seq<byte>) returns (ret: int)
      requires 0 < |buf| <= SECTOR_SIZE - offset % SECTOR_SIZE
      modifies this`data, this`failures
      ensures ret <= 0 && old(failures) <= failures && (!growable ==> |data| == |old(data)|)
      ensures ret == 0 <==> inserted && !readOnly && Reaches(growable, |old(data)|, offset, |buf|) && Worked()
      ensures ret == 0 ==> 0 <= offset && Wrote(old(data), data, offset, buf)
      ensures SameOutside(old(data), data, SectorFloor(offset), SectorCeil(offset + |buf|))
    {
      hide Reaches, Wrote, SectorCeil, SameOutside;
      PartReaches(growable, |data|, offset, |buf|);
      SameOutsideRefl(data, SectorFloor(offset), SectorCeil(offset + |buf|));
      ghost var was := data;
      var tmp := AnySector();
      ghost var junk := tmp;
      ret, tmp := Read(offset / SECTOR_SIZE, tmp);
      if ret < 0 { return; }
      var skip := offset % SECTOR_SIZE;
      ret := Write(offset / SECTOR_SIZE, tmp[..skip] + buf + tmp[skip + |buf|..]);
      if ret == 0 {
        PatchWrites(was, data, offset - skip, junk, tmp, skip, buf);
      }
    }

    /** Whole sectors. */
    method WriteWhole(offset: int, buf: seq<byte>) returns (ret: int)
      requires offset % SECTOR_SIZE == 0 && |buf| % SECTOR_SIZE == 0 && buf != []
      modifies this`data, this`failures
      ensures ret <= 0 && old(failures) <= failures && (!growable ==> |data| == |old(data)|)
      ensures ret == 0 <==> inserted && !readOnly && Reaches(growable, |old(data)|, offset, |buf|) && Worked()
      ensures ret == 0 ==> 0 <= offset && Wrote(old(data), data, offset, buf)
      ensures SameOutside(old(data), data, SectorFloor(offset), SectorCeil(offset + |buf|))
    {
      hide Reaches, Wrote, SameOutside;
      ReachesWhole(growable, |data|, offset, |buf|);
      ret := Write(offset / SECTOR_SIZE, buf);
    }

    /** bdrv_pwrite, for every offset and buffer. It succeeds exactly when the medium is
        there and writable, the sectors of the request are on it or it grows, and no
        driver call fails; then those bytes are written, the device has grown to the
        end of their last sector if it was shorter, and all else is as it was, zeros
        where there was nothing, but for the rest of a partial last sector. A failure
        changes nothing outside the sectors the request touches. */
    method Pwrite(offset: int, buf: seq<byte>) returns (ret: int)
      modifies this`data, this`failures
      ensures ret == |buf| || ret < 0
      ensures old(failures) <= failures && (!growable ==> |data| == |old(data)|)
      ensures ret >= 0 <==>
        buf == [] || (inserted && !readOnly && Reaches(growable, |old(data)|, offset, |buf|) && Worked())
      ensures ret >= 0 && buf != [] ==> 0 <= offset && Wrote(old(data), data, offset, buf)
      ensures ret >= 0 && buf != [] && SectorCeil(offset + |buf|) <= |old(data)| ==>
        offset + |buf| <= |old(data)| && data == Splice(old(data), offset, buf)
      ensures buf == [] ==> data == old(data)
      ensures SameOutside(old(data), data, SectorFloor(offset), SectorCeil(offset + |buf|))
    {
      hide Wrote, SameOutside, SectorFloor, SectorCeil, Reaches, Splice;
      ret := PwriteParts(offset, buf);
      if ret >= 0 && buf != [] && SectorCeil(offset + |buf|) <= |old(data)| {
        WroteInside(old(data), data, offset, buf);
      }
    }

    /** The pieces of bdrv_pwrite: the head first. */
    method PwriteParts(offset: int, buf: seq<byte>) returns (ret: int)
      modifies this`data, this`failures
      ensures ret == |buf| || ret < 0
      ensures old(failures) <= failures && (!growable ==> |data| == |old(data)|)
      ensures ret >= 0 <==>
        buf == [] || (inserted && !readOnly && Reaches(growable, |old(data)|, offset, |buf|) && Worked())
      ensures ret >= 0 && buf != [] ==> 0 <= offset && Wrote(old(data), data, offset, buf)
      ensures buf == [] ==> data == old(data)
      ensures SameOutside(old(data), data, SectorFloor(offset), SectorCeil(offset + |buf|))
    {
      hide Wrote, SameOutside, SectorFloor, SectorCeil, Reaches;
      ghost var start := data;
      SameOutsideRefl(start, SectorFloor(offset), SectorCeil(offset + |buf|));
      var len := HeadLength(offset, |buf|);
      if len > 0 {
        ReachesPart(growable, |data|, offset, |buf|, 0, len);
        ret := Patch(offset, buf[..len]);
        ChangeWithin(start, start, data, offset, len, offset, |buf|);
        if ret < 0 { return; }
        if len == |buf| {
          assert buf[..len] == buf;
          return len;
        }
      }
      if buf == [] {
        return 0;
      }
      ret := PwriteRest(offset, buf, len, start);
    }

    /** The whole sectors, when the first `head` bytes are done, and the tail. */
    method PwriteRest(offset: int, buf: seq<byte>, head: nat, ghost start: seq<byte>) returns (ret: int)
      requires head < |buf| && (offset + head) % SECTOR_SIZE == 0 && Begun(start, offset, buf, head)
      modifies this`data, this`failures
      ensures ret == |buf| || ret < 0
      ensures old(failures) <= failures && (!growable ==> |data| == |old(data)|)
      ensures ret >= 0 <==> inserted && !readOnly && Reaches(growable, |start|, offset, |buf|) && Worked()
      ensures ret >= 0 ==> 0 <= offset && Wrote(start, data, offset, buf)
      ensures SameOutside(start, data, SectorFloor(offset), SectorCeil(offset + |buf|))
    {
      hide Wrote, SameOutside, SectorFloor, SectorCeil, Reaches;
      var n := (|buf| - head) / SECTOR_SIZE;
      if n > 0 {
        var bytes := n * SECTOR_SIZE;
        ghost var before := data;
        ReachesGrown(growable, |start|, |data|, offset + head, bytes);
        ReachesPart(growable, |start|, offset, |buf|, head, bytes);
        ret := WriteWhole(offset + head, buf[head..head + bytes]);
        ChangeWithin(start, before, data, offset + head, bytes, offset, |buf|);
        if ret < 0 { return; }
        WroteMore(start, before, data, offset, buf, head, head + bytes);
        if head + bytes == |buf| {
          assert buf[..|buf|] == buf;
          return |buf|;
        }
        ret := PwriteTail(offset, buf, head + bytes, start);
      } else {
        ret := PwriteTail(offset, buf, head, start);
      }
    }

    /** The part of the last sector. */
    method PwriteTail(offset: int, buf: seq<byte>, head: nat, ghost start: seq<byte>) returns (ret: int)
      requires head < |buf| < head + SECTOR_SIZE && (offset + head) % SECTOR_SIZE == 0 && Begun(start, offset, buf, head)
      modifies this`data, this`failures
      ensures ret == |buf| || ret < 0
      ensures old(failures) <= failures && (!growable ==> |data| == |old(data)|)
      ensures ret >= 0 <==> inserted && !readOnly && Reaches(growable, |start|, offset, |buf|) && Worked()
      ensures ret >= 0 ==> 0 <= offset && Wrote(start, data, offset, buf)
      ensures SameOutside(start, data, SectorFloor(offset), SectorCeil(offset + |buf|))
    {
      hide Wrote, SameOutside, SectorFloor, SectorCeil, Reaches;
      ghost var before := data;
      ReachesGrown(growable, |start|, |data|, offset + head, |buf| - head);
      ReachesPart(growable, |start|, offset, |buf|, head, |buf| - head);
      ret := Patch(offset + head, buf[head..]);
      ChangeWithin(start, before, data, offset + head, |buf| - head, offset, |buf|);
      if ret < 0 { return; }
      assert buf[head..] == buf[head..|buf|] && buf[..|buf|] == buf;
      WroteMore(start, before, data, offset, buf, head, |buf|);
      ret := |buf|;
    }

    /** The first `head` bytes of a pwrite are done. */
    ghost predicate Begun(start: seq<byte>, offset: int, buf: seq<byte>, head: nat)
      requires head <= |buf|
      reads this
    {
      && (if head == 0 then data == start else 0 <= offset && inserted && !readOnly && Wrote(start, data, offset, buf[..head]))
      && SameOutside(start, data, SectorFloor(offset), SectorCeil(offset + |buf|))
      && (growable || |data| == |start|)
    }
  }

  lemma ReadNothing(data: seq<byte>, offset: int, was: seq<byte>)
    ensures ReadTo(data, offset, was, [])
  {
  }

  /** The bytes from position lo on, for which the driver was asked from `start` on. */
  ghost predicate Piece(data: seq<byte>, offset: int, was: seq<byte>, lo: int, part: seq<byte>, start: int) {
    && offset <= lo && lo + |part| <= offset + |was|
    && (forall q :: lo <= q < lo + |part| ==> PieceStart(offset, |was|, q) == start)
    && (forall q :: lo <= q < lo + |part| && (q < |data| || start >= |data|) ==> At(data, q) == part[q - lo])
    && (forall q :: lo <= q < lo + |part| && InPlace(offset, |was|, q) && !(q < |data| || start >= |data|) ==>
          part[q - lo] == was[q - offset])
  }

  /** The bytes of the next request behind those read so far. */
  lemma JoinRead(data: seq<byte>, offset: int, was: seq<byte>, out: seq<byte>, part: seq<byte>, start: int)
    requires ReadTo(data, offset, was, out) && Piece(data, offset, was, offset + |out|, part, start)
    ensures ReadTo(data, offset, was, out + part)
  {
    hide PieceStart, InPlace, At;
    var all := out + part;
    forall i | 0 <= i < |all|
      ensures Provided(|data|, offset, |was|, offset + i) ==> all[i] == At(data, offset + i)
      ensures !Provided(|data|, offset, |was|, offset + i) && InPlace(offset, |was|, offset + i) ==> all[i] == was[i]
    {
      if i < |out| {
        assert all[i] == out[i];
      } else {
        assert all[i] == part[offset + i - (offset + |out|)];
        assert PieceStart(offset, |was|, offset + i) == start;
      }
    }
  }

  /** What ReadPart returned. */
  ghost predicate PartRead(data: seq<byte>, lo: int, part: seq<byte>) {
    forall q :: lo <= q < lo + |part| && (q < |data| || SectorFloor(lo) >= |data|) ==> At(data, q) == part[q - lo]
  }

  lemma HeadPiece(data: seq<byte>, offset: int, was: seq<byte>, part: seq<byte>)
    requires 0 < |part| <= |was| && |part| <= SECTOR_SIZE - offset % SECTOR_SIZE && offset % SECTOR_SIZE != 0
    requires PartRead(data, offset, part)
    ensures Piece(data, offset, was, offset, part, SectorFloor(offset))
  {
  }

  lemma TailPiece(data: seq<byte>, offset: int, was: seq<byte>, lo: int, part: seq<byte>)
    requires offset <= lo && lo + |part| == offset + |was| && 0 < |part| < SECTOR_SIZE
    requires lo % SECTOR_SIZE == 0 && SectorCeil(offset) <= lo && PartRead(data, lo, part)
    ensures Piece(data, offset, was, lo, part, lo)
  {
  }

  lemma RunPiece(data: seq<byte>, offset: int, was: seq<byte>, head: nat, part: seq<byte>)
    requires 0 <= offset + head == SectorCeil(offset) && offset + head + |part| <= SectorFloor(offset + |was|)
    requires head + |part| <= |was|
    requires var mine := was[head..head + |part|];
      forall i :: 0 <= i < |part| ==> part[i] == Fetched(data, offset + head, mine, i)
    ensures Piece(data, offset, was, offset + head, part, offset + head)
  {
    var pos, mine := offset + head, was[head..head + |part|];
    forall q | pos <= q < pos + |part|
      ensures PieceStart(offset, |was|, q) == pos
      ensures part[q - pos] == if q < |data| || pos >= |data| then At(data, q) else was[q - offset]
    {
      assert part[q - pos] == Fetched(data, pos, mine, q - pos);
    }
  }

  lemma RunEnds(pos: int, count: nat)
    requires pos % SECTOR_SIZE == 0
    ensures pos + count / SECTOR_SIZE * SECTOR_SIZE == SectorFloor(pos + count)
    ensures count - count / SECTOR_SIZE * SECTOR_SIZE < SECTOR_SIZE
  {
  }

  lemma ReachesWhole(grows: bool, size: nat, pos: int, bytes: nat)
    requires pos % SECTOR_SIZE == 0 && bytes % SECTOR_SIZE == 0
    ensures Reaches(grows, size, pos, bytes) <==> pos >= 0 && (grows || pos + bytes <= size)
  {
  }

  lemma ReachesInside(size: nat, offset: int, count: nat)
    requires Reaches(false, size, offset, count)
    ensures 0 <= offset && offset + count <= size
  {
  }

  /** Sixteen bytes of a growing device that ends at byte 512 are read from 504 on into
      a buffer of sevens: a head and a tail, and zeros behind the end. But one request
      of two sectors from 0 on returns success with the second sector unset. */
  method ReadsBehindTheEnd(data: seq<byte>) returns (d: BlockDevice, small: seq<byte>, large: seq<byte>, a: int, b: int)
    requires |data| == SECTOR_SIZE
    ensures (a >= 0 && b >= 0) || d.failures > 0
    ensures a >= 0 ==> |small| == 16 && forall i :: 8 <= i < 16 ==> small[i] == 0
    ensures b >= 0 ==> b == |large| == 2 * SECTOR_SIZE && forall i :: SECTOR_SIZE <= i < 2 * SECTOR_SIZE ==> large[i] == 7
  {
    d := new BlockDevice(data, true, false, true);
    a, small := d.Pread(504, seq(16, i => 7));
    if a >= 0 {
      NoCrossingReadsAll(data, 504, seq(16, i => 7), small);
    }
    b, large := d.Pread(0, seq(1024, i => 7));
  }

  /** Byte q after a write of buf at offset. */
  function Mixed(was: seq<byte>, offset: int, buf: seq<byte>, q: int): byte {
    if offset <= q < offset + |buf| then buf[q - offset] else At(was, q)
  }

  /** A write, then a read of any other range. If both succeed, the read returns what
      was written where the ranges overlap, and the old bytes elsewhere; also zeros
      where there were none, if the device ended with a whole sector and no request of
      the read crosses its end. If the write failed, still the old bytes outside the
      sectors it touched. */
  method WriteThenRead(d: BlockDevice, offset: int, buf: seq<byte>, a: int, into: seq<byte>)
    returns (wrote: int, read: int, out: seq<byte>)
    modifies d
    ensures d.failures == old(d.failures) ==>
      && (wrote >= 0 <==> buf == [] || (d.inserted && !d.readOnly && Reaches(d.growable, |old(d.data)|, offset, |buf|)))
      && (read >= 0 <==> into == [] || (d.inserted && Reaches(d.growable, |d.data|, a, |into|)))
    ensures read >= 0 ==> |out| == |into|
    ensures var aligned, within := |old(d.data)| % SECTOR_SIZE == 0, !Crosses(|d.data|, a, |into|);
      wrote >= 0 && read >= 0 ==> forall i :: 0 <= i < |out| ==>
        (offset <= a + i < offset + |buf| || a + i < |old(d.data)| || (aligned && within) ==>
          out[i] == Mixed(old(d.data), offset, buf, a + i))
    ensures wrote < 0 && read >= 0 ==> forall i :: 0 <= i < |out| ==>
      (a + i < |old(d.data)| && !(SectorFloor(offset) <= a + i < SectorCeil(offset + |buf|)) ==>
        out[i] == At(old(d.data), a + i))
  {
    hide Reaches, ReadTo, Splice, Crosses, Wrote, SameOutside;
    ghost var start := d.data;
    wrote := d.Pwrite(offset, buf);
    read, out := d.Pread(a, into);
    if read >= 0 {
      ReadBytes(d.data, a, into, out);
      if wrote >= 0 {
        WroteBytes(start, d.data, offset, buf);
      } else {
        KeptBytes(start, d.data, SectorFloor(offset), SectorCeil(offset + |buf|));
      }
    }
  }

  /** A read, by position. */
  lemma ReadBytes(data: seq<byte>, a: int, into: seq<byte>, out: seq<byte>)
    requires ReadTo(data, a, into, out) && |out| == |into|
    ensures forall i :: 0 <= i < |out| && (a + i < |data| || !Crosses(|data|, a, |into|)) ==> out[i] == At(data, a + i)
  {
    hide PieceStart, Crosses;
    if !Crosses(|data|, a, |into|) {
      NoCrossingReadsAll(data, a, into, out);
    }
  }

  lemma WroteBytes(was: seq<byte>, now: seq<byte>, offset: int, buf: seq<byte>)
    requires if buf == [] then now == was else Wrote(was, now, offset, buf)
    ensures |was| <= |now|
    ensures forall q :: offset <= q < offset + |buf| || q < |was| || |was| % SECTOR_SIZE == 0 ==>
      At(now, q) == Mixed(was, offset, buf, q)
    ensures buf != [] ==> offset + |buf| <= |now|
  {
  }

  lemma KeptBytes(was: seq<byte>, now: seq<byte>, lo: int, hi: int)
    requires SameOutside(was, now, lo, hi)
    ensures |was| <= |now| && forall q :: !(lo <= q < hi) ==> At(now, q) == At(was, q)
  {
  }
}
