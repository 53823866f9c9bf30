// bdrv_commit (Main/linux/block.c): copying a copy-on-write overlay into its
// backing image, sector run by sector run, never changes what the guest sees.

module Commit {
  import opened Common

  type Sector = seq<int>

  const COMMIT_BUF_SECTORS: nat := 2048

  /** An overlay image over its backing image, which may be shorter; `zero` is
      what reads beyond the backing image give. */
  datatype Image = Image(overlay: seq<Option<Sector>>, backing: seq<Sector>, zero: Sector)

  /** What reading sector i of the overlay returns. */
  function Visible(im: Image, i: nat): Sector
    requires i < |im.overlay|
  {
    if im.overlay[i].Some? then im.overlay[i].value
    else if i < |im.backing| then im.backing[i]
    else im.zero
  }

  ghost predicate SameVisible(a: Image, b: Image) {
    |a.overlay| == |b.overlay| && forall i :: 0 <= i < |a.overlay| ==> Visible(a, i) == Visible(b, i)
  }

  /** The contract of bdrv_is_allocated at sector s: n sectors in the same state. */
  predicate RunAt(im: Image, s: nat, n: nat) {
    && 0 < n <= COMMIT_BUF_SECTORS && s + n <= |im.overlay|
    && forall i :: s <= i < s + n ==> im.overlay[i].Some? == im.overlay[s].Some?
  }

  /** Any change of the backing image confined to sectors the overlay holds. */
  ghost predicate HiddenChange(a: Image, b: Image, lo: nat, hi: nat) {
    && b.overlay == a.overlay && b.zero == a.zero && |b.backing| == |a.backing|
    && hi <= |a.overlay|
    && (forall i :: lo <= i < hi ==> a.overlay[i].Some?)
    && forall i :: 0 <= i < |a.backing| && !(lo <= i < hi) ==> b.backing[i] == a.backing[i]
  }

  /** Whatever a write to the backing image leaves behind in sectors the overlay
      holds, the guest does not see it. */
  lemma HiddenChangeInvisible(a: Image, b: Image, lo: nat, hi: nat)
    requires HiddenChange(a, b, lo, hi)
    ensures SameVisible(a, b)
  {
  }

  /** Sectors below s of the overlay are in the backing image too. */
  ghost predicate CommittedTo(im: Image, s: nat) {
    s <= |im.overlay|
    && forall i :: 0 <= i < s && im.overlay[i].Some? ==> i < |im.backing| && im.backing[i] == im.overlay[i].value
  }

  /** Dropping any of the overlay's sectors after a full commit is invisible. */
  lemma DropInvisible(a: Image, b: Image)
    requires CommittedTo(a, |a.overlay|) && |b.overlay| == |a.overlay| && b.backing == a.backing && b.zero == a.zero
    requires forall i :: 0 <= i < |a.overlay| ==> b.overlay[i] == a.overlay[i] || b.overlay[i] == None
    ensures SameVisible(a, b)
  {
  }

  /** Every sector of the overlay is in the backing image, which alone shows what the
      overlay showed; and the overlay is empty, if its format can empty it. */
  ghost predicate Committed(a: Image, b: Image, emptied: bool) {
    && |b.overlay| == |a.overlay| && CommittedTo(b, |b.overlay|)
    && (forall i :: 0 <= i < |b.overlay| && i < |b.backing| ==> b.backing[i] == Visible(a, i))
    && (emptied ==> forall i :: 0 <= i < |b.overlay| ==> b.overlay[i] == None)
  }

  /** Copying stopped before sector s: the overlay is whole, the sectors below s are in
      the backing image, and nothing else in it has changed but under the overlay. */
  ghost predicate StoppedAt(a: Image, b: Image, s: nat) {
    && b.overlay == a.overlay && b.zero == a.zero && |b.backing| == |a.backing| && CommittedTo(b, s)
    && forall i :: 0 <= i < |a.backing| && b.backing[i] != a.backing[i] ==> i < |a.overlay| && a.overlay[i].Some?
  }

  ghost predicate Stopped(a: Image, b: Image) {
    exists s: nat :: StoppedAt(a, b, s)
  }

  /** The first thing the copying does is a read, and it fails. */
  predicate FirstReadFails(im: Image, answers: seq<int>) {
    im.overlay != [] && im.overlay[0].Some? && answers != [] && answers[0] < 0
  }

  /** Every sector of the overlay has a place in the backing image. */
  ghost predicate Fits(im: Image) {
    forall i :: 0 <= i < |im.overlay| && im.overlay[i].Some? ==> i < |im.backing|
  }

  class CowDevice {
    var inserted: bool
    var hasBacking: bool
    /** How the backing image is open, and whether it has to stay so. */
    var backingReadOnly: bool
    var keepReadOnly: bool
    const canEmpty: bool
    var image: Image
    /** Every state the images went through, oldest first. */
    ghost var trail: seq<Image>
    /** What the next driver calls answer; those behind the end succeed. */
    var answers: seq<int>
    /** How many reads, writes and emptyings have failed, and how many openings of
        the backing image. */
    ghost var failures: nat
    ghost var openFailures: nat

    ghost predicate Valid()
      reads this
    {
      trail != [] && image == trail[|trail| - 1]
    }

    /** No read, write or emptying has failed since. */
    twostate predicate Worked()
      reads this`failures
    {
      failures == old(failures)
    }

    /** Nor an opening. */
    twostate predicate Opened()
      reads this`openFailures
    {
      openFailures == old(openFailures)
    }

    /** The backing image is opened twice, and between that the first read fails. */
    predicate HidesRead(answers: seq<int>)
      reads this`image
    {
      |answers| == 3 && answers[0] >= 0 && answers[2] >= 0 && FirstReadFails(image, answers[1..])
    }

    /** The backing image could not be opened read-write: it is opened read-only again,
        to stay so, or the device is gone. */
    predicate RefusedRw(before: seq<int>)
      reads this
    {
      && answers == before[if |before| < 2 then |before| else 2..]
      && if |before| > 1 && before[1] < 0 then !inserted && !hasBacking
         else inserted && hasBacking && backingReadOnly && keepReadOnly
    }

    /** bdrv_commit may begin. */
    predicate Permitted()
      reads this
    {
      inserted && hasBacking && !keepReadOnly
    }

    constructor (im: Image, inserted: bool, hasBacking: bool, backingReadOnly: bool, keepReadOnly: bool,
                 canEmpty: bool, answers: seq<int>)
      ensures Valid() && this.answers == answers && failures == openFailures == 0 && image == im && trail == [im]
      ensures this.inserted == inserted && this.hasBacking == hasBacking
      ensures this.backingReadOnly == backingReadOnly && this.keepReadOnly == keepReadOnly && this.canEmpty == canEmpty
    {
      image, trail, failures, openFailures, this.answers := im, [im], 0, 0, answers;
      this.inserted, this.hasBacking := inserted, hasBacking;
      this.backingReadOnly, this.keepReadOnly, this.canEmpty := backingReadOnly, keepReadOnly, canEmpty;
    }

    /** What the next driver call answers. */
    method Answer() returns (ret: int)
      modifies this`answers
      ensures ret == if old(answers) != [] && old(answers)[0] < 0 then old(answers)[0] else 0
      ensures answers == if old(answers) == [] then [] else old(answers)[1..]
    {
      ret := 0;
      if answers != [] {
        if answers[0] < 0 {
          ret := answers[0];
        }
        answers := answers[1..];
      }
    }

    /** One call of the driver, which may fail with any error. */
    method Driver() returns (ret: int)
      modifies this`failures, this`answers
      ensures ret <= 0 && old(failures) <= failures && (ret == 0 <==> Worked())
      ensures ret < 0 <==> old(answers) != [] && old(answers)[0] < 0
      ensures answers == if old(answers) == [] then [] else old(answers)[1..]
    {
      ret := Answer();
      if ret < 0 {
        failures := failures + 1;
      }
    }

    /** bdrv_is_allocated, under its contract. */
    method IsAllocated(s: nat) returns (inUse: bool, n: nat)
      requires s < |image.overlay|
      ensures RunAt(image, s, n) && inUse == image.overlay[s].Some?
    {
      assert RunAt(image, s, 1);
      n :| RunAt(image, s, n);
      inUse := image.overlay[s].Some?;
    }

    /** bdrv_read of allocated sectors; it may fail. */
    method ReadRun(s: nat, n: nat) returns (ret: int, buf: seq<Sector>)
      requires RunAt(image, s, n) && image.overlay[s].Some?
      modifies this`failures, this`answers
      ensures old(failures) <= failures && (ret == 0 <==> Worked())
      ensures ret < 0 <==> old(answers) != [] && old(answers)[0] < 0
      ensures answers == if old(answers) == [] then [] else old(answers)[1..]
      ensures ret <= 0
      ensures ret == 0 ==> |buf| == n && forall i :: 0 <= i < n ==> buf[i] == image.overlay[s + i].value
    {
      ret := Driver();
      if ret < 0 {
        return ret, [];
      }
      var im := image;
      buf := seq(n, i requires 0 <= i < n => im.overlay[s + i].value);
    }

    /** bdrv_write to the backing image. A write to one that is open read-only, or beyond
        its end, is refused; one that fails may leave anything in the sectors it was to
        write. */
    method WriteBacking(s: nat, buf: seq<Sector>) returns (ret: int)
      requires Valid() && RunAt(image, s, |buf|) && image.overlay[s].Some?
      modifies this`image, this`trail, this`failures, this`answers
      ensures Valid() && HiddenChange(old(image), image, s, s + |buf|) && trail == old(trail) + [image]
      ensures old(failures) <= failures
      ensures ret == 0 <==> !backingReadOnly && s + |buf| <= |image.backing| && Worked()
      ensures backingReadOnly ==> ret == -EACCES && image == old(image)
      ensures old(answers) == [] ==> answers == [] && Worked()
      ensures ret == 0 ==> s + |buf| <= |image.backing| && image.backing[s..s + |buf|] == buf
    {
      var b := image.backing;
      if backingReadOnly {
        trail := trail + [image];
        return -EACCES;
      }
      if s + |buf| > |b| {
        trail := trail + [image];
        return -EIO;
      }
      ret := Driver();
      var written := buf;
      if ret < 0 {
        written := *;
        if |written| != |buf| {
          written := buf;
        }
      }
      image := image.(backing := b[..s] + written + b[s + |buf|..]);
      trail := trail + [image];
    }

    /** bdrv_make_empty: on failure it may have dropped some sectors only. */
    method MakeEmpty() returns (ret: int)
      requires Valid() && CommittedTo(image, |image.overlay|)
      ensures |image.overlay| == |old(image).overlay|
      ensures forall i :: 0 <= i < |image.overlay| ==> image.overlay[i] == old(image).overlay[i] || image.overlay[i] == None
      ensures old(answers) == [] ==> answers == [] && Worked()
      modifies this`image, this`trail, this`failures, this`answers
      ensures ret <= 0 && old(failures) <= failures && (ret == 0 <==> Worked())
      ensures Valid() && trail == old(trail) + [image] && SameVisible(old(image), image)
      ensures image.zero == old(image).zero
      ensures image.backing == old(image).backing
      ensures ret == 0 ==> forall i :: 0 <= i < |image.overlay| ==> image.overlay[i] == None
    {
      ghost var before := image;
      ret := Driver();
      var kept: seq<bool> := *;
      var o := image.overlay;
      image := image.(overlay := seq(|o|, i requires 0 <= i < |o| =>
        if ret < 0 && i < |kept| && kept[i] then o[i] else None));
      trail := trail + [image];
      DropInvisible(before, image);
    }

    /** The copying loop of bdrv_commit. */
    method CopyRuns() returns (ret: int)
      requires Valid() && !backingReadOnly
      modifies this`image, this`trail, this`failures, this`answers
      ensures Valid() && old(trail) <= trail && old(failures) <= failures
      ensures forall k :: |old(trail)| <= k < |trail| ==> SameVisible(old(image), trail[k])
      ensures SameVisible(old(image), image) && Stopped(old(image), image)
      ensures ret in {0, -EIO} && (ret == 0 <==> Fits(old(image)) && Worked())
      ensures ret == 0 ==> Committed(old(image), image, false)
      ensures !Fits(old(image)) ==> !CommittedTo(image, |image.overlay|)
      ensures old(answers) == [] ==> answers == [] && Worked()
      ensures old(FirstReadFails(image, answers)) ==> ret < 0 && image == old(image) && answers == old(answers)[1..]
    {
      hide HiddenChange, SameVisible;
      ghost var start, origin := image, trail;
      VisibleRefl(start);
      var s: nat := 0;
      while s < |image.overlay|
        invariant Valid() && origin <= trail && s <= |image.overlay|
        invariant SameVisible(start, image) && StoppedAt(start, image, s) && Worked()
        invariant forall k :: |origin| <= k < |trail| ==> SameVisible(start, trail[k])
        invariant old(answers) == [] ==> answers == []
        invariant old(FirstReadFails(image, answers)) ==> s == 0 && image == start && answers == old(answers)
        decreases |image.overlay| - s
      {
        var inUse, n := IsAllocated(s);
        if inUse {
          RunTooLong(image, s, n);
          SameRoom(start, image);
          ret := CopyRun(s, n, start);
          if ret != 0 {
            return -EIO;
          }
        }
        StoppedOn(start, image, s, n, inUse);
        s := s + n;
      }
      AllCommitted(start, image);
      ret := 0;
    }

    /** One run of allocated sectors. */
    method CopyRun(s: nat, n: nat, ghost start: Image) returns (ret: int)
      requires Valid() && !backingReadOnly && RunAt(image, s, n) && image.overlay[s].Some?
      requires SameVisible(start, image) && StoppedAt(start, image, s)
      modifies this`image, this`trail, this`failures, this`answers
      ensures Valid() && old(trail) <= trail && old(failures) <= failures
      ensures forall k :: |old(trail)| <= k < |trail| ==> trail[k] == image
      ensures SameVisible(start, image) && StoppedAt(start, image, s)
      ensures ret == 0 <==> s + n <= |image.backing| && Worked()
      ensures ret == 0 ==> CommittedTo(image, s + n)
      ensures old(answers) == [] ==> answers == [] && Worked()
      ensures old(answers) != [] && old(answers)[0] < 0 ==> ret != 0 && image == old(image) && answers == old(answers)[1..]
    {
      hide SameVisible;
      var buf;
      ret, buf := ReadRun(s, n);
      if ret != 0 {
        return -EIO;
      }
      ghost var before := image;
      ret := WriteBacking(s, buf);
      HiddenChangeInvisible(before, image, s, s + n);
      VisibleTrans(start, before, image);
      if ret == 0 {
        RunCommitted(before, image, s, n, buf);
      }
    }

    /** The copying of bdrv_commit, and the emptying of the overlay. */
    method CopyAll() returns (ret: int)
      requires Valid() && !backingReadOnly
      modifies this`image, this`trail, this`failures, this`answers
      ensures Valid() && old(trail) <= trail && old(failures) <= failures
      ensures forall k :: |old(trail)| <= k < |trail| ==> SameVisible(old(image), trail[k])
      ensures SameVisible(old(image), image) && |image.backing| == |old(image).backing|
      ensures ret <= 0 && (ret == 0 <==> Fits(old(image)) && Worked())
      ensures ret == 0 ==> Committed(old(image), image, canEmpty)
      ensures Stopped(old(image), image) || Committed(old(image), image, false)
      ensures ret < 0 && !Committed(old(image), image, false) ==> ret == -EIO
      ensures !Fits(old(image)) ==> !CommittedTo(image, |image.overlay|)
      ensures old(answers) == [] ==> answers == [] && Worked()
      ensures old(FirstReadFails(image, answers)) ==> ret < 0 && image == old(image) && answers == old(answers)[1..]
    {
      hide SameVisible, Fits, CommittedTo;
      ghost var start := image;
      ret := CopyRuns();
      if ret == 0 && canEmpty {
        ghost var before := image;
        ret := MakeEmpty();
        VisibleTrans(start, before, image);
        StillCommitted(start, before, image, ret == 0);
      }
    }

    /** The backing image is closed and opened again, if that works; one that is opened
        read-only has to stay so until somebody says otherwise. */
    method ReopenBacking(readOnly: bool) returns (ret: int)
      modifies this`hasBacking, this`backingReadOnly, this`keepReadOnly, this`openFailures, this`answers
      ensures ret <= 0 && old(openFailures) <= openFailures && (ret == 0 <==> Opened())
      ensures ret == if old(answers) != [] && old(answers)[0] < 0 then old(answers)[0] else 0
      ensures answers == if old(answers) == [] then [] else old(answers)[1..]
      ensures hasBacking == (ret == 0)
      ensures ret == 0 ==> backingReadOnly == keepReadOnly == readOnly
    {
      hasBacking := false;
      ret := Answer();
      if ret < 0 {
        openFailures := openFailures + 1;
        return;
      }
      hasBacking, backingReadOnly, keepReadOnly := true, readOnly, readOnly;
    }

    /** bdrv_commit. Nothing the guest reads changes at any step, whatever fails. With
        a backing image that is open for writing, the result is 0 exactly when every
        sector of the overlay fits into it and no driver call failed, and then all is
        committed. With one that is open read-only, the result is that of the last
        opening alone: it is 0 even when the copying failed. The device is lost only
        when its backing image cannot be opened again. After a failed call the sectors
        below some point are committed and the overlay is whole, or all are and only the
        emptying failed. */
    method Commit() returns (ret: int)
      requires Valid()
      modifies this
      ensures Valid() && old(trail) <= trail && old(failures) <= failures && old(openFailures) <= openFailures
      ensures forall k :: |old(trail)| <= k < |trail| ==> SameVisible(old(image), trail[k])
      ensures SameVisible(old(image), image) && |image.backing| == |old(image).backing|
      ensures !old(inserted) ==> ret == -ENOMEDIUM
      ensures old(inserted && !hasBacking) ==> ret == -ENOTSUP
      ensures old(inserted && hasBacking && keepReadOnly) ==> ret == -EACCES
      ensures !old(Permitted()) ==> image == old(image)
      ensures old(Permitted() && !backingReadOnly) ==> (ret == 0 <==> Fits(old(image)) && Worked())
      ensures old(Permitted() && backingReadOnly) ==> (ret == 0 <==> Opened())
      ensures old(Permitted()) && Opened() && Worked() && Fits(old(image)) ==> Committed(old(image), image, canEmpty)
      ensures old(Permitted()) && Opened() && !Fits(old(image)) ==> !CommittedTo(image, |image.overlay|)
      ensures ret == 0 && !old(backingReadOnly) ==> Committed(old(image), image, canEmpty)
      ensures Stopped(old(image), image) || Committed(old(image), image, false)
      ensures old(answers) == [] ==> Worked() && Opened() && answers == []
      ensures old(Permitted() && backingReadOnly && answers != [] && answers[0] < 0) ==>
        RefusedRw(old(answers)) && image == old(image)
        && ret == old(answers)[if |old(answers)| > 1 && old(answers)[1] < 0 then 1 else 0]
      ensures ret < 0 && old(Permitted() && !backingReadOnly) && !Committed(old(image), image, false) ==> ret == -EIO
      ensures old(HidesRead(answers)) && old(Permitted() && backingReadOnly) ==> ret == 0 && image == old(image)
      ensures old(inserted && hasBacking) ==> inserted == hasBacking
      ensures inserted == old(inserted) || (old(Permitted() && backingReadOnly) && !Opened())
      ensures inserted && hasBacking ==> backingReadOnly == old(backingReadOnly)
      ensures old(Permitted()) && Opened() ==> inserted && hasBacking && !keepReadOnly
      ensures old(Permitted()) && inserted && ret < 0 && !Opened() ==> keepReadOnly
      ensures !old(Permitted()) ==> unchanged(this)
    {
      assert StoppedAt(image, image, 0);
      if !inserted { return -ENOMEDIUM; }
      if !hasBacking { return -ENOTSUP; }
      if keepReadOnly { return -EACCES; }
      var ro := backingReadOnly;
      if ro {
        var rwRet := ReopenBacking(false);
        if rwRet < 0 {
          ret := ReopenBacking(true);
          if ret < 0 {
            inserted := false;
            return;
          }
          return rwRet;
        }
      }
      ret := CopyAll();
      if ro {
        ret := ReopenBacking(true);
        if ret < 0 {
          inserted := false;
        } else {
          keepReadOnly := false;
        }
      }
    }
  }

  /** A commit whose openings all worked leaves a device that may commit again. */
  method CommitTwice(d: CowDevice) returns (first: int, again: bool, second: int)
    requires d.Valid() && d.Permitted()
    modifies d
    ensures d.openFailures == old(d.openFailures) ==> again && d.Permitted()
    ensures d.openFailures == old(d.openFailures) && old(d.backingReadOnly) ==> first == 0 && second == 0
    ensures old(d.answers) == [] && old(Fits(d.image)) ==> first == 0 && again && second == 0
  {
    first := d.Commit();
    again := d.Permitted();
    second := d.Commit();
  }

  /** Two devices with a backing image open read-only, for which bdrv_commit returns 0
      and commits nothing: one whose overlay does not fit, although no call fails, and
      one whose overlay fits, when the first read fails. */
  method CommitHidesFailure() returns (long: CowDevice, fits: CowDevice, a: int, b: int)
    ensures a == 0 && long.failures == 0 && !CommittedTo(long.image, |long.image.overlay|)
    ensures b == 0 && Fits(fits.image) && !CommittedTo(fits.image, |fits.image.overlay|)
  {
    long := new CowDevice(Image([Some([1])], [], [0]), true, true, true, false, true, []);
    a := long.Commit();
    fits := new CowDevice(Image([Some([1])], [[2]], [0]), true, true, true, false, true, [0, -EIO, 0]);
    assert [0, -EIO, 0][1..] == [-EIO, 0];
    b := fits.Commit();
    assert fits.image.overlay[0].Some? && fits.image.backing[0] == [2];
  }

  lemma VisibleRefl(a: Image)
    ensures SameVisible(a, a)
  {
  }

  lemma VisibleTrans(a: Image, b: Image, c: Image)
    requires SameVisible(a, b) && SameVisible(b, c)
    ensures SameVisible(a, c)
  {
  }

  /** An overlay with a run of sectors beyond the backing image does not fit. */
  lemma RunTooLong(a: Image, s: nat, n: nat)
    requires RunAt(a, s, n) && a.overlay[s].Some?
    ensures s + n > |a.backing| ==> !Fits(a)
  {
    assert a.overlay[s + n - 1].Some?;
  }

  lemma SameRoom(a: Image, b: Image)
    requires a.overlay == b.overlay && |a.backing| == |b.backing|
    ensures Fits(a) <==> Fits(b)
  {
  }

  lemma StoppedOn(a: Image, b: Image, s: nat, n: nat, inUse: bool)
    requires StoppedAt(a, b, s) && RunAt(b, s, n) && inUse == b.overlay[s].Some?
    requires inUse ==> CommittedTo(b, s + n)
    ensures StoppedAt(a, b, s + n)
  {
  }

  lemma AllCommitted(a: Image, b: Image)
    requires StoppedAt(a, b, |a.overlay|) && SameVisible(a, b)
    ensures Committed(a, b, false) && Fits(a)
  {
    forall i | 0 <= i < |b.overlay| && i < |b.backing| ensures b.backing[i] == Visible(a, i) {
      assert Visible(a, i) == Visible(b, i);
    }
  }

  lemma StillCommitted(a: Image, b: Image, c: Image, emptied: bool)
    requires Committed(a, b, false) && |c.overlay| == |b.overlay| && c.backing == b.backing
    requires forall i :: 0 <= i < |c.overlay| ==> c.overlay[i] == b.overlay[i] || c.overlay[i] == None
    requires emptied ==> forall i :: 0 <= i < |c.overlay| ==> c.overlay[i] == None
    ensures Committed(a, c, false) && (emptied ==> Committed(a, c, true))
  {
  }

  lemma RunCommitted(a: Image, b: Image, s: nat, n: nat, buf: seq<Sector>)
    requires CommittedTo(a, s) && HiddenChange(a, b, s, s + n) && |buf| == n
    requires s + n <= |b.backing| && b.backing[s..s + n] == buf
    requires forall i :: 0 <= i < n ==> buf[i] == a.overlay[s + i].value
    ensures CommittedTo(b, s + n)
  {
    forall i | s <= i < s + n ensures b.backing[i] == b.overlay[i].value {
      assert b.backing[s..s + n][i - s] == buf[i - s];
    }
  }
}
