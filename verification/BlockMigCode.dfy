// The sender of Main/linux/block-migration.c as it works on its own fields: the
// device cursors, the in-flight bitmap, the counters and blk_list, with the driver
// and the guest acting in between. Every call is a run of the machine in BlockMig,
// and the stream holds the blocks that run sends.

module BlockMigCode {
  import opened Common
  import opened Wire
  import opened BlockMig
  import opened BlockMigDrained
  import opened BlockCodec

  lemma {:induction false} RunAppend(s: State, events: seq<Event>, t: State, careful: bool, e: Event)
    requires Run(s, events, t, careful) && Enabled(t, e)
    ensures Run(s, events + [e], Next(t, e), careful && Careful(t, e))
    decreases |events|
  {
    hide Enabled, Next, Careful;
    if events == [] {
      assert ([] + [e])[1..] == [];
    } else {
      RunAppend(Next(s, events[0]), events[1..], t, careful, e);
      assert (events + [e])[1..] == events[1..] + [e];
    }
  }

  /** Devices whose bulk phase is not over. */
  function Undone(done: seq<bool>): nat {
    if done == [] then 0 else Undone(done[..|done| - 1]) + if done[|done| - 1] then 0 else 1
  }

  lemma {:induction false} UndoneFalls(done: seq<bool>, d: nat)
    requires d < |done| && !done[d]
    ensures Undone(done[d := true]) == Undone(done) - 1
  {
    var n := |done| - 1;
    if d == n {
      assert done[d := true][..n] == done[..n];
    } else {
      assert done[d := true][..n] == done[..n][d := true];
      UndoneFalls(done[..n], d);
    }
  }

  function Sum(counts: seq<nat>): nat {
    if counts == [] then 0 else Sum(counts[..|counts| - 1]) + counts[|counts| - 1]
  }

  lemma {:induction false} SumWithin(counts: seq<nat>, totals: seq<nat>, n: nat)
    requires |counts| == |totals| && n <= |counts| && forall i :: 0 <= i < |counts| ==> counts[i] <= totals[i]
    ensures Sum(counts[..n]) <= Sum(totals)
    decreases |totals|, n
  {
    if n < |totals| {
      var m := |totals| - 1;
      assert counts[..m][..n] == counts[..n];
      SumWithin(counts[..m], totals[..m], n);
    } else if n > 0 {
      assert counts[..n] == counts && counts[..n][..n - 1] == counts[..n - 1];
      SumWithin(counts[..n - 1], totals[..n - 1], n - 1);
      assert counts[..n - 1][..n - 1] == counts[..n - 1];
    }
  }

  /** Per cent of the sectors of all devices. */
  function Percent(done: nat, total: nat): nat {
    if total != 0 then done * 100 / total else 100
  }

  /** Rounded down; everything when there are no sectors at all. */
  lemma PercentWithin(done: nat, total: nat)
    requires done <= total
    ensures Percent(done, total) <= 100
    ensures var p := Percent(done, total); total > 0 ==> p * total <= done * 100 < (p + 1) * total
    ensures Percent(total, total) == 100
  {
    if total != 0 {
      var q, r := done * 100 / total, done * 100 % total;
      assert done * 100 == q * total + r;
      assert (q + 1) * total == q * total + total;
      if q > 100 {
        MulLe(101, q, total);
      }
      DivUnique(total * 100, total, 100, 0);
    }
  }

  lemma ChunkCount(cur: nat, total: nat)
    requires cur < total && cur % CHUNK_SECTORS == 0
    ensures cur / CHUNK_SECTORS == Chunks(cur) < Chunks(total)
    ensures Chunks(cur + SectorsAt(total, cur)) == Chunks(cur) + 1
  {
  }

  /** What a stage-2 call sent and which chunks it read; how many blocks its first call
      of flush_blks sent, and the rate-limit answers not yet used then. */
  datatype Report = Report(sent: seq<Item>, took: set<Key>, first: nat, mid: seq<bool>)

  class BlockMigration {
    const devices: seq<Device>

    // BlkMigDevState, by device
    var curSector: seq<nat>
    var curDirty: seq<nat>
    var bulkDone: seq<bool>
    var completedSectors: seq<nat>
    var inflight: set<Key>

    // BlkMigState
    var blkList: seq<Block>
    var submitted: int
    var readDone: int
    var transferred: int
    var bulkCompleted: bool
    var prevProgress: int

    /** What has been written to the file since the last end of a section. */
    var stream: seq<byte>

    // the source's disks, the driver's reads, the guest's writes and the dirty bitmap
    var src: map<Key, Data>
    var aio: seq<Read>
    var writes: multiset<Key>
    var dirty: set<Key>

    /** What the destination's disks will hold once it has read all of the stream;
        the records in the stream, and what `dst` was when it was last empty. */
    ghost var dst: map<Key, Data>
    ghost var items: seq<Item>
    ghost var sectionStart: map<Key, Data>

    /** The chunks read since the last end of a section. */
    ghost var taken: set<Key>

    /** The state when tracking was enabled, and every step since; `careful` while
        no dirty-phase read has started beside a pending read of its chunk;
        `settled` if no read was pending when bulk_completed was set. */
    ghost const start: State
    ghost var log: seq<Event>
    ghost var careful: bool
    ghost var settled: bool

    function Totals(): (r: seq<nat>)
      ensures |r| == |devices|
    {
      seq(|devices|, d requires 0 <= d < |devices| => Chunks(devices[d].sectors))
    }

    static function InChunks(sectors: seq<nat>): (r: seq<nat>)
      ensures |r| == |sectors|
    {
      seq(|sectors|, d requires 0 <= d < |sectors| => Chunks(sectors[d]))
    }

    ghost function View(): State
      reads this`curSector, this`inflight, this`blkList, this`src, this`dst, this`aio, this`writes, this`dirty
    {
      State(Totals(), src, dst, dirty, inflight, writes, aio, blkList, InChunks(curSector))
    }

    ghost predicate CursorAt(d: nat)
      requires d < |devices| && d < |curSector| && d < |curDirty| && d < |bulkDone|
      reads this`curSector, this`curDirty, this`bulkDone, this`bulkCompleted
    {
      && curSector[d] <= devices[d].sectors && (curSector[d] % CHUNK_SECTORS == 0 || curSector[d] == devices[d].sectors)
      && curDirty[d] % CHUNK_SECTORS == 0
      && (bulkDone[d] ==> curSector[d] == devices[d].sectors)
      && (bulkCompleted ==> bulkDone[d])
    }

    ghost predicate Cursors()
      reads this`curSector, this`curDirty, this`bulkDone, this`bulkCompleted
    {
      && |curSector| == |curDirty| == |bulkDone| == |devices|
      && forall d: nat :: d < |devices| ==> CursorAt(d)
    }

    ghost predicate Logged()
      reads this`curSector, this`inflight, this`blkList, this`src, this`dst, this`aio, this`writes, this`dirty,
            this`log, this`careful, this`settled, this`bulkCompleted
    {
      LoggedAt(View())
    }

    /** The log is a run that has reached s. */
    ghost predicate LoggedAt(s: State)
      reads this`log, this`careful, this`settled, this`bulkCompleted
    {
      && Initial(start) && Run(start, log, s, careful) && Shape(s) && SizedState(devices, s) && Phase(s)
    }

    lemma OpenLog()
      requires Logged()
      ensures LoggedAt(View())
    {
      hide LoggedAt;
    }

    /** Dirty-phase reads come only after the bulk phase, and are careful from then on
        if no read was pending at its end. */
    ghost predicate Phase(s: State)
      reads this`careful, this`settled, this`bulkCompleted
    {
      && (!bulkCompleted ==> careful && s.inflight == {})
      && (bulkCompleted && settled ==> careful && Drained(s))
    }

    /** The stream is the records written since the last section, and they lead to dst. */
    ghost predicate Streamed()
      reads this`stream, this`items, this`sectionStart, this`dst
    {
      && Devices(devices) && AllFit(devices, items) && stream == ItemsBytes(devices, items)
      && dst == Replay(sectionStart, Blocks(items))
    }

    /** Between sections nothing is left in the stream. */
    ghost predicate Flushed()
      reads this`stream, this`items, this`sectionStart, this`dst, this`taken
    {
      stream == [] && items == [] && sectionStart == dst && taken == {}
    }

    lemma KnownKeys(k: Key)
      requires Logged() && (k in dirty || k in writes)
      ensures IsKey(View(), k) && SizedKey(k) && k in dst
    {
      hide Initial, Run;
      KeysMatch(devices, View(), k);
    }

    /** Chunk k exists and its contents have its size. */
    ghost predicate SizedKey(k: Key)
      reads this`src
    {
      k in src && SizedChunk(devices, k, src[k])
    }

    lemma ReadKnown(i: nat)
      requires Logged() && i < |aio|
      ensures aio[i].key in src
    {
      hide Initial, Run;
    }

    lemma HeadKnown()
      requires Logged() && blkList != []
      ensures SizedChunk(devices, blkList[0].key, blkList[0].data)
    {
      hide Initial, Run;
    }

    function TotalSectors(): (r: seq<nat>)
      ensures |r| == |devices|
    {
      seq(|devices|, d requires 0 <= d < |devices| => devices[d].sectors)
    }

    /** completed_sectors of every device. */
    ghost predicate Counted()
      reads this`completedSectors
    {
      |completedSectors| == |devices| && forall d :: 0 <= d < |devices| ==> completedSectors[d] <= devices[d].sectors
    }

    ghost predicate Valid()
      reads this
    {
      Counted() && Cursors() && Logged() && Streamed() && submitted == |aio| && readDone == |blkList|
    }

    ghost function Ahead(): int
      reads this`submitted, this`readDone
    {
      submitted + readDone
    }

    /** Stage 1: init_blk_migration, with tracking just enabled and no write under way. */
    constructor (devices: seq<Device>, src: map<Key, Data>, ghost dst: map<Key, Data>)
      requires Devices(devices) && Sized(devices, src) && dst.Keys == src.Keys
      ensures Valid() && Flushed() && !bulkCompleted && aio == [] && writes == multiset{}
      ensures this.devices == devices && this.src == src && this.dst == dst && start == View()
      ensures prevProgress == -1 && completedSectors == seq(|devices|, _ => 0)
    {
      this.devices, this.src, this.dst := devices, src, dst;
      curSector, curDirty := seq(|devices|, _ => 0), seq(|devices|, _ => 0);
      bulkDone, completedSectors, prevProgress := seq(|devices|, _ => false), seq(|devices|, _ => 0), -1;
      inflight, blkList, submitted, readDone, transferred, bulkCompleted := {}, [], 0, 0, 0, false;
      aio, writes, dirty := [], multiset{}, {};
      stream, items, sectionStart, taken := [], [], dst, {};
      log, careful, settled := [], true, false;
      start := State(seq(|devices|, d requires 0 <= d < |devices| => Chunks(devices[d].sectors)), src, dst, {}, {},
                     multiset{}, [], [], seq(|devices|, _ => 0));
      new;
      assert View() == start;
      forall k ensures IsKey(start, k) <==> KeyOf(devices, k) {
      }
    }

    /** The step just taken from s joins the run. */
    ghost method Record(s: State, e: Event)
      requires LoggedAt(s) && Enabled(s, e) && View() == Next(s, e)
      requires e.GuestApply? ==> SizedChunk(devices, e.key, e.data)
      requires e.Bulk? ==> !bulkCompleted
      requires e.DirtyRead? ==> bulkCompleted && BulkOver(s)
      modifies this`log, this`careful
      ensures Logged() && careful == (old(careful) && Careful(s, e))
    {
      hide Initial, Run, Shape, SizedState, Careful, Drained, BulkOver, WellFormed;
      PhaseKeeps(s, e);
      hide Enabled, Next;
      RunAppend(start, log, s, careful, e);
      ShapeKeeps(s, e);
      SizedKeeps(devices, s, e);
      log, careful := log + [e], careful && Careful(s, e);
    }

    lemma PhaseKeeps(s: State, e: Event)
      requires LoggedAt(s) && Enabled(s, e)
      requires e.Bulk? ==> !bulkCompleted
      requires e.DirtyRead? ==> bulkCompleted && BulkOver(s)
      ensures !bulkCompleted ==> Careful(s, e) && Next(s, e).inflight == {}
      ensures bulkCompleted && settled ==> Careful(s, e) && Drained(Next(s, e))
    {
      hide Shape, SizedState, Run, Drained, BulkOver;
      if bulkCompleted && settled {
        InitialInv(start);
        RunKeeps(start, log, s);
        StaysDrained(s, e);
        if e.DirtyRead? {
          DrainedStepCareful(s, e);
        }
      }
    }

    // --------------------------------------------------- guest and driver

    /** The guest hands a write to the driver. */
    method GuestSubmits(k: Key)
      requires Valid() && IsKey(View(), k)
      modifies this`writes, this`log, this`careful
      ensures Valid() && View() == Next(old(View()), GuestSubmit(k)) && careful == old(careful)
    {
      hide Logged, LoggedAt, Cursors, Streamed, IsKey, Totals, InChunks, SizedChunk;
      OpenLog();
      writes := writes + multiset{k};
      Record(old(View()), GuestSubmit(k));
    }

    /** The driver writes to the disk; nothing says it does so only once. */
    method GuestApplies(k: Key, data: Data)
      requires Valid() && IsKey(View(), k) && k in writes && SizedChunk(devices, k, data)
      modifies this`src, this`log, this`careful
      ensures Valid() && View() == Next(old(View()), GuestApply(k, data)) && careful == old(careful)
    {
      hide Logged, LoggedAt, Cursors, Streamed, IsKey, Totals, InChunks, SizedChunk;
      OpenLog();
      src := src[k := data];
      Record(old(View()), GuestApply(k, data));
    }

    /** block_complete_cb */
    method GuestCompletes(k: Key)
      requires Valid() && IsKey(View(), k) && k in writes
      modifies this`writes, this`dirty, this`log, this`careful
      ensures Valid() && View() == Next(old(View()), GuestDone(k)) && careful == old(careful)
    {
      hide Logged, LoggedAt, Cursors, Streamed, IsKey, Totals, InChunks, SizedChunk;
      OpenLog();
      writes, dirty := writes - multiset{k}, dirty + {k};
      Record(old(View()), GuestDone(k));
    }

    method DriverReads(i: nat)
      requires Valid() && i < |aio| && aio[i].snap.None?
      modifies this`aio, this`log, this`careful
      ensures Valid() && IsStep(old(View()), Sample(i), View()) && careful == old(careful)
      ensures |aio| == |old(aio)| && aio[i].snap.Some?
    {
      hide LoggedAt, Cursors, Streamed;
      ReadKnown(i);
      aio := aio[i := Read(aio[i].key, Some(src[aio[i].key]))];
      Record(old(View()), Sample(i));
    }

    /** blk_mig_read_cb */
    method ReadCb(i: nat)
      requires Valid() && i < |aio| && aio[i].snap.Some?
      modifies this`aio, this`blkList, this`inflight, this`submitted, this`readDone, this`log, this`careful
      ensures Valid() && IsStep(old(View()), ReadDone(i), View()) && careful == old(careful)
      ensures submitted == old(submitted) - 1 >= 0 && readDone == old(readDone) + 1
    {
      hide Totals, InChunks, Logged, LoggedAt, Cursors, Streamed;
      OpenLog();
      var r := aio[i];
      aio := aio[..i] + aio[i + 1..];
      blkList := blkList + [Block(r.key, r.snap.value)];
      inflight := inflight - {r.key};
      submitted := submitted - 1;
      readDone := readDone + 1;
      Record(old(View()), ReadDone(i));
    }

    /** The driver finishes read i. */
    method FinishRead(i: nat)
      requires Valid() && i < |aio|
      modifies this`aio, this`blkList, this`inflight, this`submitted, this`readDone, this`log, this`careful
      ensures Valid() && careful == old(careful) && Ahead() == old(Ahead()) && |aio| == |old(aio)| - 1
    {
      hide Logged, Streamed;
      if aio[i].snap.None? {
        DriverReads(i);
      }
      ReadCb(i);
    }

    /** The guest finishes a write it has under way. */
    method FinishWrite(k: Key)
      requires Valid() && k in writes
      modifies this`src, this`writes, this`dirty, this`log, this`careful
      ensures Valid() && careful == old(careful) && |writes| == |old(writes)| - 1 && old(dirty) <= dirty
    {
      hide Logged, Streamed, Cursors, IsKey;
      KnownKeys(k);
      var reaches, data := *, *;
      if reaches && SizedChunk(devices, k, data) {
        GuestApplies(k, data);
        KnownKeys(k);
      }
      GuestCompletes(k);
    }

    /** The driver and the guest take some steps. */
    method Environment()
      requires Valid()
      modifies this`src, this`writes, this`dirty, this`aio, this`blkList, this`inflight,
               this`submitted, this`readDone, this`log, this`careful
      ensures Valid() && careful == old(careful) && Ahead() == old(Ahead()) && old(dirty) <= dirty
    {
      hide Logged, Streamed;
      var n: nat := *;
      while n > 0
        invariant Valid() && careful == old(careful) && Ahead() == old(Ahead()) && old(dirty) <= dirty
      {
        var guest, i, k := *, *, *;
        if guest {
          GuestStep(k);
        } else {
          DriverStep(i);
        }
        n := n - 1;
      }
    }

    method DriverStep(i: nat)
      requires Valid()
      modifies this`aio, this`blkList, this`inflight, this`submitted, this`readDone, this`log, this`careful
      ensures Valid() && careful == old(careful) && Ahead() == old(Ahead())
    {
      hide Logged, Streamed;
      if i < |aio| {
        if aio[i].snap.None? {
          DriverReads(i);
        } else {
          ReadCb(i);
        }
      }
    }

    lemma SourceKey(k: Key)
      requires Logged() && k in src
      ensures IsKey(View(), k)
    {
      hide Initial, Run, SizedState;
    }

    method GuestStep(k: Key)
      requires Valid()
      modifies this`src, this`writes, this`dirty, this`log, this`careful
      ensures Valid() && careful == old(careful) && old(dirty) <= dirty
    {
      hide Logged, Streamed, Cursors, IsKey;
      if k in src {
        SourceKey(k);
        var submits, reaches, data := *, *, *;
        if submits {
          GuestSubmits(k);
        } else if k in writes {
          if reaches && SizedChunk(devices, k, data) {
            GuestApplies(k, data);
          } else {
            GuestCompletes(k);
          }
        }
      }
    }

    /** qemu_aio_flush: every read and every write under way finishes, in any order. */
    method AioFlush()
      requires Valid()
      modifies this`src, this`writes, this`dirty, this`aio, this`blkList, this`inflight,
               this`submitted, this`readDone, this`log, this`careful
      ensures Valid() && careful == old(careful) && Ahead() == old(Ahead()) && old(dirty) <= dirty
      ensures aio == [] && writes == multiset{} && inflight == {}
      ensures old(aio == [] && writes == multiset{}) ==> View() == old(View())
    {
      hide Logged, Streamed;
      while |aio| + |writes| > 0
        invariant Valid() && careful == old(careful) && Ahead() == old(Ahead()) && old(dirty) <= dirty
        invariant old(aio == [] && writes == multiset{}) ==> View() == old(View())
        decreases |aio| + |writes|
      {
        var read := *;
        if |aio| > 0 && (read || |writes| == 0) {
          var i: nat :| i < |aio|;
          FinishRead(i);
        } else {
          var k :| k in writes;
          FinishWrite(k);
        }
      }
      NothingInflight();
    }

    lemma NothingInflight()
      requires Logged() && aio == []
      ensures inflight == {}
    {
      hide Initial, Run;
      forall k ensures k !in inflight {
        assert !Pending(View(), k);
      }
    }

    // ------------------------------------------------------- the bulk phase

    method SubmitBulk(d: nat, nrSectors: nat)
      requires Valid() && !bulkCompleted
      requires d < |devices| && curSector[d] < devices[d].sectors
      requires nrSectors == SectorsAt(devices[d].sectors, curSector[d])
      modifies this`curSector, this`aio, this`dirty, this`submitted, this`log, this`careful, this`taken
      ensures Valid() && careful == old(careful)
      ensures Enabled(old(View()), Bulk(d)) && View() == Next(old(View()), Bulk(d))
      ensures submitted == old(submitted) + 1 && KeepsTrack()
      ensures curSector == old(curSector)[d := old(curSector)[d] + nrSectors]
    {
      hide Counted, LoggedAt, IsKey, Streamed;
      assert CursorAt(d);
      ChunkCount(curSector[d], devices[d].sectors);
      var k := Key(d, curSector[d] / CHUNK_SECTORS);
      aio := aio + [Read(k, None)];
      submitted := submitted + 1;
      dirty, taken := dirty - {k}, taken + {k};
      curSector := curSector[d := curSector[d] + nrSectors];
      Record(old(View()), Bulk(d));
      CursorsKept(d);
    }

    twostate lemma CursorsKept(d: nat)
      requires old(Cursors()) && d < |devices|
      requires curDirty == old(curDirty) && bulkDone == old(bulkDone) && bulkCompleted == old(bulkCompleted)
      requires old(curSector)[d] < devices[d].sectors
      requires curSector == old(curSector)[d := old(curSector)[d] + SectorsAt(devices[d].sectors, old(curSector)[d])]
      ensures Cursors()
    {
      forall e: nat | e < |devices| ensures CursorAt(e) {
        assert old(CursorAt(e));
      }
    }

    /** Whatever has stopped being dirty has been read. */
    twostate predicate KeepsTrack()
      reads this`dirty, this`taken
    {
      old(taken) <= taken && old(dirty) <= dirty + taken
    }

    /** mig_save_device_bulk, without a shared base: the next chunk is read, or the
        device was finished already; the result says whether it is finished now. */
    method SaveDeviceBulk(d: nat) returns (ret: bool)
      requires Valid() && !bulkCompleted && d < |devices|
      modifies this`completedSectors, this`curSector, this`aio, this`dirty, this`submitted, this`log, this`careful,
               this`taken
      ensures Valid() && careful == old(careful)
      ensures ret == (curSector[d] == devices[d].sectors)
      ensures if old(curSector[d] < devices[d].sectors)
        then Enabled(old(View()), Bulk(d)) && View() == Next(old(View()), Bulk(d)) && submitted == old(submitted) + 1
        else View() == old(View()) && submitted == old(submitted) && curSector == old(curSector)
      ensures KeepsTrack() && completedSectors == old(completedSectors[d := curSector[d]])
    {
      hide Logged, Streamed;
      assert CursorAt(d);
      var totalSectors, cur := devices[d].sectors, curSector[d];
      if cur >= totalSectors {
        SetCompleted(d, totalSectors);
        return true;
      }
      SetCompleted(d, cur);
      cur := cur / CHUNK_SECTORS * CHUNK_SECTORS;
      var nrSectors := CHUNK_SECTORS;
      if totalSectors - cur < CHUNK_SECTORS {
        nrSectors := totalSectors - cur;
      }
      SubmitBulk(d, nrSectors);
      ret := curSector[d] >= totalSectors;
      assert CursorAt(d);
    }

    method SetCompleted(d: nat, sectors: nat)
      requires Valid() && d < |devices| && sectors <= devices[d].sectors
      modifies this`completedSectors
      ensures Valid() && completedSectors == old(completedSectors)[d := sectors]
    {
      hide Logged, Streamed, Cursors;
      completedSectors := completedSectors[d := sectors];
    }

    method MarkDone(d: nat)
      requires Valid() && !bulkCompleted && d < |devices| && curSector[d] == devices[d].sectors
      modifies this`bulkDone
      ensures Valid() && bulkDone == old(bulkDone)[d := true]
    {
      hide Logged, Streamed;
      bulkDone := bulkDone[d := true];
      forall e: nat | e < |devices| ensures CursorAt(e) {
        assert old(CursorAt(e));
      }
    }

    /** A device has finished, or one more block is on its way. */
    ghost predicate BulkProgress(done: seq<bool>, ahead: int)
      reads this`bulkDone, this`submitted, this`readDone
    {
      Undone(bulkDone) < Undone(done) || (bulkDone == done && Ahead() == ahead + 1)
    }

    /** Device d is the first one whose bulk phase is not over. */
    ghost predicate FirstUndone(done: seq<bool>, d: nat) {
      |done| == |devices| && d < |done| && !done[d] && forall e :: 0 <= e < d ==> done[e]
    }

    /** What is complete of the first n devices, per cent of all of them. */
    function Progressing(n: nat): nat
      requires n <= |completedSectors|
      reads this`completedSectors
    {
      Percent(Sum(completedSectors[..n]), Sum(TotalSectors()))
    }

    /** blk_mig_save_bulked_block: one call for the first unfinished device, and a
        progress record when the percentage has changed. The sectors of a device count
        as complete with the next call for it, those of the devices behind the one
        served do not count yet. */
    method SaveBulkedBlock() returns (ret: bool, ghost at: nat)
      requires Valid() && !bulkCompleted
      modifies this`completedSectors, this`prevProgress, this`curSector, this`aio, this`dirty, this`submitted,
               this`bulkDone, this`stream, this`items, this`log, this`careful, this`taken
      ensures Valid() && careful == old(careful)
      ensures !ret ==> View() == old(View()) && forall d :: 0 <= d < |devices| ==> bulkDone[d]
      ensures !ret ==> Ahead() == old(Ahead()) && bulkDone == old(bulkDone) && completedSectors == old(completedSectors)
      ensures ret ==> BulkProgress(old(bulkDone), old(Ahead())) && Served(old(View()), old(bulkDone), at)
      ensures ret ==> completedSectors == old(completedSectors[at := curSector[at]])
      ensures KeepsTrack()
      ensures |completedSectors| == |devices| && prevProgress == Progressing(if ret then at + 1 else |devices|)
      ensures items == old(items) + if prevProgress == old(prevProgress) then [] else [Progress(prevProgress)]
      ensures Blocks(items) == Blocks(old(items))
    {
      hide Logged, Streamed, Cursors, Served, BulkProgress, Sum, Percent;
      var completedSectorSum;
      ret, at, completedSectorSum := SaveFirstDevice();
      var progress := Percent(completedSectorSum, Sum(TotalSectors()));
      SumWithin(completedSectors, TotalSectors(), if ret then at + 1 else |devices|);
      PercentWithin(completedSectorSum, Sum(TotalSectors()));
      if progress != prevProgress {
        prevProgress := progress;
        ReportProgress(progress);
      }
    }

    /** Device d, the first unfinished one, has had its next chunk read if there was one,
        and is finished if that was the last. */
    ghost predicate Served(s: State, done: seq<bool>, d: nat)
      reads this`curSector, this`inflight, this`blkList, this`src, this`dst, this`aio, this`writes, this`dirty,
            this`bulkDone
    {
      && FirstUndone(done, d) && |s.cur| == |curSector| == |devices|
      && (if s.cur[d] < View().totals[d] then Enabled(s, Bulk(d)) && View() == Next(s, Bulk(d)) else View() == s)
      && bulkDone == done[d := curSector[d] == devices[d].sectors]
    }

    /** The body of the loop, for the first unfinished device. */
    method ServeDevice(d: nat)
      requires Valid() && !bulkCompleted && FirstUndone(bulkDone, d)
      modifies this`completedSectors, this`curSector, this`aio, this`dirty, this`submitted, this`bulkDone, this`log,
               this`careful, this`taken
      ensures Valid() && careful == old(careful) && KeepsTrack()
      ensures BulkProgress(old(bulkDone), old(Ahead())) && Served(old(View()), old(bulkDone), d)
      ensures completedSectors == old(completedSectors[d := curSector[d]])
    {
      hide Logged, Streamed, Counted;
      assert CursorAt(d);
      var completed := SaveDeviceBulk(d);
      if completed {
        UndoneFalls(bulkDone, d);
        MarkDone(d);
      }
    }

    /** The loop of blk_mig_save_bulked_block. */
    method SaveFirstDevice() returns (ret: bool, ghost at: nat, completedSectorSum: nat)
      requires Valid() && !bulkCompleted
      modifies this`completedSectors, this`curSector, this`aio, this`dirty, this`submitted, this`bulkDone, this`log,
               this`careful, this`taken
      ensures Valid() && careful == old(careful)
      ensures !ret ==> View() == old(View()) && forall d :: 0 <= d < |devices| ==> bulkDone[d]
      ensures !ret ==> Ahead() == old(Ahead()) && bulkDone == old(bulkDone) && completedSectors == old(completedSectors)
      ensures ret ==> BulkProgress(old(bulkDone), old(Ahead())) && Served(old(View()), old(bulkDone), at)
      ensures ret ==> completedSectors == old(completedSectors[at := curSector[at]])
      ensures KeepsTrack()
      ensures |completedSectors| == |devices| && (ret ==> at < |devices|)
      ensures completedSectorSum == Sum(completedSectors[..if ret then at + 1 else |devices|])
    {
      hide Logged, Streamed, Served, BulkProgress, Undone;
      var d := 0;
      at, completedSectorSum := 0, 0;
      while d < |devices|
        invariant d <= |devices| && Valid() && careful == old(careful) && KeepsTrack()
        invariant View() == old(View()) && Ahead() == old(Ahead()) && bulkDone == old(bulkDone)
        invariant curSector == old(curSector) && completedSectors == old(completedSectors)
        invariant completedSectorSum == Sum(completedSectors[..d])
        invariant forall e :: 0 <= e < d ==> bulkDone[e]
      {
        if !bulkDone[d] {
          ServeDevice(d);
          SumNext(old(completedSectors), completedSectors, d);
          return true, d, completedSectorSum + completedSectors[d];
        }
        SumNext(completedSectors, completedSectors, d);
        completedSectorSum := completedSectorSum + completedSectors[d];
        d := d + 1;
      }
      ret := false;
    }

    lemma SumNext(before: seq<nat>, after: seq<nat>, d: nat)
      requires d < |before| == |after| && before[..d] == after[..d]
      ensures Sum(after[..d + 1]) == Sum(before[..d]) + after[d]
    {
      assert after[..d + 1][..d] == after[..d];
    }

    // ------------------------------------------------------------ the stream

    /** One more block has been written. */
    ghost predicate Appended(before: seq<Item>, b: Block)
      reads this`items
    {
      |items| == |before| + 1 && items[..|before|] == before
      && items[|before|].Chunk? && items[|before|].block == b
    }

    /** blk_send: the record of a chunk. Behind a short chunk the buffer holds what
        was in memory. */
    method BlkSend(k: Key, data: Data)
      requires Streamed() && SizedChunk(devices, k, data)
      modifies this`stream, this`items, this`dst
      ensures Streamed() && dst == old(dst)[k := data]
      ensures Appended(old(items), Block(k, data)) && Blocks(items) == Blocks(old(items)) + [Block(k, data)]
    {
      var pad: seq<byte> := *;
      if |pad| != BLOCK_SIZE - |data| {
        pad := seq(BLOCK_SIZE - |data|, _ => 0);
      }
      assert GoodDevice(devices[k.dev]);
      ItemAppended(devices, items, Chunk(Block(k, data), pad));
      ReplayOne(sectionStart, Blocks(items), Block(k, data));
      hide ItemsBytes, Replay, Blocks, BlockRecord;
      stream := stream + BlockRecord(devices[k.dev].name, k.chunk * CHUNK_SECTORS, data + pad);
      items := items + [Chunk(Block(k, data), pad)];
      dst := dst[k := data];
    }

    method ReportProgress(percent: nat)
      requires Streamed() && percent <= 100
      modifies this`stream, this`items
      ensures Streamed() && items == old(items) + [Progress(percent)] && Blocks(items) == Blocks(old(items))
    {
      ItemAppended(devices, items, Progress(percent));
      hide ItemsBytes, Replay, ProgressRecord;
      assert Blocks(items) + [] == Blocks(items);
      hide Blocks;
      stream := stream + ProgressRecord(percent);
      items := items + [Progress(percent)];
    }

    /** The end of a section: what was written goes to the other side. */
    method EndSection() returns (section: seq<byte>)
      requires Streamed()
      modifies this`stream, this`items, this`sectionStart, this`taken
      ensures Streamed() && Flushed() && AllFit(devices, old(items))
      ensures section == SectionBytes(devices, old(items)) && dst == Replay(old(sectionStart), Blocks(old(items)))
    {
      section := stream + EOS_RECORD;
      stream, items, sectionStart, taken := [], [], dst, {};
    }

    // ------------------------------------------------------ the dirty phase

    ghost predicate Quiet()
      reads this`aio, this`blkList, this`writes
    {
      aio == [] && blkList == [] && writes == multiset{}
    }

    /** Every chunk a dirty cursor has passed is clean. */
    ghost predicate CleanBelow()
      reads this`dirty, this`curDirty
    {
      forall k: Key :: k in dirty && k.dev < |curDirty| ==> curDirty[k.dev] <= k.chunk * CHUNK_SECTORS
    }

    /** No chunk of device d from sector lo up to sector hi. */
    ghost predicate NoneDirty(was: set<Key>, d: nat, lo: int, hi: int) {
      forall k: Key :: k in was && k.dev == d ==> !(lo <= k.chunk * CHUNK_SECTORS < hi)
    }

    /** No chunk lies behind where its device's cursor was and ahead of where it is. */
    ghost predicate NonePassed(was: set<Key>, from: seq<nat>, to: seq<nat>)
      requires |from| == |to|
    {
      forall k: Key :: k in was && k.dev < |from| ==> !(from[k.dev] <= k.chunk * CHUNK_SECTORS < to[k.dev])
    }

    /** In the order of devices and cursors, none of the chunks comes before k. */
    ghost predicate NoneBefore(was: set<Key>, from: seq<nat>, k: Key) {
      forall j: Key :: j in was && j.dev < |from| && from[j.dev] <= j.chunk * CHUNK_SECTORS ==>
        k.dev < j.dev || (k.dev == j.dev && k.chunk <= j.chunk)
    }

    /** Chunk k was dirty, was sent as the next block and is clean now. */
    twostate predicate SentOne(k: Key)
      reads this`dirty, this`src, this`dst, this`items
    {
      && k in old(dirty) && dirty == old(dirty) - {k} && k in src && dst == old(dst)[k := src[k]]
      && Blocks(items) == Blocks(old(items)) + [Block(k, src[k])]
    }

    lemma CursorsOver()
      requires Cursors() && bulkCompleted
      ensures BulkOver(View())
    {
      forall d: nat | d < |devices| ensures View().cur[d] >= View().totals[d] {
        assert CursorAt(d);
      }
    }

    method SubmitDirty(k: Key)
      requires Valid() && bulkCompleted && k in dirty && k !in inflight
      modifies this`aio, this`dirty, this`inflight, this`submitted, this`log, this`careful, this`taken
      ensures Valid() && careful == (old(careful) && Careful(old(View()), DirtyRead(k)))
      ensures Enabled(old(View()), DirtyRead(k)) && View() == Next(old(View()), DirtyRead(k))
      ensures submitted == old(submitted) + 1 && taken == old(taken) + {k}
    {
      hide Counted, LoggedAt, IsKey, Careful, Streamed;
      KnownKeys(k);
      assert BulkOver(View()) by { CursorsOver(); }
      hide Cursors, BulkOver;
      aio := aio + [Read(k, None)];
      submitted := submitted + 1;
      inflight := inflight + {k};
      dirty, taken := dirty - {k}, taken + {k};
      Record(old(View()), DirtyRead(k));
    }

    method ReadAndSend(k: Key)
      requires Valid() && Quiet() && k in dirty
      modifies this`stream, this`items, this`dst, this`dirty, this`log, this`careful, this`taken
      ensures Valid() && careful == old(careful) && dirty == old(dirty) - {k}
      ensures k in src && dst == old(dst)[k := src[k]] && taken == old(taken) + {k}
      ensures Blocks(items) == Blocks(old(items)) + [Block(k, src[k])]
    {
      hide Blocks;
      hide Counted, LoggedAt, IsKey, Cursors, Streamed, SizedChunk, Appended, Totals, InChunks;
      KnownKeys(k);
      OpenLog();
      BlkSend(k, src[k]);
      ResetDirty(old(View()), k);
    }

    /** Chunk k has been read and sent. */
    method ResetDirty(ghost s: State, k: Key)
      requires LoggedAt(s) && Enabled(s, DirtySync(k)) && View() == s.(dst := s.dst[k := s.src[k]])
      modifies this`dirty, this`log, this`careful, this`taken
      ensures Logged() && careful == old(careful) && dirty == old(dirty) - {k} && taken == old(taken) + {k}
    {
      hide LoggedAt, Totals, InChunks, IsKey;
      dirty, taken := dirty - {k}, taken + {k};
      Record(s, DirtySync(k));
    }

    /** A dirty chunk is read: submitted, or read and sent at once. */
    method TakeChunk(k: Key, isAsync: bool)
      requires Valid() && k in dirty && (if isAsync then bulkCompleted && k !in inflight else Quiet())
      modifies this`stream, this`items, this`dst, this`aio, this`dirty, this`inflight, this`submitted, this`log,
               this`careful, this`taken
      ensures Valid() && (careful ==> old(careful))
      ensures isAsync ==> Ahead() == old(Ahead()) + 1 && k in inflight && k !in dirty
      ensures !isAsync ==> Ahead() == old(Ahead()) && Quiet() && SentOne(k)
      ensures !isAsync ==> |dirty| < |old(dirty)| && (old(CleanBelow()) ==> CleanBelow())
      ensures dirty == old(dirty) - {k} && taken == old(taken) + {k} && (isAsync ==> items == old(items))
    {
      hide Blocks;
      hide Logged, Cursors, Streamed;
      if isAsync {
        SubmitDirty(k);
      } else {
        ReadAndSend(k);
      }
    }

    method SetCurDirty(d: nat, sector: nat)
      requires Valid() && d < |devices| && sector % CHUNK_SECTORS == 0
      modifies this`curDirty
      ensures Valid() && curDirty == old(curDirty)[d := sector]
    {
      hide Logged, Streamed;
      curDirty := curDirty[d := sector];
      forall e: nat | e < |devices| ensures CursorAt(e) {
        assert old(CursorAt(e));
      }
    }

    /** mig_save_device_dirty: true when the cursor has reached the end of the
        device, false when one dirty chunk was read (and, synchronously, sent). */
    method SaveDeviceDirty(d: nat, isAsync: bool) returns (ret: bool)
      requires Valid() && d < |devices| && (if isAsync then bulkCompleted else Quiet())
      modifies this`src, this`dst, this`writes, this`dirty, this`aio, this`blkList, this`inflight, this`curDirty,
               this`submitted, this`readDone, this`stream, this`items, this`log, this`careful, this`taken
      ensures Valid() && (careful ==> old(careful)) && KeepsTrack()
      ensures |curDirty| == |old(curDirty)| && curDirty == old(curDirty)[d := curDirty[d]]
      ensures old(curDirty[d]) <= curDirty[d] && NoneDirty(old(dirty), d, old(curDirty[d]), curDirty[d])
      ensures ret == (curDirty[d] >= devices[d].sectors)
      ensures isAsync ==> Ahead() == old(Ahead()) + if ret then 0 else 1
      ensures ret ==> old(dirty) <= dirty && taken == old(taken)
      ensures !ret ==> var k := Key(d, curDirty[d] / CHUNK_SECTORS);
        taken == old(taken) + {k} && k !in dirty && (isAsync ==> k in inflight)
      ensures !isAsync ==> Quiet() && (old(CleanBelow()) ==> CleanBelow())
      ensures !isAsync && ret ==> dirty == old(dirty) && dst == old(dst)
      ensures isAsync || ret ==> items == old(items)
      ensures !isAsync && !ret ==> SentOne(Key(d, curDirty[d] / CHUNK_SECTORS))
    {
      hide Valid, Blocks;
      CursorKnown(d);
      var sector := curDirty[d];
      while sector < devices[d].sectors
        invariant Valid() && careful == old(careful) && Ahead() == old(Ahead())
        invariant |curDirty| == |old(curDirty)| && curDirty == old(curDirty)[d := sector]
        invariant sector % CHUNK_SECTORS == 0 && old(curDirty[d]) <= sector
        invariant items == old(items)
        invariant old(dirty) <= dirty && taken == old(taken) && NoneDirty(old(dirty), d, old(curDirty[d]), sector)
        invariant !isAsync ==> Quiet() && dirty == old(dirty) && dst == old(dst) && (old(CleanBelow()) ==> CleanBelow())
      {
        var k := Key(d, sector / CHUNK_SECTORS);
        if k in inflight {
          AioFlush();
        }
        if k in dirty {
          TakeChunk(k, isAsync);
          return false;
        }
        PassClean(old(dirty), d, sector);
        PassClean(dirty, d, sector);
        sector := sector + CHUNK_SECTORS;
        SetCurDirty(d, sector);
      }
      ret := true;
    }

    lemma CursorKnown(d: nat)
      requires Valid() && d < |devices|
      ensures |curDirty| == |devices| && |curSector| == |devices| && |bulkDone| == |devices| && CursorAt(d)
    {
      hide Logged, Streamed;
    }

    lemma PassClean(was: set<Key>, d: nat, sector: nat)
      requires sector % CHUNK_SECTORS == 0 && Key(d, sector / CHUNK_SECTORS) !in was
      ensures forall lo :: NoneDirty(was, d, lo, sector) ==> NoneDirty(was, d, lo, sector + CHUNK_SECTORS)
      ensures forall k: Key :: k in was && k.dev == d && sector <= k.chunk * CHUNK_SECTORS ==>
        sector + CHUNK_SECTORS <= k.chunk * CHUNK_SECTORS
    {
    }

    lemma DirtyInside()
      requires Logged()
      ensures forall k: Key :: k in dirty ==>
        k.dev < |devices| && k.chunk * CHUNK_SECTORS < devices[k.dev].sectors
    {
      forall k: Key | k in dirty
        ensures k.dev < |devices| && k.chunk * CHUNK_SECTORS < devices[k.dev].sectors
      {
        KnownKeys(k);
        hide Logged;
      }
    }

    /** blk_mig_save_dirty_block: true when a chunk was read, and it is the first dirty
        one at or behind the cursors; false when there is none. */
    method SaveDirtyBlock(isAsync: bool) returns (ret: bool, ghost k: Key)
      requires Valid() && (if isAsync then bulkCompleted else Quiet())
      modifies this`src, this`dst, this`writes, this`dirty, this`aio, this`blkList, this`inflight, this`curDirty,
               this`submitted, this`readDone, this`stream, this`items, this`log, this`careful, this`taken
      ensures Valid() && (careful ==> old(careful)) && KeepsTrack()
      ensures |curDirty| == |old(curDirty)| && NonePassed(old(dirty), old(curDirty), curDirty)
      ensures isAsync ==> Ahead() == old(Ahead()) + if ret then 1 else 0
      ensures !isAsync ==> Quiet() && (old(CleanBelow()) ==> CleanBelow())
      ensures ret ==> NoneBefore(old(dirty), old(curDirty), k) && k !in dirty && taken == old(taken) + {k}
      ensures isAsync && ret ==> k in inflight
      ensures !isAsync && ret ==> SentOne(k) && |dirty| < |old(dirty)|
      ensures !ret ==> AllScanned() && taken == old(taken)
      ensures isAsync || !ret ==> items == old(items)
      ensures !isAsync && !ret ==> dirty == old(dirty)
      ensures !ret ==> forall j: Key :: j in old(dirty) ==>
        j.dev < |old(curDirty)| && j.chunk * CHUNK_SECTORS < old(curDirty)[j.dev]
    {
      hide Counted, Logged, Streamed;
      DirtyInside();
      var d := 0;
      k := Key(0, 0);
      while d < |devices|
        invariant d <= |devices| && Valid() && (careful ==> old(careful))
        invariant isAsync ==> Ahead() == old(Ahead())
        invariant !isAsync ==> Quiet() && dirty == old(dirty) && dst == old(dst) && (old(CleanBelow()) ==> CleanBelow())
        invariant old(dirty) <= dirty && taken == old(taken) && items == old(items)
        invariant NonePassed(old(dirty), old(curDirty), curDirty)
        invariant forall e :: d <= e < |devices| ==> curDirty[e] == old(curDirty)[e]
        invariant forall e :: 0 <= e < d ==> curDirty[e] >= devices[e].sectors
      {
        var finished := SaveDeviceDirty(d, isAsync);
        if !finished {
          k := Key(d, curDirty[d] / CHUNK_SECTORS);
          return true, k;
        }
        d := d + 1;
      }
      ret := false;
    }

    // ------------------------------------------------------------- sending

    method SendHead()
      requires Valid() && blkList != []
      modifies this`blkList, this`stream, this`items, this`dst, this`readDone, this`transferred, this`log, this`careful
      ensures Valid() && careful == old(careful)
      ensures readDone == old(readDone) - 1 >= 0 && transferred == old(transferred) + 1
      ensures blkList == old(blkList)[1..] && dst == old(dst)[old(blkList)[0].key := old(blkList)[0].data]
      ensures Blocks(items) == Blocks(old(items)) + [old(blkList)[0]]
    {
      hide Blocks, Totals, InChunks, Logged, LoggedAt, Cursors, Streamed, SizedChunk, Appended;
      OpenLog();
      HeadKnown();
      var b := blkList[0];
      BlkSend(b.key, b.data);
      DropHead(old(View()));
    }

    /** The head of blk_list has been sent. */
    method DropHead(ghost s: State)
      requires LoggedAt(s) && s.queue != [] && View() == s.(dst := s.dst[s.queue[0].key := s.queue[0].data])
      modifies this`blkList, this`readDone, this`transferred, this`log, this`careful
      ensures Logged() && careful == old(careful) && blkList == old(blkList)[1..]
      ensures readDone == old(readDone) - 1 && transferred == old(transferred) + 1
    {
      hide Totals, InChunks, LoggedAt;
      blkList := blkList[1..];
      readDone := readDone - 1;
      transferred := transferred + 1;
      Record(s, Send);
    }

    /** What flush_blks has done after n blocks, if qemu_file_rate_limit answered so:
        every answer but the last was no, and the last one yes unless nothing is left. */
    ghost predicate Flushing(answers: seq<bool>, left: seq<bool>, n: int, all: bool) {
      && n >= 0
      && (forall i :: 0 <= i < n && i < |answers| ==> !answers[i])
      && if all then left == if n < |answers| then answers[n..] else []
         else n < |answers| && answers[n] && left == answers[n + 1..]
    }

    /** The first n blocks of the queue have been sent, in order. */
    twostate predicate Gone(n: int)
      reads this`blkList, this`items
    {
      && 0 <= n <= |old(blkList)| && blkList == old(blkList)[n..]
      && Blocks(items) == Blocks(old(items)) + old(blkList)[..n]
    }

    lemma OneMoreGone(before: seq<Block>, queue: seq<Block>, n: nat)
      requires n < |queue|
      ensures before + queue[..n] + [queue[n]] == before + queue[..n + 1] && queue[n..][1..] == queue[n + 1..]
    {
    }

    lemma NothingAsked(answers: seq<bool>)
      ensures Flushing(answers, answers, 0, true)
    {
    }

    /** One more question. */
    lemma Asking(answers: seq<bool>, left: seq<bool>, n: nat)
      requires Flushing(answers, left, n, true)
      ensures left == [] ==> Flushing(answers, [], n + 1, true)
      ensures left != [] ==> Flushing(answers, left[1..], if left[0] then n else n + 1, !left[0])
    {
      if left != [] {
        assert left[0] == answers[n] && left[1..] == answers[n + 1..];
      }
    }

    /** The block behind the first n of the queue is sent. */
    method SendNext(ghost before: seq<Block>, ghost queue: seq<Block>, ghost n: nat)
      requires Valid() && n < |queue| && blkList == queue[n..] && Blocks(items) == before + queue[..n]
      modifies this`blkList, this`stream, this`items, this`dst, this`readDone, this`transferred, this`log, this`careful
      ensures Valid() && careful == old(careful) && transferred == old(transferred) + 1
      ensures Ahead() + transferred == old(Ahead() + transferred)
      ensures blkList == queue[n + 1..] && Blocks(items) == before + queue[..n + 1]
    {
      hide Blocks, Valid;
      SendHead();
      OneMoreGone(before, queue, n);
    }

    /** flush_blks: blocks leave in order until none is left or the rate limit is
        reached. `answers` is what qemu_file_rate_limit says, call by call, no longer
        yes behind its end; `left` are those it has not been asked for. */
    method FlushBlks(answers: seq<bool>) returns (left: seq<bool>)
      requires Valid()
      modifies this`blkList, this`stream, this`items, this`dst, this`readDone, this`transferred, this`log, this`careful
      ensures Valid() && careful == old(careful)
      ensures Gone(transferred - old(transferred))
      ensures Flushing(answers, left, transferred - old(transferred), blkList == [])
      ensures Ahead() + transferred == old(Ahead() + transferred)
    {
      hide Blocks, Valid, Flushing;
      left := answers;
      NothingAsked(answers);
      ghost var n, queue, sent := 0, blkList, Blocks(items);
      assert sent + [] == sent;
      while blkList != []
        invariant Valid() && careful == old(careful) && transferred == old(transferred) + n
        invariant n <= |queue| && blkList == queue[n..] && Blocks(items) == sent + queue[..n]
        invariant Flushing(answers, left, n, true)
        invariant Ahead() + transferred == old(Ahead() + transferred)
        decreases |blkList|
      {
        Asking(answers, left, n);
        if left != [] {
          var stop := left[0];
          left := left[1..];
          if stop { return; }
        }
        SendNext(sent, queue, n);
        n := n + 1;
      }
    }

    method ResetDirtyCursor()
      requires Valid()
      modifies this`curDirty
      ensures Valid() && CleanBelow() && curDirty == seq(|devices|, _ => 0)
    {
      hide Logged, Streamed;
      curDirty := seq(|devices|, _ => 0);
      forall e: nat | e < |devices| ensures CursorAt(e) {
        assert old(CursorAt(e));
      }
    }

    // -------------------------------------------------------------- stages

    /** What a stage wrote: a section with the given items, which lead the destination
        from what it held before to `dst`. */
    ghost predicate Wrote(section: seq<byte>, sent: seq<Item>, before: map<Key, Data>)
      reads this`dst
    {
      && Devices(devices) && AllFit(devices, sent) && section == SectionBytes(devices, sent)
      && dst == Replay(before, Blocks(sent))
    }

    /** block_save_live(1), once the constructor has enabled tracking. */
    method SaveLiveStage1(answers: seq<bool>) returns (section: seq<byte>, left: seq<bool>, ghost sent: seq<Item>)
      requires Valid() && Flushed() && !bulkCompleted
      modifies this
      ensures Valid() && Flushed() && Wrote(section, sent, old(dst)) && !bulkCompleted
      ensures Flushing(answers, left, |Blocks(sent)|, blkList == []) && old(blkList) == Blocks(sent) + blkList
      ensures curDirty == seq(|devices|, _ => 0)
    {
      hide Logged, Streamed, Cursors, Counted, Flushing, Blocks, SectionBytes, Replay;
      left := FlushFirst(answers);
      NoBlocks(old(blkList)[..transferred - old(transferred)]);
      sent := items;
      section := EndSection();
    }

    /** bulk_completed is set. */
    method CompleteBulk()
      requires Valid() && !bulkCompleted && forall d :: 0 <= d < |devices| ==> bulkDone[d]
      modifies this`bulkCompleted, this`settled
      ensures Valid() && bulkCompleted && settled == (aio == [])
    {
      hide Streamed, Initial, Run, Shape, SizedState;
      bulkCompleted, settled := true, aio == [];
      forall e: nat | e < |devices| ensures CursorAt(e) {
        assert old(CursorAt(e));
      }
    }

    /** What was read since then fills the limit. */
    ghost predicate LimitReached(before: int, limit: int)
      reads this`submitted, this`readDone, this`transferred
    {
      (Ahead() + transferred - before) * BLOCK_SIZE >= limit
    }

    ghost predicate AllScanned()
      reads this`curDirty
    {
      |curDirty| == |devices| && forall d :: 0 <= d < |devices| ==> curDirty[d] >= devices[d].sectors
    }

    /** A chunk that was dirty and has not been read is dirty still, and no cursor is
        behind it. */
    ghost predicate Waiting(was: set<Key>)
      reads this`dirty, this`taken, this`curDirty
    {
      forall k: Key :: k in was && k !in taken ==>
        k in dirty && (k.dev < |curDirty| ==> curDirty[k.dev] <= k.chunk * CHUNK_SECTORS)
    }

    twostate lemma WaitingKept(was: set<Key>)
      requires old(Waiting(was)) && KeepsTrack()
      requires |curDirty| == |old(curDirty)| && NonePassed(old(dirty), old(curDirty), curDirty)
      ensures Waiting(was)
    {
    }

    /** Behind the last cursor nothing is left unread. */
    lemma NoneWaiting(was: set<Key>)
      requires Valid() && Waiting(was) && AllScanned()
      ensures was <= taken
    {
      DirtyInside();
      hide Valid;
    }

    /** One turn of the stage-2 loop: false when there is nothing dirty left. */
    method Advance(ghost was: set<Key>) returns (more: bool)
      requires Valid() && Waiting(was)
      modifies this`completedSectors, this`prevProgress,
               this`src, this`dst, this`writes, this`dirty, this`aio, this`blkList, this`inflight, this`curDirty,
               this`curSector, this`bulkDone, this`bulkCompleted, this`settled, this`submitted, this`readDone,
               this`stream, this`items, this`log, this`careful, this`taken
      ensures Valid() && (careful ==> old(careful)) && Waiting(was) && Blocks(items) == Blocks(old(items))
      ensures more ==> Progressed(old(bulkCompleted), old(bulkDone), old(Ahead()))
      ensures !more ==> bulkCompleted && AllScanned() && Ahead() == old(Ahead())
      ensures Ahead() <= old(Ahead()) + 1
      ensures old(bulkCompleted) ==> bulkCompleted && settled == old(settled)
      ensures bulkCompleted && !old(bulkCompleted) ==> settled == old(aio == [])
    {
      hide Counted, Logged, Streamed;
      more := true;
      if !bulkCompleted {
        var saved, _ := SaveBulkedBlock();
        if !saved {
          CompleteBulk();
        }
      } else {
        ghost var k;
        more, k := SaveDirtyBlock(true);
      }
      WaitingKept(was);
    }

    ghost predicate Progressed(completed: bool, done: seq<bool>, ahead: int)
      reads this`bulkCompleted, this`bulkDone, this`submitted, this`readDone
    {
      if completed then bulkCompleted && Ahead() == ahead + 1
      else bulkCompleted || BulkProgress(done, ahead)
    }

    /** The loop of stage 2 has done its work: what is under way fills the limit, or
        the bulk phase is over, every cursor has come to the end of its device, and all
        of `was` has been read. */
    ghost predicate Pumped(before: int, limit: int, was: set<Key>)
      reads this`submitted, this`readDone, this`transferred, this`bulkCompleted, this`curDirty, this`taken
    {
      LimitReached(before, limit) || (bulkCompleted && AllScanned() && was <= taken)
    }

    /** Stage 2 reports completion when nothing is dirty after the bulk phase, or when
        what is dirty would fit in the downtime. */
    ghost predicate Completed(fits: nat -> bool)
      reads this`bulkCompleted, this`dirty
    {
      bulkCompleted && (dirty == {} || fits(|dirty|))
    }

    /** block_save_live(2). The limit is whatever the file says; `fits` is the estimate
        from the time that reads have taken. With a limit of one block there is never a
        read pending when the bulk phase is found to be over. The report says what was
        sent and read, and how far the first call of flush_blks got. */
    method SaveLiveStage2(limit: int, fits: nat -> bool, answers: seq<bool>)
      returns (done: bool, section: seq<byte>, left: seq<bool>, ghost report: Report)
      requires Valid() && Flushed()
      modifies this
      ensures Valid() && Flushed() && Wrote(section, report.sent, old(dst)) && (careful ==> old(careful))
      ensures done <==> Completed(fits)
      ensures report.first <= |old(blkList)|
      ensures Flushing(answers, report.mid, report.first, report.first == |old(blkList)|)
      ensures Flushing(report.mid, left, |Blocks(report.sent)| - report.first, blkList == [])
      ensures |Blocks(report.sent)| == transferred - old(transferred)
      ensures old(blkList)[..report.first] <= Blocks(report.sent)
      ensures LimitReached(old(transferred) + report.first, limit)
        || (bulkCompleted && AllScanned() && old(dirty) <= report.took)
      ensures Ahead() <= old(Ahead()) || Ahead() * BLOCK_SIZE < limit + BLOCK_SIZE
      ensures old(bulkCompleted) ==> bulkCompleted && settled == old(settled)
      ensures bulkCompleted && settled ==> careful
      ensures bulkCompleted && !old(bulkCompleted) && limit <= BLOCK_SIZE ==> settled
    {
      hide Logged, Streamed, Cursors, Counted, AllScanned, LimitReached, SectionBytes, Replay, Blocks, Completed, Ahead,
           Flushing;
      NoBlocks(old(blkList));
      var mid;
      ghost var first;
      done, left, first, mid := Stage2(limit, fits, answers);
      report := Report(items, taken, first, mid);
      section := EndSection();
    }

    lemma NoBlocks(b: seq<Block>)
      ensures Blocks([]) == [] && [] + b == b
    {
    }

    /** What stage 2 does up to the end of its section. */
    method Stage2(limit: int, fits: nat -> bool, answers: seq<bool>)
      returns (done: bool, left: seq<bool>, ghost first: nat, mid: seq<bool>)
      requires Valid()
      modifies this`completedSectors, this`prevProgress,
               this`src, this`dst, this`writes, this`dirty, this`aio, this`blkList, this`inflight, this`curDirty,
               this`curSector, this`bulkDone, this`bulkCompleted, this`settled, this`submitted, this`readDone,
               this`transferred, this`stream, this`items, this`log, this`careful, this`taken
      ensures Valid() && (careful ==> old(careful))
      ensures done <==> Completed(fits)
      ensures first <= |old(blkList)| && first <= transferred - old(transferred)
      ensures Flushing(answers, mid, first, first == |old(blkList)|)
      ensures Flushing(mid, left, transferred - old(transferred) - first, blkList == [])
      ensures |Blocks(items)| == |Blocks(old(items))| + transferred - old(transferred)
      ensures Blocks(old(items)) + old(blkList)[..first] <= Blocks(items)
      ensures Pumped(old(transferred) + first, limit, old(dirty))
      ensures Ahead() <= old(Ahead()) || Ahead() * BLOCK_SIZE < limit + BLOCK_SIZE
      ensures old(bulkCompleted) ==> bulkCompleted && settled == old(settled)
      ensures bulkCompleted && settled ==> careful
      ensures bulkCompleted && !old(bulkCompleted) && limit <= BLOCK_SIZE ==> settled
    {
      hide Valid, AllScanned, Pumped, Ahead, Blocks, Flushing;
      mid := FlushFirst(answers);
      first := transferred - old(transferred);
      Pump(limit, old(dirty));
      left := FlushAgain(mid, transferred, limit, old(dirty));
      done := bulkCompleted && (dirty == {} || fits(|dirty|));
      SettledIsCareful();
    }

    /** Stage 2 up to its loop. */
    method FlushFirst(answers: seq<bool>) returns (left: seq<bool>)
      requires Valid()
      modifies this`blkList, this`stream, this`items, this`dst, this`readDone, this`transferred, this`log, this`careful,
               this`curDirty
      ensures Valid() && careful == old(careful) && Waiting(dirty) && Ahead() <= old(Ahead())
      ensures curDirty == seq(|devices|, _ => 0)
      ensures Gone(transferred - old(transferred))
      ensures Flushing(answers, left, transferred - old(transferred), blkList == [])
    {
      hide Logged, Streamed, Cursors, Blocks, Flushing;
      left := FlushBlks(answers);
      ResetDirtyCursor();
    }

    /** Stage 2 behind its loop: sending changes nothing about what the loop has done. */
    method FlushAgain(answers: seq<bool>, ghost before: int, ghost limit: int, ghost was: set<Key>)
      returns (left: seq<bool>)
      requires Valid() && Pumped(before, limit, was)
      modifies this`blkList, this`stream, this`items, this`dst, this`readDone, this`transferred, this`log, this`careful
      ensures Valid() && careful == old(careful) && Pumped(before, limit, was) && Ahead() <= old(Ahead())
      ensures Gone(transferred - old(transferred))
      ensures Flushing(answers, left, transferred - old(transferred), blkList == [])
    {
      hide Logged, Streamed, Cursors, AllScanned, Blocks, Flushing;
      left := FlushBlks(answers);
    }

    /** What happens between two turns of the loop. */
    method Meanwhile(ghost was: set<Key>)
      requires Valid() && Waiting(was)
      modifies this`src, this`writes, this`dirty, this`aio, this`blkList, this`inflight,
               this`submitted, this`readDone, this`log, this`careful
      ensures Valid() && careful == old(careful) && Ahead() == old(Ahead()) && Waiting(was)
      ensures Ahead() <= 0 ==> aio == []
    {
      hide Logged, Streamed, Cursors;
      Environment();
    }

    /** "control the rate of transfer": the loop of stage 2. */
    method Pump(limit: int, ghost was: set<Key>)
      requires Valid() && Waiting(was)
      modifies this`completedSectors, this`prevProgress,
               this`src, this`dst, this`writes, this`dirty, this`aio, this`blkList, this`inflight, this`curDirty,
               this`curSector, this`bulkDone, this`bulkCompleted, this`settled, this`submitted, this`readDone,
               this`stream, this`items, this`log, this`careful, this`taken
      ensures Valid() && (careful ==> old(careful))
      ensures Pumped(transferred, limit, was) && Blocks(items) == Blocks(old(items))
      ensures Ahead() == old(Ahead()) || Ahead() * BLOCK_SIZE < limit + BLOCK_SIZE
      ensures old(bulkCompleted) ==> bulkCompleted && settled == old(settled)
      ensures bulkCompleted && !old(bulkCompleted) && limit <= BLOCK_SIZE ==> settled
    {
      hide Valid, Waiting, Undone, AllScanned, Blocks;
      while (submitted + readDone) * BLOCK_SIZE < limit
        invariant Valid() && (careful ==> old(careful)) && Waiting(was) && Blocks(items) == Blocks(old(items))
        invariant Ahead() == old(Ahead()) || Ahead() * BLOCK_SIZE < limit + BLOCK_SIZE
        invariant old(bulkCompleted) ==> bulkCompleted && settled == old(settled)
        invariant bulkCompleted && !old(bulkCompleted) && limit <= BLOCK_SIZE ==> settled
        decreases !bulkCompleted, if bulkCompleted then 0 else Undone(bulkDone), limit - Ahead() * BLOCK_SIZE
      {
        Meanwhile(was);
        var more := Advance(was);
        if !more {
          NoneWaiting(was);
          break;
        }
      }
    }

    lemma SettledIsCareful()
      requires Valid()
      ensures bulkCompleted && settled ==> careful
    {
      hide Initial, Run, Shape, SizedState, Streamed;
    }

    /** block_save_live(3): bulk finished, the guest stopped, all reads complete, the
        rate limit not holding back flush_blks. */
    method SaveLiveStage3(answers: seq<bool>) returns (section: seq<byte>, ghost sent: seq<Item>)
      requires Valid() && Flushed() && bulkCompleted && aio == [] && writes == multiset{} && true !in answers
      modifies this
      ensures Valid() && Flushed() && Wrote(section, sent, old(dst)) && Finished(View())
      ensures sent != [] && sent[|sent| - 1] == Progress(100)
      ensures old(blkList) <= Blocks(sent) && |Blocks(sent)| == |old(blkList)| + |old(dirty)|
      ensures careful ==> dst == src
      ensures settled == old(settled) && (settled ==> dst == src)
    {
      hide Logged, Streamed, Cursors, Finished, SectionBytes, Replay, Blocks;
      NoBlocks(old(blkList));
      Stage3(answers);
      ReportProgress(100);
      sent := items;
      section := EndSection();
    }

    /** What stage 3 does up to the end of its section. */
    method Stage3(answers: seq<bool>)
      requires Valid() && bulkCompleted && aio == [] && writes == multiset{} && true !in answers
      modifies this`src, this`dst, this`writes, this`dirty, this`aio, this`blkList, this`inflight, this`curDirty,
               this`submitted, this`readDone, this`transferred, this`stream, this`items, this`log, this`careful,
               this`taken
      ensures Valid() && Finished(View())
      ensures careful || settled ==> dst == src
      ensures Blocks(old(items)) + old(blkList) <= Blocks(items)
      ensures |Blocks(items)| == |Blocks(old(items))| + |old(blkList)| + |old(dirty)|
    {
      hide Logged, Streamed, Cursors, Finished, Blocks;
      var _ := FlushBlks(answers);
      assert old(blkList)[..|old(blkList)|] == old(blkList);
      ResetDirtyCursor();
      assert submitted == 0;
      DrainDirty();
      AllClean();
      SettledIsCareful();
      if careful {
        EqualAtEnd();
      }
    }

    /** `while (blk_mig_save_dirty_block(mon, f, 0) != 0);` */
    method DrainDirty()
      requires Valid() && bulkCompleted && Quiet() && CleanBelow()
      modifies this`src, this`dst, this`writes, this`dirty, this`aio, this`blkList, this`inflight, this`curDirty,
               this`submitted, this`readDone, this`stream, this`items, this`log, this`careful, this`taken
      ensures Valid() && Quiet() && CleanBelow() && AllScanned() && (careful ==> old(careful))
      ensures Blocks(old(items)) <= Blocks(items)
      ensures |Blocks(items)| + |dirty| == |Blocks(old(items))| + |old(dirty)|
    {
      hide Logged, Streamed, Blocks;
      var more := true;
      while more
        invariant Valid() && Quiet() && CleanBelow() && (careful ==> old(careful))
        invariant Blocks(old(items)) <= Blocks(items)
        invariant |Blocks(items)| + |dirty| == |Blocks(old(items))| + |old(dirty)|
        invariant !more ==> forall d :: 0 <= d < |devices| ==> curDirty[d] >= devices[d].sectors
        decreases more, |dirty|
      {
        ghost var k;
        more, k := SaveDirtyBlock(false);
      }
    }

    /** With every dirty cursor at the end of its device, no chunk is dirty. */
    lemma AllClean()
      requires Valid() && bulkCompleted && Quiet() && CleanBelow()
      requires AllScanned()
      ensures Finished(View()) && dirty == {}
    {
      hide Initial, Run;
      forall k: Key | k.dev < |devices| && devices[k.dev].sectors <= k.chunk * CHUNK_SECTORS
        ensures !IsKey(View(), k)
      {
      }
      forall d: nat | d < |devices| ensures View().cur[d] >= View().totals[d] {
        assert CursorAt(d);
      }
    }

    lemma EqualAtEnd()
      requires Valid() && Finished(View()) && careful
      ensures dst == src
    {
      hide Streamed;
      FinishedMeansEqual(start, log, View());
    }
  }
}
