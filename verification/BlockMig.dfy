// Live block migration (Main/linux/block-migration.c) as a state machine: the
// sender's bulk and dirty reads, asynchronous completions, the queue of blocks to
// send, and guest writes that keep arriving.

module BlockMig {
  import opened Common
  import opened Wire

  function Chunks(sectors: nat): nat { (sectors + CHUNK_SECTORS - 1) / CHUNK_SECTORS }

  /** Sectors of the chunk that starts at `sector`: the last chunk may be short. */
  function SectorsAt(total: nat, sector: nat): nat
    requires sector <= total
  {
    if total - sector < CHUNK_SECTORS then total - sector else CHUNK_SECTORS
  }

  /** One 2048-sector chunk of a device. */
  datatype Key = Key(dev: nat, chunk: nat)

  type Data = seq<byte>

  /** A read the driver has accepted; `snap` is what it read, once it has. */
  datatype Read = Read(key: Key, snap: Option<Data>)

  /** A completed read waiting in blk_list. */
  datatype Block = Block(key: Key, data: Data)

  /** `src` and `dst` are the disks (dst: what block_load has written once it has
      read all that was sent); `dirty` and `inflight` the two bitmaps; `writes`
      the guest writes submitted but not completed; `cur` the bulk cursors. */
  datatype State = State(
    totals: seq<nat>, src: map<Key, Data>, dst: map<Key, Data>,
    dirty: set<Key>, inflight: set<Key>, writes: multiset<Key>,
    aio: seq<Read>, queue: seq<Block>, cur: seq<nat>)

  datatype Event =
    | GuestSubmit(key: Key)             // bdrv_aio_writev accepted by the driver
    | GuestApply(key: Key, data: Data)  // the data reaches the disk
    | GuestDone(key: Key)               // block_complete_cb marks the chunk dirty
    | Sample(i: nat)                    // the driver reads the disk for read i
    | ReadDone(i: nat)                  // blk_mig_read_cb
    | Bulk(dev: nat)                    // mig_save_device_bulk submits a read
    | DirtyRead(key: Key)               // mig_save_device_dirty submits a read
    | DirtySync(key: Key)               // the same, synchronously
    | Send                              // flush_blks sends the head of the queue

  predicate IsKey(s: State, k: Key) {
    k.dev < |s.totals| && k.chunk < s.totals[k.dev]
  }

  predicate Enabled(s: State, e: Event) {
    match e
    case GuestSubmit(k) => IsKey(s, k)
    case GuestApply(k, _) => IsKey(s, k) && k in s.writes
    case GuestDone(k) => IsKey(s, k) && k in s.writes
    case Sample(i) => i < |s.aio| && s.aio[i].snap.None? && s.aio[i].key in s.src
    case ReadDone(i) => i < |s.aio| && s.aio[i].snap.Some?
    case Bulk(d) => d < |s.totals| && d < |s.cur| && s.cur[d] < s.totals[d]
    case DirtyRead(k) => IsKey(s, k) && k in s.dirty && k !in s.inflight
    case DirtySync(k) => IsKey(s, k) && k in s.dirty && k in s.src && s.aio == [] && s.queue == []
    case Send => s.queue != []
  }

  function Next(s: State, e: Event): State
    requires Enabled(s, e)
  {
    match e
    case GuestSubmit(k) => s.(writes := s.writes + multiset{k})
    case GuestApply(k, d) => s.(src := s.src[k := d])
    case GuestDone(k) => s.(writes := s.writes - multiset{k}, dirty := s.dirty + {k})
    case Sample(i) => s.(aio := s.aio[i := s.aio[i].(snap := Some(s.src[s.aio[i].key]))])
    case ReadDone(i) =>
      var r := s.aio[i];
      s.(aio := s.aio[..i] + s.aio[i + 1..], queue := s.queue + [Block(r.key, r.snap.value)],
         inflight := s.inflight - {r.key})
    case Bulk(d) =>
      var k := Key(d, s.cur[d]);
      s.(aio := s.aio + [Read(k, None)], dirty := s.dirty - {k}, cur := s.cur[d := s.cur[d] + 1])
    case DirtyRead(k) =>
      s.(aio := s.aio + [Read(k, None)], dirty := s.dirty - {k}, inflight := s.inflight + {k})
    case DirtySync(k) => s.(dst := s.dst[k := s.src[k]], dirty := s.dirty - {k})
    case Send =>
      s.(dst := s.dst[s.queue[0].key := s.queue[0].data], queue := s.queue[1..])
  }

  predicate IsStep(s: State, e: Event, t: State) {
    Enabled(s, e) && t == Next(s, e)
  }

  /** What the destination will hold for k when the queue has been sent. */
  function AfterQueue(queue: seq<Block>, k: Key, was: Data): Data {
    if queue == [] then was
    else
      var b := queue[|queue| - 1];
      if b.key == k then b.data else AfterQueue(queue[..|queue| - 1], k, was)
  }

  ghost predicate Pending(s: State, k: Key) {
    exists i :: 0 <= i < |s.aio| && s.aio[i].key == k
  }

  /** The last copy of chunk k on its way to, or at, the destination is current:
      a pending read that has read the present contents or has still to read, or
      else what the queue will leave at the destination. */
  ghost predicate CopyCurrent(s: State, k: Key)
    requires k in s.src && k in s.dst
  {
    if Pending(s, k) then
      forall i :: 0 <= i < |s.aio| && s.aio[i].key == k ==>
        s.aio[i].snap.None? || s.aio[i].snap.value == s.src[k]
    else AfterQueue(s.queue, k, s.dst[k]) == s.src[k]
  }

  predicate PastCursor(s: State, k: Key) {
    IsKey(s, k) && k.dev < |s.cur| && k.chunk < s.cur[k.dev]
  }

  ghost predicate WellFormed(s: State) {
    && |s.cur| == |s.totals|
    && (forall k :: IsKey(s, k) <==> k in s.src)
    && s.dst.Keys == s.src.Keys
    && (forall i :: 0 <= i < |s.aio| ==> PastCursor(s, s.aio[i].key))
    && (forall i, j :: 0 <= i < j < |s.aio| ==> s.aio[i].key != s.aio[j].key)
    && (forall i :: 0 <= i < |s.queue| ==> IsKey(s, s.queue[i].key))
    && (forall k :: k in s.inflight ==> Pending(s, k))
  }

  /** Every chunk behind the bulk cursor is dirty, or a guest write to it is under
      way, or its last copy is current. */
  ghost predicate Inv(s: State) {
    && WellFormed(s)
    && forall k :: PastCursor(s, k) ==> k in s.dirty || k in s.writes || CopyCurrent(s, k)
  }

  /** No bulk read is pending: those are the reads that set no in-flight bit. */
  ghost predicate Drained(s: State) {
    forall i :: 0 <= i < |s.aio| ==> s.aio[i].key in s.inflight
  }

  // ------------------------------------------------------------ each step

  lemma {:induction false} AfterQueueAppend(queue: seq<Block>, b: Block, k: Key, was: Data)
    ensures AfterQueue(queue + [b], k, was) == if b.key == k then b.data else AfterQueue(queue, k, was)
  {
    assert (queue + [b])[..|queue|] == queue;
  }

  /** Sending the head changes nothing that is still to come. */
  lemma {:induction false} AfterQueueSend(queue: seq<Block>, k: Key, was: Data)
    requires queue != []
    ensures AfterQueue(queue, k, was)
         == AfterQueue(queue[1..], k, if queue[0].key == k then queue[0].data else was)
  {
    var n := |queue| - 1;
    if n > 0 {
      AfterQueueSend(queue[..n], k, was);
      assert queue[..n][1..] == queue[1..][..n - 1];
    } else {
      assert queue[..n] == [];
    }
  }

  lemma SubmitKeeps(s: State, key: Key)
    requires Inv(s) && Enabled(s, GuestSubmit(key))
    ensures Inv(Next(s, GuestSubmit(key)))
  {
    var t := Next(s, GuestSubmit(key));
    hide AfterQueue;
    assert t.aio == s.aio && forall k :: Pending(t, k) <==> Pending(s, k);
    forall k | PastCursor(t, k) ensures k in t.dirty || k in t.writes || CopyCurrent(t, k) {
      assert PastCursor(s, k);
    }
  }

  lemma ApplyKeeps(s: State, key: Key, data: Data)
    requires Inv(s) && Enabled(s, GuestApply(key, data))
    ensures Inv(Next(s, GuestApply(key, data)))
  {
    var t := Next(s, GuestApply(key, data));
    hide AfterQueue;
    assert t.aio == s.aio && forall k :: Pending(t, k) <==> Pending(s, k);
    forall k | PastCursor(t, k) ensures k in t.dirty || k in t.writes || CopyCurrent(t, k) {
      assert PastCursor(s, k);
    }
  }

  lemma DoneKeeps(s: State, key: Key)
    requires Inv(s) && Enabled(s, GuestDone(key))
    ensures Inv(Next(s, GuestDone(key)))
  {
    var t := Next(s, GuestDone(key));
    hide AfterQueue;
    assert t.aio == s.aio && forall k :: Pending(t, k) <==> Pending(s, k);
    forall k | PastCursor(t, k) ensures k in t.dirty || k in t.writes || CopyCurrent(t, k) {
      assert PastCursor(s, k);
    }
  }

  lemma SampleKeeps(s: State, i: nat)
    requires Inv(s) && Enabled(s, Sample(i))
    ensures Inv(Next(s, Sample(i)))
  {
    var t := Next(s, Sample(i));
    hide AfterQueue;
    assert forall j :: 0 <= j < |s.aio| ==> t.aio[j].key == s.aio[j].key;
    forall k ensures Pending(t, k) <==> Pending(s, k) {
      if j :| 0 <= j < |s.aio| && s.aio[j].key == k { assert t.aio[j].key == k; }
      if j :| 0 <= j < |t.aio| && t.aio[j].key == k { assert s.aio[j].key == k; }
    }
    forall k | PastCursor(t, k) ensures k in t.dirty || k in t.writes || CopyCurrent(t, k) {
      assert PastCursor(s, k);
    }
  }

  /** A completed read leaves the pending reads; its copy becomes the last queued. */
  lemma ReadDoneKeeps(s: State, i: nat)
    requires Inv(s) && Enabled(s, ReadDone(i))
    ensures Inv(Next(s, ReadDone(i)))
  {
    var t := Next(s, ReadDone(i));
    var r := s.aio[i];
    RemovedReads(s, t, i);
    hide AfterQueue;
    forall k | PastCursor(t, k) ensures k in t.dirty || k in t.writes || CopyCurrent(t, k) {
      assert PastCursor(s, k);
      AfterQueueAppend(s.queue, Block(r.key, r.snap.value), k, s.dst[k]);
      if k == r.key {
        assert Pending(s, k);
      }
    }
  }

  lemma RemovedReads(s: State, t: State, i: nat)
    requires WellFormed(s) && i < |s.aio| && t.aio == s.aio[..i] + s.aio[i + 1..]
    ensures forall j :: 0 <= j < |t.aio| ==> t.aio[j] == if j < i then s.aio[j] else s.aio[j + 1]
    ensures forall k :: Pending(t, k) <==> Pending(s, k) && k != s.aio[i].key
  {
    forall k ensures Pending(t, k) <==> Pending(s, k) && k != s.aio[i].key {
      if j :| 0 <= j < |s.aio| && s.aio[j].key == k && k != s.aio[i].key {
        assert t.aio[if j < i then j else j - 1].key == k;
      }
      if j :| 0 <= j < |t.aio| && t.aio[j].key == k {
        assert s.aio[if j < i then j else j + 1].key == k;
      }
    }
  }

  /** A new read of k, when none is pending, makes the last copy of k current. */
  lemma NewReadKeeps(s: State, t: State, k: Key)
    requires Inv(s) && IsKey(s, k) && !Pending(s, k)
    requires t.totals == s.totals && t.src == s.src && t.dst == s.dst && t.writes == s.writes && t.queue == s.queue
    requires t.aio == s.aio + [Read(k, None)] && t.dirty == s.dirty - {k} && |t.cur| == |s.cur|
    requires t.inflight == s.inflight || t.inflight == s.inflight + {k}
    requires forall q :: PastCursor(t, q) <==> PastCursor(s, q) || q == k
    ensures Inv(t)
  {
    hide AfterQueue;
    assert t.aio[|s.aio|].key == k;
    forall q ensures Pending(t, q) <==> Pending(s, q) || q == k {
      if i :| 0 <= i < |s.aio| && s.aio[i].key == q { assert t.aio[i].key == q; }
      if i :| 0 <= i < |t.aio| && t.aio[i].key == q { assert i < |s.aio| ==> s.aio[i].key == q; }
    }
    forall i | 0 <= i < |s.aio| ensures s.aio[i].key != k {
    }
    forall q | PastCursor(t, q) ensures q in t.dirty || q in t.writes || CopyCurrent(t, q) {
      if q != k {
        assert PastCursor(s, q);
      }
    }
  }

  lemma BulkKeeps(s: State, d: nat)
    requires Inv(s) && Enabled(s, Bulk(d))
    ensures Inv(Next(s, Bulk(d)))
  {
    var k := Key(d, s.cur[d]);
    assert !Pending(s, k);
    NewReadKeeps(s, Next(s, Bulk(d)), k);
  }

  lemma DirtyReadKeeps(s: State, k: Key)
    requires Inv(s) && Enabled(s, DirtyRead(k)) && PastCursor(s, k) && !Pending(s, k)
    ensures Inv(Next(s, DirtyRead(k)))
  {
    NewReadKeeps(s, Next(s, DirtyRead(k)), k);
  }

  lemma SendKeeps(s: State)
    requires Inv(s) && Enabled(s, Send)
    ensures Inv(Next(s, Send))
  {
    var t := Next(s, Send);
    assert forall k :: Pending(t, k) <==> Pending(s, k);
    forall k | PastCursor(t, k) ensures k in t.dirty || k in t.writes || CopyCurrent(t, k) {
      assert PastCursor(s, k);
      AfterQueueSend(s.queue, k, s.dst[k]);
    }
  }

  lemma DirtySyncKeeps(s: State, k: Key)
    requires Inv(s) && Enabled(s, DirtySync(k))
    ensures Inv(Next(s, DirtySync(k)))
  {
    var t := Next(s, DirtySync(k));
    forall q | PastCursor(t, q) ensures q in t.dirty || q in t.writes || CopyCurrent(t, q) {
      assert PastCursor(s, q);
    }
  }

  /** What the environment has to guarantee: a dirty-phase read starts behind the
      bulk cursor, when no read of the same chunk is pending. */
  ghost predicate Careful(s: State, e: Event) {
    e.DirtyRead? ==> PastCursor(s, e.key) && !Pending(s, e.key)
  }

  /** Once the bulk reads are drained, the in-flight test alone is enough, and it
      stays enough. */
  lemma DrainedIsCareful(s: State, k: Key)
    requires Drained(s) && Enabled(s, DirtyRead(k))
    ensures !Pending(s, k) && Drained(Next(s, DirtyRead(k)))
  {
    var t := Next(s, DirtyRead(k));
    assert forall i :: 0 <= i < |s.aio| ==> t.aio[i] == s.aio[i];
  }

  /** Every step keeps the invariant. */
  lemma StepKeeps(s: State, e: Event)
    requires Inv(s) && Enabled(s, e) && Careful(s, e)
    ensures Inv(Next(s, e))
  {
    hide Inv, Next, Enabled, Pending;
    match e
    case Sample(i) => SampleKeeps(s, i);
    case ReadDone(i) => ReadDoneKeeps(s, i);
    case Bulk(d) => BulkKeeps(s, d);
    case DirtyRead(k) => DirtyReadKeeps(s, k);
    case DirtySync(k) => DirtySyncKeeps(s, k);
    case Send => SendKeeps(s);
    case GuestSubmit(k) => SubmitKeeps(s, k);
    case GuestApply(k, d) => ApplyKeeps(s, k, d);
    case GuestDone(k) => DoneKeeps(s, k);
  }

  // ---------------------------------------------------------------- whole runs

  ghost predicate Run(s: State, events: seq<Event>, t: State, careful: bool)
    decreases |events|
  {
    if events == [] then t == s
    else Enabled(s, events[0]) && (careful ==> Careful(s, events[0])) && Run(Next(s, events[0]), events[1..], t, careful)
  }

  /** When tracking has just been enabled: nothing read, nothing queued, and no bit
      set beyond the devices. */
  ghost predicate Initial(s: State) {
    && |s.cur| == |s.totals| && (forall d :: 0 <= d < |s.cur| ==> s.cur[d] == 0)
    && (forall k :: IsKey(s, k) <==> k in s.src) && s.dst.Keys == s.src.Keys
    && (forall k :: k in s.dirty ==> IsKey(s, k))
    && s.aio == [] && s.queue == [] && s.inflight == {} && s.writes == multiset{}
  }

  lemma InitialInv(s: State)
    requires Initial(s)
    ensures Inv(s)
  {
  }

  lemma {:induction false} RunKeeps(s: State, events: seq<Event>, t: State)
    requires Inv(s) && Run(s, events, t, true)
    ensures Inv(t)
    decreases |events|
  {
    hide Inv, Next, Careful;
    if events != [] {
      StepKeeps(s, events[0]);
      RunKeeps(Next(s, events[0]), events[1..], t);
    }
  }

  /** The end of stage 3: bulk finished, no I/O under way, nothing left to send. */
  ghost predicate Finished(s: State) {
    && (forall d :: 0 <= d < |s.totals| ==> d < |s.cur| && s.cur[d] >= s.totals[d])
    && s.aio == [] && s.queue == [] && s.dirty == {} && s.writes == multiset{}
  }

  /** The law of block migration: after any careful run that ends finished, every
      chunk at the destination equals the source's. */
  lemma FinishedMeansEqual(s: State, events: seq<Event>, t: State)
    requires Initial(s) && Run(s, events, t, true) && Finished(t)
    ensures t.dst == t.src
  {
    InitialInv(s);
    RunKeeps(s, events, t);
    InvFinished(t);
  }

  lemma InvFinished(t: State)
    requires Inv(t) && Finished(t)
    ensures t.dst == t.src
  {
    forall k | k in t.src ensures t.dst[k] == t.src[k] {
      assert IsKey(t, k) && PastCursor(t, k);
      assert !Pending(t, k);
    }
  }

  // ------------------------------------------------- without the drained reads

  /** A run written out state by state. */
  ghost predicate Path(states: seq<State>, events: seq<Event>) {
    && |states| == |events| + 1
    && forall i :: 0 <= i < |events| ==> Enabled(states[i], events[i]) && Next(states[i], events[i]) == states[i + 1]
  }

  lemma {:induction false} PathRuns(states: seq<State>, events: seq<Event>)
    requires Path(states, events)
    ensures Run(states[0], events, states[|events|], false)
    decreases |events|
  {
    hide Enabled, Next;
    if events != [] {
      var states', events' := states[1..], events[1..];
      forall i | 0 <= i < |events'|
        ensures Enabled(states'[i], events'[i]) && Next(states'[i], events'[i]) == states'[i + 1]
      {
        assert events'[i] == events[i + 1];
      }
      PathRuns(states', events');
    }
  }

  const K: Key := Key(0, 0)

  /** States of a machine with one device of one chunk. */
  function One(src: byte, dst: byte, dirty: bool, inflight: bool, writing: bool,
               aio: seq<Read>, queue: seq<Block>, cur: nat): State
  {
    State([1], map[K := [src]], map[K := [dst]], if dirty then {K} else {}, if inflight then {K} else {},
          if writing then multiset{K} else multiset{}, aio, queue, [cur])
  }

  /** The driver has read v. */
  function Took(v: byte): Read { Read(K, Some([v])) }

  function CarelessStates(): seq<State> {
    [ One(1, 0, false, false, false, [], [], 0),
      One(1, 0, false, false, false, [Read(K, None)], [], 1),
      One(1, 0, false, false, false, [Took(1)], [], 1),
      One(1, 0, false, false, true, [Took(1)], [], 1),
      One(2, 0, false, false, true, [Took(1)], [], 1),
      One(2, 0, true, false, false, [Took(1)], [], 1),
      One(2, 0, false, true, false, [Took(1), Read(K, None)], [], 1),
      One(2, 0, false, true, false, [Took(1), Took(2)], [], 1),
      One(2, 0, false, false, false, [Took(1)], [Block(K, [2])], 1),
      One(2, 0, false, false, false, [], [Block(K, [2]), Block(K, [1])], 1),
      One(2, 2, false, false, false, [], [Block(K, [1])], 1),
      One(2, 1, false, false, false, [], [], 1) ]
  }

  function CarelessEvents(): seq<Event> {
    [ Bulk(0), Sample(0), GuestSubmit(K), GuestApply(K, [2]), GuestDone(K), DirtyRead(K), Sample(1),
      ReadDone(1), ReadDone(0), Send, Send ]
  }

  predicate CarelessStep(i: nat)
    requires i < 11
  {
    && Enabled(CarelessStates()[i], CarelessEvents()[i])
    && Next(CarelessStates()[i], CarelessEvents()[i]) == CarelessStates()[i + 1]
  }

  lemma CarelessBulk()
    ensures CarelessStep(0)
  {
  }

  lemma CarelessSample()
    ensures CarelessStep(1)
  {
  }

  lemma CarelessSubmit()
    ensures CarelessStep(2)
  {
  }

  lemma CarelessApply()
    ensures CarelessStep(3)
  {
  }

  lemma CarelessComplete()
    ensures CarelessStep(4)
  {
  }

  lemma CarelessDirtyRead()
    ensures CarelessStep(5)
  {
  }

  lemma CarelessDirtySample()
    ensures CarelessStep(6)
  {
  }

  lemma CarelessNewerDone()
    ensures CarelessStep(7)
  {
  }

  lemma CarelessOlderDone()
    ensures CarelessStep(8)
  {
  }

  lemma CarelessSendNewer()
    ensures CarelessStep(9)
  {
  }

  lemma CarelessSendOlder()
    ensures CarelessStep(10)
  {
  }

  lemma CarelessPath()
    ensures Path(CarelessStates(), CarelessEvents())
  {
    hide One, Took, Next, Enabled;
    forall i: nat | i < 11 ensures CarelessStep(i) {
      hide CarelessStep;
      if i < 2 {
        CarelessBulk();
        CarelessSample();
      } else if i < 5 {
        CarelessSubmit();
        CarelessApply();
        CarelessComplete();
      } else if i < 7 {
        CarelessDirtyRead();
        CarelessDirtySample();
      } else if i < 9 {
        CarelessNewerDone();
        CarelessOlderDone();
      } else {
        CarelessSendNewer();
        CarelessSendOlder();
      }
    }
    var states, events := CarelessStates(), CarelessEvents();
    forall i | 0 <= i < |events|
      ensures Enabled(states[i], events[i]) && Next(states[i], events[i]) == states[i + 1]
    {
      assert CarelessStep(i);
    }
  }

  lemma CarelessEnds()
    ensures Initial(CarelessStates()[0])
    ensures Finished(CarelessStates()[11]) && CarelessStates()[11].dst != CarelessStates()[11].src
  {
    hide CarelessEvents;
    var t := CarelessStates()[11];
    assert t.src[K] == [2] && t.dst[K] == [1];
  }

  /** A write lands after the bulk read sampled the chunk; the bulk phase set no
      in-flight bit, so the dirty phase reads the chunk again at once, and the
      newer read completes first: the older contents win at the destination. */
  lemma CarelessRunLoses() returns (s: State, t: State)
    ensures Initial(s) && Run(s, CarelessEvents(), t, false) && Finished(t)
    ensures t.dst != t.src
  {
    hide Initial, Finished, One;
    CarelessEnds();
    CarelessPath();
    PathRuns(CarelessStates(), CarelessEvents());
    s, t := CarelessStates()[0], CarelessStates()[11];
  }
}
