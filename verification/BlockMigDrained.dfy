// When is live block migration safe? Exactly when no bulk read is pending any more
// once the dirty phase may begin.

module BlockMigDrained {
  import opened Common
  import opened Wire
  import opened BlockMig

  /** Everything in flight or marked is about chunks that exist. */
  ghost predicate Shape(v: State) {
    && |v.cur| == |v.totals|
    && (forall k :: IsKey(v, k) <==> k in v.src)
    && v.dst.Keys == v.src.Keys
    && (forall i :: 0 <= i < |v.aio| ==> v.aio[i].key in v.src)
    && (forall i :: 0 <= i < |v.queue| ==> v.queue[i].key in v.src)
    && (forall k :: k in v.dirty ==> k in v.src)
    && (forall k :: k in v.writes ==> k in v.src)
    && (forall k :: k in v.inflight ==> Pending(v, k))
  }

  lemma InflightKeeps(s: State, e: Event, k: Key)
    requires Shape(s) && Enabled(s, e) && k in Next(s, e).inflight
    ensures Pending(Next(s, e), k)
  {
    var t := Next(s, e);
    if e.DirtyRead? && k == e.key {
      assert t.aio[|s.aio|].key == k;
    } else {
      var i :| 0 <= i < |s.aio| && s.aio[i].key == k;
      assert t.aio[if e.ReadDone? && e.i < i then i - 1 else i].key == k;
    }
  }

  lemma ShapeGuest(s: State, e: Event)
    requires Shape(s) && Enabled(s, e) && (e.GuestSubmit? || e.GuestApply? || e.GuestDone?)
    ensures Shape(Next(s, e))
  {
    forall k | k in s.inflight ensures Pending(Next(s, e), k) {
      InflightKeeps(s, e, k);
    }
    hide Pending;
  }

  lemma ShapeDriver(s: State, e: Event)
    requires Shape(s) && Enabled(s, e) && (e.Sample? || e.ReadDone? || e.Send?)
    ensures Shape(Next(s, e))
  {
    forall k | k in Next(s, e).inflight ensures Pending(Next(s, e), k) {
      InflightKeeps(s, e, k);
    }
    hide Pending;
  }

  lemma ShapeSender(s: State, e: Event)
    requires Shape(s) && Enabled(s, e) && (e.Bulk? || e.DirtyRead? || e.DirtySync?)
    ensures Shape(Next(s, e))
  {
    forall k | k in Next(s, e).inflight ensures Pending(Next(s, e), k) {
      InflightKeeps(s, e, k);
    }
    hide Pending;
  }

  lemma ShapeKeeps(s: State, e: Event)
    requires Shape(s) && Enabled(s, e)
    ensures Shape(Next(s, e))
  {
    hide Shape, Enabled, Next;
    if e.GuestSubmit? || e.GuestApply? || e.GuestDone? {
      ShapeGuest(s, e);
    } else if e.Sample? || e.ReadDone? || e.Send? {
      ShapeDriver(s, e);
    } else {
      ShapeSender(s, e);
    }
  }

  lemma InitialShape(s: State)
    requires Initial(s)
    ensures Shape(s)
  {
  }

  lemma {:induction false} ShapeRuns(s: State, events: seq<Event>, t: State, careful: bool)
    requires Shape(s) && Run(s, events, t, careful)
    ensures Shape(t)
    decreases |events|
  {
    hide Shape, Enabled, Next, Careful;
    if events != [] {
      ShapeKeeps(s, events[0]);
      ShapeRuns(Next(s, events[0]), events[1..], t, careful);
    }
  }

  lemma {:induction false} RunJoin(s: State, a: seq<Event>, u: State, b: seq<Event>, t: State, careful: bool)
    requires Run(s, a, u, careful) && Run(u, b, t, careful)
    ensures Run(s, a + b, t, careful)
    decreases |a|
  {
    hide Enabled, Next, Careful;
    if a == [] {
      assert a + b == b;
    } else {
      assert (a + b)[1..] == a[1..] + b;
      RunJoin(Next(s, a[0]), a[1..], u, b, t, careful);
    }
  }

  // -------------------------------------------------------- drained is enough

  /** The bulk cursor of every device is at its end. */
  ghost predicate BulkOver(s: State) {
    |s.cur| == |s.totals| && forall d :: 0 <= d < |s.totals| ==> s.cur[d] >= s.totals[d]
  }

  lemma BulkStaysOver(s: State, e: Event)
    requires BulkOver(s) && Enabled(s, e)
    ensures !e.Bulk? && BulkOver(Next(s, e))
  {
  }

  /** Only a bulk read undoes draining. */
  lemma StaysDrained(s: State, e: Event)
    requires WellFormed(s) && Drained(s) && Enabled(s, e) && !e.Bulk?
    ensures Drained(Next(s, e))
  {
    if e.ReadDone? {
      DoneStaysDrained(s, e.i);
    } else {
      var t := Next(s, e);
      forall j | 0 <= j < |t.aio| ensures t.aio[j].key in t.inflight {
        if j < |s.aio| {
          assert t.aio[j].key == s.aio[j].key && s.aio[j].key in s.inflight;
        }
      }
    }
  }

  lemma DoneStaysDrained(s: State, i: nat)
    requires WellFormed(s) && Drained(s) && Enabled(s, ReadDone(i))
    ensures Drained(Next(s, ReadDone(i)))
  {
    var t := Next(s, ReadDone(i));
    RemovedReads(s, t, i);
    hide Pending;
    forall j | 0 <= j < |t.aio| ensures t.aio[j].key in t.inflight {
      var h := if j < i then j else j + 1;
      assert t.aio[j] == s.aio[h] && s.aio[h].key in s.inflight;
    }
  }

  lemma DrainedStepCareful(s: State, e: Event)
    requires Drained(s) && BulkOver(s) && Enabled(s, e)
    ensures Careful(s, e)
  {
    if e.DirtyRead? {
      DrainedIsCareful(s, e.key);
    }
  }

  /** From a drained end of the bulk phase every run is careful. */
  lemma {:induction false} DrainedRunIsCareful(s: State, events: seq<Event>, t: State)
    requires Inv(s) && Drained(s) && BulkOver(s) && Run(s, events, t, false)
    ensures Run(s, events, t, true)
    decreases |events|
  {
    assert WellFormed(s);
    hide Inv, Drained, BulkOver, Next, Enabled, Careful, WellFormed;
    if events != [] {
      DrainedStepCareful(s, events[0]);
      BulkStaysOver(s, events[0]);
      StaysDrained(s, events[0]);
      StepKeeps(s, events[0]);
      DrainedRunIsCareful(Next(s, events[0]), events[1..], t);
    }
  }

  /** So every finished run from there leaves the destination equal to the source. */
  lemma DrainedMeansEqual(s: State, events: seq<Event>, t: State)
    requires Inv(s) && Drained(s) && BulkOver(s) && Run(s, events, t, false) && Finished(t)
    ensures t.dst == t.src
  {
    hide Inv, Drained, BulkOver, Finished;
    DrainedRunIsCareful(s, events, t);
    RunKeeps(s, events, t);
    InvFinished(t);
  }

  // -------------------------------------------------------- and it is necessary

  predicate Before(a: Key, b: Key) {
    a.dev < b.dev || (a.dev == b.dev && a.chunk < b.chunk)
  }

  /** The dirty chunk that blk_mig_save_dirty_block finds with its cursors reset. */
  ghost predicate FirstDirty(s: State, k: Key) {
    k in s.dirty && forall m :: m in s.dirty && m != k ==> Before(k, m)
  }

  ghost predicate InOrder(s: State, e: Event) {
    (e.DirtyRead? ==> FirstDirty(s, e.key)) && !e.DirtySync?
  }

  /** A run whose dirty reads are all asynchronous and take the first dirty chunk, as
      the scan of the dirty phase does in calls that the rate limit ends after one. */
  ghost predicate ScanRun(s: State, events: seq<Event>, t: State)
    decreases |events|
  {
    if events == [] then t == s
    else Enabled(s, events[0]) && InOrder(s, events[0]) && ScanRun(Next(s, events[0]), events[1..], t)
  }

  lemma {:induction false} ScanRunIsRun(s: State, events: seq<Event>, t: State)
    requires ScanRun(s, events, t)
    ensures Run(s, events, t, false)
    decreases |events|
  {
    hide Enabled, InOrder, Next, Careful;
    if events != [] {
      ScanRunIsRun(Next(s, events[0]), events[1..], t);
    }
  }

  lemma {:induction false} ScanThen(s0: State, events: seq<Event>, s: State, e: Event)
    requires ScanRun(s0, events, s) && Enabled(s, e) && InOrder(s, e)
    ensures ScanRun(s0, events + [e], Next(s, e))
    decreases |events|
  {
    hide Enabled, InOrder, Next;
    if events == [] {
      assert ([] + [e])[1..] == [];
    } else {
      assert (events + [e])[1..] == events[1..] + [e];
      ScanThen(Next(s0, events[0]), events[1..], s, e);
    }
  }

  lemma {:induction false} Least(keys: set<Key>) returns (k: Key)
    requires keys != {}
    ensures k in keys && forall m :: m in keys && m != k ==> Before(k, m)
    decreases |keys|
  {
    var x :| x in keys;
    var rest := keys - {x};
    if rest == {} {
      k := x;
    } else {
      var y := Least(rest);
      k := if Before(x, y) then x else y;
    }
    forall m | m in keys && m != k ensures Before(k, m) {
      assert m in rest || m == x;
    }
  }

  /** The guest's writes complete. */
  lemma {:induction false} WritesDone(s0: State, events: seq<Event>, s: State) returns (more: seq<Event>, t: State)
    requires ScanRun(s0, events, s) && Shape(s)
    ensures ScanRun(s0, more, t) && Shape(t) && t == s.(writes := multiset{}, dirty := t.dirty)
    decreases |s.writes|
  {
    hide ScanRun;
    more, t := events, s;
    if s.writes != multiset{} {
      var k :| k in s.writes;
      var e := GuestDone(k);
      assert k in s.src;
      ShapeKeeps(s, e);
      ScanThen(s0, events, s, e);
      hide Shape;
      more, t := WritesDone(s0, events + [e], Next(s, e));
    }
  }

  /** Read j reads the disk, if it has not yet. */
  lemma SampleAt(s0: State, events: seq<Event>, s: State, j: nat) returns (more: seq<Event>, t: State)
    requires ScanRun(s0, events, s) && Shape(s) && j < |s.aio|
    ensures ScanRun(s0, more, t) && Shape(t) && |t.aio| == |s.aio| && t == s.(aio := t.aio)
    ensures t.aio[j].snap.Some? && t.aio[j].key == s.aio[j].key
    ensures forall i :: 0 <= i < |s.aio| && i != j ==> t.aio[i] == s.aio[i]
  {
    hide ScanRun;
    more, t := events, s;
    if s.aio[j].snap.None? {
      assert s.aio[j].key in s.src;
      ShapeKeeps(s, Sample(j));
      ScanThen(s0, events, s, Sample(j));
      more, t := events + [Sample(j)], Next(s, Sample(j));
    }
  }

  /** All reads but the i-th finish. */
  lemma {:induction false} OthersDone(s0: State, events: seq<Event>, s: State, i: nat)
    returns (more: seq<Event>, t: State)
    requires ScanRun(s0, events, s) && Shape(s) && i < |s.aio| && s.aio[i].key !in s.inflight
    ensures ScanRun(s0, more, t) && Shape(t) && t.aio == [s.aio[i]] && t.inflight == {}
    ensures t == s.(aio := t.aio, queue := t.queue, inflight := {})
    decreases |s.aio|
  {
    hide ScanRun;
    if |s.aio| == 1 {
      more, t := events, s;
      OnlyOne(s);
    } else {
      var j := if i > 0 then 0 else 1;
      var u;
      more, u := SampleAt(s0, events, s, j);
      ShapeKeeps(u, ReadDone(j));
      ScanThen(s0, more, u, ReadDone(j));
      hide Shape;
      var v := Next(u, ReadDone(j));
      var h := if i > 0 then i - 1 else 0;
      assert v.aio[h] == s.aio[i];
      more, t := OthersDone(s0, more + [ReadDone(j)], v, h);
    }
  }

  lemma OnlyOne(s: State)
    requires Shape(s) && |s.aio| == 1 && s.aio[0].key !in s.inflight
    ensures s.inflight == {} && s.aio == [s.aio[0]]
  {
    forall k ensures k !in s.inflight {
      assert k in s.inflight ==> Pending(s, k);
    }
  }

  /** The first dirty chunk is read, and this read finishes before the one pending. */
  lemma Reread(s0: State, events: seq<Event>, s: State, k: Key) returns (more: seq<Event>, t: State)
    requires ScanRun(s0, events, s) && Shape(s) && |s.aio| == 1 && s.inflight == {} && FirstDirty(s, k)
    ensures ScanRun(s0, more, t) && Shape(t) && k in s.src
    ensures t == s.(dirty := s.dirty - {k}, queue := s.queue + [Block(k, s.src[k])])
  {
    hide ScanRun;
    assert k in s.src;
    var s1 := Next(s, DirtyRead(k));
    var s2 := s1.(aio := s.aio + [Read(k, Some(s.src[k]))]);
    assert s2 == Next(s1, Sample(1)) by {
      assert s1.aio[1 := s2.aio[1]] == s2.aio;
    }
    t := s.(dirty := s.dirty - {k}, queue := s.queue + [Block(k, s.src[k])]);
    assert t == Next(s2, ReadDone(1)) by {
      assert s2.aio[..1] + s2.aio[2..] == s.aio;
      assert s1.inflight - {k} == s.inflight;
    }
    ScanThen(s0, events, s, DirtyRead(k));
    ScanThen(s0, events + [DirtyRead(k)], s1, Sample(1));
    ScanThen(s0, events + [DirtyRead(k)] + [Sample(1)], s2, ReadDone(1));
    more := events + [DirtyRead(k)] + [Sample(1)] + [ReadDone(1)];
    hide Next, Enabled;
    QueuedShape(s, t, Block(k, s.src[k]));
  }

  lemma QueuedShape(s: State, t: State, b: Block)
    requires Shape(s) && b.key in s.src && t == s.(dirty := t.dirty, queue := s.queue + [b]) && t.dirty <= s.dirty
    ensures Shape(t)
  {
    assert forall k :: Pending(s, k) ==> Pending(t, k) by {
      forall k | Pending(s, k) ensures Pending(t, k) {
        var i :| 0 <= i < |s.aio| && s.aio[i].key == k;
        assert t.aio[i].key == k;
      }
    }
  }

  /** The scan goes through all that is dirty. */
  lemma {:induction false} CleanAll(s0: State, events: seq<Event>, s: State) returns (more: seq<Event>, t: State)
    requires ScanRun(s0, events, s) && Shape(s) && |s.aio| == 1 && s.inflight == {}
    ensures ScanRun(s0, more, t) && Shape(t) && t == s.(dirty := {}, queue := t.queue)
    decreases |s.dirty|
  {
    hide ScanRun, Shape;
    more, t := events, s;
    if s.dirty != {} {
      var k := Least(s.dirty);
      more, t := Reread(s0, events, s, k);
      more, t := CleanAll(s0, more, t);
    }
  }

  /** The guest writes d to chunk k, from submission to the dirty mark. */
  lemma Rewritten(s0: State, events: seq<Event>, s: State, k: Key, d: Data) returns (more: seq<Event>, t: State)
    requires ScanRun(s0, events, s) && Shape(s) && k in s.src && s.writes == multiset{}
    ensures ScanRun(s0, more, t) && Shape(t) && t == s.(src := s.src[k := d], dirty := s.dirty + {k})
  {
    hide ScanRun;
    assert IsKey(s, k);
    var a, b, c := GuestSubmit(k), GuestApply(k, d), GuestDone(k);
    var s1 := Next(s, a);
    var s2 := Next(s1, b);
    t := Next(s2, c);
    assert t.writes == multiset{};
    ShapeKeeps(s, a);
    ShapeKeeps(s1, b);
    ShapeKeeps(s2, c);
    ScanThen(s0, events, s, a);
    ScanThen(s0, events + [a], s1, b);
    ScanThen(s0, events + [a] + [b], s2, c);
    more := events + [a] + [b] + [c];
  }

  /** What is queued is sent. */
  lemma {:induction false} SendAll(s0: State, events: seq<Event>, s: State, k: Key)
    returns (more: seq<Event>, t: State)
    requires ScanRun(s0, events, s) && k in s.dst
    ensures ScanRun(s0, more, t) && t == s.(queue := [], dst := t.dst)
    ensures k in t.dst && t.dst[k] == AfterQueue(s.queue, k, s.dst[k])
    decreases |s.queue|
  {
    hide ScanRun;
    more, t := events, s;
    if s.queue != [] {
      ScanThen(s0, events, s, Send);
      AfterQueueSend(s.queue, k, s.dst[k]);
      hide AfterQueue;
      more, t := SendAll(s0, events + [Send], Next(s, Send), k);
    }
  }

  /** With one read pending, which has read the disk, and nothing dirty: its chunk is
      written and read again, the older read is queued last, and all is sent. */
  lemma Overtaken(s0: State, events: seq<Event>, s: State) returns (more: seq<Event>, t: State)
    requires ScanRun(s0, events, s) && Shape(s) && BulkOver(s) && s.writes == multiset{} && s.inflight == {}
    requires s.dirty == {} && |s.aio| == 1 && s.aio[0].snap.Some?
    ensures ScanRun(s0, more, t) && Finished(t) && t.dst != t.src
  {
    hide ScanRun;
    var k, v := s.aio[0].key, s.aio[0].snap.value;
    assert k in s.src && k in s.dst;
    var u;
    more, u := Rewritten(s0, events, s, k, v + [0]);
    more, u := Reread(s0, more, u, k);
    ScanThen(s0, more, u, ReadDone(0));
    hide Shape;
    AfterQueueAppend(u.queue, Block(k, v), k, s.dst[k]);
    more, t := SendAll(s0, more + [ReadDone(0)], Next(u, ReadDone(0)), k);
    assert t.dst[k] == v && t.src[k] == v + [0];
  }

  /** With a read pending that has no in-flight bit, some run ends finished with a
      chunk at the destination that is not the source's, and its dirty reads are such
      as the scan makes. */
  lemma UndrainedLoses(s: State) returns (events: seq<Event>, t: State)
    requires Shape(s) && BulkOver(s) && !Drained(s)
    ensures ScanRun(s, events, t) && Run(s, events, t, false) && Finished(t) && t.dst != t.src
  {
    var i: nat :| i < |s.aio| && s.aio[i].key !in s.inflight;
    assert ScanRun(s, [], s);
    hide Shape, ScanRun, Finished;
    events, t := WritesDone(s, [], s);
    events, t := OthersDone(s, events, t, i);
    events, t := SampleAt(s, events, t, 0);
    events, t := CleanAll(s, events, t);
    events, t := Overtaken(s, events, t);
    ScanRunIsRun(s, events, t);
  }

  /** Every run that finishes, or every one whose dirty reads the scan makes, leaves the
      destination equal to the source. */
  ghost predicate AlwaysEqual(s: State) {
    forall events, t :: Run(s, events, t, false) && Finished(t) ==> t.dst == t.src
  }

  ghost predicate ScansEqual(s: State) {
    forall events, t :: ScanRun(s, events, t) && Finished(t) ==> t.dst == t.src
  }

  /** Once the bulk phase is over, every way of finishing is right if and only if no
      read is pending that has no in-flight bit; and it makes no difference to look
      only at runs that scan for dirty chunks in order. */
  lemma SafeIffDrained(s: State)
    requires Inv(s) && Shape(s) && BulkOver(s)
    ensures AlwaysEqual(s) <==> Drained(s)
    ensures ScansEqual(s) <==> Drained(s)
  {
    hide Inv, Shape, BulkOver, Drained, Run, ScanRun, Finished;
    if Drained(s) {
      forall events, t | Run(s, events, t, false) && Finished(t) ensures t.dst == t.src {
        DrainedMeansEqual(s, events, t);
      }
      forall events, t | ScanRun(s, events, t) && Finished(t) ensures t.dst == t.src {
        ScanRunIsRun(s, events, t);
      }
    } else {
      var events, t := UndrainedLoses(s);
    }
  }

  // ------------------------------------------------------- for a whole migration

  ghost predicate NoDirtyReads(events: seq<Event>) {
    forall i :: 0 <= i < |events| ==> !events[i].DirtyRead?
  }

  lemma {:induction false} BulkRunKeeps(s: State, events: seq<Event>, t: State)
    requires Inv(s) && s.inflight == {} && Run(s, events, t, false) && NoDirtyReads(events)
    ensures Inv(t) && t.inflight == {}
    decreases |events|
  {
    if events != [] {
      assert !events[0].DirtyRead?;
      assert Next(s, events[0]).inflight == {};
      hide Inv, Next, Enabled, Pending;
      StepKeeps(s, events[0]);
      BulkRunKeeps(Next(s, events[0]), events[1..], t);
    }
  }

  /** The law of block migration, both ways. Take any migration up to the end of its
      bulk phase, before the dirty phase. Then every continuation that finishes leaves
      the destination equal to the source if and only if no read is pending there
      (`submitted` is 0), and the same holds of those that scan in order. */
  lemma MigrationSafeIff(start: State, before: seq<Event>, s: State)
    requires Initial(start) && Run(start, before, s, false) && NoDirtyReads(before) && BulkOver(s)
    ensures AlwaysEqual(s) <==> s.aio == []
    ensures ScansEqual(s) <==> s.aio == []
  {
    InitialInv(start);
    InitialShape(start);
    ShapeRuns(start, before, s, false);
    BulkRunKeeps(start, before, s);
    SafeIffDrained(s);
    hide Inv, Shape, BulkOver, Run, ScanRun, Finished, Initial, AlwaysEqual, ScansEqual;
    assert Drained(s) <==> s.aio == [] by {
      if s.aio != [] { assert s.aio[0].key !in s.inflight; }
    }
  }
}
