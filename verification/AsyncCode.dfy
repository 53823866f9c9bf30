// The code of Main/linux/async.c on its own context stack and flags. Callbacks are
// arbitrary code, which may itself push, poll and pop contexts; every call is a run
// of the machine in Async.

module AsyncCode {
  import opened Async

  function ScheduledIds(flags: map<Id, Flags>): set<Id> {
    set id | id in flags && flags[id].scheduled
  }

  /** Setting the flags of one bottom half changes the number of scheduled ones
      by at most one. */
  lemma ScheduledCount(flags: map<Id, Flags>, id: Id, f: Flags)
    ensures var was := if id in flags && flags[id].scheduled then 1 else 0;
      |ScheduledIds(flags[id := f])| == |ScheduledIds(flags)| - was + if f.scheduled then 1 else 0
  {
    var a, b := ScheduledIds(flags), ScheduledIds(flags[id := f]);
    assert a - {id} == b - {id};
    assert id in a <==> id in flags && flags[id].scheduled;
    assert id in b <==> f.scheduled;
    hide ScheduledIds;
    CountWithout(a, id);
    CountWithout(b, id);
  }

  lemma CountWithout(a: set<Id>, id: Id)
    ensures |a| == |a - {id}| + if id in a then 1 else 0
  {
    if id in a {
      assert a == (a - {id}) + {id};
    } else {
      assert a == a - {id};
    }
  }

  /** What a state must look like for the code to go on. */
  ghost predicate Good(s: State, nextId: nat) {
    s.stack != [] && KnownFrom(s, 0) && forall id :: id in s.flags ==> id < nextId
  }

  lemma GoodStep(s: State, e: Event, nextId: nat, newNext: nat)
    requires Good(s, nextId) && Enabled(s, e) && nextId <= newNext
    requires (e.New? || e.PopEnd?) ==> e.id < newNext
    ensures Good(Next(s, e), newNext)
  {
    KnownStep(s, e, 0);
    hide Keep, KnownFrom;
  }

  /** Where in the log a context that is still there was pushed, and the state then. */
  datatype Mark = Mark(from: nat, base: State)

  /** The run since the push of the context at index n, which has stayed. */
  ghost predicate Marked(m: Mark, n: nat, log: seq<Event>, s: State) {
    && m.from < |log| && log[m.from] == Push && |m.base.stack| == n
    && Run(START, log[..m.from], m.base) && Enabled(m.base, Push)
    && Run(Next(m.base, Push), log[m.from + 1..], s) && StaysAbove(Next(m.base, Push), log[m.from + 1..], n)
  }

  /** There is a mark for each context but the first. */
  ghost predicate AllMarked(marks: seq<Mark>, log: seq<Event>, s: State) {
    |s.stack| == |marks| + 1 && forall i :: 0 <= i < |marks| ==> Marked(marks[i], i + 1, log, s)
  }

  lemma MarkedStep(m: Mark, n: nat, log: seq<Event>, s: State, e: Event)
    requires Marked(m, n, log, s) && Enabled(s, e) && |Next(s, e).stack| > n
    ensures Marked(m, n, log + [e], Next(s, e))
  {
    hide Run, StaysAbove, Enabled, Next;
    RunAppend(Next(m.base, Push), log[m.from + 1..], s, e);
    AboveAppend(Next(m.base, Push), log[m.from + 1..], s, e, n);
    assert (log + [e])[m.from + 1..] == log[m.from + 1..] + [e];
    assert (log + [e])[..m.from] == log[..m.from];
  }

  lemma MarkedPush(log: seq<Event>, s: State)
    requires Run(START, log, s) && Enabled(s, Push)
    ensures Marked(Mark(|log|, s), |s.stack|, log + [Push], Next(s, Push))
  {
    assert (log + [Push])[|log| + 1..] == [] && (log + [Push])[..|log|] == log;
  }

  function NextMarks(marks: seq<Mark>, log: seq<Event>, s: State, e: Event): seq<Mark> {
    if e.Push? then marks + [Mark(|log|, s)]
    else if e.PopEnd? && marks != [] then marks[..|marks| - 1]
    else marks
  }

  lemma StackStep(s: State, e: Event)
    requires Enabled(s, e)
    ensures |Next(s, e).stack| == if e.Push? then |s.stack| + 1 else if e.PopEnd? then |s.stack| - 1 else |s.stack|
    ensures e.PopEnd? ==> |s.stack| > 1
  {
    hide Keep, Known;
  }

  lemma MarksStep(marks: seq<Mark>, log: seq<Event>, s: State, e: Event)
    requires AllMarked(marks, log, s) && Run(START, log, s) && Enabled(s, e)
    ensures AllMarked(NextMarks(marks, log, s, e), log + [e], Next(s, e))
  {
    hide Run, Marked, Enabled, Next;
    StackStep(s, e);
    var after := NextMarks(marks, log, s, e);
    forall i | 0 <= i < |after| ensures Marked(after[i], i + 1, log + [e], Next(s, e)) {
      if i < |marks| {
        MarkedStep(marks[i], i + 1, log, s, e);
      } else {
        MarkedPush(log, s);
      }
    }
  }

  class AsyncContexts {
    /** The current context is the last one; its mode holds the local variables of
        the qemu_bh_poll that is running in it. */
    var stack: seq<Context>
    var flags: map<Id, Flags>
    var nextId: nat
    /** Callbacks do finitely many things, however many that is. */
    var budget: nat

    ghost var log: seq<Event>
    ghost var marks: seq<Mark>

    function View(): State
      reads this`stack, this`flags
    {
      State(stack, flags)
    }

    ghost predicate Logged()
      reads this`stack, this`flags, this`nextId, this`log, this`marks
    {
      Run(START, log, View()) && Good(View(), nextId) && AllMarked(marks, log, View())
    }

    /** Whatever has happened, the contexts that were there are still there. */
    twostate predicate Went()
      reads this`log, this`marks
    {
      old(log) <= log && marks == old(marks)
    }

    twostate predicate Noted(e: Event)
      reads this`log, this`marks
    {
      log == old(log) + [e] && marks == old(marks)
    }

    /** Bounds what is still to come: actions of callbacks, and scheduled calls. */
    ghost function Work(): nat
      reads this`flags, this`budget
    {
      2 * budget + |ScheduledIds(flags)|
    }

    constructor (budget: nat)
      ensures Logged() && View() == START && log == [] && marks == []
    {
      stack, flags, nextId := [Context([], Ready)], map[], 0;
      this.budget := budget;
      log, marks := [], [];
    }

    ghost method Record(s: State, e: Event, was: nat)
      requires Run(START, log, s) && Good(s, was) && AllMarked(marks, log, s)
      requires was <= nextId && Enabled(s, e) && View() == Next(s, e)
      requires (e.New? || e.PopEnd?) ==> e.id < nextId
      modifies this`log, this`marks
      ensures Logged() && log == old(log) + [e] && marks == NextMarks(old(marks), old(log), s, e)
    {
      hide Run, Good, AllMarked, Enabled, Next;
      RunAppend(START, log, s, e);
      GoodStep(s, e, was, nextId);
      MarksStep(marks, log, s, e);
      marks := NextMarks(marks, log, s, e);
      log := log + [e];
    }

    /** async_context_push */
    method Push()
      requires Logged() && CodeRuns(View())
      modifies this`stack, this`log, this`marks
      ensures Logged() && stack == old(stack) + [Context([], Ready)] && log == old(log) + [Event.Push]
      ensures marks == old(marks) + [Mark(|old(log)|, old(View()))]
    {
      hide Run, AllMarked, Good;
      stack := stack + [Context([], Ready)];
      Record(old(View()), Event.Push, nextId);
    }

    /** qemu_bh_new */
    method BhNew() returns (id: Id)
      requires Logged() && CodeRuns(View())
      modifies this`stack, this`flags, this`nextId, this`log, this`marks
      ensures Logged() && id !in old(flags) && View() == AddBh(old(View()), id, Flags(false, false, false))
      ensures stack[|stack| - 1].bhs == [id] + old(stack[|stack| - 1].bhs) && flags[id] == Flags(false, false, false)
      ensures Work() == old(Work()) && Noted(New(id))
    {
      hide Run, AllMarked, KnownFrom;
      id := nextId;
      var top := stack[|stack| - 1];
      stack := stack[|stack| - 1 := Context([id] + top.bhs, top.mode)];
      ScheduledCount(flags, id, Flags(false, false, false));
      flags := flags[id := Flags(false, false, false)];
      nextId := nextId + 1;
      Record(old(View()), New(id), old(nextId));
    }

    /** qemu_bh_schedule and qemu_bh_schedule_idle: nothing happens to a bottom half
        that is scheduled already. */
    method BhSchedule(id: Id, idle: bool)
      requires Logged() && CodeRuns(View()) && id in flags
      modifies this`flags, this`log, this`marks
      ensures Logged() && stack == old(stack)
      ensures flags == old(if flags[id].scheduled then flags else flags[id := Flags(true, idle, flags[id].deleted)])
      ensures Work() <= old(Work()) + 1 && Noted(if idle then ScheduleIdle(id) else Schedule(id))
    {
      hide Run, AllMarked, Good;
      var f := flags[id];
      if !f.scheduled {
        f := Flags(true, idle, f.deleted);
      }
      ScheduledCount(flags, id, f);
      flags := flags[id := f];
      Record(old(View()), if idle then ScheduleIdle(id) else Schedule(id), nextId);
    }

    /** qemu_bh_cancel */
    method BhCancel(id: Id)
      requires Logged() && CodeRuns(View()) && id in flags
      modifies this`flags, this`log, this`marks
      ensures Logged() && flags == old(flags)[id := old(flags)[id].(scheduled := false)]
      ensures Work() <= old(Work()) && Noted(Cancel(id))
    {
      hide Run, AllMarked, Good;
      var f := flags[id].(scheduled := false);
      ScheduledCount(flags, id, f);
      flags := flags[id := f];
      Record(old(View()), Cancel(id), nextId);
    }

    /** qemu_bh_delete */
    method BhDelete(id: Id)
      requires Logged() && CodeRuns(View()) && id in flags
      modifies this`flags, this`log, this`marks
      ensures Logged() && flags == old(flags)[id := Flags(false, old(flags)[id].idle, true)]
      ensures Work() <= old(Work()) && Noted(Delete(id))
    {
      hide Run, AllMarked, Good;
      var f := Flags(false, flags[id].idle, true);
      ScheduledCount(flags, id, f);
      flags := flags[id := f];
      Record(old(View()), Delete(id), nextId);
    }

    // ------------------------------------------------------------- polling

    /** The contexts below the current one. */
    function Below(): seq<Context>
      requires stack != []
      reads this`stack
    {
      stack[..|stack| - 1]
    }

    method SetMode(m: Mode, ghost e: Event)
      requires Logged() && Enabled(View(), e) && Next(View(), e) == SetTop(View(), Top(View()).(mode := m))
      requires !e.New? && !e.Push? && !e.PopEnd?
      modifies this`stack, this`log, this`marks
      ensures Logged() && View() == Next(old(View()), e) && Noted(e)
    {
      hide Run, AllMarked, Good;
      var top := stack[|stack| - 1];
      stack := stack[|stack| - 1 := Context(top.bhs, m)];
      Record(old(View()), e, nextId);
    }

    /** A visit that finds a runnable bottom half, up to the call of its callback. */
    method BeginCall()
      requires Logged() && Enabled(View(), Visit) && Runnable(flags[Visited(View())])
      modifies this`stack, this`flags, this`log, this`marks
      ensures Logged() && View() == Next(old(View()), Visit) && Work() == old(Work()) - 1 && Noted(Visit)
      ensures flags == old(flags)[old(Visited(View())) := Flags(false, false, false)]
    {
      hide Run, AllMarked, Good;
      var top := stack[|stack| - 1];
      var bh := top.bhs[|top.bhs| - top.mode.left];
      var f := flags[bh];
      var ret := top.mode.ret;
      if !f.idle {
        ret := true;
      }
      stack := stack[|stack| - 1 := Context(top.bhs, Polling(top.mode.left - 1, ret, top.mode.popping, true))];
      ScheduledCount(flags, bh, Flags(false, false, f.deleted));
      flags := flags[bh := Flags(false, false, f.deleted)];
      Record(old(View()), Visit, nextId);
    }

    /** The walk along the list that unlinks what is deleted. */
    method Unlink(bhs: seq<Id>) returns (kept: seq<Id>)
      requires forall j :: 0 <= j < |bhs| ==> bhs[j] in flags
      ensures kept == Keep(bhs, flags)
    {
      kept := [];
      var i := 0;
      while i < |bhs|
        invariant 0 <= i <= |bhs|
        invariant kept + Keep(bhs[i..], flags) == Keep(bhs, flags)
      {
        assert bhs[i..][1..] == bhs[i + 1..];
        if !flags[bhs[i]].deleted {
          kept := kept + [bhs[i]];
        }
        i := i + 1;
      }
      assert kept + [] == kept;
    }

    /** The second loop of qemu_bh_poll: deleted bottom halves leave the list. */
    method RemoveDeleted()
      requires Logged() && Enabled(View(), PollEnd)
      modifies this`stack, this`log, this`marks
      ensures Logged() && View() == Next(old(View()), PollEnd) && Noted(PollEnd)
    {
      hide Run, AllMarked, Good, Keep;
      var top := stack[|stack| - 1];
      assert Known(View(), top.bhs);
      var kept := Unlink(top.bhs);
      stack := stack[|stack| - 1 := Context(kept, if top.mode.popping then Polling(|kept|, false, true, false) else Ready)];
      Record(old(View()), PollEnd, nextId);
    }

    twostate predicate Balanced()
      reads this`stack
    {
      SameStack(old(stack), stack)
    }

    /** Arbitrary code of the current context: a callback, or what follows a push. */
    method RunCode()
      requires Logged() && CodeRuns(View())
      modifies this
      ensures Logged() && Balanced() && Work() <= old(Work()) && Went()
      decreases Work(), 0
    {
      SameRefl(stack);
      hide Logged, SameStack, CodeRuns;
      while budget > 0
        invariant Logged() && SameStack(old(stack), stack) && Work() <= old(Work()) && Went()
        decreases Work()
      {
        ghost var before := stack;
        SameRuns(old(stack), before, old(flags), flags);
        budget := budget - 1;
        var go := Act();
        SameTrans(old(stack), before, stack);
        if !go { break; }
      }
    }

    /** One thing that code does; its cost has been taken off the budget. */
    method Act() returns (go: bool)
      requires Logged() && CodeRuns(View())
      modifies this
      ensures Logged() && Balanced() && Work() <= old(Work()) + 1 && Went()
      decreases Work(), 6
    {
      hide Logged;
      SameRefl(stack);
      var action: nat, id: Id := *, *;
      go := action != 0;
      if action == 1 {
        var _ := BhNew();
      } else if action == 2 {
        Touch(id);
      } else if action == 3 {
        Nested();
      } else if action == 4 && stack[|stack| - 1].mode.Ready? {
        var _, _ := BhPoll();
      }
    }

    /** Code does something to a bottom half it knows. */
    method Touch(id: Id)
      requires Logged() && CodeRuns(View())
      modifies this`flags, this`log, this`marks
      ensures Logged() && Work() <= old(Work()) + 1 && Went()
    {
      hide Logged;
      var action: nat := *;
      if id !in flags {
        return;
      }
      if action == 0 {
        BhSchedule(id, false);
      } else if action == 1 {
        BhSchedule(id, true);
      } else if action == 2 {
        BhCancel(id);
      } else {
        BhDelete(id);
      }
    }

    /** A pushed context: its code, then the pop. */
    method Nested()
      requires Logged() && CodeRuns(View())
      modifies this
      ensures Logged() && Balanced() && Work() <= old(Work()) + 1 && Went()
      decreases Work(), 5
    {
      hide Logged;
      Push();
      RunCode();
      ghost var before, lost := Pop();
    }

    /** The first loop of qemu_bh_poll, over what is left of the list. */
    method Scan() returns (ret: bool)
      requires Logged() && Scanning(View())
      modifies this
      ensures Logged() && Scanning(View()) && |stack| == |old(stack)| && Below() == old(Below())
      ensures Top(View()).mode == Polling(0, ret, old(Top(View()).mode.popping), false)
      ensures Work() <= old(Work()) && (ret && !old(Top(View()).mode.ret) ==> Work() < old(Work())) && Went()
      decreases Work(), 1
    {
      hide Logged;
      while stack[|stack| - 1].mode.left > 0
        invariant Logged() && Scanning(View()) && |stack| == |old(stack)| && Below() == old(Below())
        invariant Top(View()).mode.popping == old(Top(View()).mode.popping)
        invariant Work() <= old(Work()) && (Top(View()).mode.ret && !old(Top(View()).mode.ret) ==> Work() < old(Work()))
        invariant Went()
        decreases Top(View()).mode.left
      {
        KnownVisited();
        var m := stack[|stack| - 1].mode;
        if Runnable(flags[Visited(View())]) {
          CallBh();
        } else {
          SetMode(m.(left := m.left - 1), Visit);
        }
      }
      ret := stack[|stack| - 1].mode.ret;
    }

    /** The call of a callback, from its visit to its return. */
    method CallBh()
      requires Logged() && Enabled(View(), Visit) && Runnable(flags[Visited(View())])
      modifies this
      ensures Logged() && Scanning(View()) && |stack| == |old(stack)| && Below() == old(Below())
      ensures Work() < old(Work()) && Went()
      ensures Top(View()).mode.popping == old(Top(View()).mode.popping)
      ensures Top(View()).mode.left == old(Top(View()).mode.left) - 1
      decreases Work(), 0
    {
      hide Logged;
      ghost var below := Below();
      BeginCall();
      assert CodeRuns(View()) && Below() == below;
      assert Top(View()).mode.calling && Top(View()).mode.left <= |Top(View()).bhs|;
      label Called:
      RunCode();
      assert Top(View()).mode == old@Called(Top(View()).mode) && |Top(View()).bhs| >= old@Called(|Top(View()).bhs|);
      SetMode(stack[|stack| - 1].mode.(calling := false), Return);
    }

    lemma KnownVisited()
      requires Logged() && Scanning(View()) && Top(View()).mode.left > 0
      ensures Visited(View()) in flags && Enabled(View(), Visit)
    {
      hide Run;
      assert Known(View(), Top(View()).bhs);
    }

    lemma KnownTop()
      requires Logged() && stack != []
      ensures Known(View(), Top(View()).bhs)
    {
      hide Run;
    }

    /** qemu_bh_poll. The run goes from the start of this poll to its end; `before`
        is the state when every bottom half has been visited, and the result is
        whether one that is not idle was called. */
    method BhPoll() returns (ret: bool, ghost before: State)
      requires Logged() && stack != [] && Top(View()).mode.Ready?
      modifies this
      ensures Logged() && Balanced() && Went()
      ensures Work() <= old(Work()) && (ret ==> Work() < old(Work()))
      ensures |log| > |old(log)| + 1 && old(log) + [Poll] <= log[..|log| - 1] && log[|log| - 1] == PollEnd
      ensures Run(START, log[..|log| - 1], before) && Enabled(before, PollEnd) && View() == Next(before, PollEnd)
      ensures Top(before).mode.ret == ret
      decreases Work(), 2
    {
      hide Logged;
      SetMode(Polling(|stack[|stack| - 1].bhs|, false, false, false), Poll);
      ret := Scan();
      KnownTop();
      before := View();
      assert Run(START, log, before) by { ReachedNow(); }
      ghost var l := log;
      RemoveDeleted();
      assert log[..|log| - 1] == l;
    }

    lemma ReachedNow()
      requires Logged()
      ensures Run(START, log, View())
    {
    }

    /** The polls of async_context_pop, until one calls nothing but idle bottom halves. */
    method FlushBhs()
      requires Logged() && |stack| > 1 && Top(View()).mode.Ready?
      modifies this
      ensures Logged() && Scanning(View()) && |stack| == |old(stack)| && Below() == old(Below())
      ensures Top(View()).mode == Polling(0, false, true, false)
      ensures Work() <= old(Work()) && old(log) + [PopBegin] <= log && marks == old(marks)
      decreases Work(), 3
    {
      hide Logged;
      SetMode(Polling(|stack[|stack| - 1].bhs|, false, true, false), PopBegin);
      var ret := Scan();
      while ret
        invariant Logged() && Scanning(View()) && |stack| == |old(stack)| && Below() == old(Below())
        invariant Top(View()).mode == Polling(0, ret, true, false)
        invariant Work() <= old(Work()) && old(log) + [PopBegin] <= log && marks == old(marks)
        decreases Work(), ret
      {
        KnownTop();
        RemoveDeleted();
        ret := Scan();
      }
    }

    /** async_context_pop: the bottom halves are flushed, the context goes, and the
        parent has a bottom half for queued AIO completions, scheduled and not idle.
        `before` is the state when the context goes, and `lost` are the bottom halves
        it takes with it that were to be called: none, if since this context was pushed
        no newer bottom half has been scheduled as idle. */
    method Pop() returns (ghost before: State, ghost lost: set<Id>)
      requires Logged() && |stack| > 1 && Top(View()).mode.Ready?
      modifies this
      ensures Logged() && |stack| == |old(stack)| - 1 && old(log) <= log && Work() <= old(Work()) + 1
      ensures stack[..|stack| - 1] == old(stack)[..|stack| - 1]
      ensures stack[|stack| - 1].mode == old(stack)[|stack| - 1].mode
      ensures stack[|stack| - 1].bhs != [] && stack[|stack| - 1].bhs[1..] == old(stack)[|stack| - 1].bhs
      ensures var bh := stack[|stack| - 1].bhs[0];
        bh !in before.flags && flags == before.flags[bh := Flags(true, false, false)]
      ensures |log| > 0 && Run(START, log[..|log| - 1], before) && |before.stack| == |old(stack)|
      ensures lost == set b | b in Top(before).bhs && b in before.flags && Runnable(before.flags[b])
      ensures |log| > |old(log)| + 1 && old(log) + [PopBegin] <= log[..|log| - 1] && log[|log| - 1].PopEnd?
      ensures |old(marks)| == |old(stack)| - 1 && marks == old(marks)[..|old(marks)| - 1]
      ensures old(marks)[|old(marks)| - 1].from < |log|
      ensures NoIdleSince(old(marks)[|old(marks)| - 1], log) ==> lost == {}
      decreases Work(), 4
    {
      hide Logged, NoIdleSince;
      ghost var mine := Mine();
      FlushBhs();
      lost := set b | b in Top(View()).bhs && b in flags && Runnable(flags[b]);
      NothingLost();
      ghost var flushed := log;
      before := View();
      RunTo();
      assert old(Below()) == stack[..|stack| - 1];
      Leave();
      assert log[..|log| - 1] == flushed;
      LogGrew(old(log) + [PopBegin], flushed, log);
      IdleSinceGrows(mine, flushed, log);
    }

    /** The mark of the current context. */
    ghost function Mine(): (m: Mark)
      requires Logged() && |stack| > 1
      reads this
      ensures |marks| == |stack| - 1 && m == marks[|marks| - 1] && m.from < |log|
    {
      assert Marked(marks[|marks| - 1], |marks|, log, View());
      marks[|marks| - 1]
    }

    lemma RunTo()
      requires Logged()
      ensures Run(START, log, View())
    {
      hide Run;
    }

    lemma NothingLost()
      requires Logged() && |stack| > 1 && Scanning(View()) && Top(View()).mode == Polling(0, false, true, false)
      ensures NoIdleSince(Mine(), log) ==> forall b :: b in Top(View()).bhs && b in flags ==> !Runnable(flags[b])
    {
      hide Run, KnownFrom, StaysAbove;
      var m := Mine();
      assert Marked(m, |marks|, log, View());
      if NoIdleSince(m, log) {
        assert nextId !in flags;
        PopLosesNothing(m.base, log[m.from + 1..], View(), nextId);
      }
    }

    /** Back to the parent context. */
    method Leave()
      requires Logged() && |stack| > 1 && Scanning(View()) && Top(View()).mode == Polling(0, false, true, false)
      modifies this
      ensures Logged() && |stack| == |old(stack)| - 1 && log == old(log) + [PopEnd(old(nextId))]
      ensures marks == old(marks)[..|old(marks)| - 1]
      ensures stack[..|stack| - 1] == old(stack)[..|stack| - 1] && Work() == old(Work()) + 1
      ensures stack[|stack| - 1].mode == old(stack)[|stack| - 1].mode
      ensures stack[|stack| - 1].bhs == [old(nextId)] + old(stack)[|stack| - 1].bhs
      ensures old(nextId) !in old(flags) && flags == old(flags)[old(nextId) := Flags(true, false, false)]
    {
      hide Run, Marked, KnownFrom;
      var id := nextId;
      stack := stack[..|stack| - 1];
      var top := stack[|stack| - 1];
      stack := stack[|stack| - 1 := Context([id] + top.bhs, top.mode)];
      ScheduledCount(flags, id, Flags(true, false, false));
      flags := flags[id := Flags(true, false, false)];
      nextId := nextId + 1;
      Record(old(View()), PopEnd(id), old(nextId));
    }
  }

  /** Nothing has happened to the contexts below the current one; that one is still
      there in the same mode, and while a poll goes through its list, the list has
      at most grown at the front. */
  ghost predicate SameStack(a: seq<Context>, b: seq<Context>) {
    a != [] && |b| == |a| && var n := |a| - 1;
    b[..n] == a[..n] && b[n].mode == a[n].mode && (a[n].mode.Polling? ==> IsSuffix(a[n].bhs, b[n].bhs))
  }

  lemma SameRefl(a: seq<Context>)
    requires a != []
    ensures SameStack(a, a)
  {
  }

  lemma SameTrans(a: seq<Context>, b: seq<Context>, c: seq<Context>)
    requires SameStack(a, b) && SameStack(b, c)
    ensures SameStack(a, c)
  {
    var n := |a| - 1;
    var x, y, z := a[n].bhs, b[n].bhs, c[n].bhs;
    if a[n].mode.Polling? {
      assert z[|z| - |x|..] == z[|z| - |y|..][|y| - |x|..];
    }
  }

  lemma SameRuns(a: seq<Context>, b: seq<Context>, f: map<Id, Flags>, g: map<Id, Flags>)
    requires SameStack(a, b) && CodeRuns(State(a, f))
    ensures CodeRuns(State(b, g))
  {
  }

  predicate IsSuffix(a: seq<Id>, b: seq<Id>) {
    |a| <= |b| && b[|b| - |a|..] == a
  }

  lemma LogGrew(start: seq<Event>, before: seq<Event>, after: seq<Event>)
    requires start <= before && |after| == |before| + 1 && after[..|before|] == before
    ensures start <= after && start <= after[..|after| - 1]
  {
  }

  /** Since the push of this context, bottom halves newer than the push have not been
      scheduled as idle. */
  predicate NoIdleSince(m: Mark, log: seq<Event>)
    requires m.from < |log|
  {
    IdlesOnly(log[m.from + 1..], m.base.flags.Keys)
  }

  /** What holds of the whole log holds of its beginning. */
  lemma IdleSinceGrows(m: Mark, before: seq<Event>, after: seq<Event>)
    requires m.from < |before| && before <= after
    ensures NoIdleSince(m, after) ==> NoIdleSince(m, before)
  {
    var a, b := before[m.from + 1..], after[m.from + 1..];
    forall i | 0 <= i < |a| ensures a[i] == b[i] {
    }
  }
}
