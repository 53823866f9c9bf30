// Bottom halves and the stack of asynchronous contexts (Main/linux/async.c) as a
// state machine: qemu_bh_poll is a series of visits, and whatever a callback does
// comes between the visit that calls it and its return.

module Async {
  type Id = nat

  datatype Flags = Flags(scheduled: bool, idle: bool, deleted: bool)

  /** Where the code of a context is. Polling: `left` bottom halves are still to be
      visited; `ret` is what the poll will return so far; `popping` when
      async_context_pop polls; `calling` while a callback runs. */
  datatype Mode = Ready | Polling(left: nat, ret: bool, popping: bool, calling: bool)

  /** An AsyncContext and its list of bottom halves, the newest first. */
  datatype Context = Context(bhs: seq<Id>, mode: Mode)

  /** The current context is the last of `stack`. Identities are never reused. */
  datatype State = State(stack: seq<Context>, flags: map<Id, Flags>)

  datatype Event =
    | Push                   // async_context_push
    | New(id: Id)            // qemu_bh_new
    | Schedule(id: Id)       // qemu_bh_schedule
    | ScheduleIdle(id: Id)   // qemu_bh_schedule_idle
    | Cancel(id: Id)         // qemu_bh_cancel
    | Delete(id: Id)         // qemu_bh_delete
    | Poll                   // a call of qemu_bh_poll
    | PopBegin               // a call of async_context_pop, and of its first poll
    | Visit                  // one turn of the first loop of qemu_bh_poll
    | Return                 // the callback returns
    | PollEnd                // the second loop; a popping context polls again
    | PopEnd(id: Id)         // back to the parent, which gets a new bottom half

  predicate Runnable(f: Flags) { f.scheduled && !f.deleted }

  function Top(s: State): Context
    requires s.stack != []
  {
    s.stack[|s.stack| - 1]
  }

  function SetTop(s: State, c: Context): State
    requires s.stack != []
  {
    s.(stack := s.stack[|s.stack| - 1 := c])
  }

  /** Code other than qemu_bh_poll itself is running. */
  predicate CodeRuns(s: State) {
    s.stack != [] && (Top(s).mode.Ready? || Top(s).mode.calling)
  }

  predicate Scanning(s: State) {
    s.stack != [] && Top(s).mode.Polling? && !Top(s).mode.calling && Top(s).mode.left <= |Top(s).bhs|
  }

  /** The bottom half the next visit is for. */
  function Visited(s: State): Id
    requires Scanning(s) && Top(s).mode.left > 0
  {
    Top(s).bhs[|Top(s).bhs| - Top(s).mode.left]
  }

  predicate Enabled(s: State, e: Event) {
    match e
    case Push => CodeRuns(s)
    case New(id) => CodeRuns(s) && id !in s.flags
    case Schedule(id) => CodeRuns(s) && id in s.flags
    case ScheduleIdle(id) => CodeRuns(s) && id in s.flags
    case Cancel(id) => CodeRuns(s) && id in s.flags
    case Delete(id) => CodeRuns(s) && id in s.flags
    case Poll => s.stack != [] && Top(s).mode.Ready?
    case PopBegin => |s.stack| > 1 && Top(s).mode.Ready?
    case Visit => Scanning(s) && Top(s).mode.left > 0 && Visited(s) in s.flags
    case Return => s.stack != [] && Top(s).mode.Polling? && Top(s).mode.calling
    case PollEnd => Scanning(s) && Top(s).mode.left == 0 && (Top(s).mode.popping ==> Top(s).mode.ret) && Known(s, Top(s).bhs)
    case PopEnd(id) =>
      |s.stack| > 1 && Scanning(s) && Top(s).mode.left == 0 && Top(s).mode.popping && !Top(s).mode.ret && id !in s.flags
  }

  predicate Known(s: State, bhs: seq<Id>) {
    forall i :: 0 <= i < |bhs| ==> bhs[i] in s.flags
  }

  /** The list without the deleted bottom halves. */
  function Keep(bhs: seq<Id>, flags: map<Id, Flags>): seq<Id>
    requires forall i :: 0 <= i < |bhs| ==> bhs[i] in flags
  {
    if bhs == [] then []
    else (if flags[bhs[0]].deleted then [] else [bhs[0]]) + Keep(bhs[1..], flags)
  }

  function SetFlags(s: State, id: Id, f: Flags): State {
    s.(flags := s.flags[id := f])
  }

  function Scheduled(f: Flags, idle: bool): Flags {
    if f.scheduled then f else f.(scheduled := true, idle := idle)
  }

  function AddBh(s: State, id: Id, f: Flags): State
    requires s.stack != []
  {
    SetFlags(SetTop(s, Top(s).(bhs := [id] + Top(s).bhs)), id, f)
  }

  function Next(s: State, e: Event): State
    requires Enabled(s, e)
  {
    match e
    case Push => s.(stack := s.stack + [Context([], Ready)])
    case New(id) => AddBh(s, id, Flags(false, false, false))
    case Schedule(id) => SetFlags(s, id, Scheduled(s.flags[id], false))
    case ScheduleIdle(id) => SetFlags(s, id, Scheduled(s.flags[id], true))
    case Cancel(id) => SetFlags(s, id, s.flags[id].(scheduled := false))
    case Delete(id) => SetFlags(s, id, s.flags[id].(scheduled := false, deleted := true))
    case Poll => SetTop(s, Top(s).(mode := Polling(|Top(s).bhs|, false, false, false)))
    case PopBegin => SetTop(s, Top(s).(mode := Polling(|Top(s).bhs|, false, true, false)))
    case Visit =>
      var f, m := s.flags[Visited(s)], Top(s).mode;
      if Runnable(f) then
        SetFlags(SetTop(s, Top(s).(mode := Polling(m.left - 1, m.ret || !f.idle, m.popping, true))),
                 Visited(s), Flags(false, false, f.deleted))
      else SetTop(s, Top(s).(mode := m.(left := m.left - 1)))
    case Return => SetTop(s, Top(s).(mode := Top(s).mode.(calling := false)))
    case PollEnd =>
      var kept := Keep(Top(s).bhs, s.flags);
      SetTop(s, Context(kept, if Top(s).mode.popping then Polling(|kept|, false, true, false) else Ready))
    case PopEnd(id) => AddBh(s.(stack := s.stack[..|s.stack| - 1]), id, Flags(true, false, false))
  }

  /** The bottom half whose callback this step calls, if any. */
  function Runs(s: State, e: Event): seq<Id>
    requires Enabled(s, e)
  {
    if e.Visit? && Runnable(s.flags[Visited(s)]) then [Visited(s)] else []
  }

  ghost predicate Run(s: State, events: seq<Event>, t: State)
    decreases |events|
  {
    if events == [] then t == s
    else Enabled(s, events[0]) && Run(Next(s, events[0]), events[1..], t)
  }

  /** The callbacks of a run, in order. */
  function Ran(s: State, events: seq<Event>): seq<Id>
    decreases |events|
  {
    if events == [] || !Enabled(s, events[0]) then []
    else Runs(s, events[0]) + Ran(Next(s, events[0]), events[1..])
  }

  // ---------------------------------------------------------- deleted never runs

  lemma DeletedStays(s: State, e: Event, id: Id)
    requires Enabled(s, e) && id in s.flags && s.flags[id].deleted
    ensures id in Next(s, e).flags && Next(s, e).flags[id].deleted && id !in Runs(s, e)
  {
  }

  /** Once deleted, a bottom half is never called again. */
  lemma {:induction false} DeletedNeverRuns(s: State, events: seq<Event>, t: State, id: Id)
    requires Run(s, events, t) && id in s.flags && s.flags[id].deleted
    ensures id !in Ran(s, events) && id in t.flags && t.flags[id].deleted
    decreases |events|
  {
    hide Enabled, Next, Runs;
    if events != [] {
      DeletedStays(s, events[0], id);
      DeletedNeverRuns(Next(s, events[0]), events[1..], t, id);
    }
  }

  // ------------------------------------------------------- one run per schedule

  function IsScheduled(s: State, id: Id): nat {
    if id in s.flags && s.flags[id].scheduled then 1 else 0
  }

  /** async_context_pop schedules the bottom half it creates. */
  function Schedules(e: Event, id: Id): nat {
    if (e.Schedule? || e.ScheduleIdle? || e.PopEnd?) && e.id == id then 1 else 0
  }

  function TimesScheduled(events: seq<Event>, id: Id): nat {
    if events == [] then 0 else Schedules(events[0], id) + TimesScheduled(events[1..], id)
  }

  lemma ScheduleStep(s: State, e: Event, id: Id)
    requires Enabled(s, e)
    ensures multiset(Runs(s, e))[id] + IsScheduled(Next(s, e), id) <= Schedules(e, id) + IsScheduled(s, id)
  {
  }

  /** A callback is called at most once for each time its bottom half is scheduled. */
  lemma {:induction false} OneRunPerSchedule(s: State, events: seq<Event>, t: State, id: Id)
    requires Run(s, events, t)
    ensures multiset(Ran(s, events))[id] + IsScheduled(t, id) <= TimesScheduled(events, id) + IsScheduled(s, id)
    decreases |events|
  {
    hide Enabled, Next, Runs, IsScheduled, Schedules;
    if events != [] {
      ScheduleStep(s, events[0], id);
      OneRunPerSchedule(Next(s, events[0]), events[1..], t, id);
    }
  }

  // --------------------------------------------- isolation of the contexts below

  /** Bottom halves of the contexts from index n up are all newer than `known`. */
  ghost predicate NewerFrom(s: State, n: nat, known: set<Id>) {
    && known <= s.flags.Keys
    && forall i :: n <= i < |s.stack| ==> forall id :: id in s.stack[i].bhs ==> id !in known
  }

  /** Along the run, the stack stays higher than n. */
  ghost predicate StaysAbove(s: State, events: seq<Event>, n: nat)
    decreases |events|
  {
    |s.stack| > n && (events == [] || (Enabled(s, events[0]) && StaysAbove(Next(s, events[0]), events[1..], n)))
  }

  lemma {:induction false} KeepIn(bhs: seq<Id>, flags: map<Id, Flags>)
    requires forall i :: 0 <= i < |bhs| ==> bhs[i] in flags
    ensures forall id :: id in Keep(bhs, flags) <==> id in bhs && !flags[id].deleted
  {
    if bhs != [] {
      KeepIn(bhs[1..], flags);
    }
  }

  /** What stays keeps its place; one bottom half stays unless it is deleted. */
  lemma {:induction false} KeepSplits(a: seq<Id>, b: seq<Id>, flags: map<Id, Flags>)
    requires forall id :: id in a || id in b ==> id in flags
    ensures Keep(a + b, flags) == Keep(a, flags) + Keep(b, flags)
  {
    if a == [] {
      assert a + b == b;
    } else {
      var head := if flags[a[0]].deleted then [] else [a[0]];
      assert (a + b)[1..] == a[1..] + b && (a + b)[0] == a[0];
      KeepSplits(a[1..], b, flags);
      var x, y := Keep(a[1..], flags), Keep(b, flags);
      assert Keep(a, flags) == head + x && Keep(a + b, flags) == head + (x + y);
      hide Keep;
    }
  }

  lemma KeepOne(id: Id, flags: map<Id, Flags>)
    requires id in flags
    ensures Keep([id], flags) == if flags[id].deleted then [] else [id]
  {
    assert [id][1..] == [];
  }

  lemma NewerStep(s: State, e: Event, n: nat, known: set<Id>)
    requires Enabled(s, e) && NewerFrom(s, n, known) && |s.stack| > n
    ensures NewerFrom(Next(s, e), n, known)
    ensures forall id :: id in Runs(s, e) ==> id !in known
  {
    if e.PollEnd? {
      KeepIn(Top(s).bhs, s.flags);
    }
  }

  lemma {:induction false} OnlyNewerRun(s: State, events: seq<Event>, n: nat, known: set<Id>)
    requires NewerFrom(s, n, known) && StaysAbove(s, events, n)
    ensures forall id :: id in Ran(s, events) ==> id !in known
    decreases |events|
  {
    hide Enabled, Next, Runs, NewerFrom;
    if events != [] {
      NewerStep(s, events[0], n, known);
      OnlyNewerRun(Next(s, events[0]), events[1..], n, known);
    }
  }

  /** What a context is for: from a push until its pop, no bottom half that existed
      at the push is called, so none of any enclosing context. */
  lemma NoEnclosingRuns(s: State, events: seq<Event>)
    requires Enabled(s, Push) && StaysAbove(Next(s, Push), events, |s.stack|)
    ensures forall id :: id in Ran(s, [Push] + events) ==> id !in s.flags
  {
    hide StaysAbove;
    assert ([Push] + events)[1..] == events;
    OnlyNewerRun(Next(s, Push), events, |s.stack|, s.flags.Keys);
  }

  // --------------------------------------------------- what a pop leaves behind

  predicate RunnableIdle(f: Flags) { Runnable(f) && f.idle }

  /** No bottom half outside `known` is waiting to be called as an idle one. */
  ghost predicate NoNewIdle(s: State, known: set<Id>) {
    forall id :: id in s.flags && id !in known ==> !RunnableIdle(s.flags[id])
  }

  /** Only bottom halves of `known` are scheduled as idle by these events. */
  predicate IdlesOnly(events: seq<Event>, known: set<Id>) {
    forall i :: 0 <= i < |events| && events[i].ScheduleIdle? ==> events[i].id in known
  }

  ghost predicate KnownFrom(s: State, n: nat) {
    forall i :: n <= i < |s.stack| ==> Known(s, s.stack[i].bhs)
  }

  predicate Busy(m: Mode) { m.Ready? || (m.calling && m.ret) }

  /** From index n up: a context below the top runs code, and if it polls, that
      poll has called a bottom half that counts. */
  ghost predicate BusyFrom(s: State, n: nat) {
    forall i :: n <= i < |s.stack| - 1 ==> Busy(s.stack[i].mode)
  }

  /** A poll that has called none so far has left nothing runnable behind it. */
  ghost predicate NothingPassed(s: State, c: Context) {
    c.mode.Polling? && !c.mode.ret ==>
      && !c.mode.calling && c.mode.left <= |c.bhs|
      && forall j :: 0 <= j < |c.bhs| - c.mode.left ==> c.bhs[j] in s.flags && !Runnable(s.flags[c.bhs[j]])
  }

  /** What holds from a push on, whatever the contexts below index n hold. */
  ghost predicate ScanInv(s: State, n: nat, known: set<Id>) {
    && |s.stack| > n
    && NewerFrom(s, n, known)
    && NoNewIdle(s, known)
    && KnownFrom(s, n)
    && BusyFrom(s, n)
    && NothingPassed(s, Top(s))
  }

  lemma KnownStep(s: State, e: Event, n: nat)
    requires KnownFrom(s, n) && Enabled(s, e)
    ensures KnownFrom(Next(s, e), n)
  {
    if e.PollEnd? {
      KeepIn(Top(s).bhs, s.flags);
    }
    var t := Next(s, e);
    assert s.flags.Keys <= t.flags.Keys;
    forall i | n <= i < |t.stack| ensures Known(t, t.stack[i].bhs) {
      assert i < |s.stack| ==> Known(s, s.stack[i].bhs);
      assert forall j :: 0 <= j < |t.stack[i].bhs| ==> t.stack[i].bhs[j] in t.stack[i].bhs;
    }
  }

  lemma NoNewIdleStep(s: State, e: Event, known: set<Id>)
    requires NoNewIdle(s, known) && Enabled(s, e) && (e.ScheduleIdle? ==> e.id in known)
    ensures NoNewIdle(Next(s, e), known)
  {
    hide Keep;
  }

  lemma BusyStep(s: State, e: Event, n: nat, known: set<Id>)
    requires ScanInv(s, n, known) && Enabled(s, e)
    ensures BusyFrom(Next(s, e), n)
  {
    hide Keep, Known;
  }

  lemma PassedStep(s: State, e: Event, n: nat, known: set<Id>)
    requires ScanInv(s, n, known) && Enabled(s, e) && |Next(s, e).stack| > n
    ensures NothingPassed(Next(s, e), Top(Next(s, e)))
  {
    hide Keep, Known;
  }

  lemma ScanStep(s: State, e: Event, n: nat, known: set<Id>)
    requires ScanInv(s, n, known) && Enabled(s, e) && (e.ScheduleIdle? ==> e.id in known) && |Next(s, e).stack| > n
    ensures ScanInv(Next(s, e), n, known)
  {
    hide Enabled, Next, NewerFrom, NoNewIdle, KnownFrom, BusyFrom, NothingPassed;
    NewerStep(s, e, n, known);
    NoNewIdleStep(s, e, known);
    KnownStep(s, e, n);
    BusyStep(s, e, n, known);
    PassedStep(s, e, n, known);
  }

  lemma {:induction false} ScanKeeps(s: State, events: seq<Event>, t: State, n: nat, known: set<Id>)
    requires ScanInv(s, n, known) && Run(s, events, t) && StaysAbove(s, events, n) && IdlesOnly(events, known)
    ensures ScanInv(t, n, known)
    decreases |events|
  {
    hide Enabled, Next, ScanInv;
    if events != [] {
      ScanStep(s, events[0], n, known);
      ScanKeeps(Next(s, events[0]), events[1..], t, n, known);
    }
  }

  ghost predicate NothingRunnable(s: State, bhs: seq<Id>) {
    forall b :: b in bhs ==> b in s.flags && !Runnable(s.flags[b])
  }

  /** A run of code in a context of index n or above, in which only bottom halves of
      `known` are scheduled as idle. */
  ghost predicate Within(s: State, events: seq<Event>, t: State, n: nat, known: set<Id>) {
    Run(s, events, t) && StaysAbove(s, events, n) && IdlesOnly(events, known)
  }

  lemma PopLeavesNothing(s: State, events: seq<Event>, t: State, n: nat, known: set<Id>, id: Id)
    requires ScanInv(s, n, known) && Within(s, events, t, n, known) && Enabled(t, PopEnd(id))
    ensures NothingRunnable(t, Top(t).bhs)
  {
    hide Run, StaysAbove;
    ScanKeeps(s, events, t, n, known);
    var c := Top(t);
    forall b | b in c.bhs ensures b in t.flags && !Runnable(t.flags[b]) {
      var j :| 0 <= j < |c.bhs| && c.bhs[j] == b;
    }
  }

  /** A pop leaves nothing behind that was still to be called, whatever the
      enclosing contexts hold, if from the push on only bottom halves older than the
      push are scheduled as idle. */
  lemma PopLosesNothing(s: State, events: seq<Event>, t: State, id: Id)
    requires Enabled(s, Push) && Within(Next(s, Push), events, t, |s.stack|, s.flags.Keys) && Enabled(t, PopEnd(id))
    ensures NothingRunnable(t, Top(t).bhs)
  {
    hide Within;
    PopLeavesNothing(Next(s, Push), events, t, |s.stack|, s.flags.Keys, id);
  }

  lemma {:induction false} RunAppend(s: State, events: seq<Event>, t: State, e: Event)
    requires Run(s, events, t) && Enabled(t, e)
    ensures Run(s, events + [e], Next(t, e))
    decreases |events|
  {
    hide Enabled, Next;
    if events == [] {
      assert ([] + [e])[1..] == [];
    } else {
      RunAppend(Next(s, events[0]), events[1..], t, e);
      assert (events + [e])[1..] == events[1..] + [e];
    }
  }

  lemma {:induction false} AboveAppend(s: State, events: seq<Event>, t: State, e: Event, n: nat)
    requires Run(s, events, t) && StaysAbove(s, events, n) && Enabled(t, e) && |Next(t, e).stack| > n
    ensures StaysAbove(s, events + [e], n)
    decreases |events|
  {
    hide Enabled, Next;
    if events == [] {
      assert ([] + [e])[1..] == [];
    } else {
      AboveAppend(Next(s, events[0]), events[1..], t, e, n);
      assert (events + [e])[1..] == events[1..] + [e];
    }
  }

  const START: State := State([Context([], Ready)], map[])

  /** Two bottom halves of a pushed context, the older one scheduled as idle. */
  lemma IdleBegins() returns (events: seq<Event>, t: State)
    ensures Run(START, events, t)
    ensures t == State([Context([], Ready), Context([2, 1], Ready)],
                       map[1 := Flags(true, true, false), 2 := Flags(false, false, false)])
  {
    assert Run(START, [], START);
    hide Run;
    var s1 := State([Context([], Ready), Context([], Ready)], map[]);
    var s2 := State([Context([], Ready), Context([1], Ready)], map[1 := Flags(false, false, false)]);
    var s3 := State([Context([], Ready), Context([2, 1], Ready)],
                    map[1 := Flags(false, false, false), 2 := Flags(false, false, false)]);
    RunAppend(START, [], START, Push);
    events := [] + [Push];
    assert [1] + [] == [1] && [2] + [1] == [2, 1];
    assert Next(s1, New(1)) == s2 && Next(s2, New(2)) == s3;
    RunAppend(START, events, s1, New(1));
    events := events + [New(1)];
    RunAppend(START, events, s2, New(2));
    events := events + [New(2)];
    RunAppend(START, events, s3, ScheduleIdle(1));
    events := events + [ScheduleIdle(1)];
    t := Next(s3, ScheduleIdle(1));
  }

  /** With idle bottom halves a pop can lose one that is not idle: the last poll
      calls the idle one, does not count it, and its callback schedules a bottom
      half that the poll has already passed. */
  lemma IdlePopLoses() returns (events: seq<Event>, t: State, b: Id)
    ensures Run(START, events, t) && Enabled(t, PopEnd(3))
    ensures b in Top(t).bhs && b in t.flags && Runnable(t.flags[b]) && !t.flags[b].idle
  {
    hide Run;
    var s4: State;
    events, s4 := IdleBegins();
    RunAppend(START, events, s4, PopBegin);
    events := events + [PopBegin];
    var s5 := Next(s4, PopBegin);
    RunAppend(START, events, s5, Visit);
    events := events + [Visit];
    var s6 := Next(s5, Visit);
    RunAppend(START, events, s6, Visit);
    events := events + [Visit];
    var s7 := Next(s6, Visit);
    assert Top(s7).mode == Polling(0, false, true, true);
    RunAppend(START, events, s7, Schedule(2));
    events := events + [Schedule(2)];
    var s8 := Next(s7, Schedule(2));
    RunAppend(START, events, s8, Return);
    events := events + [Return];
    t, b := Next(s8, Return), 2;
  }

  // ------------------------------------------- exactly when a pop loses nothing

  function Others(s: State): set<Id>
    requires s.stack != []
  {
    s.flags.Keys - set b | b in Top(s).bhs
  }

  /** The current context goes on, scheduling none of its bottom halves as idle, and
      comes to its pop. */
  ghost predicate ComesToPop(s: State, events: seq<Event>, t: State, id: Id)
    requires s.stack != []
  {
    Within(s, events, t, |s.stack| - 1, Others(s)) && |t.stack| == |s.stack| && Enabled(t, PopEnd(id))
  }

  lemma WithinAppend(s: State, events: seq<Event>, t: State, e: Event, n: nat, known: set<Id>)
    requires Within(s, events, t, n, known) && Enabled(t, e) && |Next(t, e).stack| > n
    requires e.ScheduleIdle? ==> e.id in known
    ensures Within(s, events + [e], Next(t, e), n, known)
  {
    hide Run, StaysAbove, Enabled, Next;
    RunAppend(s, events, t, e);
    AboveAppend(s, events, t, e, n);
  }

  /** The bottom halves of a list are cancelled, but for one. */
  lemma {:induction false} CancelOthers(s: State, events: seq<Event>, u: State, n: nat, known: set<Id>,
                                        bhs: seq<Id>, b: Id)
    returns (more: seq<Event>, t: State)
    requires Within(s, events, u, n, known) && CodeRuns(u) && |u.stack| > n && Known(u, bhs) && b in u.flags
    ensures Within(s, more, t, n, known) && t.stack == u.stack && t.flags.Keys == u.flags.Keys
    ensures t.flags[b] == u.flags[b]
    ensures forall c :: c in u.flags && c != b && (c in bhs || !u.flags[c].scheduled) ==> !t.flags[c].scheduled
    decreases |bhs|
  {
    hide Within;
    more, t := events, u;
    if bhs != [] {
      if bhs[0] != b {
        WithinAppend(s, events, u, Cancel(bhs[0]), n, known);
        more, t := events + [Cancel(bhs[0])], Next(u, Cancel(bhs[0]));
      }
      more, t := CancelOthers(s, more, t, n, known, bhs[1..], b);
    }
  }

  /** Visits that find nothing to call. */
  lemma {:induction false} PassBy(s: State, events: seq<Event>, u: State, n: nat, known: set<Id>, left: nat)
    returns (more: seq<Event>, t: State)
    requires Within(s, events, u, n, known) && Scanning(u) && |u.stack| > n && left <= Top(u).mode.left
    requires forall i :: |Top(u).bhs| - Top(u).mode.left <= i < |Top(u).bhs| - left ==>
      Top(u).bhs[i] in u.flags && !Runnable(u.flags[Top(u).bhs[i]])
    ensures Within(s, more, t, n, known) && t == SetTop(u, Top(u).(mode := Top(u).mode.(left := left)))
    decreases Top(u).mode.left
  {
    hide Within;
    more, t := events, u;
    if left < Top(u).mode.left {
      WithinAppend(s, events, u, Visit, n, known);
      more, t := PassBy(s, events + [Visit], Next(u, Visit), n, known, left);
    }
  }

  lemma FreshId(ids: set<Id>) returns (id: Id)
    ensures id !in ids
  {
    id := 0;
    var seen: set<Id> := {};
    while id in ids
      invariant seen <= ids && (forall i :: i in seen <==> 0 <= i < id) && |seen| == id
      decreases |ids - seen|
    {
      assert id in ids - seen;
      assert ids - (seen + {id}) == (ids - seen) - {id};
      seen, id := seen + {id}, id + 1;
    }
  }

  /** A context about to be popped: x heads its list and is not scheduled; behind
      it b alone is runnable, as an idle one, and its first place is j. */
  ghost predicate Ripe(u: State, x: Id, b: Id, j: nat) {
    && |u.stack| > 1 && Top(u).mode.Ready? && Known(u, Top(u).bhs)
    && 0 < j < |Top(u).bhs| && Top(u).bhs[0] == x && Top(u).bhs[j] == b
    && (forall i :: 0 < i < |Top(u).bhs| ==> Top(u).bhs[i] != x)
    && (forall i :: 0 < i < j ==> Top(u).bhs[i] != b)
    && RunnableIdle(u.flags[b]) && !u.flags[x].deleted && !u.flags[x].scheduled
    && (forall c :: c in Top(u).bhs && c != b ==> !u.flags[c].scheduled)
  }

  lemma {:induction false} FirstAt(bhs: seq<Id>, b: Id) returns (j: nat)
    requires b in bhs
    ensures j < |bhs| && bhs[j] == b && forall i :: 0 <= i < j ==> bhs[i] != b
  {
    j := 0;
    if bhs[0] != b {
      j := FirstAt(bhs[1..], b);
      j := j + 1;
    }
  }

  /** The poll of that pop comes to b. */
  lemma RipeReached(s: State, events: seq<Event>, u: State, n: nat, known: set<Id>, x: Id, b: Id, j: nat)
    returns (more: seq<Event>)
    requires Within(s, events, u, n, known) && |u.stack| > n && Ripe(u, x, b, j)
    ensures Within(s, more, SetTop(u, Top(u).(mode := Polling(|Top(u).bhs| - j, false, true, false))), n, known)
  {
    hide Within;
    var t;
    WithinAppend(s, events, u, PopBegin, n, known);
    more, t := PassBy(s, events + [PopBegin], Next(u, PopBegin), n, known, |Top(u).bhs| - j);
    assert t.stack == u.stack[|u.stack| - 1 := Top(t)];
  }

  /** It calls b, whose callback schedules x, already passed, and the poll ends. */
  lemma RipeLoses(s: State, events: seq<Event>, u: State, n: nat, known: set<Id>, x: Id, b: Id, j: nat)
    returns (more: seq<Event>, t: State)
    requires Within(s, events, u, n, known) && |u.stack| > n && Ripe(u, x, b, j)
    ensures Within(s, more, t, n, known) && |t.stack| == |u.stack| && Scanning(t)
    ensures Top(t).mode == Polling(0, false, true, false)
    ensures x in Top(t).bhs && x in t.flags && Runnable(t.flags[x])
  {
    hide Within;
    var bhs := Top(u).bhs;
    more := RipeReached(s, events, u, n, known, x, b, j);
    t := SetTop(u, Top(u).(mode := Polling(|bhs| - j, false, true, false)));
    WithinAppend(s, more, t, Visit, n, known);
    more, t := more + [Visit], Next(t, Visit);
    WithinAppend(s, more, t, Schedule(x), n, known);
    more, t := more + [Schedule(x)], Next(t, Schedule(x));
    WithinAppend(s, more, t, Return, n, known);
    more, t := more + [Return], Next(t, Return);
    more, t := PassBy(s, more, t, n, known, 0);
  }

  /** A bottom half waiting as an idle one, and code that makes a new one x: the pop
      can lose x. */
  lemma IdleLoses(s: State, b: Id) returns (events: seq<Event>, t: State, id: Id)
    requires |s.stack| > 1 && Top(s).mode.Ready? && Known(s, Top(s).bhs)
    requires b in Top(s).bhs && RunnableIdle(s.flags[b])
    ensures ComesToPop(s, events, t, id) && !NothingRunnable(t, Top(t).bhs)
  {
    var n, known := |s.stack| - 1, Others(s);
    assert Within(s, [], s, n, known);
    hide Within;
    var u;
    events, u := CancelOthers(s, [], s, n, known, Top(s).bhs, b);
    var x := FreshId(u.flags.Keys);
    WithinAppend(s, events, u, New(x), n, known);
    events, u := events + [New(x)], Next(u, New(x));
    var j := FirstAt(Top(u).bhs, b);
    events, t := RipeLoses(s, events, u, n, known, x, b, j);
    id := FreshId(t.flags.Keys);
  }

  /** Exactly when a context can be popped without loss: however it goes on, its pop
      leaves nothing behind that was to be called, if and only if none of its bottom
      halves is waiting as an idle one. */
  lemma PopSafeIff(s: State)
    requires |s.stack| > 1 && Top(s).mode.Ready? && Known(s, Top(s).bhs)
    ensures (forall events, t, id :: ComesToPop(s, events, t, id) ==> NothingRunnable(t, Top(t).bhs))
      <==> (forall b :: b in Top(s).bhs ==> !RunnableIdle(s.flags[b]))
  {
    hide Within;
    if forall b :: b in Top(s).bhs ==> !RunnableIdle(s.flags[b]) {
      assert ScanInv(s, |s.stack| - 1, Others(s));
      forall events, t, id | ComesToPop(s, events, t, id) ensures NothingRunnable(t, Top(t).bhs) {
        PopLeavesNothing(s, events, t, |s.stack| - 1, Others(s), id);
      }
    } else {
      var b :| b in Top(s).bhs && RunnableIdle(s.flags[b]);
      var _, _, _ := IdleLoses(s, b);
    }
  }

  // --------------------------------------------------- a poll misses nothing

  /** Context n is being polled and the bottom half at position `pos` from the end
      of its list, still to be visited, is runnable. */
  ghost predicate Due(s: State, n: nat, id: Id, pos: nat) {
    && n < |s.stack| && s.stack[n].mode.Polling? && s.stack[n].mode.left <= |s.stack[n].bhs|
    && 0 < pos <= s.stack[n].mode.left && s.stack[n].bhs[|s.stack[n].bhs| - pos] == id
    && id in s.flags && Runnable(s.flags[id])
  }

  /** Along the run, the poll of context n goes on and nobody cancels or deletes id. */
  ghost predicate Undisturbed(s: State, events: seq<Event>, n: nat, id: Id)
    decreases |events|
  {
    |s.stack| > n &&
    (events == [] ||
      (Enabled(s, events[0])
        && !(|s.stack| == n + 1 && (events[0].PollEnd? || events[0].PopEnd?))
        && events[0] != Cancel(id) && events[0] != Delete(id)
        && Undisturbed(Next(s, events[0]), events[1..], n, id)))
  }

  lemma DueStep(s: State, e: Event, n: nat, id: Id, pos: nat)
    requires Due(s, n, id, pos) && Enabled(s, e) && e != Cancel(id) && e != Delete(id)
    requires !(|s.stack| == n + 1 && (e.PollEnd? || e.PopEnd?))
    ensures Due(Next(s, e), n, id, pos) || id in Runs(s, e)
  {
    hide Keep, Known;
  }

  /** A bottom half that is scheduled when a poll has not reached it yet, and that
      nobody cancels or deletes, has been called once the poll is past it. */
  lemma {:induction false} PollRunsScheduled(s: State, events: seq<Event>, t: State, n: nat, id: Id, pos: nat)
    requires Due(s, n, id, pos) && Run(s, events, t) && Undisturbed(s, events, n, id)
    requires n < |t.stack| && t.stack[n].mode.Polling? && t.stack[n].mode.left < pos
    ensures id in Ran(s, events)
    decreases |events|
  {
    hide Enabled, Next, Runs;
    DueStep(s, events[0], n, id, pos);
    if id !in Runs(s, events[0]) {
      PollRunsScheduled(Next(s, events[0]), events[1..], t, n, id, pos);
    }
  }

  /** A whole qemu_bh_poll calls every bottom half that was to be called when it began
      and that nobody cancels or deletes meanwhile. */
  lemma WholePollRuns(s: State, events: seq<Event>, t: State, id: Id)
    requires Enabled(s, Poll) && id in Top(s).bhs && id in s.flags && Runnable(s.flags[id])
    requires Run(Next(s, Poll), events, t) && Undisturbed(Next(s, Poll), events, |s.stack| - 1, id)
    requires |t.stack| == |s.stack| && Enabled(t, PollEnd)
    ensures id in Ran(Next(s, Poll), events)
  {
    hide Run, Undisturbed, Ran;
    var i :| 0 <= i < |Top(s).bhs| && Top(s).bhs[i] == id;
    PollRunsScheduled(Next(s, Poll), events, t, |s.stack| - 1, id, |Top(s).bhs| - i);
  }
}
