// Completion of bdrv_aio_multiwrite (Main/linux/block.c): one control block counts
// the submitted requests plus a dummy, and the last completion runs the callers'
// callbacks and frees it, however completions interleave with submissions.

module Multiwrite {
  import opened Common

  /** A callback that ran: whose it is, and the result it was given. */
  datatype Call = Call(request: nat, result: int)

  /** MultiwriteCB. `calls` is the log of callbacks run from it. */
  datatype Mcb = Mcb(error: int, numRequests: int, numCallbacks: nat, freed: bool, calls: seq<Call>)

  /** Where bdrv_aio_multiwrite is: about to submit request `next`; inside
      bdrv_aio_writev for it (the driver may have started it already); returned. */
  datatype Phase = Submitting(next: nat) | Calling(next: nat, started: bool) | Returned(result: int)

  /** `total` requests remain after merging; `outstanding` of those started have
      not completed; `results` lists what multiwrite_cb was told, in order. */
  datatype State = State(mcb: Mcb, phase: Phase, total: nat, outstanding: nat, results: seq<int>)

  datatype Event =
    | Submit           // num_requests++, then the call of bdrv_aio_writev
    | Start            // inside the call the driver accepts the request
    | Accept           // the call returns a non-NULL acb
    | Refuse           // the call returns NULL
    | Finish           // all submitted: complete the dummy request and return 0
    | Complete(ret: int)  // the driver completes one started request

  function UserCalls(n: nat, error: int): (c: seq<Call>)
    ensures |c| == n
  {
    seq(n, (i: nat) => Call(i, error))
  }

  /** multiwrite_cb */
  function Callback(m: Mcb, ret: int): Mcb {
    var error := if ret < 0 && m.error == 0 then ret else m.error;
    var left := m.numRequests - 1;
    if left == 0 then Mcb(error, left, m.numCallbacks, true, m.calls + UserCalls(m.numCallbacks, error))
    else Mcb(error, left, m.numCallbacks, m.freed, m.calls)
  }

  function Told(s: State, ret: int): State {
    s.(mcb := Callback(s.mcb, ret), results := s.results + [ret])
  }

  predicate Enabled(s: State, e: Event) {
    match e
    case Submit => s.phase.Submitting? && s.phase.next < s.total
    case Start => s.phase.Calling? && !s.phase.started
    case Accept => s.phase.Calling? && s.phase.started
    case Refuse => s.phase.Calling? && !s.phase.started
    case Finish => s.phase.Submitting? && s.phase.next == s.total
    case Complete(_) => s.outstanding > 0
  }

  function Next(s: State, e: Event): State
    requires Enabled(s, e)
  {
    match e
    case Submit =>
      s.(mcb := s.mcb.(numRequests := s.mcb.numRequests + 1), phase := Calling(s.phase.next, false))
    case Start => s.(phase := Calling(s.phase.next, true), outstanding := s.outstanding + 1)
    case Accept => s.(phase := Submitting(s.phase.next + 1))
    case Refuse =>
      if s.phase.next == 0 then s.(mcb := s.mcb.(freed := true), phase := Returned(-1))
      else Told(Told(s, -EIO), 0).(phase := Returned(0))
    case Finish => Told(s, 0).(phase := Returned(0))
    case Complete(ret) => Told(s, ret).(outstanding := s.outstanding - 1)
  }

  /** After the control block is set up for n callers and merging left total. */
  function Initial(n: nat, total: nat): State {
    State(Mcb(0, 1, n, false, []), Submitting(0), total, 0, [])
  }

  ghost predicate Run(s: State, events: seq<Event>, t: State)
    decreases |events|
  {
    if events == [] then t == s
    else Enabled(s, events[0]) && Run(Next(s, events[0]), events[1..], t)
  }

  /** The first failure multiwrite_cb was told about. */
  function FirstError(results: seq<int>): int {
    if results == [] then 0
    else
      var before := FirstError(results[..|results| - 1]);
      var ret := results[|results| - 1];
      if before == 0 && ret < 0 then ret else before
  }

  /** The dummy keeps one count until the function stops submitting, the request
      being submitted one until the driver has it. */
  function Held(p: Phase): int {
    match p
    case Submitting(_) => 1
    case Calling(_, started) => if started then 1 else 2
    case Returned(_) => 0
  }

  ghost predicate Inv(s: State) {
    && s.mcb.error == FirstError(s.results)
    && (s.phase != Returned(-1) ==> s.mcb.numRequests == s.outstanding + Held(s.phase))
    && (s.phase == Returned(-1) ==> s.mcb.freed && s.mcb.calls == [] && s.outstanding == 0)
    && (s.phase == Returned(0) && s.outstanding == 0 ==>
         s.mcb.freed && s.mcb.calls == UserCalls(s.mcb.numCallbacks, s.mcb.error))
    && (s.phase.Returned? ==> s.phase.result in {0, -1})
    && (!s.phase.Returned? || (s.phase == Returned(0) && s.outstanding > 0) ==> !s.mcb.freed && s.mcb.calls == [])
    && ((s.phase.Submitting? || s.phase.Calling?) && s.phase.next == 0 && !(s.phase.Calling? && s.phase.started) ==>
         s.outstanding == 0 && s.results == [])
  }

  lemma FirstErrorAppend(results: seq<int>, ret: int)
    ensures FirstError(results + [ret])
         == if FirstError(results) == 0 && ret < 0 then ret else FirstError(results)
  {
    assert (results + [ret])[..|results|] == results;
  }

  /** What that is: zero if nothing failed, otherwise the failure that nothing but
      successes came before. */
  lemma {:induction false} FirstErrorIs(results: seq<int>)
    ensures FirstError(results) == 0 <==> forall i :: 0 <= i < |results| ==> results[i] >= 0
    ensures FirstError(results) != 0 ==> exists i ::
      && 0 <= i < |results| && FirstError(results) == results[i] < 0
      && forall j :: 0 <= j < i ==> results[j] >= 0
  {
    if results != [] {
      var n := |results| - 1;
      FirstErrorIs(results[..n]);
      if FirstError(results[..n]) != 0 {
        var i :| 0 <= i < n && FirstError(results[..n]) == results[..n][i] < 0
          && forall j :: 0 <= j < i ==> results[..n][j] >= 0;
        assert FirstError(results) == results[i] < 0 && forall j :: 0 <= j < i ==> results[j] == results[..n][j];
      } else {
        assert forall j :: 0 <= j < n ==> results[j] == results[..n][j];
      }
    }
  }

  /** Every step keeps the invariant, and touches the control block only while it
      is allocated. */
  lemma StepKeeps(s: State, e: Event)
    requires Inv(s) && Enabled(s, e)
    ensures Inv(Next(s, e)) && !s.mcb.freed
    ensures Next(s, e).mcb.numCallbacks == s.mcb.numCallbacks
  {
    hide FirstError;
    match e
    case Refuse =>
      FirstErrorAppend(s.results, -EIO);
      FirstErrorAppend(s.results + [-EIO], 0);
      assert [] + UserCalls(s.mcb.numCallbacks, 0) == UserCalls(s.mcb.numCallbacks, 0);
    case Finish => FirstErrorAppend(s.results, 0);
    case Complete(ret) => FirstErrorAppend(s.results, ret);
    case _ =>
  }

  lemma {:induction false} RunKeeps(s: State, events: seq<Event>, t: State)
    requires Inv(s) && Run(s, events, t)
    ensures Inv(t) && t.mcb.numCallbacks == s.mcb.numCallbacks
    decreases |events|
  {
    hide Inv, Next;
    if events != [] {
      StepKeeps(s, events[0]);
      RunKeeps(Next(s, events[0]), events[1..], t);
    }
  }

  /** The law of multiwrite. For every interleaving:
      - while requests are outstanding or being submitted no callback has run, and
        the control block is allocated (so no completion touches freed memory);
      - once 0 is returned and all submitted requests have completed, each of the n
        callbacks has run exactly once, with the first recorded error;
      - if -1 is returned, no callback has run and none ever will. */
  lemma EveryCallbackOnce(n: nat, total: nat, events: seq<Event>, t: State)
    requires Run(Initial(n, total), events, t)
    ensures t.phase == Returned(0) && t.outstanding == 0 ==>
      t.mcb.calls == UserCalls(n, FirstError(t.results)) && t.mcb.freed
    ensures t.phase == Returned(-1) ==> t.mcb.calls == [] && forall e :: !Enabled(t, e)
    ensures !t.phase.Returned? || t.outstanding > 0 ==> t.mcb.calls == [] && !t.mcb.freed
  {
    RunKeeps(Initial(n, total), events, t);
  }

  /** -1 is returned exactly when the very first request is refused; a later
      refusal is reported to the callbacks as a failure. */
  lemma {:induction false} EarlyFailOnly(s: State, events: seq<Event>, t: State)
    requires Inv(s) && !s.phase.Returned? && Run(s, events, t) && t.phase == Returned(-1)
    ensures s.phase.next == 0 && t.results == [] && t.outstanding == 0
    decreases |events|
  {
    hide FirstError;
    var u := Next(s, events[0]);
    StepKeeps(s, events[0]);
    if u.phase.Returned? {
      StaysReturned(u, events[1..], t);
    } else {
      EarlyFailOnly(u, events[1..], t);
    }
  }

  lemma {:induction false} StaysReturned(s: State, events: seq<Event>, t: State)
    requires Inv(s) && s.phase.Returned? && Run(s, events, t)
    ensures t.phase == s.phase && (s.phase == Returned(-1) ==> t == s)
    decreases |events|
  {
    hide FirstError;
    if events != [] {
      StepKeeps(s, events[0]);
      StaysReturned(Next(s, events[0]), events[1..], t);
    }
  }

  /** After 0 was returned, however the outstanding requests complete: in the end each
      callback has run once, with the first error. */
  lemma LaterCompletions(s: State, more: seq<Event>, u: State)
    requires Inv(s) && s.phase == Returned(0) && Run(s, more, u)
    ensures u.phase == Returned(0)
    ensures u.outstanding == 0 ==> u.mcb.freed && u.mcb.calls == UserCalls(s.mcb.numCallbacks, FirstError(u.results))
    ensures u.outstanding > 0 ==> !u.mcb.freed && u.mcb.calls == []
  {
    RunKeeps(s, more, u);
    StaysReturned(s, more, u);
  }

  // ---------------------------------------------------------------- the code

  class MultiwriteCB {
    var error: int
    var numRequests: int
    var numCallbacks: nat
    var freed: bool
    var calls: seq<Call>

    function View(): Mcb
      reads this
    {
      Mcb(error, numRequests, numCallbacks, freed, calls)
    }

    constructor (n: nat)
      ensures View() == Mcb(0, 1, n, false, [])
    {
      error, numRequests, numCallbacks, freed, calls := 0, 1, n, false, [];
    }

    /** multiwrite_user_cb */
    method UserCallbacks()
      modifies this`calls
      ensures calls == old(calls) + UserCalls(numCallbacks, error)
    {
      var i := 0;
      assert calls + UserCalls(0, error) == calls;
      while i < numCallbacks
        invariant 0 <= i <= numCallbacks && calls == old(calls) + UserCalls(i, error)
      {
        assert UserCalls(i + 1, error) == UserCalls(i, error) + [Call(i, error)];
        calls := calls + [Call(i, error)];
        i := i + 1;
      }
    }

    /** multiwrite_cb */
    method Complete(ret: int)
      requires !freed
      modifies this
      ensures View() == Callback(old(View()), ret)
    {
      if ret < 0 && error == 0 {
        error := ret;
      }
      numRequests := numRequests - 1;
      if numRequests == 0 {
        UserCallbacks();
        freed := true;
      }
    }
  }

  /** The submission loop of bdrv_aio_multiwrite against a driver that may refuse
      any request and complete started ones at any time, also before the call that
      starts them returns. The result is a run of the state machine in which the
      first `accepted` requests were started. */
  method Submission(n: nat, total: nat)
    returns (result: int, accepted: nat, mcb: MultiwriteCB, ghost events: seq<Event>, ghost t: State)
    ensures Run(Initial(n, total), events, t) && t.phase == Returned(result) && mcb.View() == t.mcb && fresh(mcb)
    ensures Inv(t) && t.mcb.numCallbacks == n
    ensures accepted <= total && (result == -1 ==> accepted == 0) && t.outstanding <= accepted
    ensures result == 0 && accepted < total ==> mcb.error < 0 && -EIO in t.results
  {
    hide UserCalls;
    mcb := new MultiwriteCB(n);
    ghost var s0 := Initial(n, total);
    t, events := s0, [];
    var outstanding: nat := 0;
    accepted := 0;
    while accepted < total
      invariant accepted <= total && mcb.View() == t.mcb && t.outstanding == outstanding && t.total == total
      invariant t.phase == Submitting(accepted) && Inv(t) && Run(s0, events, t) && fresh(mcb)
      invariant outstanding <= accepted
    {
      hide Inv;
      StepKeeps(t, Submit);
      t, events := Extend(s0, events, t, Submit);
      mcb.numRequests := mcb.numRequests + 1;
      var acb := *;
      if acb {
        StepKeeps(t, Start);
        t, events := Extend(s0, events, t, Start);
        outstanding := outstanding + 1;
      }
      outstanding, events, t := Completions(mcb, outstanding, s0, events, t);
      if !acb {
        ghost var refused := t;
        StepKeeps(t, Refuse);
        t, events := Extend(s0, events, t, Refuse);
        RunKeeps(s0, events, t);
        if accepted == 0 {
          mcb.freed := true;
          return -1, 0, mcb, events, t;
        }
        LateRefusal(refused);
        assert t.results[|refused.results|] == -EIO;
        mcb.Complete(-EIO);
        mcb.Complete(0);
        return 0, accepted, mcb, events, t;
      }
      StepKeeps(t, Accept);
      t, events := Extend(s0, events, t, Accept);
      accepted := accepted + 1;
    }
    StepKeeps(t, Finish);
    t, events := Extend(s0, events, t, Finish);
    RunKeeps(s0, events, t);
    mcb.Complete(0);
    return 0, accepted, mcb, events, t;
  }

  /** A refusal after the first request: 0 is returned, and -EIO is what the callbacks
      are given unless a request had failed before. */
  lemma LateRefusal(s: State)
    requires Inv(s) && Enabled(s, Refuse) && s.phase.next > 0
    ensures var t := Next(s, Refuse);
      && t.phase == Returned(0) && t.results == s.results + [-EIO, 0]
      && t.mcb.error == (if s.mcb.error == 0 then -EIO else s.mcb.error) < 0
  {
    FirstErrorIs(s.results);
  }

  lemma Extend(s0: State, events: seq<Event>, s: State, e: Event) returns (t: State, more: seq<Event>)
    requires Run(s0, events, s) && Enabled(s, e)
    ensures t == Next(s, e) && more == events + [e] && Run(s0, more, t)
  {
    t, more := Next(s, e), events + [e];
    RunAppend(s0, events, s, e);
  }

  lemma {:induction false} RunAppend(s0: State, events: seq<Event>, s: State, e: Event)
    requires Run(s0, events, s) && Enabled(s, e)
    ensures Run(s0, events + [e], Next(s, e))
    decreases |events|
  {
    if events == [] {
      assert ([] + [e])[1..] == [];
    } else {
      assert (events + [e])[1..] == events[1..] + [e];
      RunAppend(Next(s0, events[0]), events[1..], s, e);
    }
  }

  /** Any number of started requests complete, with any results. */
  method Completions(mcb: MultiwriteCB, started: nat, ghost s0: State, ghost before: seq<Event>, ghost s: State)
    returns (outstanding: nat, ghost events: seq<Event>, ghost t: State)
    requires mcb.View() == s.mcb && s.outstanding == started && s.phase.Calling? && Inv(s) && Run(s0, before, s)
    modifies mcb
    ensures mcb.View() == t.mcb && t.outstanding == outstanding && t.phase == s.phase && Inv(t)
    ensures Run(s0, events, t) && t.total == s.total && outstanding <= started
  {
    outstanding, events, t := started, before, s;
    var more := *;
    while more && outstanding > 0
      invariant mcb.View() == t.mcb && t.outstanding == outstanding && t.phase == s.phase && Inv(t)
      invariant Run(s0, events, t) && t.total == s.total && outstanding <= started
      decreases outstanding
    {
      var ret: int := *;
      StepKeeps(t, Complete(ret));
      mcb.Complete(ret);
      t, events := Extend(s0, events, t, Complete(ret));
      outstanding := outstanding - 1;
      more := *;
    }
  }
}
