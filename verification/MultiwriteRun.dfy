// bdrv_aio_multiwrite (Main/linux/block.c) as a whole: merging, submission, and what
// the caller finds when it returns.

module MultiwriteRun {
  import opened Common
  import opened Wire
  import Merge
  import opened Multiwrite

  /** Every request gets this error. */
  method FailAll(errors: array<int>, error: int)
    modifies errors
    ensures forall i :: 0 <= i < errors.Length ==> errors[i] == error
  {
    var i := 0;
    while i < errors.Length
      invariant 0 <= i <= errors.Length && forall j :: 0 <= j < i ==> errors[j] == error
    {
      errors[i] := error;
      i := i + 1;
    }
  }

  /** bdrv_aio_multiwrite. `errors` are the error fields of the requests, `started`
      the requests the driver has accepted, in order, and `rs` the batch as sorted.
      - Without a medium it fails, every request saying so, and nothing is written.
      - An empty batch succeeds without a control block.
      - After -1 no request was started, no callback has run or will, and every
        request has -EIO.
      - After 0 either all callbacks have run, once for each of the batch's requests,
        or none has and the control block waits for requests still outstanding. The
        requests started are the merged ones in order, all of them unless -EIO has been
        reported, and an error is recorded for the callbacks.
      - However those outstanding after 0 complete, in the end every callback has run
        once, with the first error, and not before.
      - If all were started and merging lost no tail, they write what the batch
        writes, but for approved gaps, which no request covers. */
  method AioMultiwrite(inserted: bool, reqs: array<Merge.Request>, errors: array<int>, m: seq<byte>, hook: Merge.Hook)
    returns (result: int, mcb: MultiwriteCB?, started: seq<Merge.Request>, heap: seq<byte>,
             ghost rs: seq<Merge.Request>, ghost t: State)
    requires errors.Length == reqs.Length
    modifies reqs, errors
    ensures mcb != null <==> inserted && reqs.Length > 0
    ensures !inserted ==> result == -1 && forall i :: 0 <= i < errors.Length ==> errors[i] == -ENOMEDIUM
    ensures inserted && reqs.Length == 0 ==> result == 0
    ensures mcb == null ==> started == [] && reqs[..] == old(reqs[..])
    ensures mcb != null ==> rs != [] && Merge.Sorted(rs) && multiset(rs) == multiset(old(reqs[..]))
    ensures mcb != null ==> result in {0, -1} && started <= Merge.MergeAll(hook, m, rs).outs
    ensures mcb != null && result == -1 ==> started == [] && mcb.calls == [] && mcb.freed
    ensures mcb != null && result == -1 ==> forall i :: 0 <= i < errors.Length ==> errors[i] == -EIO
    ensures mcb != null && result == 0 ==>
      && mcb.calls == (if mcb.freed then UserCalls(reqs.Length, mcb.error) else [])
      && (mcb.freed || mcb.numRequests > 0)
      && (started == Merge.MergeAll(hook, m, rs).outs || (mcb.error < 0 && -EIO in t.results))
    ensures mcb != null ==> mcb.View() == t.mcb && t.phase == Returned(result) && t.outstanding <= |started|
    ensures mcb != null && result == 0 ==> forall more, u :: Run(t, more, u) ==>
      (if u.outstanding == 0 then u.mcb.freed && u.mcb.calls == UserCalls(reqs.Length, FirstError(u.results))
       else !u.mcb.freed && u.mcb.calls == [])
    ensures result == 0 ==> multiset(errors[..]) == multiset(old(errors[..]))
    ensures mcb != null && started == Merge.MergeAll(hook, m, rs).outs && Merge.AllFit(m, rs) && Merge.NoLostTail(rs) ==>
      && Merge.AllFit(heap, started)
      && forall p :: p >= 0 && !Merge.InGaps(Merge.MergeAll(hook, m, rs).gaps, p) ==>
        Merge.ReadBack(heap, started, p) == Merge.ReadBack(m, rs, p)
  {
    mcb, started, heap := null, [], m;
    t := Initial(0, 0);
    if !inserted {
      rs := [];
      FailAll(errors, -ENOMEDIUM);
      return -1, mcb, started, heap, rs, t;
    }
    if reqs.Length == 0 {
      rs := [];
      assert reqs[..] == [];
      return 0, mcb, started, heap, rs, t;
    }
    var num;
    num, heap, rs := Merge.MultiwriteMerge(reqs, m, hook);
    ghost var events;
    var accepted;
    result, accepted, mcb, events, t := Submission(reqs.Length, num);
    started := reqs[..accepted];
    if result == -1 {
      FailAll(errors, -EIO);
    }
    Effect(hook, m, rs);
    if result == 0 {
      forall more, u | Run(t, more, u)
        ensures if u.outstanding == 0 then u.mcb.freed && u.mcb.calls == UserCalls(reqs.Length, FirstError(u.results))
                else !u.mcb.freed && u.mcb.calls == []
      {
        LaterCompletions(t, more, u);
      }
    }
  }

  lemma Effect(hook: Merge.Hook, m: seq<byte>, rs: seq<Merge.Request>)
    requires rs != [] && Merge.Sorted(rs)
    ensures Merge.AllFit(m, rs) && Merge.NoLostTail(rs) ==>
      var s := Merge.MergeAll(hook, m, rs);
      && Merge.AllFit(s.m, s.outs)
      && forall p :: p >= 0 && !Merge.InGaps(s.gaps, p) ==>
        Merge.ReadBack(s.m, s.outs, p) == Merge.ReadBack(m, rs, p)
  {
    if Merge.AllFit(m, rs) && Merge.NoLostTail(rs) {
      forall p: nat | !Merge.InGaps(Merge.MergeAll(hook, m, rs).gaps, p)
        ensures Merge.AllFit(Merge.MergeAll(hook, m, rs).m, Merge.MergeAll(hook, m, rs).outs)
        ensures Merge.ReadBack(Merge.MergeAll(hook, m, rs).m, Merge.MergeAll(hook, m, rs).outs, p)
             == Merge.ReadBack(m, rs, p)
      {
        Merge.MergePreserves(hook, m, rs, p);
      }
      Merge.MergePreserves(hook, m, rs, 0);
    }
  }
}
