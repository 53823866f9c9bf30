// The receiver follows the sender: whatever the guest writes between steps and
// wherever the rate limit cuts a stage, loading the stream of a complete
// migration leaves the destination with the source's memory.

module RamMigration {
  import opened Common
  import opened Wire
  import opened RamState
  import opened RamSweep
  import opened RamSort
  import opened RamCodec

  // ------------------------------------------------------------------- runs

  /** ram_save_block until `budget` calls are used up (the rate limit answers
      yes) or one returns 0. */
  ghost function Pump(s: Sender, budget: nat): (r: Saved)
    requires Ready(s)
    ensures Ready(r.s)
    decreases budget
  {
    if budget == 0 then Saved(s, [], 0)
    else
      SaveBlockProgress(s);
      var one := SaveBlock(s);
      if one.sent == 0 then one
      else
        var more := Pump(one.s, budget - 1);
        Saved(more.s, one.out + more.out, one.sent + more.sent)
  }

  /** Stage 3 ignores the rate limit: pages are sent until none is dirty. */
  ghost function Drain(s: Sender): (r: Saved)
    requires Ready(s)
    ensures Ready(r.s) && NoneDirty(r.s)
    decreases Remaining(s)
  {
    SaveBlockProgress(s);
    var one := SaveBlock(s);
    if one.sent == 0 then one
    else
      var more := Drain(one.s);
      Saved(more.s, one.out + more.out, one.sent + more.sent)
  }

  ghost predicate WritesFit(s: Sender, ws: seq<Write>) {
    forall i :: 0 <= i < |ws| ==> WriteFits(s, ws[i])
  }

  ghost function GuestWrites(s: Sender, ws: seq<Write>): (s': Sender)
    requires Ready(s) && WritesFit(s, ws)
    ensures Ready(s') && s'.blocks == s.blocks && s'.ps == s.ps && s'.mem.Keys == s.mem.Keys
    decreases |ws|
  {
    if ws == [] then s
    else
      WriteKeepsReady(s, ws[0]);
      GuestWrites(GuestWrite(s, ws[0]), ws[1..])
  }

  /** One stage-2 call, and what the guest wrote before it. */
  datatype Round = Round(writes: seq<Write>, budget: nat)

  datatype Trace = Trace(s: Sender, sections: seq<seq<byte>>)

  ghost predicate RoundsFit(s: Sender, rounds: seq<Round>) {
    forall i :: 0 <= i < |rounds| ==> WritesFit(s, rounds[i].writes)
  }

  ghost function Stage1(s: Sender, budget: nat): (t: Trace)
    requires Machine(s)
    ensures Ready(t.s) && t.s.ps == s.ps && t.s.mem == s.mem && t.s.blocks == SortBlocks(s.blocks)
  {
    StartIsReady(s);
    var s1 := StartStage1(s);
    var p := Pump(s1, budget);
    PumpKeeps(s1, budget);
    Trace(p.s, [Stage1Header(s1.ps, s1.blocks) + p.out + EOS_RECORD])
  }

  ghost function Stage2(t: Trace, rounds: seq<Round>): (t': Trace)
    requires Ready(t.s) && RoundsFit(t.s, rounds)
    ensures Ready(t'.s) && t'.s.ps == t.s.ps && t'.s.mem.Keys == t.s.mem.Keys
    ensures t'.s.blocks == t.s.blocks
    decreases |rounds|
  {
    if rounds == [] then t
    else
      var s1 := GuestWrites(t.s, rounds[0].writes);
      var p := Pump(s1, rounds[0].budget);
      PumpKeeps(s1, rounds[0].budget);
      Stage2(Trace(p.s, t.sections + [p.out + EOS_RECORD]), rounds[1..])
  }

  ghost function Stage3(t: Trace, budget: nat): (t': Trace)
    requires Ready(t.s)
  {
    var p := Pump(t.s, budget);
    var d := Drain(p.s);
    Trace(d.s, t.sections + [p.out + d.out + EOS_RECORD])
  }

  /** ram_load, called once for each section, reads each to its end. */
  function LoadAll(r: Receiver, sections: seq<seq<byte>>): Option<Receiver>
    requires r.ps > 0
    decreases |sections|
  {
    if sections == [] then Some(r)
    else
      var o := Load(r, sections[0]);
      if o.Step? && o.rest == [] then LoadAll(o.r, sections[1..]) else None
  }

  // -------------------------------------------------------- sender invariants

  /** Where the rate limit cuts makes no difference to what a number of calls sends and
      counts: a budget spent in two parts is the budget spent at once. */
  lemma {:induction false} PumpSplits(s: Sender, a: nat, b: nat)
    requires Ready(s)
    ensures Pump(s, a + b) == Both(Pump(s, a), Pump(Pump(s, a).s, b))
    decreases a
  {
    hide SaveBlock, Remaining, NoneDirty, Ready;
    SaveBlockProgress(s);
    PumpStep(s, a);
    PumpStep(s, a + b);
    if a > 0 {
      var one := SaveBlock(s);
      if one.sent == 0 {
        PumpStops(s, b);
      } else {
        PumpSplits(one.s, a - 1, b);
        hide Pump;
        var p, q := Pump(one.s, a - 1), Pump(Pump(one.s, a - 1).s, b);
        assert one.out + (p.out + q.out) == one.out + p.out + q.out;
      }
    } else {
      hide Pump;
      assert [] + Pump(s, b).out == Pump(s, b).out;
    }
  }

  /** q is what was sent after p. */
  function Both(p: Saved, q: Saved): Saved {
    Saved(q.s, p.out + q.out, p.sent + q.sent)
  }

  /** A call of ram_save_block, and the rest of the budget. */
  lemma PumpStep(s: Sender, budget: nat)
    requires Ready(s)
    ensures Ready(SaveBlock(s).s)
    ensures Pump(s, budget) ==
      if budget == 0 then Saved(s, [], 0)
      else if SaveBlock(s).sent == 0 then SaveBlock(s)
      else Both(SaveBlock(s), Pump(SaveBlock(s).s, budget - 1))
  {
    hide SaveBlock, Remaining, NoneDirty, Ready;
    SaveBlockProgress(s);
  }

  lemma PumpStops(s: Sender, b: nat)
    requires Ready(s) && SaveBlock(s).sent == 0
    ensures Pump(s, b) == Saved(s, [], 0)
  {
    SaveBlockProgress(s);
  }

  lemma StartIsReady(s: Sender)
    requires Machine(s)
    ensures Ready(StartStage1(s)) && AllDirty(StartStage1(s))
  {
    SortKeeps(s.blocks);
    var s1 := StartStage1(s);
    assert (0xff as bv8) & MIGRATION_DIRTY_FLAG != 0;
    forall b: nat, p: nat | IsSlot(s1.blocks, b, p)
      ensures IsDirty(s1, b, p)
    {
      var x := s1.blocks[b];
      assert x in s1.blocks && x.first <= x.first + p < x.first + x.pages;
      assert Covered(s1.blocks, x.first + p);
    }
  }

  lemma WriteKeepsReady(s: Sender, w: Write)
    requires Machine(s) && WriteFits(s, w)
    ensures Machine(GuestWrite(s, w))
    ensures Ready(s) ==> Ready(GuestWrite(s, w))
    ensures GuestWrite(s, w).mem.Keys == s.mem.Keys
  {
    var s' := GuestWrite(s, w);
    assert s.blocks[w.block] in s.blocks;
    forall x | x in s.blocks
      ensures x.id in s'.mem && |s'.mem[x.id]| == x.pages
      ensures forall p :: 0 <= p < x.pages ==> |s'.mem[x.id][p]| == s.ps
    {
    }
    assert (0xff as bv8) & MIGRATION_DIRTY_FLAG != 0;
  }

  lemma {:induction false} PumpKeeps(s: Sender, budget: nat)
    requires Ready(s)
    ensures var r := Pump(s, budget).s; r.ps == s.ps && r.blocks == s.blocks && r.mem == s.mem
    decreases budget
  {
    hide Ready, SaveBlock, Remaining, NoneDirty;
    if budget > 0 {
      SaveBlockProgress(s);
      var one := SaveBlock(s);
      if one.sent != 0 {
        PumpKeeps(one.s, budget - 1);
      }
    }
  }

  lemma {:induction false} DrainKeeps(s: Sender)
    requires Ready(s)
    ensures var r := Drain(s).s; r.ps == s.ps && r.blocks == s.blocks && r.mem == s.mem
    decreases Remaining(s)
  {
    hide Ready, SaveBlock, Remaining, NoneDirty;
    SaveBlockProgress(s);
    var one := SaveBlock(s);
    if one.sent != 0 {
      DrainKeeps(one.s);
    }
  }

  // ----------------------------------------------- receiver tracks sender

  /** Guest memory is what the blocks of the RAM list name. */
  ghost predicate Named(bs: seq<Block>, mem: Memory) {
    forall id :: id in mem ==> exists x :: x in bs && x.id == id
  }

  ghost predicate SameLayout(s: Sender, r: Receiver) {
    && r.ps == s.ps
    && r.mem.Keys == s.mem.Keys
    && forall id :: id in s.mem ==> |r.mem[id]| == |s.mem[id]|
  }

  /** The invariant of a migration: the receiver remembers the block the sender
      sent last, and every clean page already has the source's contents. */
  ghost predicate InStep(s: Sender, r: Receiver) {
    && Ready(s) && SameLayout(s, r)
    && (s.last.Some? ==> r.block == Some(s.blocks[s.last.value].id))
    && forall b: nat, p: nat :: IsSlot(s.blocks, b, p) && s.blocks[b] in s.blocks && !IsDirty(s, b, p) ==>
         r.mem[s.blocks[b].id][p] == s.mem[s.blocks[b].id][p]
  }

  /** The receiver after the record that one call of ram_save_block sends. */
  ghost function After(s: Sender, r: Receiver): Receiver
    requires InStep(s, r) && SaveBlock(s).sent != 0
  {
    var s' := SaveBlock(s).s;
    var id := s'.blocks[s'.last.value].id;
    r.(mem := Store(r.mem, id, s'.lastPage, s.mem[id][s'.lastPage]), block := Some(id))
  }

  lemma IdsDiffer(s: Sender, b: nat, c: nat)
    requires Machine(s) && b < |s.blocks| && c < |s.blocks| && b != c
    ensures s.blocks[b].id != s.blocks[c].id
  {
    ApartAt(s.blocks, b, c);
  }

  /** The record ram_save_block sends is read back as the page it sent. */
  lemma SaveBlockLoads(s: Sender, r: Receiver, rest: seq<byte>)
    requires InStep(s, r) && SaveBlock(s).sent != 0
    ensures LoadOne(r, SaveBlock(s).out + rest) == Step(After(s, r), rest, false)
  {
    var s' := SaveBlock(s).s;
    var b, p := s'.last.value, s'.lastPage;
    var x := s.blocks[b];
    assert x in s.blocks;
    var page := s.mem[x.id][p];
    assert SaveBlock(s).out == PageRecord(s.ps, s.last == Some(b), x.id, p, page);
    IndexBound(s.blocks, b, p);
    hide Sweep, PageRecord, LoadOne, Store;
    PageRecordLoads(r, s.last == Some(b), x.id, p, page, rest, TotalPages(s.blocks));
  }

  /** One call of ram_save_block, read back, keeps the two ends in step. */
  lemma SaveBlockInStep(s: Sender, r: Receiver)
    requires InStep(s, r) && SaveBlock(s).sent != 0
    ensures InStep(SaveBlock(s).s, After(s, r))
  {
    SaveBlockProgress(s);
    var s', r' := SaveBlock(s).s, After(s, r);
    var b, p := s'.last.value, s'.lastPage;
    assert s.blocks[b] in s.blocks;
    assert s'.dirty == Clear(s.dirty, s.blocks[b].first + p);
    hide SaveBlock, Clear;
    forall c: nat, q: nat | IsSlot(s'.blocks, c, q) && s'.blocks[c] in s'.blocks && !IsDirty(s', c, q)
      ensures r'.mem[s'.blocks[c].id][q] == s'.mem[s'.blocks[c].id][q]
    {
      ClearKeepsOthers(s, s', b, p, c, q);
      if c != b {
        IdsDiffer(s, b, c);
      }
    }
  }

  lemma LoadStep(r: Receiver, s: seq<byte>, r': Receiver, rest: seq<byte>)
    requires r.ps > 0 && LoadOne(r, s) == Step(r', rest, false)
    ensures r'.ps == r.ps && Load(r, s) == Load(r', rest)
  {
  }

  /** One call of ram_save_block, seen from ram_load. */
  lemma SaveBlockReads(s: Sender, r: Receiver, more: seq<byte>, rest: seq<byte>)
    requires InStep(s, r) && SaveBlock(s).sent != 0
    ensures InStep(SaveBlock(s).s, After(s, r))
    ensures After(s, r).ps > 0
    ensures Load(r, SaveBlock(s).out + more + rest) == Load(After(s, r), more + rest)
  {
    var out := SaveBlock(s).out;
    assert r.ps > 0;
    SaveBlockLoads(s, r, more + rest);
    SaveBlockInStep(s, r);
    hide InStep, SaveBlock, After, LoadOne;
    assert out + more + rest == out + (more + rest);
    LoadStep(r, out + (more + rest), After(s, r), more + rest);
  }

  lemma {:induction false} PumpInStep(s: Sender, r: Receiver, budget: nat, rest: seq<byte>)
    returns (r': Receiver)
    requires InStep(s, r)
    ensures InStep(Pump(s, budget).s, r')
    ensures Load(r, Pump(s, budget).out + rest) == Load(r', rest)
    decreases budget
  {
    hide Valid, AllDirty, SaveBlock, After, Remaining, NoneDirty, Load;
    assert Ready(s);
    hide InStep, Ready;
    assert [] + rest == rest;
    r' := r;
    if budget > 0 {
      SaveBlockProgress(s);
      var next := SaveBlock(s).s;
      if SaveBlock(s).sent != 0 {
        SaveBlockReads(s, r, Pump(next, budget - 1).out, rest);
        r' := PumpInStep(next, After(s, r), budget - 1, rest);
      }
    }
  }

  lemma {:induction false} DrainInStep(s: Sender, r: Receiver, rest: seq<byte>)
    returns (r': Receiver)
    requires InStep(s, r)
    ensures InStep(Drain(s).s, r')
    ensures Load(r, Drain(s).out + rest) == Load(r', rest)
    decreases Remaining(s)
  {
    hide Valid, AllDirty, SaveBlock, After, Remaining, NoneDirty, Load;
    assert Ready(s);
    hide InStep, Ready;
    assert [] + rest == rest;
    SaveBlockProgress(s);
    r' := r;
    var next := SaveBlock(s).s;
    if SaveBlock(s).sent != 0 {
      SaveBlockReads(s, r, Drain(next).out, rest);
      r' := DrainInStep(next, After(s, r), rest);
    }
  }

  lemma {:induction false} WritesInStep(s: Sender, r: Receiver, ws: seq<Write>)
    requires InStep(s, r) && WritesFit(s, ws)
    ensures InStep(GuestWrites(s, ws), r)
    decreases |ws|
  {
    if ws != [] {
      var s' := GuestWrite(s, ws[0]);
      WriteKeepsReady(s, ws[0]);
      var b, p := ws[0].block, ws[0].page;
      assert s.blocks[b] in s.blocks;
      assert (0xff as bv8) & MIGRATION_DIRTY_FLAG != 0;
      forall c: nat, q: nat | IsSlot(s'.blocks, c, q) && s'.blocks[c] in s'.blocks && !IsDirty(s', c, q)
        ensures r.mem[s'.blocks[c].id][q] == s'.mem[s'.blocks[c].id][q]
      {
        if c != b {
          ApartAt(s.blocks, b, c);
        }
      }
      WritesInStep(s', r, ws[1..]);
    }
  }

  // -------------------------------------------------------------- whole runs

  lemma SectionLoads(r: Receiver, body: seq<byte>, r': Receiver)
    requires r.ps > 0 && r'.ps >= 64
    requires Load(r, body + EOS_RECORD) == Load(r', EOS_RECORD)
    ensures Load(r, body + EOS_RECORD) == Step(r', [], true)
  {
    EosLoads(r');
  }

  lemma Stage1InStep(s: Sender, r: Receiver, budget: nat) returns (r': Receiver)
    requires Machine(s) && SameLayout(s, r)
    ensures InStep(Stage1(s, budget).s, r')
    ensures LoadAll(r, Stage1(s, budget).sections) == Some(r')
  {
    StartIsReady(s);
    SortKeeps(s.blocks);
    var s1 := StartStage1(s);
    var out, header := Pump(s1, budget).out, Stage1Header(s1.ps, s1.blocks);
    r' := PumpInStep(s1, r, budget, EOS_RECORD);
    Stage1HeaderLoads(r, s1.blocks, out + EOS_RECORD);
    assert r'.ps >= 64 && r.ps > 0;
    hide InStep, Ready, Machine, Pump, LoadOne, Load, Stage1Header, StartStage1;
    LoadStep(r, header + (out + EOS_RECORD), r, out + EOS_RECORD);
    assert header + (out + EOS_RECORD) == header + out + EOS_RECORD;
    SectionLoads(r, header + out, r');
    LoadSingle(r, header + out + EOS_RECORD, r');
  }

  lemma LoadSingle(r: Receiver, x: seq<byte>, r': Receiver)
    requires r.ps > 0 && Load(r, x) == Step(r', [], true)
    ensures LoadAll(r, [x]) == Some(r')
  {
    assert [x][1..] == [];
  }

  lemma {:induction false} LoadAllAppend(r: Receiver, xs: seq<seq<byte>>, r1: Receiver, x: seq<byte>, r2: Receiver)
    requires r.ps > 0 && r1.ps > 0 && LoadAll(r, xs) == Some(r1) && Load(r1, x) == Step(r2, [], true)
    ensures LoadAll(r, xs + [x]) == Some(r2)
    decreases |xs|
  {
    if xs == [] {
      assert [x][1..] == [];
    } else {
      assert (xs + [x])[1..] == xs[1..] + [x];
      LoadAllAppend(Load(r, xs[0]).r, xs[1..], r1, x, r2);
    }
  }

  /** At the end of every stage-2 call, after any writes and any rate limit, the
      two ends are in step. */
  lemma {:induction false} Stage2InStep(r0: Receiver, t: Trace, r: Receiver, rounds: seq<Round>)
    returns (r': Receiver)
    requires r0.ps > 0 && InStep(t.s, r) && RoundsFit(t.s, rounds)
    requires LoadAll(r0, t.sections) == Some(r)
    ensures InStep(Stage2(t, rounds).s, r')
    ensures LoadAll(r0, Stage2(t, rounds).sections) == Some(r')
    decreases |rounds|
  {
    if rounds == [] {
      r' := r;
    } else {
      WritesInStep(t.s, r, rounds[0].writes);
      var s1 := GuestWrites(t.s, rounds[0].writes);
      var p := Pump(s1, rounds[0].budget);
      PumpKeeps(s1, rounds[0].budget);
      var r1 := PumpInStep(s1, r, rounds[0].budget, EOS_RECORD);
      SectionLoads(r, p.out, r1);
      LoadAllAppend(r0, t.sections, r, p.out + EOS_RECORD, r1);
      r' := Stage2InStep(r0, Trace(p.s, t.sections + [p.out + EOS_RECORD]), r1, rounds[1..]);
    }
  }

  /** The section of stage 3: limited pages, then all of them. */
  lemma FlushLoads(s: Sender, r: Receiver, budget: nat) returns (r': Receiver)
    requires InStep(s, r) && Named(s.blocks, s.mem)
    ensures Ready(s) && Ready(Pump(s, budget).s) && r.ps > 0 && r'.ps > 0
    ensures Load(r, Pump(s, budget).out + Drain(Pump(s, budget).s).out + EOS_RECORD) == Step(r', [], true)
    ensures r'.mem == Drain(Pump(s, budget).s).s.mem == s.mem
  {
    hide InStep, Ready, Pump, Drain, Load, Named, NoneDirty;
    InStepReady(s, r);
    var p := Pump(s, budget);
    var d := Drain(p.s);
    PumpKeeps(s, budget);
    DrainKeeps(p.s);
    var r1 := PumpInStep(s, r, budget, d.out + EOS_RECORD);
    r' := DrainInStep(p.s, r1, EOS_RECORD);
    InStepReady(d.s, r');
    CleanMeansEqual(d.s, r');
    assert p.out + (d.out + EOS_RECORD) == p.out + d.out + EOS_RECORD;
    SectionLoads(r, p.out + d.out, r');
  }

  /** Stage 3 with the guest stopped: source and destination memory are equal. */
  lemma Stage3Equal(r0: Receiver, t: Trace, r: Receiver, budget: nat) returns (r': Receiver)
    requires r0.ps > 0 && InStep(t.s, r) && LoadAll(r0, t.sections) == Some(r)
    requires Named(t.s.blocks, t.s.mem)
    ensures LoadAll(r0, Stage3(t, budget).sections) == Some(r')
    ensures r'.mem == t.s.mem && Stage3(t, budget).s.mem == t.s.mem
  {
    hide InStep, Ready, Pump, Drain, Load, LoadAll, Named;
    r' := FlushLoads(t.s, r, budget);
    var p := Pump(t.s, budget);
    LoadAllAppend(r0, t.sections, r, p.out + Drain(p.s).out + EOS_RECORD, r');
  }

  lemma InStepReady(s: Sender, r: Receiver)
    requires InStep(s, r)
    ensures Ready(s) && r.ps >= 64
  {
  }

  lemma CleanMeansEqual(s: Sender, r: Receiver)
    requires InStep(s, r) && NoneDirty(s) && Named(s.blocks, s.mem)
    ensures r.mem == s.mem
  {
    forall id | id in s.mem
      ensures r.mem[id] == s.mem[id]
    {
      var x :| x in s.blocks && x.id == id;
      var b :| 0 <= b < |s.blocks| && s.blocks[b] == x;
      forall p | 0 <= p < x.pages
        ensures r.mem[id][p] == s.mem[id][p]
      {
        assert IsSlot(s.blocks, b, p) && !IsDirty(s, b, p);
      }
    }
  }

  /** The law of live RAM migration. For any RAM list, any destination memory of
      the same layout, any guest writes before every stage-2 call and before
      stage 3, and any rate-limit answers, ram_load accepts every section and
      ends with exactly the source's memory. */
  lemma MigrationTransfersRam(s: Sender, r: Receiver, budget1: nat, rounds: seq<Round>,
                              last: seq<Write>, budget3: nat)
    requires Machine(s) && SameLayout(s, r) && Named(s.blocks, s.mem)
    requires RoundsFit(s.(blocks := SortBlocks(s.blocks)), rounds)
    requires WritesFit(s.(blocks := SortBlocks(s.blocks)), last)
    ensures var t := Stage2(Stage1(s, budget1), rounds);
      var source := GuestWrites(t.s, last);
      var loaded := LoadAll(r, Stage3(Trace(source, t.sections), budget3).sections);
      loaded.Some? && loaded.value.mem == source.mem
  {
    var r1 := Stage1InStep(s, r, budget1);
    var t1 := Stage1(s, budget1);
    var r2 := Stage2InStep(r, t1, r1, rounds);
    var t := Stage2(t1, rounds);
    WritesInStep(t.s, r2, last);
    SortKeeps(s.blocks);
    var r3 := Stage3Equal(r, Trace(GuestWrites(t.s, last), t.sections), r2, budget3);
  }

  // ------------------------------------- stores between any two saved blocks

  /** What happens at the source once stage 1 has written its header: a store of the
      guest, one call of ram_save_block, the end of a section. */
  datatype Act = GuestStores(w: Write) | SavePage | EndSection

  /** The sender, the section it is writing, and those it has ended. */
  datatype Flow = Flow(s: Sender, open: seq<byte>, sections: seq<seq<byte>>)

  ghost predicate ActsFit(s: Sender, acts: seq<Act>) {
    forall i :: 0 <= i < |acts| && acts[i].GuestStores? ==> WriteFits(s, acts[i].w)
  }

  ghost function Acted(f: Flow, a: Act): (g: Flow)
    requires Ready(f.s) && (a.GuestStores? ==> WriteFits(f.s, a.w))
    ensures Ready(g.s) && g.s.blocks == f.s.blocks && g.s.ps == f.s.ps && g.s.mem.Keys == f.s.mem.Keys
  {
    match a
    case GuestStores(w) =>
      WriteKeepsReady(f.s, w);
      f.(s := GuestWrite(f.s, w))
    case SavePage =>
      SaveBlockProgress(f.s);
      f.(s := SaveBlock(f.s).s, open := f.open + SaveBlock(f.s).out)
    case EndSection => Flow(f.s, [], f.sections + [f.open + EOS_RECORD])
  }

  lemma StillFit(s: Sender, t: Sender, acts: seq<Act>)
    requires ActsFit(s, acts) && t.blocks == s.blocks && t.ps == s.ps
    ensures ActsFit(t, acts)
  {
  }

  ghost function AllActed(f: Flow, acts: seq<Act>): (g: Flow)
    requires Ready(f.s) && ActsFit(f.s, acts)
    ensures Ready(g.s) && g.s.blocks == f.s.blocks && g.s.ps == f.s.ps && g.s.mem.Keys == f.s.mem.Keys
    decreases |acts|
  {
    hide Ready, Acted, WriteFits;
    if acts == [] then f
    else
      StillFit(f.s, Acted(f, acts[0]).s, acts[1..]);
      AllActed(Acted(f, acts[0]), acts[1..])
  }

  /** The receiver r1 has loaded the sections that have ended; the open one takes it
      to r, which is in step with the sender. */
  ghost predicate Following(r0: Receiver, f: Flow, r1: Receiver, r: Receiver) {
    && r0.ps > 0 && LoadAll(r0, f.sections) == Some(r1) && r1.ps > 0 && InStep(f.s, r)
    && forall rest :: Load(r1, f.open + rest) == Load(r, rest)
  }

  lemma StoreFollows(r0: Receiver, f: Flow, r1: Receiver, r: Receiver, w: Write)
    requires Following(r0, f, r1, r) && WriteFits(f.s, w)
    ensures Ready(f.s) && Following(r0, Acted(f, GuestStores(w)), r1, r)
  {
    hide InStep, Ready, Load, LoadAll, GuestWrite;
    InStepReady(f.s, r);
    WritesInStep(f.s, r, [w]);
    OneWrite(f.s, w);
  }

  lemma OneWrite(s: Sender, w: Write)
    requires Ready(s) && WriteFits(s, w)
    ensures WritesFit(s, [w]) && GuestWrites(s, [w]) == GuestWrite(s, w)
  {
    hide WriteFits, GuestWrite;
    assert [w][1..] == [];
    WriteKeepsReady(s, w);
    assert GuestWrites(s, [w]) == GuestWrites(GuestWrite(s, w), []);
  }

  lemma SaveFollows(r0: Receiver, f: Flow, r1: Receiver, r: Receiver) returns (r': Receiver)
    requires Following(r0, f, r1, r)
    ensures Ready(f.s) && Following(r0, Acted(f, SavePage), r1, r')
  {
    hide InStep, Ready, Load, LoadAll, SaveBlock, After;
    InStepReady(f.s, r);
    SaveBlockProgress(f.s);
    var out := SaveBlock(f.s).out;
    if SaveBlock(f.s).sent == 0 {
      assert f.open + [] == f.open;
      return r;
    }
    r' := After(f.s, r);
    SaveBlockReads(f.s, r, [], []);
    forall rest ensures Load(r1, f.open + out + rest) == Load(r', rest) {
      assert f.open + out + rest == f.open + (out + rest);
      SaveBlockReads(f.s, r, [], rest);
      assert out + [] + rest == out + rest && [] + rest == rest;
    }
  }

  lemma EndFollows(r0: Receiver, f: Flow, r1: Receiver, r: Receiver)
    requires Following(r0, f, r1, r)
    ensures Ready(f.s) && Following(r0, Acted(f, EndSection), r, r)
  {
    hide InStep, Ready, Load, LoadAll;
    InStepReady(f.s, r);
    EosLoads(r);
    LoadAllAppend(r0, f.sections, r1, f.open + EOS_RECORD, r);
    forall rest ensures Load(r, [] + rest) == Load(r, rest) {
      assert [] + rest == rest;
    }
  }

  lemma {:induction false} ActsFollow(r0: Receiver, f: Flow, r1: Receiver, r: Receiver, acts: seq<Act>)
    returns (r1': Receiver, r': Receiver)
    requires Following(r0, f, r1, r) && Ready(f.s) && ActsFit(f.s, acts)
    ensures Following(r0, AllActed(f, acts), r1', r')
    decreases |acts|
  {
    hide Following, Ready, Acted, WriteFits;
    r1', r' := r1, r;
    if acts != [] {
      match acts[0] {
        case GuestStores(w) => StoreFollows(r0, f, r1, r, w);
        case SavePage => r' := SaveFollows(r0, f, r1, r);
        case EndSection =>
          EndFollows(r0, f, r1, r);
          r1' := r;
      }
      StillFit(f.s, Acted(f, acts[0]).s, acts[1..]);
      r1', r' := ActsFollow(r0, Acted(f, acts[0]), r1', r', acts[1..]);
    }
  }

  /** The sender behind the header of stage 1. */
  ghost function Opened(s: Sender): Flow
    requires Machine(s)
  {
    StartIsReady(s);
    Flow(StartStage1(s), Stage1Header(s.ps, SortBlocks(s.blocks)), [])
  }

  lemma OpenedFollows(s: Sender, r: Receiver)
    requires Machine(s) && SameLayout(s, r)
    ensures Following(r, Opened(s), r, r) && Ready(Opened(s).s)
  {
    StartIsReady(s);
    SortKeeps(s.blocks);
    var s1 := StartStage1(s);
    assert InStep(s1, r);
    var header := Stage1Header(s1.ps, s1.blocks);
    forall rest ensures Load(r, header + rest) == Load(r, rest) {
      Stage1HeaderLoads(r, s1.blocks, rest);
      LoadStep(r, header + rest, r, rest);
    }
  }

  /** The same law at the grain of single calls: after the header of stage 1, stores of
      the guest, calls of ram_save_block and ends of sections may follow each other in
      any order; once the guest has stopped, what is left is sent, and loading all
      sections leaves the destination with exactly the source's memory. */
  lemma AnyOrderTransfersRam(s: Sender, r: Receiver, acts: seq<Act>)
    requires Machine(s) && SameLayout(s, r) && Named(s.blocks, s.mem)
    requires ActsFit(s.(blocks := SortBlocks(s.blocks)), acts)
    ensures Ready(Opened(s).s) && ActsFit(Opened(s).s, acts)
    ensures var f := AllActed(Opened(s), acts);
      var loaded := LoadAll(r, f.sections + [f.open + Drain(f.s).out + EOS_RECORD]);
      loaded.Some? && loaded.value.mem == f.s.mem
  {
    OpenedFollows(s, r);
    SortKeeps(s.blocks);
    hide InStep, Ready, Machine, SameLayout, Following, Opened, LoadAll, Load, Drain, AllActed, Stage1Header;
    OpenedFrame(s);
    StillFit(s.(blocks := SortBlocks(s.blocks)), Opened(s).s, acts);
    var r1, r' := ActsFollow(r, Opened(s), r, r, acts);
    var f := AllActed(Opened(s), acts);
    var _ := LastSection(r, f, r1, r');
  }

  lemma OpenedFrame(s: Sender)
    requires Machine(s)
    ensures Opened(s).s.blocks == SortBlocks(s.blocks) && Opened(s).s.ps == s.ps && Opened(s).s.mem == s.mem
  {
  }

  /** The rest of the dirty pages and the end record. */
  lemma LastSection(r0: Receiver, f: Flow, r1: Receiver, r: Receiver) returns (r': Receiver)
    requires Following(r0, f, r1, r) && Ready(f.s) && Named(f.s.blocks, f.s.mem)
    ensures r0.ps > 0 && LoadAll(r0, f.sections + [f.open + Drain(f.s).out + EOS_RECORD]) == Some(r')
    ensures r'.mem == f.s.mem
  {
    hide InStep, Ready, Load, LoadAll, Drain, Named, NoneDirty;
    var d := Drain(f.s);
    DrainKeeps(f.s);
    r' := DrainInStep(f.s, r, EOS_RECORD);
    InStepReady(d.s, r');
    CleanMeansEqual(d.s, r');
    EosLoads(r');
    assert f.open + d.out + EOS_RECORD == f.open + (d.out + EOS_RECORD);
    LoadAllAppend(r0, f.sections, r1, f.open + d.out + EOS_RECORD, r');
  }
}
