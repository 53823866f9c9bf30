// A whole RAM migration as the two programs run it: the sender's stages, the guest
// storing to memory in between, and ram_load reading each section.

module RamRun {
  import opened Common
  import opened Wire
  import opened RamState
  import opened RamSort
  import opened RamMigration
  import opened RamCode

  /** Everything the sender wrote has been read, and the two ends are in step. */
  ghost predicate Synced(saver: RamSaver, loader: RamLoader)
    reads saver, saver.dirty, loader
  {
    InStep(saver.View(), loader.View()) && saver.stream == [] && loader.input == []
  }

  /** One section crosses from the sender to the receiver. */
  method Deliver(saver: RamSaver, loader: RamLoader, ghost r': Receiver) returns (status: Status)
    requires loader.input == [] && loader.ps > 0
    requires LoadAll(loader.View(), [saver.stream]) == Some(r')
    modifies saver`stream, loader
    ensures status == Success && loader.View() == r' && loader.input == [] && saver.stream == []
  {
    assert [saver.stream][1..] == [];
    loader.input := saver.stream;
    saver.stream := [];
    status := loader.RamLoad();
  }

  lemma RoundLoads(s: Sender, r: Receiver, budget: nat) returns (r': Receiver)
    requires InStep(s, r)
    ensures InStep(Pump(s, budget).s, r') && LoadAll(r, [Pump(s, budget).out + EOS_RECORD]) == Some(r')
  {
    hide InStep, Ready, Pump, Load;
    InStepReady(s, r);
    r' := PumpInStep(s, r, budget, EOS_RECORD);
    InStepReady(Pump(s, budget).s, r');
    SectionLoads(r, Pump(s, budget).out, r');
    LoadSingle(r, Pump(s, budget).out + EOS_RECORD, r');
  }

  /** The guest stores to any pages, any number of times. */
  method GuestRuns(saver: RamSaver, loader: RamLoader)
    requires Synced(saver, loader)
    modifies saver`mem, saver.dirty
    ensures Synced(saver, loader) && saver.mem.Keys == old(saver.mem.Keys)
  {
    hide InStep;
    var n: nat := *;
    while n > 0
      invariant Synced(saver, loader) && saver.mem.Keys == old(saver.mem.Keys)
    {
      var block: nat, page: nat, data: Page := *, *, *;
      var w := Write(block, page, data);
      if block < |saver.blocks| && page < saver.blocks[block].pages && |data| == saver.ps {
        StoreInStep(saver.View(), loader.View(), w);
        saver.GuestStore(w);
      }
      n := n - 1;
    }
  }

  lemma StoreInStep(s: Sender, r: Receiver, w: Write)
    requires InStep(s, r) && WriteFits(s, w)
    ensures Machine(s) && InStep(GuestWrite(s, w), r) && GuestWrite(s, w).mem.Keys == s.mem.Keys
  {
    InStepReady(s, r);
    hide InStep, Machine, GuestWrite, WriteFits, AllDirty;
    WriteKeepsReady(s, w);
    WritesInStep(s, r, [w]);
    hide Ready;
    assert [w][1..] == [];
    assert GuestWrites(s, [w]) == GuestWrites(GuestWrite(s, w), []);
  }

  method Start(saver: RamSaver, loader: RamLoader, budget: nat) returns (status: Status)
    requires Machine(saver.View()) && SameLayout(saver.View(), loader.View())
    requires saver.stream == [] && loader.input == []
    modifies saver, saver.dirty, loader
    ensures status == Success && Synced(saver, loader)
    ensures saver.dirty == old(saver.dirty) && saver.mem == old(saver.mem) && saver.blocks == SortBlocks(old(saver.blocks))
  {
    ghost var s, r := saver.View(), loader.View();
    ghost var r' := Stage1InStep(s, r, budget);
    assert loader.ps > 0;
    hide InStep, Machine, SameLayout, Ready, Pump, Load, Stage1Header;
    assert Stage1(s, budget).sections == [Stage1(s, budget).sections[0]];
    saver.SaveLiveStage1(budget);
    assert saver.stream == Stage1(s, budget).sections[0];
    status := Deliver(saver, loader, r');
  }

  method Round(saver: RamSaver, loader: RamLoader, budget: nat) returns (status: Status)
    requires Synced(saver, loader)
    modifies saver`last, saver`lastPage, saver`stream, saver`bytesTransferred, saver.dirty, loader
    ensures status == Success && Synced(saver, loader)
    ensures saver.mem == old(saver.mem) && saver.blocks == old(saver.blocks)
  {
    hide InStep, Ready, Pump, LoadAll;
    InStepReady(saver.View(), loader.View());
    ghost var s := saver.View();
    ghost var r' := RoundLoads(s, loader.View(), budget);
    saver.SaveLiveStage2(budget);
    assert saver.stream == Pump(s, budget).out + EOS_RECORD;
    status := Deliver(saver, loader, r');
  }

  method Finish(saver: RamSaver, loader: RamLoader, budget: nat) returns (status: Status)
    requires Synced(saver, loader) && Named(saver.blocks, saver.mem)
    modifies saver`last, saver`lastPage, saver`stream, saver`bytesTransferred, saver.dirty, loader
    ensures status == Success && loader.mem == saver.mem
  {
    hide InStep, Ready, Pump, Drain, Load, Named;
    InStepReady(saver.View(), loader.View());
    ghost var s, r := saver.View(), loader.View();
    ghost var r' := Stage3Equal(r, Trace(s, []), r, budget);
    assert Stage3(Trace(s, []), budget).sections == [Stage3(Trace(s, []), budget).sections[0]];
    saver.SaveLiveStage3(budget);
    assert saver.stream == Stage3(Trace(s, []), budget).sections[0];
    status := Deliver(saver, loader, r');
  }

  /** Live migration, end to end: whatever the guest does before stage 3, and
      wherever the rate limit cuts each stage, every ram_load succeeds and the
      destination ends with exactly the memory of the source. */
  method Migrate(saver: RamSaver, loader: RamLoader, calls: nat) returns (status: Status)
    requires Machine(saver.View()) && SameLayout(saver.View(), loader.View()) && Named(saver.blocks, saver.mem)
    requires saver.stream == [] && loader.input == []
    modifies saver, saver.dirty, loader
    ensures status == Success && loader.mem == saver.mem
  {
    hide Synced, Machine, SameLayout, Named;
    NamedSorted(saver.View());
    var budget: nat := *;
    status := Start(saver, loader, budget);
    for i := 0 to calls
      invariant Synced(saver, loader) && saver.dirty == old(saver.dirty)
      invariant saver.blocks == SortBlocks(old(saver.blocks)) && saver.mem.Keys == old(saver.mem).Keys
    {
      GuestRuns(saver, loader);
      budget := *;
      status := Round(saver, loader, budget);
    }
    GuestRuns(saver, loader);
    budget := *;
    NamedKeys(saver.blocks, old(saver.mem), saver.mem);
    status := Finish(saver, loader, budget);
  }

  lemma NamedSorted(s: Sender)
    requires Machine(s) && Named(s.blocks, s.mem)
    ensures Named(SortBlocks(s.blocks), s.mem)
  {
    SortKeeps(s.blocks);
  }

  lemma NamedKeys(bs: seq<Block>, was: Memory, now: Memory)
    requires Named(bs, was) && now.Keys == was.Keys
    ensures Named(bs, now)
  {
  }
}
