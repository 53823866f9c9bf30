// A whole block migration as the two programs run it: the sender's stages with an
// arbitrary guest and driver in between, and block_load reading each section.

module BlockRun {
  import opened Common
  import opened Wire
  import opened BlockMig
  import opened BlockCodec
  import opened BlockMigCode

  /** What decides a stage-2 call: the rate limit of the file, the estimate whether that
      many dirty chunks would fit in the downtime, and what qemu_file_rate_limit says. */
  datatype Round = Round(limit: int, fits: nat -> bool, answers: seq<bool>)

  /** One section crosses to the other side, which then holds what the sender says it
      holds. */
  method Deliver(ds: seq<Device>, loader: BlockLoader, section: seq<byte>, ghost sent: seq<Item>,
                 ghost held: map<Key, Data>)
    returns (ret: int)
    requires Devices(ds) && AllFit(ds, sent) && section == SectionBytes(ds, sent) && Holds(ds, loader.disks, held)
    modifies loader
    ensures ret == 0 && Holds(ds, loader.disks, Replay(held, Blocks(sent)))
  {
    hide Holds, Load, SectionBytes, Replay, Blocks;
    SectionLoads(ds, loader.disks, held, sent, []);
    assert section + [] == section;
    var rest;
    ret, rest := loader.BlockLoad(section);
  }

  /** The sender is between sections and the receiver holds what it says. */
  ghost predicate Synced(m: BlockMigration, loader: BlockLoader)
    reads m, loader
  {
    m.Valid() && m.Flushed() && Holds(m.devices, loader.disks, m.dst)
  }

  method Begin(m: BlockMigration, loader: BlockLoader, answers: seq<bool>) returns (ret: int)
    requires Synced(m, loader) && !m.bulkCompleted
    modifies m, loader
    ensures ret == 0 && Synced(m, loader) && !m.bulkCompleted
  {
    hide BlockMigration.Valid, BlockMigration.Flushed, Holds, SectionBytes, Replay, Blocks;
    var section, left;
    ghost var sent, held := [], m.dst;
    section, left, sent := m.SaveLiveStage1(answers);
    ret := Deliver(m.devices, loader, section, sent, held);
  }

  /** A stage-2 call, after whatever the guest and the driver did since the last. */
  method Continue(m: BlockMigration, loader: BlockLoader, round: Round) returns (ret: int, done: bool)
    requires Synced(m, loader)
    modifies m, loader
    ensures ret == 0 && Synced(m, loader) && (done ==> m.bulkCompleted)
    ensures old(m.bulkCompleted) ==> m.bulkCompleted && m.settled == old(m.settled)
    ensures m.bulkCompleted && !old(m.bulkCompleted) && round.limit <= BLOCK_SIZE ==> m.settled
  {
    hide BlockMigration.Valid, Holds, SectionBytes, Replay, Blocks;
    var section, left;
    m.Environment();
    hide BlockMigration.Flushed;
    ghost var report, held := Report([], {}, 0, []), m.dst;
    done, section, left, report := m.SaveLiveStage2(round.limit, round.fits, round.answers);
    ret := Deliver(m.devices, loader, section, report.sent, held);
  }

  /** The guest is stopped, the driver's requests complete, and stage 3 follows. */
  method Finish(m: BlockMigration, loader: BlockLoader, answers: seq<bool>) returns (ret: int)
    requires Synced(m, loader) && m.bulkCompleted && true !in answers
    modifies m, loader
    ensures ret == 0 && Holds(m.devices, loader.disks, m.dst)
    ensures old(m.settled) ==> Holds(m.devices, loader.disks, m.src)
    ensures m.settled == old(m.settled)
  {
    hide BlockMigration.Valid, Holds, SectionBytes, Replay, Blocks, Finished;
    var section;
    m.AioFlush();
    hide BlockMigration.Flushed;
    ghost var sent, held := [], m.dst;
    section, sent := m.SaveLiveStage3(answers);
    ret := Deliver(m.devices, loader, section, sent, held);
  }

  /** Block migration, end to end: stage 1, a stage-2 call for each round until
      one reports completion, stage 3. Every block_load succeeds. If the migration
      completes, the destination's disks hold what the source's hold, provided that no
      read was pending when the bulk phase was found to be over; that is certain when
      no rate limit lets more than one block be under way. */
  method Migrate(devices: seq<Device>, src: map<Key, Data>, loader: BlockLoader, first: seq<bool>,
                 rounds: seq<Round>, last: seq<bool>, ghost held: map<Key, Data>)
    returns (m: BlockMigration, ret: int, completed: bool)
    requires Devices(devices) && Sized(devices, src) && Holds(devices, loader.disks, held) && true !in last
    modifies loader
    ensures fresh(m) && ret == 0 && Holds(devices, loader.disks, m.dst)
    ensures completed && m.settled ==> Holds(devices, loader.disks, m.src)
    ensures completed && (forall i :: 0 <= i < |rounds| ==> rounds[i].limit <= BLOCK_SIZE) ==>
      Holds(devices, loader.disks, m.src)
  {
    assert held.Keys == src.Keys by {
      assert forall k :: k in held <==> KeyOf(devices, k);
    }
    hide BlockMigration.Valid, BlockMigration.Flushed, Holds, Sized;
    m := new BlockMigration(devices, src, held);
    ret := Begin(m, loader, first);
    completed := false;
    hide Synced;
    for i := 0 to |rounds|
      invariant fresh(m) && m.devices == devices && ret == 0 && Synced(m, loader) && !completed
      invariant m.bulkCompleted && (forall j :: 0 <= j < i ==> rounds[j].limit <= BLOCK_SIZE) ==> m.settled
    {
      ret, completed := Continue(m, loader, rounds[i]);
      if completed { break; }
    }
    if completed {
      ret := Finish(m, loader, last);
    } else {
      HoldsDst(m, loader);
    }
  }

  lemma HoldsDst(m: BlockMigration, loader: BlockLoader)
    requires Synced(m, loader)
    ensures Holds(m.devices, loader.disks, m.dst)
  {
  }
}
