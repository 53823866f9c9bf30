// The stream of a block migration (Main/linux/block-migration.c): what blk_send
// writes, what block_load does with it, and why a finished run leaves the
// destination's disks equal to the source's.

module BlockCodec {
  import opened Common
  import opened Wire
  import opened BlockMig
  import opened BlockMigDrained

  const BLOCK_SIZE: nat := CHUNK_SECTORS * SECTOR_SIZE

  const FLAG_DEVICE_BLOCK: nat := 0x01
  const FLAG_EOS: nat := 0x02
  const FLAG_PROGRESS: nat := 0x04

  type Name = seq<byte>
  type Disks = map<Name, seq<byte>>

  // ------------------------------------------------------------------ sender

  /** blk_send: `buf` is a whole block even when the chunk is the short last one. */
  function BlockRecord(name: Name, sector: nat, buf: seq<byte>): seq<byte>
    requires |name| < 256
  {
    PutBe64(sector * SECTOR_SIZE + FLAG_DEVICE_BLOCK) + [|name|] + name + buf
  }

  function ProgressRecord(percent: nat): seq<byte> {
    PutBe64(percent * SECTOR_SIZE + FLAG_PROGRESS)
  }

  const EOS_RECORD: seq<byte> := PutBe64(FLAG_EOS)

  // ---------------------------------------------------------------- receiver

  datatype Outcome = Step(disks: Disks, rest: seq<byte>, eos: bool) | Failed(error: int)

  /** A DEVICE_BLOCK record behind its header. */
  function LoadDeviceBlock(disks: Disks, sector: nat, eos: bool, s: seq<byte>): (o: Outcome)
    ensures o.Step? ==> |o.rest| <= |s| && o.eos == eos
  {
    if |s| < 1 || |s| <= s[0] as int then Failed(-EIO)
    else
      var name := CStr(s[1..s[0] as int + 1]);
      var body := s[s[0] as int + 1..];
      if name !in disks || |disks[name]| / SECTOR_SIZE == 0 then Failed(-EINVAL)
      else if |body| < BLOCK_SIZE || sector > |disks[name]| / SECTOR_SIZE then Failed(-EIO)
      else
        var n := SectorsAt(|disks[name]| / SECTOR_SIZE, sector);
        Step(disks[name := Splice(disks[name], sector * SECTOR_SIZE, body[..n * SECTOR_SIZE])],
             body[BLOCK_SIZE..], eos)
  }

  /** One turn of the loop of block_load. */
  function LoadOne(disks: Disks, s: seq<byte>): (o: Outcome)
    ensures o.Step? ==> |o.rest| < |s|
  {
    if |s| < 8 then Failed(-EIO)
    else
      var addr := GetBe(s[..8]);
      var flags := addr % SECTOR_SIZE;
      if HasFlag(flags, FLAG_DEVICE_BLOCK) then LoadDeviceBlock(disks, addr / SECTOR_SIZE, HasFlag(flags, FLAG_EOS), s[8..])
      else if HasFlag(flags, FLAG_PROGRESS) || HasFlag(flags, FLAG_EOS) then Step(disks, s[8..], HasFlag(flags, FLAG_EOS))
      else Failed(-EINVAL)
  }

  /** block_load: records until one carries EOS. */
  function Load(disks: Disks, s: seq<byte>): (o: Outcome)
    ensures o.Step? ==> |o.rest| <= |s|
    decreases |s|
  {
    var o := LoadOne(disks, s);
    if o.Step? && !o.eos then Load(o.disks, o.rest) else o
  }

  /** One call of block_load for each section of the stream. */
  function LoadSections(disks: Disks, s: seq<byte>, n: nat): Outcome
    decreases n
  {
    if n == 0 then Step(disks, s, true)
    else
      var o := Load(disks, s);
      if o.Step? then LoadSections(o.disks, o.rest, n - 1) else o
  }

  class BlockLoader {
    var disks: Disks

    constructor (disks: Disks)
      ensures this.disks == disks
    {
      this.disks := disks;
    }

    /** The DEVICE_BLOCK branch of block_load. */
    method LoadBlock(sector: nat, s: seq<byte>) returns (ret: int, rest: seq<byte>)
      modifies this
      ensures var o := LoadDeviceBlock(old(disks), sector, false, s);
        if o.Step? then ret == 0 && disks == o.disks && rest == o.rest
        else ret == o.error < 0 && disks == old(disks)
    {
      rest := s;
      if |s| < 1 || |s| <= s[0] as int { return -EIO, rest; }
      var len := s[0] as int;
      var name := CStr(s[1..len + 1]);
      rest := s[len + 1..];
      if name !in disks { return -EINVAL, rest; }
      var total := |disks[name]| / SECTOR_SIZE;
      if total == 0 { return -EINVAL, rest; }
      if |rest| < BLOCK_SIZE || sector > total { return -EIO, rest; }
      var n := CHUNK_SECTORS;
      if total - sector < CHUNK_SECTORS { n := total - sector; }
      disks := disks[name := Splice(disks[name], sector * SECTOR_SIZE, rest[..n * SECTOR_SIZE])];
      return 0, rest[BLOCK_SIZE..];
    }

    /** block_load */
    method BlockLoad(s: seq<byte>) returns (ret: int, rest: seq<byte>)
      modifies this
      ensures var o := Load(old(disks), s);
        if o.Step? then ret == 0 && disks == o.disks && rest == o.rest else ret == o.error < 0
    {
      hide LoadDeviceBlock;
      rest := s;
      var eos := false;
      while !eos
        invariant eos ==> Load(old(disks), s) == Step(disks, rest, true)
        invariant !eos ==> Load(old(disks), s) == Load(disks, rest)
        decreases |rest|, !eos
      {
        if |rest| < 8 { return -EIO, rest; }
        var addr := GetBe(rest[..8]);
        var flags := addr % SECTOR_SIZE;
        if HasFlag(flags, FLAG_DEVICE_BLOCK) {
          EosOnlyMarks(disks, addr / SECTOR_SIZE, HasFlag(flags, FLAG_EOS), rest[8..]);
          ret, rest := LoadBlock(addr / SECTOR_SIZE, rest[8..]);
          if ret < 0 { return; }
        } else if HasFlag(flags, FLAG_PROGRESS) {
          rest := rest[8..];
        } else {
          if !HasFlag(flags, FLAG_EOS) { return -EINVAL, rest; }
          rest := rest[8..];
        }
        eos := HasFlag(flags, FLAG_EOS);
      }
      ret := 0;
    }
  }

  lemma EosOnlyMarks(disks: Disks, sector: nat, eos: bool, s: seq<byte>)
    ensures var o, p := LoadDeviceBlock(disks, sector, eos, s), LoadDeviceBlock(disks, sector, false, s);
      if o.Step? then p == o.(eos := false) else p == o
  {
  }

  // ------------------------------------------------- chunks and disk contents

  /** The devices of a migration: name and length in sectors. */
  datatype Device = Device(name: Name, sectors: nat)

  ghost predicate Devices(ds: seq<Device>) {
    && (forall d :: 0 <= d < |ds| ==> GoodDevice(ds[d]))
    && forall d, e :: 0 <= d < e < |ds| ==> ds[d].name != ds[e].name
  }

  predicate GoodDevice(d: Device) {
    |d.name| < 256 && 0 !in d.name && 0 < d.sectors && d.sectors * SECTOR_SIZE + SECTOR_SIZE <= U64
  }

  predicate KeyOf(ds: seq<Device>, k: Key) {
    k.dev < |ds| && k.chunk * CHUNK_SECTORS < ds[k.dev].sectors
  }

  /** Bytes of chunk k: the last chunk of a device may be short. */
  function Len(ds: seq<Device>, k: Key): nat
    requires KeyOf(ds, k)
  {
    SectorsAt(ds[k.dev].sectors, k.chunk * CHUNK_SECTORS) * SECTOR_SIZE
  }

  function ChunkOf(ds: seq<Device>, k: Key, disk: seq<byte>): Data
    requires KeyOf(ds, k) && |disk| == ds[k.dev].sectors * SECTOR_SIZE
  {
    disk[k.chunk * BLOCK_SIZE..k.chunk * BLOCK_SIZE + Len(ds, k)]
  }

  ghost predicate Sized(ds: seq<Device>, m: map<Key, Data>) {
    && (forall k :: KeyOf(ds, k) <==> k in m)
    && forall k :: k in m ==> |m[k]| == Len(ds, k)
  }

  /** The disks have the lengths of the devices. */
  ghost predicate Attached(ds: seq<Device>, disks: Disks) {
    forall d :: 0 <= d < |ds| ==> ds[d].name in disks && |disks[ds[d].name]| == ds[d].sectors * SECTOR_SIZE
  }

  /** Chunk by chunk, the disks hold m. */
  ghost predicate Holds(ds: seq<Device>, disks: Disks, m: map<Key, Data>) {
    && Attached(ds, disks)
    && (forall k :: KeyOf(ds, k) <==> k in m)
    && forall k :: KeyOf(ds, k) ==> m[k] == ChunkOf(ds, k, disks[ds[k.dev].name])
  }

  /** Chunks of one device do not overlap. */
  lemma ChunksApart(c: nat, d: nat)
    requires c < d
    ensures c * BLOCK_SIZE + BLOCK_SIZE <= d * BLOCK_SIZE
  {
  }

  lemma ChunkAfter(ds: seq<Device>, was: seq<byte>, k: Key, data: Data, q: Key)
    requires KeyOf(ds, k) && KeyOf(ds, q) && q.dev == k.dev && |data| == Len(ds, k)
    requires |was| == ds[k.dev].sectors * SECTOR_SIZE
    ensures k.chunk * BLOCK_SIZE + |data| <= |was|
    ensures ChunkOf(ds, q, Splice(was, k.chunk * BLOCK_SIZE, data)) == if q == k then data else ChunkOf(ds, q, was)
  {
    if q.chunk < k.chunk {
      ChunksApart(q.chunk, k.chunk);
    } else if q.chunk > k.chunk {
      ChunksApart(k.chunk, q.chunk);
    }
  }

  /** Writing chunk k changes that chunk and no other. */
  lemma SpliceChunk(ds: seq<Device>, disks: Disks, m: map<Key, Data>, k: Key, data: Data)
    requires Devices(ds) && Holds(ds, disks, m) && KeyOf(ds, k) && |data| == Len(ds, k)
    ensures k.chunk * BLOCK_SIZE + |data| <= |disks[ds[k.dev].name]|
    ensures var name := ds[k.dev].name;
      Holds(ds, disks[name := Splice(disks[name], k.chunk * BLOCK_SIZE, data)], m[k := data])
  {
    hide ChunkOf, Splice, Len, GoodDevice;
    var name := ds[k.dev].name;
    ChunkAfter(ds, disks[name], k, data, k);
    forall q | KeyOf(ds, q) && q.dev == k.dev
      ensures ChunkOf(ds, q, Splice(disks[name], k.chunk * BLOCK_SIZE, data))
           == if q == k then data else ChunkOf(ds, q, disks[name])
    {
      ChunkAfter(ds, disks[name], k, data, q);
    }
  }

  // ------------------------------------------------------- sections of a stream

  /** What a stage writes: blocks, each buffer filled up beyond a short chunk with
      whatever was in memory, and progress records. */
  datatype Item = Chunk(block: Block, pad: seq<byte>) | Progress(percent: nat)

  predicate Fits(ds: seq<Device>, i: Item) {
    match i
    case Chunk(b, pad) =>
      KeyOf(ds, b.key) && |b.data| == Len(ds, b.key) && |b.data| + |pad| == BLOCK_SIZE
    case Progress(p) => p <= 100
  }

  function ItemBytes(ds: seq<Device>, i: Item): seq<byte>
    requires Fits(ds, i) && forall d :: 0 <= d < |ds| ==> GoodDevice(ds[d])
  {
    match i
    case Chunk(b, pad) =>
      assert GoodDevice(ds[b.key.dev]);
      BlockRecord(ds[b.key.dev].name, b.key.chunk * CHUNK_SECTORS, b.data + pad)
    case Progress(p) => ProgressRecord(p)
  }

  ghost predicate AllFit(ds: seq<Device>, items: seq<Item>) {
    forall i :: 0 <= i < |items| ==> Fits(ds, items[i])
  }

  function ItemsBytes(ds: seq<Device>, items: seq<Item>): seq<byte>
    requires AllFit(ds, items) && forall d :: 0 <= d < |ds| ==> GoodDevice(ds[d])
  {
    if items == [] then [] else ItemBytes(ds, items[0]) + ItemsBytes(ds, items[1..])
  }

  function SectionBytes(ds: seq<Device>, items: seq<Item>): seq<byte>
    requires AllFit(ds, items) && forall d :: 0 <= d < |ds| ==> GoodDevice(ds[d])
  {
    ItemsBytes(ds, items) + EOS_RECORD
  }

  function Blocks(items: seq<Item>): seq<Block> {
    if items == [] then []
    else (if items[0].Chunk? then [items[0].block] else []) + Blocks(items[1..])
  }

  /** What the destination holds after the blocks, in order. */
  function Replay(m: map<Key, Data>, blocks: seq<Block>): map<Key, Data>
    decreases |blocks|
  {
    if blocks == [] then m else Replay(m[blocks[0].key := blocks[0].data], blocks[1..])
  }

  lemma {:induction false} ReplayAppend(m: map<Key, Data>, a: seq<Block>, b: seq<Block>)
    ensures Replay(m, a + b) == Replay(Replay(m, a), b)
    decreases |a|
  {
    if a == [] {
      assert a + b == b;
    } else {
      assert (a + b)[1..] == a[1..] + b;
      ReplayAppend(m[a[0].key := a[0].data], a[1..], b);
    }
  }

  /** Writing one more item appends its bytes, and its block to what is replayed. */
  lemma {:induction false} BytesAppended(ds: seq<Device>, items: seq<Item>, i: Item)
    requires AllFit(ds, items) && Fits(ds, i) && forall d :: 0 <= d < |ds| ==> GoodDevice(ds[d])
    ensures AllFit(ds, items + [i]) && ItemsBytes(ds, items + [i]) == ItemsBytes(ds, items) + ItemBytes(ds, i)
  {
    hide ItemBytes, Fits, GoodDevice;
    if items == [] {
      assert items + [i] == [i] && [i][1..] == [];
      assert ItemBytes(ds, i) + [] == ItemBytes(ds, i);
    } else {
      assert (items + [i])[1..] == items[1..] + [i];
      BytesAppended(ds, items[1..], i);
    }
  }

  lemma Associates(a: seq<Block>, b: seq<Block>, c: seq<Block>)
    ensures a + (b + c) == a + b + c
  {
  }

  lemma {:induction false} BlocksAppended(items: seq<Item>, i: Item)
    ensures Blocks(items + [i]) == Blocks(items) + if i.Chunk? then [i.block] else []
  {
    if items == [] {
      assert items + [i] == [i] && [i][1..] == [];
    } else {
      var first := if items[0].Chunk? then [items[0].block] else [];
      var last := if i.Chunk? then [i.block] else [];
      assert (items + [i])[1..] == items[1..] + [i] && (items + [i])[0] == items[0];
      BlocksAppended(items[1..], i);
      Associates(first, Blocks(items[1..]), last);
    }
  }

  lemma ItemAppended(ds: seq<Device>, items: seq<Item>, i: Item)
    requires AllFit(ds, items) && Fits(ds, i) && forall d :: 0 <= d < |ds| ==> GoodDevice(ds[d])
    ensures AllFit(ds, items + [i]) && ItemsBytes(ds, items + [i]) == ItemsBytes(ds, items) + ItemBytes(ds, i)
    ensures Blocks(items + [i]) == Blocks(items) + if i.Chunk? then [i.block] else []
  {
    hide ItemBytes, ItemsBytes, AllFit, Fits, GoodDevice, Blocks;
    BytesAppended(ds, items, i);
    BlocksAppended(items, i);
  }

  lemma ReplayOne(m: map<Key, Data>, blocks: seq<Block>, b: Block)
    ensures Replay(m, blocks + [b]) == Replay(m, blocks)[b.key := b.data]
  {
    ReplayAppend(m, blocks, [b]);
    assert [b][1..] == [];
  }

  lemma HeaderReads(value: nat, flags: nat, rest: seq<byte>)
    requires flags < SECTOR_SIZE && value * SECTOR_SIZE + flags < U64
    ensures var s := PutBe64(value * SECTOR_SIZE + flags) + rest;
      |s| >= 8 && s[8..] == rest
      && GetBe(s[..8]) % SECTOR_SIZE == flags && GetBe(s[..8]) / SECTOR_SIZE == value
  {
    GetPutBe64(value * SECTOR_SIZE + flags);
    SplitAt(PutBe64(value * SECTOR_SIZE + flags), rest);
    DivUnique(value * SECTOR_SIZE + flags, SECTOR_SIZE, value, flags);
  }

  /** The disks once the block has been written. */
  function Stored(ds: seq<Device>, disks: Disks, b: Block): Disks
    requires b.key.dev < |ds| && ds[b.key.dev].name in disks
    requires b.key.chunk * BLOCK_SIZE + |b.data| <= |disks[ds[b.key.dev].name]|
  {
    var name := ds[b.key.dev].name;
    disks[name := Splice(disks[name], b.key.chunk * BLOCK_SIZE, b.data)]
  }

  /** Reading back a block: one record is consumed, and the disks hold the chunk
      that was sent and are otherwise as before. */
  lemma BlockLoads(ds: seq<Device>, disks: Disks, m: map<Key, Data>, b: Block, pad: seq<byte>, rest: seq<byte>)
    requires Devices(ds) && Holds(ds, disks, m) && Fits(ds, Chunk(b, pad))
    ensures var o := LoadOne(disks, ItemBytes(ds, Chunk(b, pad)) + rest);
      o.Step? && !o.eos && o.rest == rest && Holds(ds, o.disks, m[b.key := b.data])
  {
    hide Holds, PutBe64, GetBe, CStr, LoadDeviceBlock;
    var name, sector := ds[b.key.dev].name, b.key.chunk * CHUNK_SECTORS;
    assert GoodDevice(ds[b.key.dev]);
    var tail := [|name|] + name + (b.data + pad + rest);
    assert ItemBytes(ds, Chunk(b, pad)) + rest == PutBe64(sector * SECTOR_SIZE + FLAG_DEVICE_BLOCK) + tail;
    HeaderReads(sector, FLAG_DEVICE_BLOCK, tail);
    SpliceChunk(ds, disks, m, b.key, b.data);
    BlockBodyLoads(ds, disks, m, b, pad, rest);
  }

  lemma BlockBodyLoads(ds: seq<Device>, disks: Disks, m: map<Key, Data>, b: Block, pad: seq<byte>, rest: seq<byte>)
    requires Devices(ds) && Holds(ds, disks, m) && Fits(ds, Chunk(b, pad))
    ensures b.key.chunk * BLOCK_SIZE + |b.data| <= |disks[ds[b.key.dev].name]|
    ensures var name := ds[b.key.dev].name;
      LoadDeviceBlock(disks, b.key.chunk * CHUNK_SECTORS, false, [|name|] + name + (b.data + pad + rest))
      == Step(Stored(ds, disks, b), rest, false)
  {
    hide CStr, Splice, LoadDeviceBlock, ChunkOf;
    var name, sector := ds[b.key.dev].name, b.key.chunk * CHUNK_SECTORS;
    assert GoodDevice(ds[b.key.dev]);
    DeviceBlockLoads(disks, name, ds[b.key.dev].sectors, sector, b.data + pad, rest);
    assert (b.data + pad)[..|b.data|] == b.data;
  }

  lemma DeviceBlockLoads(disks: Disks, name: Name, total: nat, sector: nat, buf: seq<byte>, rest: seq<byte>)
    requires |name| < 256 && 0 !in name && name in disks && |disks[name]| == total * SECTOR_SIZE
    requires sector < total && |buf| == BLOCK_SIZE
    ensures SectorsAt(total, sector) * SECTOR_SIZE <= |buf|
    ensures (sector + SectorsAt(total, sector)) * SECTOR_SIZE <= |disks[name]|
    ensures LoadDeviceBlock(disks, sector, false, [|name|] + name + (buf + rest))
         == Step(disks[name := Splice(disks[name], sector * SECTOR_SIZE, buf[..SectorsAt(total, sector) * SECTOR_SIZE])],
                 rest, false)
  {
    hide CStr, Splice;
    ReadName(name, buf + rest);
    var n := SectorsAt(total, sector) * SECTOR_SIZE;
    assert (buf + rest)[..n] == buf[..n] && (buf + rest)[BLOCK_SIZE..] == rest;
  }

  lemma ProgressLoads(ds: seq<Device>, disks: Disks, p: nat, rest: seq<byte>)
    requires p <= 100
    ensures LoadOne(disks, ProgressRecord(p) + rest) == Step(disks, rest, false)
  {
    hide PutBe64, GetBe;
    HeaderReads(p, FLAG_PROGRESS, rest);
  }

  lemma EosLoads(disks: Disks, rest: seq<byte>)
    ensures LoadOne(disks, EOS_RECORD + rest) == Step(disks, rest, true)
  {
    hide PutBe64, GetBe;
    HeaderReads(0, FLAG_EOS, rest);
  }

  /** A whole section: block_load stops at its end, having written its blocks. */
  lemma {:induction false} SectionLoads(ds: seq<Device>, disks: Disks, m: map<Key, Data>, items: seq<Item>, rest: seq<byte>)
    requires Devices(ds) && Holds(ds, disks, m) && AllFit(ds, items)
    ensures var o := Load(disks, SectionBytes(ds, items) + rest);
      o.Step? && o.eos && o.rest == rest && Holds(ds, o.disks, Replay(m, Blocks(items)))
    decreases |items|
  {
    hide Holds, LoadOne, ItemBytes, EOS_RECORD;
    if items == [] {
      assert [] + EOS_RECORD == EOS_RECORD;
      EosLoads(disks, rest);
    } else {
      var tail := SectionBytes(ds, items[1..]) + rest;
      assert SectionBytes(ds, items) + rest == ItemBytes(ds, items[0]) + tail;
      var m' := if items[0].Chunk? then m[items[0].block.key := items[0].block.data] else m;
      ItemLoads(ds, disks, m, items[0], tail);
      var o := LoadOne(disks, ItemBytes(ds, items[0]) + tail);
      SectionLoads(ds, o.disks, m', items[1..], rest);
      BlocksFront(m, items);
    }
  }

  lemma ItemLoads(ds: seq<Device>, disks: Disks, m: map<Key, Data>, i: Item, tail: seq<byte>)
    requires Devices(ds) && Holds(ds, disks, m) && Fits(ds, i)
    ensures var o := LoadOne(disks, ItemBytes(ds, i) + tail);
      o.Step? && !o.eos && o.rest == tail
      && Holds(ds, o.disks, if i.Chunk? then m[i.block.key := i.block.data] else m)
  {
    hide Holds, LoadOne;
    match i
    case Chunk(b, pad) => BlockLoads(ds, disks, m, b, pad, tail);
    case Progress(p) => ProgressLoads(ds, disks, p, tail);
  }

  lemma BlocksFront(m: map<Key, Data>, items: seq<Item>)
    requires items != []
    ensures Replay(m, Blocks(items))
         == Replay(if items[0].Chunk? then m[items[0].block.key := items[0].block.data] else m, Blocks(items[1..]))
  {
    if items[0].Chunk? {
      assert Blocks(items)[1..] == Blocks(items[1..]);
    } else {
      assert Blocks(items) == Blocks(items[1..]);
    }
  }

  ghost predicate AllSectionsFit(ds: seq<Device>, sections: seq<seq<Item>>) {
    forall i :: 0 <= i < |sections| ==> AllFit(ds, sections[i])
  }

  function StreamBytes(ds: seq<Device>, sections: seq<seq<Item>>): seq<byte>
    requires AllSectionsFit(ds, sections) && forall d :: 0 <= d < |ds| ==> GoodDevice(ds[d])
  {
    if sections == [] then [] else SectionBytes(ds, sections[0]) + StreamBytes(ds, sections[1..])
  }

  function AllBlocks(sections: seq<seq<Item>>): seq<Block> {
    if sections == [] then [] else Blocks(sections[0]) + AllBlocks(sections[1..])
  }

  lemma {:induction false} StreamLoads(ds: seq<Device>, disks: Disks, m: map<Key, Data>, sections: seq<seq<Item>>)
    requires Devices(ds) && Holds(ds, disks, m) && AllSectionsFit(ds, sections)
    ensures var o := LoadSections(disks, StreamBytes(ds, sections), |sections|);
      o.Step? && o.rest == [] && Holds(ds, o.disks, Replay(m, AllBlocks(sections)))
    decreases |sections|
  {
    hide Holds, AllFit, SectionBytes, Load, Blocks;
    if sections != [] {
      var tail := StreamBytes(ds, sections[1..]);
      SectionLoads(ds, disks, m, sections[0], tail);
      var o := Load(disks, SectionBytes(ds, sections[0]) + tail);
      var m' := Replay(m, Blocks(sections[0]));
      StreamLoads(ds, o.disks, m', sections[1..]);
      ReplayAppend(m, Blocks(sections[0]), AllBlocks(sections[1..]));
    }
  }

  // ---------------------------------------------------------- the whole migration

  /** What one step puts on the stream. */
  function SentBy(s: State, e: Event): seq<Block>
    requires Enabled(s, e)
  {
    match e
    case Send => [s.queue[0]]
    case DirtySync(k) => [Block(k, s.src[k])]
    case _ => []
  }

  lemma SentByReaches(s: State, e: Event)
    requires Enabled(s, e)
    ensures Next(s, e).dst == Replay(s.dst, SentBy(s, e))
  {
    var first := SentBy(s, e);
    assert first != [] ==> Replay(s.dst, first) == s.dst[first[0].key := first[0].data];
  }

  /** The blocks a run sends, in order. */
  function Sent(s: State, events: seq<Event>): seq<Block>
    decreases |events|
  {
    if events == [] || !Enabled(s, events[0]) then []
    else SentBy(s, events[0]) + Sent(Next(s, events[0]), events[1..])
  }

  lemma {:induction false} SentReaches(s: State, events: seq<Event>, t: State, careful: bool)
    requires Run(s, events, t, careful)
    ensures t.dst == Replay(s.dst, Sent(s, events))
    decreases |events|
  {
    hide Enabled, Next, SentBy;
    if events != [] {
      var n := Next(s, events[0]);
      SentReaches(n, events[1..], t, careful);
      SentByReaches(s, events[0]);
      ReplayAppend(s.dst, SentBy(s, events[0]), Sent(n, events[1..]));
    }
  }

  /** Byte for byte: take any run whose bulk reads were drained before the dirty phase
      and that ends finished. The sections with the blocks it sends, and progress
      records anywhere in them, load without error, and then the destination's disks
      hold what the source's disks hold. */
  lemma BlockMigrationTransfersDisks(ds: seq<Device>, disks: Disks, s: State, before: seq<Event>, u: State,
                                     after: seq<Event>, t: State, sections: seq<seq<Item>>)
    requires Devices(ds) && Holds(ds, disks, s.dst)
    requires Initial(s) && Run(s, before, u, false) && NoDirtyReads(before) && BulkOver(u) && u.aio == []
    requires Run(u, after, t, false) && Finished(t)
    requires AllSectionsFit(ds, sections) && AllBlocks(sections) == Sent(s, before + after)
    ensures var o := LoadSections(disks, StreamBytes(ds, sections), |sections|);
      o.Step? && o.rest == [] && Holds(ds, o.disks, t.src)
  {
    hide Holds, Initial, Run, Finished, AllSectionsFit, StreamBytes, LoadSections, Replay, Sent, AllBlocks, BulkOver;
    StreamLoads(ds, disks, s.dst, sections);
    RunJoin(s, before, u, after, t, false);
    SentReaches(s, before + after, t, false);
    MigrationSafeIff(s, before, u);
  }

  // ------------------------------------------------------------ sizes of chunks

  /** The machine's keys are the chunks of the devices, and all contents under way
      have the size of their chunk. */
  ghost predicate SizedState(ds: seq<Device>, s: State) {
    && |s.totals| == |ds| && (forall d :: 0 <= d < |ds| ==> s.totals[d] == Chunks(ds[d].sectors))
    && (forall k :: k in s.src ==> SizedChunk(ds, k, s.src[k]))
    && (forall i :: 0 <= i < |s.aio| && s.aio[i].snap.Some? ==> SizedChunk(ds, s.aio[i].key, s.aio[i].snap.value))
    && (forall i :: 0 <= i < |s.queue| ==> SizedChunk(ds, s.queue[i].key, s.queue[i].data))
  }

  predicate SizedChunk(ds: seq<Device>, k: Key, data: Data) {
    KeyOf(ds, k) && |data| == Len(ds, k)
  }

  lemma SizedKeeps(ds: seq<Device>, s: State, e: Event)
    requires SizedState(ds, s) && Enabled(s, e) && (e.GuestApply? ==> SizedChunk(ds, e.key, e.data))
    ensures SizedState(ds, Next(s, e))
  {
    hide SizedChunk;
  }

  lemma KeysMatch(ds: seq<Device>, s: State, k: Key)
    requires SizedState(ds, s)
    ensures IsKey(s, k) <==> KeyOf(ds, k)
  {
  }

  // ------------------------------------------------ which blocks are accepted

  /** A block for a device that is not there or has no sector is invalid, one that
      starts behind the last sector fails to be written, and every other is accepted;
      one that starts where the device ends writes nothing. */
  lemma BlockAcceptedIff(disks: Disks, name: Name, sector: nat, buf: seq<byte>, rest: seq<byte>)
    requires |name| < 256 && 0 !in name && |buf| == BLOCK_SIZE && sector * SECTOR_SIZE + SECTOR_SIZE <= U64
    ensures LoadOne(disks, BlockRecord(name, sector, buf) + rest) ==
      if name !in disks || |disks[name]| < SECTOR_SIZE then Failed(-EINVAL)
      else if sector * SECTOR_SIZE > |disks[name]| then Failed(-EIO)
      else Step(disks[name := Overlaid(disks[name], sector, buf)], rest, false)
  {
    hide PutBe64, GetBe, CStr, Splice, Overlaid;
    var tail := [|name|] + name + (buf + rest);
    assert BlockRecord(name, sector, buf) + rest == PutBe64(sector * SECTOR_SIZE + FLAG_DEVICE_BLOCK) + tail;
    HeaderReads(sector, FLAG_DEVICE_BLOCK, tail);
    ReadName(name, buf + rest);
    SplitAt(buf, rest);
    if name in disks && |disks[name]| >= SECTOR_SIZE && sector * SECTOR_SIZE <= |disks[name]| {
      OverlayIs(disks[name], sector, buf, rest);
    }
  }

  /** The disk with the block's bytes from its sector on, up to the last whole sector. */
  function Overlaid(disk: seq<byte>, sector: nat, buf: seq<byte>): (d: seq<byte>)
    requires |buf| == BLOCK_SIZE
  {
    seq(|disk|, i requires 0 <= i < |disk| =>
      if sector * SECTOR_SIZE <= i < sector * SECTOR_SIZE + BLOCK_SIZE && i / SECTOR_SIZE < |disk| / SECTOR_SIZE
      then buf[i - sector * SECTOR_SIZE] else disk[i])
  }

  lemma OverlayIs(disk: seq<byte>, sector: nat, buf: seq<byte>, rest: seq<byte>)
    requires |buf| == BLOCK_SIZE && sector <= |disk| / SECTOR_SIZE
    ensures var n := SectorsAt(|disk| / SECTOR_SIZE, sector) * SECTOR_SIZE;
      && n <= BLOCK_SIZE && sector * SECTOR_SIZE + n <= |disk|
      && Splice(disk, sector * SECTOR_SIZE, (buf + rest)[..n]) == Overlaid(disk, sector, buf)
  {
    var n := SectorsAt(|disk| / SECTOR_SIZE, sector) * SECTOR_SIZE;
    assert (buf + rest)[..n] == buf[..n];
  }

  // ------------------------------------------- streams cut short or continued

  /** The same outcome with more of the stream behind it. */
  function Longer(o: Outcome, t: seq<byte>): Outcome {
    if o.Step? then o.(rest := o.rest + t) else o
  }

  lemma ChunkExtends(disks: Disks, sector: nat, eos: bool, s: seq<byte>, t: seq<byte>)
    requires LoadDeviceBlock(disks, sector, eos, s) != Failed(-EIO)
    ensures LoadDeviceBlock(disks, sector, eos, s + t) == Longer(LoadDeviceBlock(disks, sector, eos, s), t)
  {
    hide CStr, Splice;
    var n := s[0] as int + 1;
    assert (s + t)[1..n] == s[1..n] && (s + t)[n..] == s[n..] + t;
    var name, body := CStr(s[1..n]), s[n..];
    if LoadDeviceBlock(disks, sector, eos, s).Step? {
      var m := SectorsAt(|disks[name]| / SECTOR_SIZE, sector) * SECTOR_SIZE;
      assert m <= BLOCK_SIZE <= |body|;
      assert (body + t)[..m] == body[..m] && (body + t)[BLOCK_SIZE..] == body[BLOCK_SIZE..] + t;
    }
  }

  /** block_load decides about a record from the record alone. */
  lemma RecordExtends(disks: Disks, s: seq<byte>, t: seq<byte>)
    requires LoadOne(disks, s) != Failed(-EIO)
    ensures LoadOne(disks, s + t) == Longer(LoadOne(disks, s), t)
  {
    hide GetBe, LoadDeviceBlock, HasFlag;
    assert (s + t)[..8] == s[..8] && (s + t)[8..] == s[8..] + t;
    var addr := GetBe(s[..8]);
    var flags := addr % SECTOR_SIZE;
    if HasFlag(flags, FLAG_DEVICE_BLOCK) {
      ChunkExtends(disks, addr / SECTOR_SIZE, HasFlag(flags, FLAG_EOS), s[8..], t);
    }
  }

  lemma {:induction false} SectionExtends(disks: Disks, s: seq<byte>, t: seq<byte>)
    requires Load(disks, s) != Failed(-EIO)
    ensures Load(disks, s + t) == Longer(Load(disks, s), t)
    decreases |s|
  {
    hide LoadOne;
    RecordExtends(disks, s, t);
    var o := LoadOne(disks, s);
    if o.Step? && !o.eos {
      SectionExtends(o.disks, o.rest, t);
    }
  }

  /** A section cut short is an input error, wherever it is cut. */
  lemma CutSection(disks: Disks, s: seq<byte>, k: nat)
    requires k < |s| && Load(disks, s).Step? && Load(disks, s).rest == []
    ensures Load(disks, s[..k]) == Failed(-EIO)
  {
    hide Load;
    assert s[..k] + s[k..] == s;
    if Load(disks, s[..k]) != Failed(-EIO) {
      SectionExtends(disks, s[..k], s[k..]);
    }
  }
}
