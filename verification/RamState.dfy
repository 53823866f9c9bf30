// Live RAM migration: the state of both ends, and what one call of the sender
// or one record of the stream does to it (Main/linux/arch_init.c).

module RamState {
  import opened Common
  import opened Wire

  type Id = seq<byte>
  type Page = seq<byte>
  type Memory = map<Id, seq<Page>>

  const FLAG_COMPRESS: nat := 0x02
  const FLAG_MEM_SIZE: nat := 0x04
  const FLAG_PAGE: nat := 0x08
  const FLAG_EOS: nat := 0x10
  const FLAG_CONTINUE: nat := 0x20

  const MIGRATION_DIRTY_FLAG: bv8 := 0x08

  // ---------------------------------------------------------------- RAM list

  /** One RAMBlock: `first` is the page number of its offset in the ram_addr_t
      space, `pages` its length in pages. Its host memory is `mem[id]`. */
  datatype Block = Block(id: Id, first: nat, pages: nat)

  predicate Apart(x: Block, y: Block) {
    x.id != y.id && (x.first + x.pages <= y.first || y.first + y.pages <= x.first)
  }

  predicate WellFormedBlock(b: Block) {
    b.pages > 0 && |b.id| < 256 && 0 !in b.id
  }

  ghost predicate Pairwise(bs: seq<Block>) {
    bs == [] || ((forall y :: y in bs[1..] ==> Apart(bs[0], y)) && Pairwise(bs[1..]))
  }

  function TotalPages(bs: seq<Block>): nat {
    if bs == [] then 0 else TotalPages(bs[..|bs| - 1]) + bs[|bs| - 1].pages
  }

  function Insert(b: Block, bs: seq<Block>): seq<Block> {
    if bs == [] || b.first <= bs[0].first then [b] + bs else [bs[0]] + Insert(b, bs[1..])
  }

  /** The list after sort_ram_list: ascending offsets. */
  function SortBlocks(bs: seq<Block>): seq<Block> {
    if bs == [] then [] else Insert(bs[0], SortBlocks(bs[1..]))
  }

  // ------------------------------------------------------------------ sender

  /** `last` is the index of last_block in `blocks` (None for NULL) and
      `lastPage` the page number of last_offset; `dirty` is phys_dirty. */
  datatype Sender = Sender(ps: nat, blocks: seq<Block>, mem: Memory, dirty: seq<bv8>,
                           last: Option<nat>, lastPage: nat)

  predicate IsSlot(bs: seq<Block>, b: nat, p: nat) {
    b < |bs| && p < bs[b].pages
  }

  /** Every stream offset, and the total, is a 64-bit number. */
  predicate FitsStream(ps: nat, bs: seq<Block>) {
    TotalPages(bs) * ps + ps <= U64
  }

  /** Every page of every block has a dirty byte and page-sized contents. */
  ghost predicate Backed(ps: nat, bs: seq<Block>, mem: Memory, dirty: seq<bv8>) {
    forall x :: x in bs ==>
      && x.first + x.pages <= |dirty|
      && x.id in mem && |mem[x.id]| == x.pages
      && forall p :: 0 <= p < x.pages ==> |mem[x.id][p]| == ps
  }

  /** The RAM list of a machine: blocks with unique names and disjoint, nonempty
      ranges of whole pages. */
  ghost predicate Machine(s: Sender) {
    && s.ps >= 64 && s.ps % 4 == 0
    && |s.blocks| > 0
    && (forall x :: x in s.blocks ==> WellFormedBlock(x))
    && Pairwise(s.blocks)
    && FitsStream(s.ps, s.blocks)
    && Backed(s.ps, s.blocks, s.mem, s.dirty)
  }

  ghost predicate Valid(s: Sender) {
    && Machine(s)
    && (s.last.Some? ==> IsSlot(s.blocks, s.last.value, s.lastPage))
    && (s.last.None? ==> s.lastPage == 0)
  }

  predicate IsDirty(s: Sender, b: nat, p: nat)
    requires b < |s.blocks| && s.blocks[b].first + p < |s.dirty|
  {
    s.dirty[s.blocks[b].first + p] & MIGRATION_DIRTY_FLAG != 0
  }

  ghost predicate AllDirty(s: Sender)
    requires Valid(s)
  {
    forall b, p :: IsSlot(s.blocks, b, p) ==> IsDirty(s, b, p)
  }

  ghost predicate NoneDirty(s: Sender)
    requires Valid(s)
  {
    forall b, p :: IsSlot(s.blocks, b, p) ==> !IsDirty(s, b, p)
  }

  /** Stage 1 is what makes a NULL last_block harmless. */
  ghost predicate Ready(s: Sender) {
    Valid(s) && (s.last.None? ==> AllDirty(s))
  }

  function Clear(dirty: seq<bv8>, a: nat): (d: seq<bv8>)
    requires a < |dirty|
    ensures |d| == |dirty|
  {
    dirty[a := dirty[a] & !MIGRATION_DIRTY_FLAG]
  }

  function DirtyIn(dirty: seq<bv8>, lo: nat, n: nat): nat
    requires lo + n <= |dirty|
  {
    if n == 0 then 0
    else DirtyIn(dirty, lo, n - 1) + if dirty[lo + n - 1] & MIGRATION_DIRTY_FLAG != 0 then 1 else 0
  }

  function DirtyOf(bs: seq<Block>, dirty: seq<bv8>): nat
    requires forall x :: x in bs ==> x.first + x.pages <= |dirty|
  {
    if bs == [] then 0
    else DirtyOf(bs[..|bs| - 1], dirty) + DirtyIn(dirty, bs[|bs| - 1].first, bs[|bs| - 1].pages)
  }

  /** ram_save_remaining: how many pages are dirty. */
  ghost function Remaining(s: Sender): nat
    requires Valid(s)
  {
    DirtyOf(s.blocks, s.dirty)
  }

  function NextSlot(bs: seq<Block>, b: nat, p: nat): (n: (nat, nat))
    requires IsSlot(bs, b, p)
  {
    if p + 1 < bs[b].pages then (b, p + 1)
    else if b + 1 < |bs| then (b + 1, 0)
    else (0, 0)
  }

  /** The first dirty page among the n pages that start at (b, p), in list order
      and wrapping at the end of the list. */
  ghost function Sweep(s: Sender, b: nat, p: nat, n: nat): (r: Option<(nat, nat)>)
    requires Valid(s) && IsSlot(s.blocks, b, p)
    ensures r.Some? ==> IsSlot(s.blocks, r.value.0, r.value.1)
    ensures r.Some? ==> s.blocks[r.value.0] in s.blocks && IsDirty(s, r.value.0, r.value.1)
    decreases n
  {
    if n == 0 then None
    else if IsDirty(s, b, p) then Some((b, p))
    else
      var (b', p') := NextSlot(s.blocks, b, p);
      assert s.blocks[0] in s.blocks && (b + 1 < |s.blocks| ==> s.blocks[b + 1] in s.blocks);
      Sweep(s, b', p', n - 1)
  }

  predicate Uniform(page: Page) {
    forall i :: 0 <= i < |page| ==> page[i] == page[0]
  }

  function Flag(on: bool, flag: nat): nat { if on then flag else 0 }

  /** One page record: header, block name unless CONTINUE, one byte or a page. */
  function PageRecord(ps: nat, cont: bool, id: Id, p: nat, page: Page): seq<byte>
    requires |page| > 0 && |id| < 256
  {
    PutBe64(p * ps + Flag(cont, FLAG_CONTINUE) + (if Uniform(page) then FLAG_COMPRESS else FLAG_PAGE))
    + (if cont then [] else [|id|] + id)
    + (if Uniform(page) then [page[0]] else page)
  }

  /** What one call of ram_save_block leaves behind. */
  datatype Saved = Saved(s: Sender, out: seq<byte>, sent: nat)

  function StartBlock(s: Sender): nat {
    if s.last.Some? then s.last.value else 0
  }

  ghost function SaveBlock(s: Sender): Saved
    requires Ready(s)
  {
    var b0 := StartBlock(s);
    assert s.blocks[0] in s.blocks;
    match Sweep(s, b0, s.lastPage, TotalPages(s.blocks))
    case None => Saved(s.(last := Some(b0)), [], 0)
    case Some((b, p)) =>
      var blk := s.blocks[b];
      var page := s.mem[blk.id][p];
      Saved(s.(dirty := Clear(s.dirty, blk.first + p), last := Some(b), lastPage := p),
            PageRecord(s.ps, s.last == Some(b), blk.id, p, page),
            if Uniform(page) then 1 else s.ps)
  }

  // ------------------------------------------------------- stages and guest

  /** A store of the running guest: new page contents, dirty byte 0xff. */
  datatype Write = Write(block: nat, page: nat, data: Page)

  predicate WriteFits(s: Sender, w: Write) {
    IsSlot(s.blocks, w.block, w.page) && |w.data| == s.ps
  }

  ghost function GuestWrite(s: Sender, w: Write): Sender
    requires Machine(s) && WriteFits(s, w)
  {
    var x := s.blocks[w.block];
    assert x in s.blocks;
    s.(mem := s.mem[x.id := s.mem[x.id][w.page := w.data]], dirty := s.dirty[x.first + w.page := 0xff])
  }

  predicate Covered(bs: seq<Block>, a: nat) {
    exists x :: x in bs && x.first <= a < x.first + x.pages
  }

  /** Stage 1 marks every page that is not dirty yet. */
  function MarkAll(bs: seq<Block>, dirty: seq<bv8>): (d: seq<bv8>)
    ensures |d| == |dirty|
  {
    seq(|dirty|, i requires 0 <= i < |dirty| =>
      if Covered(bs, i) && dirty[i] & MIGRATION_DIRTY_FLAG == 0 then 0xff else dirty[i])
  }

  function BlockEntry(ps: nat, x: Block): seq<byte>
    requires |x.id| < 256
  {
    [|x.id|] + x.id + PutBe64(x.pages * ps)
  }

  function BlockList(ps: nat, bs: seq<Block>): seq<byte>
    requires forall x :: x in bs ==> WellFormedBlock(x)
  {
    if bs == [] then []
    else
      assert bs[0] in bs && WellFormedBlock(bs[0]);
      BlockEntry(ps, bs[0]) + BlockList(ps, bs[1..])
  }

  /** What stage 1 does before it sends pages. */
  function StartStage1(s: Sender): Sender {
    s.(blocks := SortBlocks(s.blocks), dirty := MarkAll(SortBlocks(s.blocks), s.dirty),
       last := None, lastPage := 0)
  }

  /** What stage 1 writes ahead of the pages. */
  function Stage1Header(ps: nat, bs: seq<Block>): seq<byte>
    requires forall x :: x in bs ==> WellFormedBlock(x)
  {
    PutBe64(TotalPages(bs) * ps + FLAG_MEM_SIZE) + BlockList(ps, bs)
  }

  const EOS_RECORD: seq<byte> := PutBe64(FLAG_EOS)

  // ---------------------------------------------------------------- receiver

  /** `block` is the static pointer of host_from_stream_offset, None for NULL. */
  datatype Receiver = Receiver(ps: nat, mem: Memory, block: Option<Id>)

  /** Where the bytes of a record go: the block (None for a NULL result), and
      the stream behind the block name. */
  datatype Host = Host(r: Receiver, id: Option<Id>, rest: seq<byte>) | Short

  function HostFromStream(r: Receiver, flags: nat, s: seq<byte>): (h: Host)
    ensures h.Host? ==> |h.rest| <= |s| && h.r.ps == r.ps && h.r.mem == r.mem
    ensures h.Host? && h.id.Some? && (r.block.Some? ==> r.block.value in r.mem) ==> h.id.value in r.mem
  {
    if HasFlag(flags, FLAG_CONTINUE) then Host(r, r.block, s)
    else if |s| < 1 || |s| <= s[0] as int then Short
    else
      var id := CStr(s[1..s[0] as int + 1]);
      var rest := s[s[0] as int + 1..];
      if id in r.mem then Host(r.(block := Some(id)), Some(id), rest)
      else Host(r.(block := None), None, rest)
  }

  /** Outcomes of reading: a record was applied (`eos` says it was the last),
      -EINVAL, a write through a pointer outside every block (undefined in C),
      or the stream ended early. */
  datatype Outcome =
    | Step(r: Receiver, rest: seq<byte>, eos: bool)
    | Invalid
    | Undefined
    | Truncated

  predicate HasLength(r: Receiver, id: Id, length: nat) {
    id in r.mem && |r.mem[id]| * r.ps == length
  }

  /** total_ram_bytes -= length, in 64 bits. */
  function LessBytes(total: nat, length: nat): nat { (total - length) % U64 }

  /** The block list behind a MEM_SIZE header: every name must be known with
      the same length. `total` counts down modulo 2^64. */
  function SyncList(r: Receiver, s: seq<byte>, total: nat, eos: bool): (o: Outcome)
    ensures o.Step? ==> |o.rest| <= |s| && o.r == r && o.eos == eos
    decreases |s|
  {
    if total == 0 then Step(r, s, eos)
    else if |s| < 1 || |s| < s[0] as int + 9 then Truncated
    else
      var id := CStr(s[1..s[0] as int + 1]);
      var length := GetBe(s[s[0] as int + 1..s[0] as int + 9]);
      if !HasLength(r, id, length) then Invalid
      else SyncList(r, s[s[0] as int + 9..], LessBytes(total, length), eos)
  }

  function Store(mem: Memory, id: Id, p: nat, page: Page): Memory
    requires id in mem && p < |mem[id]|
  {
    mem[id := mem[id][p := page]]
  }

  /** The payload part of one turn of ram_load (version 4). */
  function LoadPayload(r: Receiver, flags: nat, p: nat, s: seq<byte>): (o: Outcome)
    ensures o.Step? ==> |o.rest| <= |s|
    ensures o.Step? ==> o.r.ps == r.ps && o.eos == HasFlag(flags, FLAG_EOS)
  {
    var eos := HasFlag(flags, FLAG_EOS);
    if HasFlag(flags, FLAG_COMPRESS) then
      match HostFromStream(r, flags, s)
      case Short => Truncated
      case Host(r', id, rest) =>
        if id.None? then Invalid
        else if |rest| < 1 then Truncated
        else if id.value !in r.mem || p >= |r.mem[id.value]| then Undefined
        else Step(r'.(mem := Store(r.mem, id.value, p, seq(r.ps, i => rest[0]))), rest[1..], eos)
    else if HasFlag(flags, FLAG_PAGE) then
      match HostFromStream(r, flags, s)
      case Short => Truncated
      case Host(r', id, rest) =>
        if id.None? || id.value !in r.mem || p >= |r.mem[id.value]| then Undefined
        else if |rest| < r.ps then Truncated
        else Step(r'.(mem := Store(r.mem, id.value, p, rest[..r.ps])), rest[r.ps..], eos)
    else Step(r, s, eos)
  }

  /** The block list, when the flags announce one; `total` is its header's size. */
  function LoadList(r: Receiver, flags: nat, total: nat, s: seq<byte>): (o: Outcome)
    ensures o.Step? ==> |o.rest| <= |s| && o.r == r
  {
    if HasFlag(flags, FLAG_MEM_SIZE) then SyncList(r, s, total, false) else Step(r, s, false)
  }

  lemma ModBelow(n: nat, d: nat)
    requires d > 0
    ensures 0 <= n % d <= n && 0 <= n / d
  {
  }

  /** One turn of the ram_load loop. */
  function LoadOne(r: Receiver, s: seq<byte>): (o: Outcome)
    requires r.ps > 0
    ensures o.Step? ==> |o.rest| < |s| && o.r.ps == r.ps
  {
    hide GetBe, LoadPayload, LoadList;
    if |s| < 8 then Truncated
    else
      var addr := GetBe(s[..8]);
      ModBelow(addr, r.ps);
      var flags := addr % r.ps;
      var synced := LoadList(r, flags, addr - flags, s[8..]);
      if synced.Step? then LoadPayload(r, flags, addr / r.ps, synced.rest) else synced
  }

  /** ram_load: records until one carries EOS. */
  function Load(r: Receiver, s: seq<byte>): (o: Outcome)
    requires r.ps > 0
    ensures o.Step? ==> |o.rest| <= |s| && o.r.ps == r.ps
    decreases |s|
  {
    var o := LoadOne(r, s);
    if o.Step? && !o.eos then Load(o.r, o.rest) else o
  }
}
