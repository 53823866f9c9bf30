// The two ends of live RAM migration as the imperative code they are
// (Main/linux/arch_init.c), each method proved against the functions above.

module RamCode {
  import opened Common
  import opened Wire
  import opened RamState
  import opened RamSort
  import opened RamSweep
  import opened RamMigration

  /** The i-th 32-bit word of a page, least significant byte first. */
  function Word(page: Page, i: nat): nat
    requires 4 * i + 3 < |page|
  {
    page[4 * i] as int + 0x100 * page[4 * i + 1] as int + 0x1_0000 * page[4 * i + 2] as int
    + 0x100_0000 * page[4 * i + 3] as int
  }

  /** is_dup_page compares words; the answer is about bytes. */
  method IsDupPage(page: Page, ch: byte) returns (dup: bool)
    requires |page| % 4 == 0
    ensures dup <==> forall i :: 0 <= i < |page| ==> page[i] == ch
  {
    var val := ch as int * 0x0101_0101;
    var i := 0;
    while i < |page| / 4
      invariant 0 <= i <= |page| / 4
      invariant forall k :: 0 <= k < 4 * i ==> page[k] == ch
    {
      if Word(page, i) != val {
        return false;
      }
      i := i + 1;
    }
    return true;
  }

  class RamSaver {
    const ps: nat
    var blocks: seq<Block>
    var mem: Memory
    var dirty: array<bv8>
    var last: Option<nat>
    var lastPage: nat
    var bytesTransferred: nat
    var stream: seq<byte>

    ghost function View(): Sender
      reads this, dirty
    {
      Sender(ps, blocks, mem, dirty[..], last, lastPage)
    }

    constructor (ps: nat, blocks: seq<Block>, mem: Memory, dirty: array<bv8>)
      ensures View() == Sender(ps, blocks, mem, dirty[..], None, 0)
      ensures stream == [] && this.dirty == dirty
    {
      this.ps, this.blocks, this.mem, this.dirty := ps, blocks, mem, dirty;
      last, lastPage, bytesTransferred, stream := None, 0, 0, [];
    }

    /** A store of the guest goes to memory and sets the whole dirty byte. */
    method GuestStore(w: Write)
      requires Machine(View()) && WriteFits(View(), w)
      modifies this`mem, dirty
      ensures View() == GuestWrite(old(View()), w)
    {
      var x := blocks[w.block];
      assert x in blocks;
      mem := mem[x.id := mem[x.id][w.page := w.data]];
      dirty[x.first + w.page] := 0xff;
    }

    /** ram_save_block. */
    method SaveBlock() returns (bytesSent: nat)
      requires Ready(View())
      modifies this`last, this`lastPage, this`stream, dirty
      ensures var r := RamState.SaveBlock(old(View()));
        View() == r.s && stream == old(stream) + r.out && bytesSent == r.sent
    {
      hide Machine, Sweep, Dist, PageRecord, AllDirty;
      ghost var s, n := View(), TotalPages(blocks);
      StartIsSlot(s);
      var block: nat := if last.Some? then last.value else 0;
      var page: nat := lastPage;
      ghost var b0, p0, left := block, page, n;
      bytesSent := 0;
      while true
        invariant IsSlot(blocks, block, page) && blocks[block].first + page < dirty.Length
        invariant last.None? ==> (block, page) == (0, 0)
        invariant 0 < left <= n && Dist(blocks, b0, p0, block, page) == n - left
        invariant Sweep(s, b0, p0, n) == Sweep(s, block, page, left)
        invariant View() == s && stream == old(stream) && bytesSent == 0
        decreases left
      {
        if dirty[blocks[block].first + page] & MIGRATION_DIRTY_FLAG != 0 {
          SweepHit(s, block, page, left);
          bytesSent := SendPage(block, page, last == Some(block));
          break;
        }
        SweepStep(s, b0, p0, block, page, left);
        block, page := Advance(block, page);
        left := left - 1;
        if blocks[block].first + page == blocks[last.value].first + lastPage {
          break;
        }
      }
      last, lastPage := Some(block), page;
    }

    /** The next page of the list, from the last page back to the first. */
    method Advance(block: nat, page: nat) returns (b: nat, p: nat)
      requires IsSlot(blocks, block, page)
      ensures (b, p) == NextSlot(blocks, block, page)
    {
      b, p := block, page + 1;
      if p >= blocks[b].pages {
        b, p := b + 1, 0;
        if b == |blocks| {
          b := 0;
        }
      }
    }

    /** Clears the page's dirty bit and writes its record. */
    method SendPage(block: nat, page: nat, cont: bool) returns (bytesSent: nat)
      requires Valid(View()) && IsSlot(blocks, block, page)
      modifies this`stream, dirty
      ensures blocks[block] in blocks && dirty[..] == Clear(old(dirty[..]), blocks[block].first + page)
      ensures var p := mem[blocks[block].id][page];
        && stream == old(stream) + PageRecord(ps, cont, blocks[block].id, page, p)
        && bytesSent == if Uniform(p) then 1 else ps
    {
      hide Machine, PageRecord, Uniform;
      var x := blocks[block];
      KnownPage(View(), x, page);
      ghost var before := dirty[..];
      dirty[x.first + page] := dirty[x.first + page] & !MIGRATION_DIRTY_FLAG;
      assert dirty[..] == Clear(before, x.first + page);
      bytesSent := PutPage(x.id, page, mem[x.id][page], cont);
    }

    /** One byte stands for a page of equal bytes. */
    method PutPage(id: Id, page: nat, p: Page, cont: bool) returns (bytesSent: nat)
      requires |p| == ps > 0 && ps % 4 == 0 && |id| < 256
      modifies this`stream
      ensures stream == old(stream) + PageRecord(ps, cont, id, page, p)
      ensures bytesSent == if Uniform(p) then 1 else ps
    {
      hide PageRecord, PutBe64, Uniform;
      var dup := IsDupPage(p, p[0]);
      UniformMeansFirst(p);
      RecordBytes(ps, cont, id, page, p);
      var flags := (if cont then FLAG_CONTINUE else 0) + (if dup then FLAG_COMPRESS else FLAG_PAGE);
      var name := if cont then [] else [|id|] + id;
      var body := if dup then [p[0]] else p;
      stream := stream + (PutBe64(page * ps + flags) + name + body);
      bytesSent := if dup then 1 else ps;
    }

    /** ram_save_remaining. */
    method SaveRemaining() returns (count: nat)
      requires Valid(View())
      ensures count == Remaining(View())
    {
      count := 0;
      var b := 0;
      while b < |blocks|
        invariant 0 <= b <= |blocks|
        invariant forall x :: x in blocks[..b] ==> x in blocks
        invariant count == DirtyOf(blocks[..b], dirty[..])
      {
        assert blocks[b] in blocks;
        var n := BlockRemaining(blocks[b]);
        count := count + n;
        assert blocks[..b + 1][..b] == blocks[..b];
        b := b + 1;
      }
      assert blocks[..b] == blocks;
    }

    /** The dirty pages of one block. */
    method BlockRemaining(x: Block) returns (count: nat)
      requires x.first + x.pages <= dirty.Length
      ensures count == DirtyIn(dirty[..], x.first, x.pages)
    {
      count := 0;
      var p := 0;
      while p < x.pages
        invariant 0 <= p <= x.pages && count == DirtyIn(dirty[..], x.first, p)
      {
        if dirty[x.first + p] & MIGRATION_DIRTY_FLAG != 0 {
          count := count + 1;
        }
        p := p + 1;
      }
    }

    /** The rate-limited loop of ram_save_live; the limit allows `budget` calls. */
    method SavePages(budget: nat)
      requires Ready(View())
      modifies this`last, this`lastPage, this`stream, this`bytesTransferred, dirty
      ensures var r := Pump(old(View()), budget);
        && View() == r.s && stream == old(stream) + r.out
        && bytesTransferred == old(bytesTransferred) + r.sent
    {
      hide Ready, RamState.SaveBlock, NoneDirty, Remaining;
      ghost var total := Pump(View(), budget);
      var left := budget;
      while left > 0
        invariant Ready(View()) && 0 <= left
        invariant Pump(View(), left).s == total.s
        invariant stream + Pump(View(), left).out == old(stream) + total.out
        invariant bytesTransferred + Pump(View(), left).sent == old(bytesTransferred) + total.sent
        decreases left
      {
        SaveBlockProgress(View());
        var sent := SaveBlock();
        bytesTransferred := bytesTransferred + sent;
        if sent == 0 {
          return;
        }
        left := left - 1;
      }
    }

    /** The flush of stage 3, which ignores the rate limit. */
    method SaveAllPages()
      requires Ready(View())
      modifies this`last, this`lastPage, this`stream, this`bytesTransferred, dirty
      ensures var r := Drain(old(View()));
        && View() == r.s && stream == old(stream) + r.out
        && bytesTransferred == old(bytesTransferred) + r.sent
    {
      hide Machine, AllDirty, RamState.SaveBlock, NoneDirty;
      ghost var total := Drain(View());
      while true
        invariant Ready(View())
        invariant Drain(View()).s == total.s
        invariant stream + Drain(View()).out == old(stream) + total.out
        invariant bytesTransferred + Drain(View()).sent == old(bytesTransferred) + total.sent
        decreases Remaining(View())
      {
        SaveBlockProgress(View());
        var sent := SaveBlock();
        if sent == 0 {
          break;
        }
        bytesTransferred := bytesTransferred + sent;
      }
    }

    /** "Make sure all dirty bits are set". */
    method MarkAllPages()
      requires Machine(View())
      modifies dirty
      ensures dirty[..] == MarkAll(blocks, old(dirty[..]))
    {
      ghost var d0 := dirty[..];
      var b := 0;
      hide Machine;
      while b < |blocks|
        invariant 0 <= b <= |blocks|
        invariant forall a :: 0 <= a < dirty.Length ==> dirty[a] == Marked(blocks[..b], d0, a)
      {
        InRam(old(View()), blocks[b]);
        MarkBlock(b, d0);
        b := b + 1;
      }
      assert blocks[..b] == blocks;
    }

    /** The pages of one block. */
    method MarkBlock(b: nat, ghost d0: seq<bv8>)
      requires b < |blocks| && blocks[b].first + blocks[b].pages <= dirty.Length == |d0|
      requires forall a :: 0 <= a < dirty.Length ==> dirty[a] == Marked(blocks[..b], d0, a)
      modifies dirty
      ensures forall a :: 0 <= a < dirty.Length ==> dirty[a] == Marked(blocks[..b + 1], d0, a)
    {
      hide Covered;
      var x := blocks[b];
      var p := 0;
      while p < x.pages
        invariant 0 <= p <= x.pages
        invariant forall a :: 0 <= a < dirty.Length ==>
          dirty[a] == if x.first <= a < x.first + p && d0[a] & MIGRATION_DIRTY_FLAG == 0 then 0xff
                      else Marked(blocks[..b], d0, a)
      {
        assert (0xff as bv8) & MIGRATION_DIRTY_FLAG != 0;
        if dirty[x.first + p] & MIGRATION_DIRTY_FLAG == 0 {
          dirty[x.first + p] := 0xff;
        }
        p := p + 1;
      }
      MarkedStep(blocks, b, d0);
    }

    /** ram_bytes_total, in pages. */
    method TotalRamPages() returns (total: nat)
      ensures total == TotalPages(blocks)
    {
      total := 0;
      var b := 0;
      while b < |blocks|
        invariant 0 <= b <= |blocks| && total == TotalPages(blocks[..b])
      {
        assert blocks[..b + 1][..b] == blocks[..b];
        total := total + blocks[b].pages;
        b := b + 1;
      }
      assert blocks[..b] == blocks;
    }

    /** The MEM_SIZE record: total length, then every block's name and length. */
    method WriteHeader()
      requires forall x :: x in blocks ==> WellFormedBlock(x)
      modifies this`stream
      ensures stream == old(stream) + Stage1Header(ps, blocks)
    {
      var total := TotalRamPages();
      hide PutBe64, BlockEntry, TotalPages;
      stream := stream + PutBe64(total * ps + FLAG_MEM_SIZE);
      ghost var header, list := stream, BlockList(ps, blocks);
      assert old(stream) + Stage1Header(ps, blocks) == header + list;
      hide Stage1Header;
      var b := 0;
      assert blocks[b..] == blocks;
      while b < |blocks|
        invariant 0 <= b <= |blocks|
        invariant forall x :: x in blocks[b..] ==> WellFormedBlock(x)
        invariant stream + BlockList(ps, blocks[b..]) == header + list
      {
        assert blocks[b..][0] == blocks[b] && blocks[b..][1..] == blocks[b + 1..];
        assert blocks[b] in blocks[b..] && WellFormedBlock(blocks[b]);
        ghost var entry, rest := BlockEntry(ps, blocks[b]), BlockList(ps, blocks[b + 1..]);
        assert stream + (entry + rest) == stream + entry + rest;
        stream := stream + BlockEntry(ps, blocks[b]);
        b := b + 1;
      }
      assert stream + [] == stream;
    }

    /** The preparation of stage 1: reset the cursor, sort, mark everything. */
    method Begin()
      requires Machine(View())
      modifies this`last, this`lastPage, this`blocks, this`bytesTransferred, dirty
      ensures View() == StartStage1(old(View())) && bytesTransferred == 0
      ensures blocks == SortBlocks(old(blocks))
    {
      StartMachine(View());
      hide Machine;
      bytesTransferred := 0;
      last, lastPage := None, 0;
      blocks := SortBlocks(blocks);
      MarkAllPages();
    }

    /** ram_save_live, stage 1: preparation, header, pages, end of section. */
    method SaveLiveStage1(budget: nat)
      requires Machine(View())
      modifies this`last, this`lastPage, this`blocks, this`bytesTransferred, this`stream, dirty
      ensures var t := Stage1(old(View()), budget);
        View() == t.s && stream == old(stream) + t.sections[0]
    {
      ghost var s := View();
      StartIsReady(s);
      StartMachine(s);
      ghost var s1 := StartStage1(s);
      ghost var header, p := Stage1Header(s1.ps, s1.blocks), Pump(s1, budget);
      assert s1.ps == ps;
      assert Stage1(s, budget) == Trace(p.s, [header + p.out + EOS_RECORD]);
      hide Machine, Pump, Stage1Header, Ready, StartStage1, AllDirty, Stage1;
      assert stream + (header + p.out + EOS_RECORD) == stream + header + p.out + EOS_RECORD;
      Begin();
      WriteHeader();
      SavePages(budget);
      stream := stream + EOS_RECORD;
    }

    /** ram_save_live, stage 2. */
    method SaveLiveStage2(budget: nat)
      requires Ready(View())
      modifies this`last, this`lastPage, this`stream, this`bytesTransferred, dirty
      ensures var p := Pump(old(View()), budget);
        View() == p.s && stream == old(stream) + (p.out + EOS_RECORD)
    {
      hide Ready, Pump;
      SavePages(budget);
      stream := stream + EOS_RECORD;
    }

    /** ram_save_live, stage 3: what the rate limit allows, then the rest. */
    method SaveLiveStage3(budget: nat)
      requires Ready(View())
      modifies this`last, this`lastPage, this`stream, this`bytesTransferred, dirty
      ensures var t := Stage3(Trace(old(View()), []), budget);
        View() == t.s && stream == old(stream) + t.sections[0]
    {
      hide Ready, Pump, Drain, NoneDirty, Machine, Stage3;
      Stage3Is(View(), budget);
      SaveRest(budget);
      stream := stream + EOS_RECORD;
    }

    /** Limited pages, then all of them. */
    method SaveRest(budget: nat)
      requires Ready(View())
      modifies this`last, this`lastPage, this`stream, this`bytesTransferred, dirty
      ensures var p := Pump(old(View()), budget);
        View() == Drain(p.s).s && stream == old(stream) + (p.out + Drain(p.s).out)
    {
      hide Ready, Pump, Drain, NoneDirty, Machine;
      SavePages(budget);
      SaveAllPages();
    }
  }

  lemma Stage3Is(s: Sender, budget: nat)
    requires Ready(s)
    ensures var p := Pump(s, budget);
      Stage3(Trace(s, []), budget) == Trace(Drain(p.s).s, [p.out + Drain(p.s).out + EOS_RECORD])
  {
    hide Ready, Pump, Drain, NoneDirty;
  }

  lemma StartMachine(s: Sender)
    requires Machine(s)
    ensures Machine(s.(blocks := SortBlocks(s.blocks), last := None, lastPage := 0))
    ensures forall x :: x in SortBlocks(s.blocks) ==> WellFormedBlock(x)
  {
    SortKeeps(s.blocks);
  }

  lemma InRam(s: Sender, x: Block)
    requires Machine(s) && x in s.blocks
    ensures x.first + x.pages <= |s.dirty|
  {
  }

  function Marked(bs: seq<Block>, d: seq<bv8>, a: nat): bv8
    requires a < |d|
  {
    if Covered(bs, a) && d[a] & MIGRATION_DIRTY_FLAG == 0 then 0xff else d[a]
  }

  lemma MarkedStep(bs: seq<Block>, b: nat, d: seq<bv8>)
    requires b < |bs|
    ensures forall a :: 0 <= a < |d| ==>
      Marked(bs[..b + 1], d, a)
      == if bs[b].first <= a < bs[b].first + bs[b].pages && d[a] & MIGRATION_DIRTY_FLAG == 0 then 0xff
         else Marked(bs[..b], d, a)
  {
    assert bs[..b + 1] == bs[..b] + [bs[b]];
    assert forall x :: x in bs[..b + 1] <==> x in bs[..b] || x == bs[b];
  }

  lemma UniformMeansFirst(page: Page)
    requires |page| > 0
    ensures Uniform(page) <==> forall i :: 0 <= i < |page| ==> page[i] == page[0]
  {
  }

  lemma RecordBytes(ps: nat, cont: bool, id: Id, page: nat, p: Page)
    requires |p| > 0 && |id| < 256
    ensures var flags := (if cont then FLAG_CONTINUE else 0) + (if Uniform(p) then FLAG_COMPRESS else FLAG_PAGE);
      PageRecord(ps, cont, id, page, p) == PutBe64(page * ps + flags) + (if cont then [] else [|id|] + id)
        + (if Uniform(p) then [p[0]] else p)
  {
    hide PutBe64, Uniform;
  }

  /** A page of a listed block is there, has the page size, and its dirty byte too. */
  lemma KnownPage(s: Sender, x: Block, page: nat)
    requires Valid(s) && x in s.blocks && page < x.pages
    ensures x.id in s.mem && page < |s.mem[x.id]| && |s.mem[x.id][page]| == s.ps > 0 && s.ps % 4 == 0
    ensures |x.id| < 256 && x.first + page < |s.dirty|
  {
  }

  lemma StartIsSlot(s: Sender)
    requires Valid(s)
    ensures IsSlot(s.blocks, StartBlock(s), s.lastPage)
    ensures s.blocks[StartBlock(s)].first + s.lastPage < |s.dirty|
    ensures Dist(s.blocks, StartBlock(s), s.lastPage, StartBlock(s), s.lastPage) == 0
    ensures TotalPages(s.blocks) > 0
  {
    assert s.blocks[0] in s.blocks && s.blocks[StartBlock(s)] in s.blocks;
    IndexBound(s.blocks, StartBlock(s), s.lastPage);
  }

  lemma SweepHit(s: Sender, b: nat, p: nat, left: nat)
    requires Valid(s) && IsSlot(s.blocks, b, p) && left > 0
    requires s.blocks[b].first + p < |s.dirty| && IsDirty(s, b, p)
    ensures Sweep(s, b, p, left) == Some((b, p))
  {
  }

  /** Passing over a clean page: the sweep goes on with the next one, and is back
      at its start exactly when no page is left. A start address can only be met
      again at the start page, and NULL is never dereferenced. */
  lemma SweepStep(s: Sender, b0: nat, p0: nat, b: nat, p: nat, left: nat)
    requires Ready(s) && IsSlot(s.blocks, b, p)
    requires b0 == StartBlock(s) && p0 == s.lastPage && IsSlot(s.blocks, b0, p0)
    requires 0 < left <= TotalPages(s.blocks)
    requires Dist(s.blocks, b0, p0, b, p) == TotalPages(s.blocks) - left
    requires s.blocks[b].first + p < |s.dirty| && !IsDirty(s, b, p)
    ensures var n := NextSlot(s.blocks, b, p);
      && IsSlot(s.blocks, n.0, n.1) && s.blocks[n.0].first + n.1 < |s.dirty|
      && Sweep(s, b, p, left) == Sweep(s, n.0, n.1, left - 1)
      && s.last.Some?
      && (s.blocks[n.0].first + n.1 == s.blocks[s.last.value].first + s.lastPage <==> left == 1)
      && (left == 1 ==> n == (b0, p0) && Sweep(s, n.0, n.1, left - 1) == None)
      && (left > 1 ==> Dist(s.blocks, b0, p0, n.0, n.1) == TotalPages(s.blocks) - (left - 1))
  {
    assert s.blocks[0] in s.blocks && (b + 1 < |s.blocks| ==> s.blocks[b + 1] in s.blocks);
    DistAdvance(s.blocks, b0, p0, b, p);
    var n := NextSlot(s.blocks, b, p);
    assert s.blocks[n.0] in s.blocks;
    AddressesDiffer(s, n.0, n.1, b0, p0);
  }

  lemma AddressesDiffer(s: Sender, b: nat, p: nat, c: nat, q: nat)
    requires Valid(s) && IsSlot(s.blocks, b, p) && IsSlot(s.blocks, c, q)
    ensures s.blocks[b].first + p == s.blocks[c].first + q <==> (b, p) == (c, q)
  {
    if b != c {
      ApartAt(s.blocks, b, c);
    }
  }

  datatype Status = Success | Einval | WildStore | ShortRead

  /** How ram_load ends in each case of the specification. */
  function StatusOf(o: Outcome): Status {
    match o
    case Step(_, _, _) => Success
    case Invalid => Einval
    case Undefined => WildStore
    case Truncated => ShortRead
  }

  class RamLoader {
    const ps: nat
    var mem: Memory
    var block: Option<Id>
    var input: seq<byte>

    function View(): Receiver
      reads this
    {
      Receiver(ps, mem, block)
    }

    constructor (ps: nat, mem: Memory, input: seq<byte>)
      ensures View() == Receiver(ps, mem, None) && this.input == input
    {
      this.ps, this.mem, this.input, block := ps, mem, input, None;
    }

    /** host_from_stream_offset, without the pointer arithmetic: which block. */
    method HostFromStreamOffset(flags: nat) returns (status: Status, id: Option<Id>)
      modifies this`block, this`input
      ensures match HostFromStream(old(View()), flags, old(input))
        case Short => status == ShortRead
        case Host(r, i, rest) => status == Success && View() == r && id == i && input == rest
    {
      if HasFlag(flags, FLAG_CONTINUE) {
        return Success, block;
      }
      if |input| < 1 || |input| <= input[0] as int {
        return ShortRead, None;
      }
      var len := input[0] as int;
      var name := CStr(input[1..len + 1]);
      input := input[len + 1..];
      block := if name in mem then Some(name) else None;
      return Success, block;
    }

    /** The loop that checks the sender's RAM list against this machine's. */
    method SyncBlockList(totalBytes: nat) returns (status: Status)
      modifies this`input
      ensures var o := SyncList(old(View()), old(input), totalBytes, false);
        status == StatusOf(o) && (o.Step? ==> input == o.rest)
    {
      hide SyncList, GetBe, CStr, LessBytes;
      var total: nat := totalBytes;
      while total != 0
        invariant SyncList(old(View()), input, total, false)
               == SyncList(old(View()), old(input), totalBytes, false)
        decreases |input|
      {
        SyncTurn(View(), input, total);
        if |input| < 1 || |input| < input[0] as int + 9 {
          return ShortRead;
        }
        var len := input[0] as int;
        var name := CStr(input[1..len + 1]);
        var length := GetBe(input[len + 1..len + 9]);
        input := input[len + 9..];
        if name !in mem || |mem[name]| * ps != length {
          return Einval;
        }
        total := LessBytes(total, length);
      }
      SyncTurn(View(), input, 0);
      return Success;
    }

    /** memset or qemu_get_buffer into the page a record names. */
    method LoadPage(flags: nat, page: nat) returns (status: Status)
      modifies this
      ensures var o := LoadPayload(old(View()), flags, page, old(input));
        status == StatusOf(o) && (o.Step? ==> View() == o.r && input == o.rest)
    {
      if HasFlag(flags, FLAG_COMPRESS) {
        var id;
        status, id := HostFromStreamOffset(flags);
        if status != Success { return; }
        if id.None? { return Einval; }
        if |input| < 1 { return ShortRead; }
        if id.value !in mem || page >= |mem[id.value]| { return WildStore; }
        var ch := input[0];
        input := input[1..];
        mem := mem[id.value := mem[id.value][page := seq(ps, i => ch)]];
      } else if HasFlag(flags, FLAG_PAGE) {
        var id;
        status, id := HostFromStreamOffset(flags);
        if status != Success { return; }
        if id.None? || id.value !in mem || page >= |mem[id.value]| { return WildStore; }
        if |input| < ps { return ShortRead; }
        mem := mem[id.value := mem[id.value][page := input[..ps]]];
        input := input[ps..];
      }
      return Success;
    }

    /** One turn of the loop of ram_load. */
    method LoadRecord() returns (status: Status, eos: bool)
      requires ps > 0
      modifies this
      ensures var o := LoadOne(old(View()), old(input));
        status == StatusOf(o) && (o.Step? ==> View() == o.r && input == o.rest && eos == o.eos)
    {
      hide LoadPayload, SyncList, GetBe, HasFlag;
      eos := false;
      if |input| < 8 {
        return ShortRead, eos;
      }
      var addr := GetBe(input[..8]);
      input := input[8..];
      var flags := addr % ps;
      if HasFlag(flags, FLAG_MEM_SIZE) {
        status := SyncBlockList(addr - flags);
        if status != Success { return; }
      }
      status := LoadPage(flags, addr / ps);
      eos := HasFlag(flags, FLAG_EOS);
    }

    /** ram_load for version 4. */
    method RamLoad() returns (status: Status)
      requires ps > 0
      modifies this
      ensures var o := Load(old(View()), old(input));
        status == StatusOf(o) && (o.Step? ==> View() == o.r && input == o.rest)
    {
      hide Load, LoadOne;
      while true
        invariant Load(View(), input) == Load(old(View()), old(input))
        decreases |input|
      {
        LoadTurn(View(), input);
        var eos;
        status, eos := LoadRecord();
        if status != Success || eos {
          return;
        }
      }
    }
  }

  lemma SyncTurn(r: Receiver, s: seq<byte>, total: nat)
    ensures SyncList(r, s, total, false) ==
      if total == 0 then Outcome.Step(r, s, false)
      else if |s| < 1 || |s| < s[0] as int + 9 then Truncated
      else
        var id := CStr(s[1..s[0] as int + 1]);
        var length := GetBe(s[s[0] as int + 1..s[0] as int + 9]);
        if !HasLength(r, id, length) then Invalid
        else SyncList(r, s[s[0] as int + 9..], LessBytes(total, length), false)
  {
    hide GetBe, CStr, HasLength, LessBytes;
  }

  lemma LoadTurn(r: Receiver, s: seq<byte>)
    requires r.ps > 0
    ensures var o := LoadOne(r, s); Load(r, s) == if o.Step? && !o.eos then Load(o.r, o.rest) else o
  {
    hide LoadOne;
  }
}
