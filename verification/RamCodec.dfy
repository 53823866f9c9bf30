// Page records and the block list survive the trip through the stream: the
// reader of ram_load takes back exactly what ram_save_live wrote.

module RamCodec {
  import opened Common
  import opened Wire
  import opened RamState
  import opened RamSort

  lemma ReadHeader(n: nat, rest: seq<byte>)
    requires n < U64
    ensures GetBe((PutBe64(n) + rest)[..8]) == n
    ensures (PutBe64(n) + rest)[8..] == rest
  {
    GetPutBe64(n);
    SplitAt(PutBe64(n), rest);
  }

  /** The receiver's block pointer names the block a record was meant for. */
  predicate Resolves(r: Receiver, cont: bool, id: Id, p: nat) {
    id in r.mem && p < |r.mem[id]| && (cont ==> r.block == Some(id))
  }

  function PageFlags(cont: bool, page: Page): nat {
    Flag(cont, FLAG_CONTINUE) + (if Uniform(page) then FLAG_COMPRESS else FLAG_PAGE)
  }

  function Name(cont: bool, id: Id): seq<byte>
    requires |id| < 256
  {
    if cont then [] else [|id|] + id
  }

  lemma FlagBits(cont: bool, page: Page)
    ensures var flags := PageFlags(cont, page);
      && flags < 64
      && HasFlag(flags, FLAG_CONTINUE) == cont && HasFlag(flags, FLAG_COMPRESS) == Uniform(page)
      && HasFlag(flags, FLAG_PAGE) == !Uniform(page) && !HasFlag(flags, FLAG_EOS)
      && !HasFlag(flags, FLAG_MEM_SIZE)
  {
  }

  /** The name (or its absence) leads back to the block it was written for. */
  lemma NameLoads(r: Receiver, cont: bool, id: Id, p: nat, page: Page, rest: seq<byte>)
    requires |id| < 256 && 0 !in id && Resolves(r, cont, id, p)
    ensures HostFromStream(r, PageFlags(cont, page), Name(cont, id) + rest)
         == Host(r.(block := Some(id)), Some(id), rest)
  {
    FlagBits(cont, page);
    if cont {
      assert [] + rest == rest;
    } else {
      ReadName(id, rest);
    }
  }

  lemma BodyLoads(r: Receiver, cont: bool, id: Id, p: nat, page: Page, rest: seq<byte>)
    requires |page| == r.ps > 0 && |id| < 256 && 0 !in id && Resolves(r, cont, id, p)
    ensures var body := if Uniform(page) then [page[0]] else page;
      LoadPayload(r, PageFlags(cont, page), p, Name(cont, id) + (body + rest))
      == Step(r.(mem := Store(r.mem, id, p, page), block := Some(id)), rest, false)
  {
    var body := if Uniform(page) then [page[0]] else page;
    FlagBits(cont, page);
    NameLoads(r, cont, id, p, page, body + rest);
    SplitAt(body, rest);
    if Uniform(page) {
      assert seq(r.ps, i => (body + rest)[0]) == page;
    }
  }

  /** A header without MEM_SIZE is followed by its payload. */
  lemma HeaderLoads(r: Receiver, p: nat, flags: nat, tail: seq<byte>)
    requires r.ps > 0 && flags < r.ps && p * r.ps + flags < U64 && !HasFlag(flags, FLAG_MEM_SIZE)
    ensures LoadOne(r, PutBe64(p * r.ps + flags) + tail) == LoadPayload(r, flags, p, tail)
  {
    hide LoadPayload, PutBe64, GetBe;
    var header := p * r.ps + flags;
    DivUnique(header, r.ps, p, flags);
    ReadHeader(header, tail);
  }

  lemma RecordShape(ps: nat, cont: bool, id: Id, p: nat, page: Page, rest: seq<byte>)
    requires |page| > 0 && |id| < 256
    ensures PageRecord(ps, cont, id, p, page) + rest
         == PutBe64(p * ps + PageFlags(cont, page))
            + (Name(cont, id) + ((if Uniform(page) then [page[0]] else page) + rest))
  {
    hide Uniform, PutBe64;
    var body := if Uniform(page) then [page[0]] else page;
    var header := PutBe64(p * ps + PageFlags(cont, page));
    assert PageRecord(ps, cont, id, p, page) == header + Name(cont, id) + body;
    assert header + Name(cont, id) + body + rest == header + (Name(cont, id) + (body + rest));
  }

  /** Reading back a page record: one record is consumed, it is not the last, and
      exactly the named page of the named block is replaced by the page sent. */
  lemma PageRecordLoads(r: Receiver, cont: bool, id: Id, p: nat, page: Page, rest: seq<byte>, n: nat)
    requires r.ps >= 64 && |page| == r.ps && |id| < 256 && 0 !in id
    requires p < n && n * r.ps + r.ps <= U64 && Resolves(r, cont, id, p)
    ensures LoadOne(r, PageRecord(r.ps, cont, id, p, page) + rest)
         == Step(r.(mem := Store(r.mem, id, p, page), block := Some(id)), rest, false)
  {
    hide Uniform, LoadPayload, LoadOne, PutBe64, Store, PageRecord, Name, HasFlag;
    FlagBits(cont, page);
    MulLe(p, n, r.ps);
    BodyLoads(r, cont, id, p, page, rest);
    RecordShape(r.ps, cont, id, p, page, rest);
    HeaderLoads(r, p, PageFlags(cont, page),
      Name(cont, id) + ((if Uniform(page) then [page[0]] else page) + rest));
  }

  lemma EosLoads(r: Receiver)
    requires r.ps >= 64
    ensures Load(r, EOS_RECORD) == Step(r, [], true)
  {
    HeaderLoads(r, 0, FLAG_EOS, []);
    assert EOS_RECORD + [] == EOS_RECORD;
  }

  lemma EntryLoads(r: Receiver, x: Block, tail: seq<byte>, length: nat, left: nat)
    requires WellFormedBlock(x) && x.id in r.mem && |r.mem[x.id]| == x.pages
    requires length == x.pages * r.ps && 0 < length && length + left < U64
    ensures SyncList(r, BlockEntry(r.ps, x) + tail, length + left, false) == SyncList(r, tail, left, false)
  {
    hide SyncList, BlockEntry, CStr, GetBe, PutBe64;
    EntryReads(r.ps, x, tail, length);
    ListStep(r, BlockEntry(r.ps, x) + tail, length + left);
    assert LessBytes(length + left, length) == left;
  }

  /** The parts of one entry of the list. */
  lemma EntryReads(ps: nat, x: Block, tail: seq<byte>, length: nat)
    requires |x.id| < 256 && 0 !in x.id && length == x.pages * ps < U64
    ensures var s := BlockEntry(ps, x) + tail;
      && |s| >= 1 && |s| >= s[0] as int + 9 && CStr(s[1..s[0] as int + 1]) == x.id
      && GetBe(s[s[0] as int + 1..s[0] as int + 9]) == length && s[s[0] as int + 9..] == tail
  {
    hide CStr, GetBe, PutBe64;
    var s := BlockEntry(ps, x) + tail;
    assert s == [|x.id|] + x.id + (PutBe64(length) + tail);
    ReadName(x.id, PutBe64(length) + tail);
    ReadHeader(length, tail);
    assert s[|x.id| + 1..|x.id| + 9] == (PutBe64(length) + tail)[..8];
    assert s[|x.id| + 9..] == (PutBe64(length) + tail)[8..];
  }

  lemma ListStep(r: Receiver, s: seq<byte>, total: nat)
    requires total > 0 && |s| >= 1 && |s| >= s[0] as int + 9
    ensures var id, length := CStr(s[1..s[0] as int + 1]), GetBe(s[s[0] as int + 1..s[0] as int + 9]);
      HasLength(r, id, length) ==>
        SyncList(r, s, total, false) == SyncList(r, s[s[0] as int + 9..], LessBytes(total, length), false)
  {
    hide CStr, GetBe, HasLength, LessBytes;
  }

  /** The receiver has this block, with this length. */
  predicate HasBlock(r: Receiver, x: Block) {
    x.id in r.mem && |r.mem[x.id]| == x.pages
  }

  /** An entry for a block that is not there, or has another length. */
  lemma EntryRefused(r: Receiver, x: Block, tail: seq<byte>, length: nat, left: nat)
    requires WellFormedBlock(x) && r.ps > 0 && !HasBlock(r, x)
    requires length == x.pages * r.ps && 0 < length && length + left < U64
    ensures SyncList(r, BlockEntry(r.ps, x) + tail, length + left, false) == Invalid
  {
    hide SyncList, BlockEntry, CStr, GetBe, PutBe64;
    EntryReads(r.ps, x, tail, length);
    if x.id in r.mem {
      OtherLength(|r.mem[x.id]|, x.pages, r.ps);
    }
    ListStops(r, BlockEntry(r.ps, x) + tail, length + left);
  }

  lemma OtherLength(a: nat, b: nat, c: nat)
    requires a != b && c > 0
    ensures a * c != b * c
  {
    if a < b {
      MulLe(a + 1, b, c);
    } else {
      MulLe(b + 1, a, c);
    }
  }

  lemma ListStops(r: Receiver, s: seq<byte>, total: nat)
    requires total > 0 && |s| >= 1 && |s| >= s[0] as int + 9
    requires !HasLength(r, CStr(s[1..s[0] as int + 1]), GetBe(s[s[0] as int + 1..s[0] as int + 9]))
    ensures SyncList(r, s, total, false) == Invalid
  {
    hide CStr, GetBe, HasLength, LessBytes;
  }

  /** A list that names a block the receiver does not have with that length is refused,
      wherever in the list it stands. */
  lemma {:induction false} BlockListRefused(r: Receiver, bs: seq<Block>, rest: seq<byte>)
    requires r.ps > 0 && TotalPages(bs) * r.ps < U64
    requires forall x :: x in bs ==> WellFormedBlock(x)
    requires exists x :: x in bs && !HasBlock(r, x)
    ensures SyncList(r, BlockList(r.ps, bs) + rest, TotalPages(bs) * r.ps, false) == Invalid
    decreases |bs|
  {
    hide SyncList, BlockEntry, GetBe, PutBe64, CStr, BlockList, TotalPages;
    assert WellFormedBlock(bs[0]);
    var length, left := bs[0].pages * r.ps, TotalPages(bs[1..]) * r.ps;
    FrontTotal(r.ps, bs);
    FrontEntry(r.ps, bs, rest);
    var tail := BlockList(r.ps, bs[1..]) + rest;
    if HasBlock(r, bs[0]) {
      var x :| x in bs && !HasBlock(r, x);
      assert x in bs[1..];
      BlockListRefused(r, bs[1..], rest);
      EntryLoads(r, bs[0], tail, length, left);
    } else {
      EntryRefused(r, bs[0], tail, length, left);
    }
  }

  /** The block list of stage 1 passes the receiver's checks and changes nothing. */
  lemma {:induction false} BlockListLoads(r: Receiver, bs: seq<Block>, rest: seq<byte>)
    requires r.ps > 0 && TotalPages(bs) * r.ps < U64
    requires forall x :: x in bs ==> WellFormedBlock(x)
    requires forall x :: x in bs ==> x.id in r.mem && |r.mem[x.id]| == x.pages
    ensures SyncList(r, BlockList(r.ps, bs) + rest, TotalPages(bs) * r.ps, false) == Step(r, rest, false)
    decreases |bs|
  {
    hide SyncList, BlockEntry, GetBe, PutBe64, CStr, BlockList, TotalPages;
    if bs == [] {
      ListDone(r, rest);
    } else {
      assert WellFormedBlock(bs[0]);
      var length, left := bs[0].pages * r.ps, TotalPages(bs[1..]) * r.ps;
      FrontTotal(r.ps, bs);
      FrontEntry(r.ps, bs, rest);
      BlockListLoads(r, bs[1..], rest);
      EntryLoads(r, bs[0], BlockList(r.ps, bs[1..]) + rest, length, left);
    }
  }

  lemma FrontTotal(ps: nat, bs: seq<Block>)
    requires bs != [] && ps > 0 && bs[0].pages > 0
    ensures TotalPages(bs) * ps == bs[0].pages * ps + TotalPages(bs[1..]) * ps
    ensures bs[0].pages * ps > 0
  {
    hide TotalPages;
    TotalFront(bs);
    Distribute(bs[0].pages, TotalPages(bs[1..]), ps);
  }

  lemma Distribute(a: nat, b: nat, c: nat)
    requires a > 0 && c > 0
    ensures (a + b) * c == a * c + b * c && a * c > 0
  {
  }

  lemma FrontEntry(ps: nat, bs: seq<Block>, rest: seq<byte>)
    requires bs != [] && forall x :: x in bs ==> WellFormedBlock(x)
    ensures WellFormedBlock(bs[0])
    ensures BlockList(ps, bs) + rest == BlockEntry(ps, bs[0]) + (BlockList(ps, bs[1..]) + rest)
  {
    hide BlockEntry, WellFormedBlock;
    assert bs[0] in bs;
  }

  lemma ListDone(r: Receiver, rest: seq<byte>)
    ensures SyncList(r, BlockList(r.ps, []) + rest, TotalPages([]) * r.ps, false) == Step(r, rest, false)
  {
    assert [] + rest == rest;
  }

  /** The stage-1 header record: the receiver checks the list and moves on. */
  lemma Stage1HeaderLoads(r: Receiver, bs: seq<Block>, rest: seq<byte>)
    requires r.ps >= 64 && FitsStream(r.ps, bs)
    requires forall x :: x in bs ==> WellFormedBlock(x)
    requires forall x :: x in bs ==> x.id in r.mem && |r.mem[x.id]| == x.pages
    ensures LoadOne(r, Stage1Header(r.ps, bs) + rest) == Step(r, rest, false)
  {
    hide LoadOne, LoadList, Stage1Header, SyncList, PutBe64, BlockList, GetBe, TotalPages;
    var n := TotalPages(bs);
    var header, list := n * r.ps + FLAG_MEM_SIZE, BlockList(r.ps, bs) + rest;
    HeaderShape(r.ps, bs, rest);
    DivUnique(header, r.ps, n, FLAG_MEM_SIZE);
    ReadHeader(header, list);
    BlockListLoads(r, bs, rest);
    ListOnly(r, PutBe64(header) + list, n);
  }

  /** Exactly when the receiver takes the header of stage 1: when it has every block
      that is listed, with the same length. Otherwise it fails with -EINVAL. */
  lemma Stage1HeaderIff(r: Receiver, bs: seq<Block>, rest: seq<byte>)
    requires r.ps >= 64 && FitsStream(r.ps, bs)
    requires forall x :: x in bs ==> WellFormedBlock(x)
    ensures LoadOne(r, Stage1Header(r.ps, bs) + rest) ==
      if forall x :: x in bs ==> HasBlock(r, x) then Step(r, rest, false) else Invalid
  {
    if forall x :: x in bs ==> HasBlock(r, x) {
      Stage1HeaderLoads(r, bs, rest);
    } else {
      Stage1HeaderRefused(r, bs, rest);
    }
  }

  lemma Stage1HeaderRefused(r: Receiver, bs: seq<Block>, rest: seq<byte>)
    requires r.ps >= 64 && FitsStream(r.ps, bs)
    requires forall x :: x in bs ==> WellFormedBlock(x)
    requires exists x :: x in bs && !HasBlock(r, x)
    ensures LoadOne(r, Stage1Header(r.ps, bs) + rest) == Invalid
  {
    hide LoadOne, LoadList, Stage1Header, SyncList, PutBe64, BlockList, GetBe, TotalPages, HasBlock;
    var n := TotalPages(bs);
    var header, list := n * r.ps + FLAG_MEM_SIZE, BlockList(r.ps, bs) + rest;
    HeaderShape(r.ps, bs, rest);
    DivUnique(header, r.ps, n, FLAG_MEM_SIZE);
    ReadHeader(header, list);
    BlockListRefused(r, bs, rest);
    ListFirst(r, PutBe64(header) + list, n);
  }

  /** What the list is refused with, the record is. */
  lemma ListFirst(r: Receiver, s: seq<byte>, n: nat)
    requires r.ps >= 64 && |s| >= 8
    requires var addr := GetBe(s[..8]); addr == n * r.ps + FLAG_MEM_SIZE && addr % r.ps == FLAG_MEM_SIZE
    requires !SyncList(r, s[8..], n * r.ps, false).Step?
    ensures LoadOne(r, s) == SyncList(r, s[8..], n * r.ps, false)
  {
    hide GetBe, SyncList, HasFlag, LoadPayload;
    MemSizeBits();
  }

  lemma HeaderShape(ps: nat, bs: seq<Block>, rest: seq<byte>)
    requires forall x :: x in bs ==> WellFormedBlock(x)
    ensures Stage1Header(ps, bs) + rest == PutBe64(TotalPages(bs) * ps + FLAG_MEM_SIZE) + (BlockList(ps, bs) + rest)
  {
    hide PutBe64, BlockList, TotalPages;
  }

  /** A record that carries nothing but the block list. */
  lemma ListOnly(r: Receiver, s: seq<byte>, n: nat)
    requires r.ps >= 64 && |s| >= 8
    requires var addr := GetBe(s[..8]); addr == n * r.ps + FLAG_MEM_SIZE && addr % r.ps == FLAG_MEM_SIZE
    requires SyncList(r, s[8..], n * r.ps, false).Step?
    ensures LoadOne(r, s) == SyncList(r, s[8..], n * r.ps, false).(eos := false)
  {
    hide GetBe, SyncList, HasFlag, HostFromStream;
    MemSizeBits();
  }

  lemma MemSizeBits()
    ensures !HasFlag(FLAG_MEM_SIZE, FLAG_COMPRESS) && !HasFlag(FLAG_MEM_SIZE, FLAG_PAGE)
    ensures !HasFlag(FLAG_MEM_SIZE, FLAG_EOS) && HasFlag(FLAG_MEM_SIZE, FLAG_MEM_SIZE)
  {
  }

  // ------------------------------------- records whose page has no place to go

  /** What ram_load has read of a record when it comes to store a page: the flags and
      the page of its header, the block (None for a NULL pointer) and the bytes behind
      the name. NoStore: it does not get that far, or stores nothing. */
  datatype Target = Target(flags: nat, page: nat, id: Option<Id>, rest: seq<byte>) | NoStore

  function TargetOf(r: Receiver, s: seq<byte>): Target
    requires r.ps > 0
  {
    hide GetBe, LoadList, HasFlag, HostFromStream;
    if |s| < 8 then NoStore
    else
      var addr := GetBe(s[..8]);
      var flags := addr % r.ps;
      var synced := LoadList(r, flags, addr - flags, s[8..]);
      if !synced.Step? || !(HasFlag(flags, FLAG_COMPRESS) || HasFlag(flags, FLAG_PAGE)) then NoStore
      else
        var h := HostFromStream(r, flags, synced.rest);
        if h.Short? then NoStore else Target(flags, addr / r.ps, h.id, h.rest)
  }

  /** The static block pointer, if set, points to a block there is. */
  predicate BlockKnown(r: Receiver) { r.block.Some? ==> r.block.value in r.mem }

  lemma LoadKeepsKnown(r: Receiver, s: seq<byte>)
    requires r.ps > 0 && BlockKnown(r)
    ensures LoadOne(r, s).Step? ==> BlockKnown(LoadOne(r, s).r)
  {
    hide GetBe, SyncList;
  }

  lemma {:induction false} ListNotUndefined(r: Receiver, s: seq<byte>, total: nat)
    ensures SyncList(r, s, total, false) != Undefined
    decreases |s|
  {
    hide GetBe, CStr;
    if total != 0 && |s| >= 1 && |s| >= s[0] as int + 9 {
      ListNotUndefined(r, s[s[0] as int + 9..], (total - GetBe(s[s[0] as int + 1..s[0] as int + 9])) % U64);
    }
  }

  /** Exactly which records ram_load writes outside every block for: a full page for a
      block that was not found, for which only the COMPRESS branch returns -EINVAL, and
      a page number past the end of its block, which no branch checks. */
  lemma LoadUndefinedIff(r: Receiver, s: seq<byte>)
    requires r.ps > 0 && BlockKnown(r)
    ensures LoadOne(r, s) == Undefined <==>
      var x := TargetOf(r, s);
      x.Target? && if x.id.None? then !HasFlag(x.flags, FLAG_COMPRESS)
                   else x.page >= |r.mem[x.id.value]| && (HasFlag(x.flags, FLAG_COMPRESS) ==> x.rest != [])
  {
    hide GetBe, SyncList, HasFlag;
    if |s| >= 8 {
      var addr := GetBe(s[..8]);
      ListNotUndefined(r, s[8..], addr - addr % r.ps);
    }
  }

  /** Both kinds occur: the CONTINUE flag with no block before it, and the page just
      past the last one of the block before. */
  lemma StoresOutside(r: Receiver, rest: seq<byte>)
    requires r.ps > FLAG_PAGE + FLAG_CONTINUE
    ensures r.block == None ==> LoadOne(r, PutBe64(FLAG_PAGE + FLAG_CONTINUE) + rest) == Undefined
    ensures r.block.Some? && r.block.value in r.mem && (|r.mem[r.block.value]| + 1) * r.ps <= U64 ==>
      LoadOne(r, PutBe64(|r.mem[r.block.value]| * r.ps + FLAG_PAGE + FLAG_CONTINUE) + rest) == Undefined
  {
    hide GetBe, PutBe64;
    var flags := FLAG_PAGE + FLAG_CONTINUE;
    var p := if r.block.Some? && r.block.value in r.mem then |r.mem[r.block.value]| else 0;
    if (p + 1) * r.ps <= U64 {
      DivUnique(p * r.ps + flags, r.ps, p, flags);
      ReadHeader(p * r.ps + flags, rest);
    }
    if r.block == None {
      DivUnique(flags, r.ps, 0, flags);
      ReadHeader(flags, rest);
    }
  }

  // ------------------------------------------- streams cut short or continued

  /** The same outcome with more of the stream behind it. */
  function Longer(o: Outcome, t: seq<byte>): Outcome {
    if o.Step? then o.(rest := o.rest + t) else o
  }

  /** Reading a name or finding it cut short. */
  lemma HostExtends(r: Receiver, flags: nat, s: seq<byte>, t: seq<byte>)
    requires HostFromStream(r, flags, s).Host?
    ensures var h := HostFromStream(r, flags, s);
      HostFromStream(r, flags, s + t) == h.(rest := h.rest + t)
  {
    hide CStr;
    if !HasFlag(flags, FLAG_CONTINUE) {
      var n := s[0] as int + 1;
      assert (s + t)[1..n] == s[1..n];
      assert (s + t)[n..] == s[n..] + t;
    }
  }

  lemma {:induction false} ListExtends(r: Receiver, s: seq<byte>, total: nat, eos: bool, t: seq<byte>)
    requires !SyncList(r, s, total, eos).Truncated?
    ensures SyncList(r, s + t, total, eos) == Longer(SyncList(r, s, total, eos), t)
    decreases |s|
  {
    hide CStr, GetBe;
    if total != 0 {
      var n := s[0] as int + 9;
      assert (s + t)[1..n - 8] == s[1..n - 8] && (s + t)[n - 8..n] == s[n - 8..n];
      assert (s + t)[n..] == s[n..] + t;
      var length := GetBe(s[n - 8..n]);
      if HasLength(r, CStr(s[1..n - 8]), length) {
        ListExtends(r, s[n..], LessBytes(total, length), eos, t);
      }
    }
  }

  lemma PayloadExtends(r: Receiver, flags: nat, p: nat, s: seq<byte>, t: seq<byte>)
    requires !LoadPayload(r, flags, p, s).Truncated?
    ensures LoadPayload(r, flags, p, s + t) == Longer(LoadPayload(r, flags, p, s), t)
  {
    hide HostFromStream, HasFlag, Store;
    if HasFlag(flags, FLAG_COMPRESS) || HasFlag(flags, FLAG_PAGE) {
      HostExtends(r, flags, s, t);
      var rest := HostFromStream(r, flags, s).rest;
      assert forall k: nat :: k <= |rest| ==> (rest + t)[..k] == rest[..k] && (rest + t)[k..] == rest[k..] + t;
    }
  }

  /** ram_load decides about a record from the record alone: what follows is left for
      the next turn. */
  lemma RecordExtends(r: Receiver, s: seq<byte>, t: seq<byte>)
    requires r.ps > 0 && !LoadOne(r, s).Truncated?
    ensures LoadOne(r, s + t) == Longer(LoadOne(r, s), t)
  {
    hide GetBe, LoadPayload, SyncList, HasFlag;
    assert (s + t)[..8] == s[..8] && (s + t)[8..] == s[8..] + t;
    var addr := GetBe(s[..8]);
    ModBelow(addr, r.ps);
    var flags := addr % r.ps;
    if HasFlag(flags, FLAG_MEM_SIZE) {
      ListExtends(r, s[8..], addr - flags, false, t);
    }
    var synced := LoadList(r, flags, addr - flags, s[8..]);
    if synced.Step? {
      PayloadExtends(r, flags, addr / r.ps, synced.rest, t);
    }
  }

  lemma {:induction false} SectionExtends(r: Receiver, s: seq<byte>, t: seq<byte>)
    requires r.ps > 0 && !Load(r, s).Truncated?
    ensures Load(r, s + t) == Longer(Load(r, s), t)
    decreases |s|
  {
    hide LoadOne;
    RecordExtends(r, s, t);
    var o := LoadOne(r, s);
    if o.Step? && !o.eos {
      SectionExtends(o.r, o.rest, t);
    }
  }

  /** A section cut short is never taken for a whole one, and never for a bad one. */
  lemma CutSection(r: Receiver, s: seq<byte>, k: nat)
    requires r.ps > 0 && k < |s| && Load(r, s).Step? && Load(r, s).rest == []
    ensures Load(r, s[..k]).Truncated?
  {
    hide Load;
    assert s[..k] + s[k..] == s;
    if !Load(r, s[..k]).Truncated? {
      SectionExtends(r, s[..k], s[k..]);
    }
  }
}
