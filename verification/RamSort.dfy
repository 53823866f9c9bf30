// sort_ram_list permutes the RAM list, so nothing that holds of its blocks is lost.

module RamSort {
  import opened RamState

  lemma {:induction false} TotalFront(bs: seq<Block>)
    requires bs != []
    ensures TotalPages(bs) == bs[0].pages + TotalPages(bs[1..])
  {
    if |bs| > 1 {
      TotalFront(bs[..|bs| - 1]);
      assert bs[..|bs| - 1][1..] == bs[1..][..|bs| - 2];
    }
  }

  lemma {:induction false} InsertKeeps(b: Block, bs: seq<Block>)
    ensures forall x :: x in Insert(b, bs) <==> x == b || x in bs
    ensures |Insert(b, bs)| == |bs| + 1
    ensures TotalPages(Insert(b, bs)) == b.pages + TotalPages(bs)
  {
    if bs == [] || b.first <= bs[0].first {
      TotalFront([b] + bs);
      assert ([b] + bs)[1..] == bs;
    } else {
      var tail := Insert(b, bs[1..]);
      InsertKeeps(b, bs[1..]);
      assert ([bs[0]] + tail)[1..] == tail;
      TotalFront([bs[0]] + tail);
      TotalFront(bs);
      assert forall x :: x in bs <==> x == bs[0] || x in bs[1..];
    }
  }

  lemma {:induction false} InsertApart(b: Block, bs: seq<Block>)
    requires Pairwise(bs) && forall x :: x in bs ==> Apart(b, x)
    ensures Pairwise(Insert(b, bs))
  {
    if bs == [] || b.first <= bs[0].first {
      assert ([b] + bs)[1..] == bs;
    } else {
      var tail := Insert(b, bs[1..]);
      InsertApart(b, bs[1..]);
      InsertKeeps(b, bs[1..]);
      assert Insert(b, bs)[1..] == tail;
      assert Apart(b, bs[0]);
      forall y | y in tail ensures Apart(bs[0], y) {
      }
    }
  }

  /** Same blocks, same total, still pairwise apart. */
  lemma {:induction false} SortKeeps(bs: seq<Block>)
    ensures forall x :: x in SortBlocks(bs) <==> x in bs
    ensures |SortBlocks(bs)| == |bs| && TotalPages(SortBlocks(bs)) == TotalPages(bs)
    ensures Pairwise(bs) ==> Pairwise(SortBlocks(bs))
  {
    if bs != [] {
      SortKeeps(bs[1..]);
      InsertKeeps(bs[0], SortBlocks(bs[1..]));
      TotalFront(bs);
      assert forall x :: x in bs <==> x == bs[0] || x in bs[1..];
      if Pairwise(bs) {
        InsertApart(bs[0], SortBlocks(bs[1..]));
      }
    }
  }

  ghost predicate Ascending(bs: seq<Block>) {
    forall i, j :: 0 <= i < j < |bs| ==> bs[i].first <= bs[j].first
  }

  lemma {:induction false} InsertAscending(b: Block, bs: seq<Block>)
    requires Ascending(bs)
    ensures Ascending(Insert(b, bs))
  {
    if !(bs == [] || b.first <= bs[0].first) {
      InsertAscending(b, bs[1..]);
      InsertKeeps(b, bs[1..]);
      var tail := Insert(b, bs[1..]);
      forall j | 0 <= j < |tail| ensures bs[0].first <= tail[j].first {
        assert tail[j] in tail;
      }
    }
  }

  lemma {:induction false} SortAscending(bs: seq<Block>)
    ensures Ascending(SortBlocks(bs))
  {
    if bs != [] {
      SortAscending(bs[1..]);
      InsertAscending(bs[0], SortBlocks(bs[1..]));
    }
  }
}
