// Byte for byte, what the two streams look like: the flags of arch_init.c and
// block-migration.c and the layout of their records, spelled out on examples. The
// round trips elsewhere would hold of any flags that both ends agree on.

module RamStreamExamples {
  import opened Common
  import opened Wire
  import opened RamState

  const PC_RAM: Id := [112, 99, 46, 114, 97, 109]

  /** A page of 4096 bytes that are not all the same. */
  function MixedPage(): Page { seq(4096, i => if i == 4095 then 1 else 0) }

  function FilledPage(x: byte): Page { seq(4096, _ => x) }

  lemma PageKinds(x: byte)
    ensures Uniform(FilledPage(x)) && !Uniform(MixedPage())
  {
    assert MixedPage()[4095] != MixedPage()[0];
  }

  /** The header of stage 1 for one block "pc.ram" of two pages: the total with
      MEM_SIZE (4), the name behind its length, the length of the block. */
  lemma Stage1HeaderBytes()
    ensures Stage1Header(4096, [Block(PC_RAM, 0, 2)])
         == [0, 0, 0, 0, 0, 0, 0x20, 0x04] + [6, 112, 99, 46, 114, 97, 109] + [0, 0, 0, 0, 0, 0, 0x20, 0]
  {
    hide PutBe;
    var x := Block(PC_RAM, 0, 2);
    assert TotalPages([x]) == 2 by { assert [x][..0] == []; }
    assert [x][1..] == [];
    SmallBe64(0x2004);
    SmallBe64(0x2000);
    assert BlockList(4096, [x]) == BlockEntry(4096, x);
  }

  /** Page 3 of the block sent last, all bytes alike: offset, CONTINUE (0x20) and
      COMPRESS (2), and the one byte. */
  lemma CompressedPageBytes(x: byte)
    ensures PageRecord(4096, true, PC_RAM, 3, FilledPage(x)) == [0, 0, 0, 0, 0, 0, 0x30, 0x22, x]
  {
    hide PutBe;
    PageKinds(x);
    SmallBe64(0x3022);
  }

  /** Page 1 of another block: offset and PAGE (8), the name, the whole page. */
  lemma FullPageBytes()
    ensures PageRecord(4096, false, PC_RAM, 1, MixedPage())
         == [0, 0, 0, 0, 0, 0, 0x10, 0x08] + [6, 112, 99, 46, 114, 97, 109] + MixedPage()
  {
    hide PutBe;
    PageKinds(0);
    SmallBe64(0x1008);
  }

  lemma EndBytes()
    ensures EOS_RECORD == [0, 0, 0, 0, 0, 0, 0, 0x10]
  {
    hide PutBe;
    SmallBe64(0x10);
  }
}

module BlockStreamExamples {
  import opened Common
  import opened Wire
  import opened BlockCodec

  /** The second chunk of "ide0": 2048 sectors of 512 bytes in, DEVICE_BLOCK (1), the
      name behind its length, a buffer of one mebibyte. */
  lemma BlockBytes(buf: seq<byte>)
    requires |buf| == BLOCK_SIZE
    ensures |buf| == 0x10_0000
    ensures BlockRecord([105, 100, 101, 48], CHUNK_SECTORS, buf)
         == [0, 0, 0, 0, 0, 0x10, 0, 0x01] + [4, 105, 100, 101, 48] + buf
  {
    hide PutBe;
    SmallBe64(0x10_0001);
  }

  /** Fifty per cent, and PROGRESS (4). */
  lemma ProgressBytes()
    ensures ProgressRecord(50) == [0, 0, 0, 0, 0, 0, 0x64, 0x04]
  {
    hide PutBe;
    SmallBe64(0x6404);
  }

  lemma EndBytes()
    ensures EOS_RECORD == [0, 0, 0, 0, 0, 0, 0, 0x02]
  {
    hide PutBe;
    SmallBe64(2);
  }
}
