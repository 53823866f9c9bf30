# Verified models of the QEMU core under Main/linux

This project models the parts of a QEMU 0.14 port that are hardest to get right,
file by file, and proves what they are for: live migration of RAM and of disks,
AES with cipher block chaining, the algorithms of the block layer, the buffered
migration file, bottom halves, bit searching and drive placement.

Where the source changes state, a class or a method with loops does what the C
code does, and its contract ties the new state to a function of the old one; what
the source is for is then proved about those functions, or about every run of a
state machine of which the methods are proved to be runs. `dafny verify
dfyconfig.toml` checks everything.

## How it is organised

| files | what they model |
|---|---|
| `Common` | options, error numbers, C division, facts of division |
| `Wire`, `StreamExamples` | bytes and big-endian integers of a migration stream; records of both streams byte for byte |
| `RamState`, `RamSort`, `RamSweep`, `RamCodec`, `RamMigration`, `RamCode`, `RamRun` | live RAM migration: both ends as functions, the sweep, the record codec, the invariant of a migration, the code of both ends, whole migrations |
| `AesSbox`, `AesField`, `AesSpec`, `AesWords`, `AesKeys`, `AesBlock`, `AesCbc`, `AesVectors` | AES: substitution tables, GF(2^8), the ciphers of FIPS 197, table rounds, key schedules, the block functions, CBC, the examples of FIPS 197 |
| `Iovec`, `Merge`, `MergeContents`, `Multiwrite`, `MultiwriteRun`, `Commit`, `ByteAccess`, `Dirty` | block layer: I/O vectors, request merging and exactly when it is invisible, completion of multiwrite and the whole call, commit of an overlay, byte access over sectors, dirty tracking |
| `BlockMig`, `BlockMigDrained`, `BlockCodec`, `BlockMigCode`, `BlockRun` | live block migration: the machine, exactly when it is safe, the stream, the sender's code, whole migrations by the code of both ends |
| `Buffered`, `Async`, `AsyncCode` | buffered output; bottom halves as a machine and as code |
| `Bitops`, `Bitmap`, `Drives` | word-at-a-time searches, bit ranges, slots of drives |

## What the environment may do

Guest writes, driver completions, short writes, `EAGAIN`, I/O failures, rate-limit
answers, callbacks and allocation runs are nondeterministic: a method that meets
one takes an arbitrary value within the stated contract of that call, and the
theorems hold whatever it is. Assumptions, each stated in the contract it concerns:

- RAM migration: RAM blocks have unique names, disjoint nonempty ranges of whole
  pages, pages of at least 64 bytes, and totals that fit 64 bits; every guest store
  sets its page's dirty byte.
- Block migration: `shared_base` is 0; no guest write is under way when stage 1
  enables tracking; no read fails; at stage 3 the guest is stopped, the driver's
  requests are complete and `flush_blks` is not held back.
- `Buffered`: the backend answers by a list, arbitrary but finite, and takes
  everything behind its end; `Async`: callbacks do finitely many things. `Commit`
  takes the driver's answers from such a list too, and block migration those of
  `qemu_file_rate_limit`.

## Where code and documentation differ

The model follows the code.

- A block migration does not always end with equal disks. `blk_mig_save_dirty_block`
  waits for reads in flight by the in-flight bits, which no bulk read sets
  (block-migration.c:210-273, 390-394), so an older bulk read can land after a newer
  copy of its chunk (`BlockMig.CarelessRunLoses`).
  `BlockMigDrained.MigrationSafeIff` gives the exact condition: every way to finish
  leaves the disks equal if and only if no bulk read is pending when the bulk phase
  ends. The runs are those of the machine; the losing ones are found also among runs
  that take dirty chunks in the order of the scan and none synchronously. The code
  meets the condition when the rate limit lets through no more than one block at a
  time (`BlockRun.Migrate`).
- `bdrv_commit` with a backing image that is open read-only, which is how backing
  images usually are, returns the result of opening it again: 0 even when copying or
  emptying failed (block.c:843-861). `Commit.CowDevice.Commit` says exactly what 0
  means in both cases, and `Commit.CommitHidesFailure` has two devices for which
  nothing is committed and 0 returned: one too short, one whose first read fails.
- A read across the end of a protocol device, which grows, succeeds although the
  driver sets only the bytes that are there (raw-posix.c:262-274): `bdrv_read` returns
  their number, and `bdrv_pread` takes that for success. `ByteAccess.AllProvidedIff`
  says exactly which reads get all their bytes, zeros behind the end among them, and
  `ByteAccess.ReadsBehindTheEnd` has one that does not.
- `multiwrite_merge` drops the end of a request that strictly contains a later one
  (block.c:2350-2367). `Merge.MergeSafeIff` gives the exact condition under which
  merging is invisible, `MergeContents.InvisibleIffSameSources` the one for every
  batch and hook, and `Merge.ContainedBatchLoses` a batch that loses bytes.
- The comment on `bdrv_aio_multiwrite` (block.c:2385-2390) says that after -1 some
  callbacks may still be called. In the code, -1 is returned only when the very
  first request is refused, and then no callback ever runs.
- CBC decryption with a partial last block leaves the decrypted block, not the
  ciphertext, in `ivec` (aes.c:1306-1312): the two directions then disagree about
  the chaining value (`AesCbc.IvecsAgree` says exactly when).
- `bdrv_set_dirty_tracking(1)` on a tracked device zeroes the count and keeps the
  bitmap (block.c:2848-2867); the count stays exact if and only if tracking was off
  or no bit was set, so if and only if the count was 0 before
  (`Dirty.DirtyTracker.SetDirtyTracking`, `Dirty.EnableTwiceLosesCount`).
- A write of no sectors marks chunk 0 when it is at sector 0, because C division
  truncates toward zero (block.c:936-962); it marks nothing at other chunk bounds.
- `ram_load` checks the block pointer of a compressed page but not that of a full
  page, and no page number (arch_init.c:422-451); the model calls a store outside
  every block undefined. `RamCodec.StoresOutside` has such records,
  `RamCodec.LoadUndefinedIff` says exactly which they are, and the round-trip
  theorems show that there are none on a sender's stream.
- After a failed flush `buffered_put_buffer` still sends the new bytes
  (buffered_file.c:110-168), so that the backend gets bytes without those before them
  (`Buffered.OutOfOrder`). `Buffered.PutInOrderIff` says exactly when it cannot happen,
  whatever the backend does: nothing is held, or nothing put, or the limit is passed
  already (or all those bytes are equal).
- The comment on `async_context_pop` (async.c:81-84) says every bottom half of the
  old context is executed first. An idle one does not count as work for the last
  poll, and what its callback schedules can be lost (`Async.IdlePopLoses`).
  `Async.PopSafeIff` gives the exact condition: none of the context's bottom halves
  is waiting as an idle one.

## Model

| member | source | states |
|---|---|---|
| RamMigration.MigrationTransfersRam | Main/linux/arch_init.c:251-458 | for any RAM list, destination memory of the same layout, guest writes before every stage-2 call and stage 3, and rate-limit answers: loading all sections succeeds and the destination's memory equals the source's |
| RamMigration.AnyOrderTransfersRam | Main/linux/arch_init.c:113-336 | the same at the grain of single calls: stores, calls of ram_save_block and ends of sections in any order, then what is left is sent: loading all sections gives exactly the source's memory |
| RamMigration.SaveBlockInStep | Main/linux/arch_init.c:113-175 | one saved block, read back, keeps the invariant: the receiver remembers the block sent last, and every clean page is already equal |
| RamMigration.PumpInStep | Main/linux/arch_init.c:301-309 | any rate-limited number of saved blocks keeps the two ends in step, whatever follows in the stream |
| RamMigration.PumpSplits | Main/linux/arch_init.c:301-309 | where the rate limit cuts makes no difference to what a number of calls sends, counts and leaves |
| RamMigration.DrainInStep | Main/linux/arch_init.c:321-329 | sending everything that is left keeps them in step |
| RamMigration.WritesInStep | Main/linux/cpu-all.h:929-932 | guest writes, each setting its dirty byte, keep them in step |
| RamMigration.Stage1InStep | Main/linux/arch_init.c:268-309 | stage 1, from a null last_block, establishes the invariant because it dirties every page |
| RamMigration.Stage2InStep | Main/linux/arch_init.c:301-336 | any number of stage-2 calls with any writes between them keep it |
| RamMigration.FlushLoads | Main/linux/arch_init.c:301-336 | the section of stage 3 loads to its end and leaves the receiver's memory equal to the sender's |
| RamMigration.Stage3Equal | Main/linux/arch_init.c:301-336 | after stage 3 the memories are equal |
| RamMigration.CleanMeansEqual | Main/linux/arch_init.c:321-329 | in step with nothing dirty means equal memories |
| RamSweep.SaveBlockProgress | Main/linux/arch_init.c:113-195 | ram_save_block returns 0 exactly when no page is dirty, and otherwise leaves one dirty page less |
| RamSweep.SaveBlockNearest | Main/linux/arch_init.c:113-175 | the page sent is dirty and no dirty page comes before it in round-robin order from the cursor |
| RamSweep.SweepIsNearest | Main/linux/arch_init.c:125-169 | the do-while sweep finds the nearest dirty page of the pages it looks at |
| RamSweep.FullSweep | Main/linux/arch_init.c:125-169 | the sweep inspects every page before it gives up |
| RamSweep.ClearCounts | Main/linux/cpu-all.h:940-953 | clearing the dirty flag of one page lowers the dirty count by exactly one |
| RamSweep.ClearKeepsFlags | Main/linux/cpu-all.h:940-953 | resetting the migration flag of a page leaves the flags of all other clients and all other bytes |
| RamSweep.MarkAllMarks | Main/linux/arch_init.c:275-284 | stage 1 sets every flag of the pages of the blocks that lack the migration flag, takes none away, touches no other byte, and twice is once |
| RamSweep.WriteMarks | Main/linux/cpu-all.h:929-932 | a store changes one page and sets every flag of one dirty byte; all others stay |
| RamSweep.RemainingZero | Main/linux/arch_init.c:179-195 | the count is zero exactly when no page is dirty; with ClearCounts that makes it the number of dirty pages |
| RamSweep.SentIsBody | Main/linux/arch_init.c:138-158 | bytes_sent is the size of the record behind its header and name: one byte or a page |
| RamSort.SortKeeps | Main/linux/arch_init.c:218-249 | sorting the RAM list keeps its blocks, its total and their disjointness |
| RamSort.SortAscending | Main/linux/arch_init.c:218-249 | the list ends up in ascending order of offsets |
| RamCodec.PageRecordLoads | Main/linux/arch_init.c:126-160 | a page record, plain or compressed, with or without the block name, is read back as that page of that block and nothing else |
| RamCodec.NameLoads | Main/linux/arch_init.c:338-366 | the name, or CONTINUE, leads to the block the record was written for |
| RamCodec.BlockListLoads | Main/linux/arch_init.c:388-418 | the block list of stage 1 passes the receiver's checks and consumes exactly its bytes |
| RamCodec.Stage1HeaderLoads | Main/linux/arch_init.c:289-296 | the header of stage 1 is accepted and changes nothing |
| RamCodec.Stage1HeaderIff | Main/linux/arch_init.c:388-418 | the header of stage 1 is accepted if and only if the receiver has every block with the same length; otherwise ram_load returns -EINVAL, whatever follows |
| RamCodec.BlockListRefused | Main/linux/arch_init.c:400-414 | a list with a block that is unknown or has another length is refused wherever in the list it is |
| RamCodec.RecordExtends | Main/linux/arch_init.c:378-455 | a record is accepted, refused or stored outside every block by its own bytes alone, and what follows is left for the next turn |
| RamCodec.CutSection | Main/linux/arch_init.c:378-455 | a section cut short anywhere is never taken for a whole one, nor for a bad one |
| RamCodec.LoadUndefinedIff | Main/linux/arch_init.c:422-451 | a record makes ram_load write outside every block if and only if it carries a full page for a block that was not found, or a page past the end of its block |
| RamCodec.StoresOutside | Main/linux/arch_init.c:338-451 | both kinds occur: CONTINUE with no block before it, and the page just past the last one |
| RamCodec.LoadKeepsKnown | Main/linux/arch_init.c:338-366 | the remembered block is always one of the receiver's |
| RamCode.IsDupPage | Main/linux/arch_init.c:95-109 | the word comparison is true exactly when every byte of the page is the given one |
| RamCode.RamSaver.SaveBlock | Main/linux/arch_init.c:113-175 | the do-while sweep over last_block and last_offset does what the specification says |
| RamCode.RamSaver.PutPage | Main/linux/arch_init.c:126-160 | writes the record of the page, one byte for a page of equal bytes |
| RamCode.RamSaver.SaveRemaining | Main/linux/arch_init.c:179-195 | counts the dirty pages |
| RamCode.RamSaver.SaveLiveStage1 | Main/linux/arch_init.c:251-336 | stage 1 writes the specified section and leaves the specified state |
| RamCode.RamSaver.SaveLiveStage2 | Main/linux/arch_init.c:301-336 | so does a stage-2 call |
| RamCode.RamSaver.SaveLiveStage3 | Main/linux/arch_init.c:301-336 | so does stage 3 |
| RamCode.RamLoader.RamLoad | Main/linux/arch_init.c:368-458 | the load loop accepts and stores exactly what the specification does, and fails where it fails |
| RamCode.RamLoader.LoadRecord | Main/linux/arch_init.c:378-455 | one turn of that loop: one record applied, refused or stored outside every block as specified |
| RamCode.RamLoader.HostFromStreamOffset | Main/linux/arch_init.c:338-366 | finds the block by name or by CONTINUE and remembers it |
| RamCode.RamLoader.SyncBlockList | Main/linux/arch_init.c:388-420 | the counted loop over the block list, modulo 2^64, with its two refusals; `RamCodec.Stage1HeaderIff` says when there is none |
| RamCode.RamLoader.LoadPage | Main/linux/arch_init.c:422-451 | a compressed or full page goes where the record says |
| RamCode.RamSaver.GuestStore | Main/linux/cpu-all.h:929-932 | a store changes one page and sets its whole dirty byte |
| RamCode.RamSaver.MarkAllPages | Main/linux/arch_init.c:275-284 | stage 1 dirties exactly the pages that are not dirty yet |
| RamCode.RamSaver.WriteHeader | Main/linux/arch_init.c:289-296 | writes the total and the block list |
| RamRun.Migrate | Main/linux/arch_init.c:251-458 | both programs run end to end with an arbitrary guest: every ram_load succeeds and the memories are equal |
| Wire.BeDigit | Main/linux/savevm.c:637-649 | the bytes of an integer on the stream, most significant first |
| RamStreamExamples.Stage1HeaderBytes | Main/linux/arch_init.c:289-296 | the bytes of the stage-1 header of one block |
| RamStreamExamples.CompressedPageBytes | Main/linux/arch_init.c:138-147 | the bytes of a compressed page of the block sent last |
| RamStreamExamples.FullPageBytes | Main/linux/arch_init.c:148-157 | the bytes of a full page of another block |
| AesSbox.SboxInverse | Main/linux/aes.c:325-721 | the bytes of Td4 undo the bytes of Te4 |
| AesField.MixColLinear | Main/linux/aes.c:47-57 | MixColumns is linear over GF(2^8) |
| AesField.InvMixColLinear | Main/linux/aes.c:47-57 | so is InvMixColumns |
| AesField.InvMixColUndoes | Main/linux/aes.c:47-57 | InvMixColumns undoes MixColumns on every column |
| AesField.SboxIsAffineInverse | Main/linux/aes.c:325-392 | every byte of the substitution table is the affine transformation of the inverse of its index in GF(2^8), as section 5.1.1 of FIPS 197 defines it |
| AesSpec.InvRoundsMeet | Main/linux/aes.c:1076-1261 | round by round, the equivalent inverse cipher retraces the cipher |
| AesSpec.DecryptionUndoesEncryption | Main/linux/aes.c:832-878 | under the transformed reversed schedule the equivalent inverse cipher undoes the cipher, for every schedule |
| AesWords.TableRound | Main/linux/aes.c:980-1036 | four table columns are SubBytes, ShiftRows, MixColumns and AddRoundKey |
| AesWords.InvTableRound | Main/linux/aes.c:1171-1227 | the same for a decryption round |
| AesWords.LastRound | Main/linux/aes.c:1038-1069 | the last round, without MixColumns |
| AesWords.InvLastRound | Main/linux/aes.c:1229-1260 | the last round of decryption |
| AesWords.InvMixWordCol | Main/linux/aes.c:853-876 | the table expression of the decryption schedule is InvMixColumns of a key word |
| AesKeys.RconTable | Main/linux/aes.c:722-726 | the constants are the powers of x in the field |
| AesKeys.GroupWord | Main/linux/aes.c:758-764 | the rotated and substituted word with Rcon is the word FIPS 197 asks for |
| AesKeys.DecryptionQuads | Main/linux/aes.c:846-876 | reversing and then transforming the inner round keys gives the decryption schedule |
| AesKeys.AesKey.SetEncryptKey | Main/linux/aes.c:731-827 | produces exactly the 44, 52 or 60 words of section 5.2 of FIPS 197, or -1 or -2 and no change |
| AesKeys.AesKey.SetDecryptKey | Main/linux/aes.c:832-878 | produces the decryption schedule of section 5.3.5 belonging to it |
| AesKeys.AesKey.ReverseRoundKeys | Main/linux/aes.c:846-852 | the swapping loop reverses the round keys in place |
| AesKeys.AesKey.TransformInner | Main/linux/aes.c:853-876 | all round keys but the first and last are transformed |
| AesKeys.AesKey.Expand128 | Main/linux/aes.c:756-773 | ten turns give 44 words |
| AesKeys.AesKey.Expand192 | Main/linux/aes.c:776-795 | eight turns, the last cut short, give 52 words |
| AesKeys.AesKey.Expand256 | Main/linux/aes.c:798-826 | seven turns with the extra substitution give 60 words |
| AesBlock.DecBlockUndoes | Main/linux/aes.c:885-1261 | for every schedule, decrypting an encrypted block gives it back |
| AesBlock.Encrypt | Main/linux/aes.c:885-1070 | two rounds a turn over the moving key pointer compute the Cipher of section 5.1; 16 bytes are written and no others |
| AesBlock.Decrypt | Main/linux/aes.c:1076-1261 | likewise the equivalent inverse cipher |
| AesBlock.EncryptThenDecrypt | Main/linux/aes.c:731-1261 | for every key of a supported length a block encrypted and decrypted is back |
| AesVectors.EncryptExample | Main/linux/aes.c:731-1070 | the code, given the key and plaintext of appendix C.1 of FIPS 197, produces its ciphertext |
| AesVectors.DecryptExample | Main/linux/aes.c:832-1261 | and gives the plaintext back from the ciphertext |
| AesVectors.CipherExample | Main/linux/aes.c:885-1070 | the Cipher of that example, round by round |
| AesVectors.ExpandsTo | Main/linux/aes.c:756-773 | its key schedule, word by word |
| AesVectors.LongerKeys | Main/linux/aes.c:776-826 | the first new words of the schedules for the 192- and 256-bit keys of appendix C, the extra substitution among them |
| AesCbc.CbcRoundTrip | Main/linux/aes.c:1265-1314 | decryption restores every plaintext of any length; the ivec left behind, in both cases |
| AesCbc.CbcBlock | Main/linux/aes.c:1276-1294 | block i of the ciphertext is the cipher of plaintext block i xored with ciphertext block i - 1, the ivec for the first, a last partial block filled up from the chaining value |
| AesCbc.CbcDecByte | Main/linux/aes.c:1295-1313 | byte by byte, what decryption writes |
| AesCbc.IvecsAgree | Main/linux/aes.c:1306-1312 | both directions leave the same ivec exactly when the length is a multiple of 16, which a caller can test, or else when the cipher happens to map the padded last block to itself |
| AesCbc.CbcComposes | Main/linux/aes.c:1276-1285 | encrypting an aligned prefix and then the rest is encrypting the whole |
| AesCbc.CbcDecComposes | Main/linux/aes.c:1296-1305 | the same for decryption |
| AesCbc.CbcEncrypt | Main/linux/aes.c:1276-1294 | the loop, in place or between buffers, with its partial tail, is the chaining function |
| AesCbc.CbcDecrypt | Main/linux/aes.c:1295-1313 | likewise, writing exactly the plaintext's length |
| AesCbc.EncryptThenDecrypt | Main/linux/aes.c:1265-1314 | the code of both directions, from one user key, restores data of any length |
| Iovec.CopyIsClip | Main/linux/cutils.c:178-209 | the segments copied stand for exactly flatten(src)[skip .. skip + size], cut at the end of src |
| Iovec.QemuIoVector.Copy | Main/linux/cutils.c:178-209 | appends them, so flatten(dst) grows by those bytes and size stays the sum of lengths |
| Iovec.QemuIoVector.Add | Main/linux/cutils.c:157-171 | appends one segment, growing the array when it is full |
| Iovec.QemuIoVector.Concat | Main/linux/cutils.c:211-214 | appends the first size bytes of src |
| Iovec.ScatterFlat | Main/linux/cutils.c:242-256 | on disjoint segments, from_buffer makes the vector start with the buffer |
| Iovec.ScatterFrame | Main/linux/cutils.c:242-256 | it writes nothing outside the segments |
| Iovec.GatherScatter | Main/linux/cutils.c:231-256 | from_buffer, then to_buffer, is the identity |
| Iovec.FillFlat | Main/linux/cutils.c:270-299 | on disjoint segments memset_skip is a fill of a flat range |
| Iovec.FillFrame | Main/linux/cutils.c:270-299 | and writes nothing outside them |
| Iovec.ToBuffer | Main/linux/cutils.c:231-240 | gathers the flattened bytes |
| Iovec.FromBuffer | Main/linux/cutils.c:242-256 | scatters as specified |
| Iovec.MemsetSkip | Main/linux/cutils.c:270-299 | fills as specified |
| Merge.MergePreserves | Main/linux/block.c:2311-2380 | without a lost tail the merged requests write what the originals write, except approved gaps, which no request covers and which become zero; for every driver hook and vectors of any length |
| Merge.MergeSafeIff | Main/linux/block.c:2311-2380 | for a driver without a hook and with room in IOV_MAX, merging is invisible if and only if no tail is lost |
| MergeContents.InvisibleIffSameSources | Main/linux/block.c:2311-2380 | for every batch, hook and vector length: merging is invisible outside approved gaps, whatever the buffers hold, if and only if every byte is still taken from the same address |
| MergeContents.NoLostTailSameSources | Main/linux/block.c:2311-2380 | it is, when no tail is lost |
| MergeContents.OtherSourceShows | Main/linux/block.c:2350-2367 | a byte taken from elsewhere shows for some contents of the buffers |
| Merge.LostByte | Main/linux/block.c:2350-2367 | a lost tail shows: some byte an original wrote is not written |
| Merge.ContainedBatchLoses | Main/linux/block.c:2350-2367 | ten sectors at 0 and two at 2 lose the end of the first request |
| Merge.NondecreasingEndsSuffice | Main/linux/block.c:2311-2380 | nondecreasing ends lose no tail |
| Merge.MergeShape | Main/linux/block.c:2340-2367 | the merged requests have as many bytes as sectors and the last ends where the last input ends |
| Merge.MergedVectorsFit | Main/linux/block.c:2340-2347 | every merged vector has at most IOV_MAX entries if the inputs do |
| Merge.MergeIsMaximal | Main/linux/block.c:2324-2342 | two requests are left apart only because of a gap that the driver does not want filled, or because one more entry than IOV_MAX would be needed |
| Merge.CombineFits | Main/linux/block.c:2344-2368 | a combined request starts with the first, ends with the second and has the right bytes in between |
| Merge.SortRequests | Main/linux/block.c:2290-2317 | sorts by sector, keeping the requests |
| Merge.MultiwriteMerge | Main/linux/block.c:2311-2380 | the compaction in place computes the specified requests |
| Multiwrite.EveryCallbackOnce | Main/linux/block.c:2396-2482 | for every interleaving: after 0 and all completions each callback has run exactly once with the first error; after -1 none ever runs; none runs early and the control block is not freed early |
| Multiwrite.StepKeeps | Main/linux/block.c:2259-2288 | every step keeps the counts and touches the control block only while it is allocated |
| Multiwrite.EarlyFailOnly | Main/linux/block.c:2451-2481 | -1 means the very first request was refused and nothing was started |
| Multiwrite.LateRefusal | Main/linux/block.c:2458-2463 | a later refusal returns 0 and gives the callbacks -EIO unless a request had failed before |
| Multiwrite.FirstErrorIs | Main/linux/block.c:2273-2279 | the error recorded is the failure that only successes came before, and 0 if there was none |
| Multiwrite.LaterCompletions | Main/linux/block.c:2273-2288 | after 0 was returned, the callbacks run with the last completion and not before, each once, with the first error |
| Multiwrite.MultiwriteCB.Complete | Main/linux/block.c:2273-2288 | records the first error, counts down, and at zero runs the callbacks and frees |
| Multiwrite.Submission | Main/linux/block.c:2444-2482 | the submission loop against an arbitrary driver is a run of the machine; it starts all requests, or a later refusal is reported as -EIO and an error recorded |
| MultiwriteRun.AioMultiwrite | Main/linux/block.c:2396-2482 | no medium, no requests, early and late refusal; what callbacks, error fields and control block are on return, and that after every way of completing what is outstanding each callback has run once with the first error; the requests started are the merged ones in order, all of them unless -EIO was reported and an error recorded; without a lost tail they write what the batch writes |
| Commit.CowDevice.Commit | Main/linux/block.c:758-861 | what the guest reads never changes, at any step and after any failure; when exactly 0 is returned, with a writable and with a read-only backing image, and which error otherwise; all is committed when everything fits and no call fails, never when something does not fit, and after a failed call the sectors below some point are, with the overlay whole, or all if only the emptying failed; when the openings work the device may commit again, when the writable one does not it may not, and it is lost only if its backing image cannot be opened at all |
| Commit.CommitTwice | Main/linux/block.c:776-860 | a second commit is permitted whenever the openings of the first worked |
| Commit.CowDevice.CopyAll | Main/linux/block.c:811-841 | succeeds if and only if every sector of the overlay fits into the backing image and no call fails, and then all is committed; otherwise it stopped before some sector, or only the emptying failed |
| Commit.CommitHidesFailure | Main/linux/block.c:843-861 | two devices whose commit returns 0 with nothing committed: one does not fit, the other fits and its first read fails |
| Commit.HiddenChangeInvisible | Main/linux/block.c:814-825 | any change of the backing image under sectors the overlay holds is invisible |
| Commit.DropInvisible | Main/linux/block.c:828-831 | dropping any committed sectors of the overlay is invisible |
| Commit.CowDevice.WriteBacking | Main/linux/block.c:821-824 | a write to a backing image that is open read-only, or beyond its end, is refused; a failing one leaves anything in its own sectors only |
| Commit.CowDevice.MakeEmpty | Main/linux/block.c:828-831 | may drop any of the sectors before it fails, and what is visible stays |
| ByteAccess.BlockDevice.Pread | Main/linux/block.c:992-1035 | for every offset and count: succeeds if and only if there is a medium, the sectors of the request are on it or it grows, and no driver call fails; then returns the bytes of the flat device, zeros behind its end, and where a request crosses the end the caller's old bytes if read in place |
| ByteAccess.BlockDevice.Pwrite | Main/linux/block.c:1037-1084 | succeeds if and only if the medium is there and writable, the sectors are on it or it grows, and no driver call fails; then exactly those bytes are written and the device has grown to the end of their last sector, zeros between, all but the rest of a partial last sector; a failure changes nothing outside the sectors touched |
| ByteAccess.BlockDevice.Read | Main/linux/block.c:894-934 | succeeds if and only if the medium is there, the request is in range or the device grows, and the driver does not fail; sectors, zeros behind the end, and the count and bytes of a request across the end |
| ByteAccess.BlockDevice.Write | Main/linux/block.c:894-990 | succeeds if and only if the medium is there and writable, the request is in range or the device grows, and the driver does not fail; a failure stays within the request's sectors |
| ByteAccess.WriteThenRead | Main/linux/block.c:992-1084 | bdrv_pwrite, then bdrv_pread of any range, also on a device that grows: what was written where they overlap, the old bytes elsewhere, zeros where there were none if no request crosses the end; after a failed write still the old bytes outside the sectors it touched |
| ByteAccess.WroteMore | Main/linux/block.c:1037-1084 | writing a buffer in parts is writing it at once, also when the device grows between them |
| ByteAccess.AllProvidedIff | Main/linux/block/raw-posix.c:262-274 | the driver provides all bytes of a pread if and only if they are on the device or no request of it crosses the end |
| ByteAccess.NoCrossingReadsAll | Main/linux/block/raw-posix.c:262-274 | then the bytes read are those of the device continued with zeros |
| ByteAccess.ReadsBehindTheEnd | Main/linux/block/raw-posix.c:262-274 | a read behind the end that gives zeros, and one across it that succeeds with its second sector unset |
| Dirty.DirtyTracker.SetDirtyBitmap | Main/linux/block.c:936-962 | exactly the chunks from first to last take the value, and the count stays the number of set bits |
| Dirty.Chunks | Main/linux/block.c:936-945 | those chunks are the ones that hold a sector of the request; the case of no sectors |
| Dirty.DirtyAfterIff | Main/linux/block.c:2869-2891 | a chunk is dirty if and only if some write marked it and no later reset touched it |
| Dirty.Track | Main/linux/block.c:2848-2891 | over any run from the enabling of tracking the count is exact and the bits are that history |
| Dirty.DirtyTracker.SetDirtyTracking | Main/linux/block.c:2848-2867 | what enabling and disabling leave behind, enabled or not before; after enabling the count is exact if and only if tracking was off or no bit was set, and if it was exact before, if and only if it was 0 |
| Dirty.DirtyTracker.GetDirty | Main/linux/block.c:2869-2880 | the bit of the sector's chunk, and false outside the device |
| Dirty.EnableExactIff | Main/linux/block.c:2848-2891 | after any history of a tracked device, enabling tracking again keeps the count exact if and only if no chunk is dirty by that history |
| Dirty.EnableTwiceLosesCount | Main/linux/block.c:2853-2860 | a device on which it is not |
| BlockMig.StepKeeps | Main/linux/block-migration.c:192-494 | every step keeps the invariant: a chunk behind the bulk cursor is dirty, under a guest write, or its last copy is current |
| BlockMig.FinishedMeansEqual | Main/linux/block-migration.c:558-638 | after any run that ends finished and never reads a dirty chunk with a read of it pending, the destination equals the source |
| BlockMig.DrainedIsCareful | Main/linux/block-migration.c:382-426 | once every pending read has its in-flight bit, the test of that bit keeps a dirty read from overtaking one |
| BlockMig.ReadDoneKeeps | Main/linux/block-migration.c:192-208 | completions in any order keep the invariant |
| BlockMig.SendKeeps | Main/linux/block-migration.c:464-494 | sending the head of the queue keeps it |
| BlockMig.CarelessRunLoses | Main/linux/block-migration.c:210-273 | without drained bulk reads a run ends finished with a stale chunk at the destination |
| BlockMigDrained.MigrationSafeIff | Main/linux/block-migration.c:382-447 | for every bulk phase: every finished run of the machine from its end leaves the disks equal if and only if no bulk read is pending there; the same for the runs that read dirty chunks in the order of the scan |
| BlockMigDrained.SafeIffDrained | Main/linux/block-migration.c:382-447 | from any state after the bulk phase: every finished run of the machine, and every one in scan order, ends equal if and only if every pending read has its in-flight bit |
| BlockMigDrained.DrainedMeansEqual | Main/linux/block-migration.c:558-638 | from such a drained state every finished run ends equal, whatever guest and driver do |
| BlockMigDrained.DrainedRunIsCareful | Main/linux/block-migration.c:382-426 | every run from there is careful throughout |
| BlockMigDrained.StaysDrained | Main/linux/block-migration.c:192-208 | every step but a bulk read keeps it drained |
| BlockMigDrained.UndrainedLoses | Main/linux/block-migration.c:382-447 | from any other state there is a finished run of the machine that ends with a stale chunk; each of its dirty reads is asynchronous and takes the first dirty chunk, as the scan does |
| BlockMigCode.BlockMigration.SaveDeviceBulk | Main/linux/block-migration.c:210-273 | reads the next chunk of a device, says whether that was the last, and counts the sectors before it as completed |
| BlockMigCode.BlockMigration.SaveBulkedBlock | Main/linux/block-migration.c:335-371 | each call serves the first unfinished device: its next chunk is read or it is finished; none is left when it says so; a progress record with the percentage of the sectors completed by then follows exactly when that has changed |
| BlockMigCode.BlockMigration.SaveDeviceDirty | Main/linux/block-migration.c:382-447 | one dirty chunk, the first from the cursor on, is read and clean afterwards; otherwise the cursor reaches the end; asynchronously or not, the cursor passes no chunk that was dirty at the call, and nothing else stops being dirty |
| BlockMigCode.BlockMigration.SaveLiveStage2 | Main/linux/block-migration.c:581-615 | ends for every rate limit, is a run of the machine, writes the section of exactly the blocks that its two flushes sent for the answers of the rate limit; between them reads until the limit is filled, and not beyond, or until the bulk phase is over, every device has been scanned and every chunk that was dirty at the call has been read; completion is reported if and only if the bulk phase is over and nothing is dirty or what is dirty fits the estimate; if the bulk phase ended with no read pending, or under a limit of one block, the run stays careful |
| BlockMigCode.BlockMigration.SaveLiveStage3 | Main/linux/block-migration.c:617-632 | leaves nothing dirty, pending or queued; the assertion on submitted holds; writes the section of the queue and then each dirty chunk once, 100 per cent last; the copy equals the source if the bulk phase ended with no read pending |
| BlockMigCode.BlockMigration.ReadCb | Main/linux/block-migration.c:192-208 | the callback queues the block, clears the in-flight bit and keeps the counters nonnegative |
| BlockMigCode.BlockMigration.SaveDirtyBlock | Main/linux/block-migration.c:449-462 | the first chunk at or behind the cursors, in the order of devices, that was dirty is read, asynchronously or not, and no cursor passes a dirty one; if none is read, none that was dirty at the call lies at or behind its device's cursor |
| BlockMigCode.BlockMigration.AioFlush | Main/linux/block-migration.c:390-394 | every read and write under way finishes, in any order, and the in-flight bits are clear |
| BlockMigCode.BlockMigration.FlushBlks | Main/linux/block-migration.c:464-494 | for any answers of the rate limit: blocks leave in order from the head of the queue, one for each no, until the first yes or the end of the queue, each written once |
| BlockMigCode.BlockMigration.BlkSend | Main/linux/block-migration.c:86-100 | appends the record of one block to the stream and copies the chunk |
| BlockMigCode.BlockMigration.SaveLiveStage1 | Main/linux/block-migration.c:558-579 | writes the first section: the first blocks of the queue in order, up to the first time the file refuses, and nothing else; the cursors are reset |
| BlockRun.Migrate | Main/linux/block-migration.c:558-714 | a whole migration by the code of both ends with an arbitrary guest, driver, rate limits and downtime estimates, through the bytes of the stream: every block_load succeeds; the loader's disks hold the source's contents if the bulk phase ended with no read pending, as it does when every rate limit is at most one block |
| BlockRun.Continue | Main/linux/block-migration.c:581-714 | one stage-2 section by the code, loaded by the code: the loader holds what the sender has copied |
| BlockCodec.BlockLoads | Main/linux/block-migration.c:86-100 | a block is read back: the disks hold its chunk and are otherwise unchanged, also for the short last chunk |
| BlockCodec.SectionLoads | Main/linux/block-migration.c:640-714 | block_load reads a section to its end and has written its blocks in order |
| BlockCodec.BlockAcceptedIff | Main/linux/block-migration.c:650-699 | for every device name, sector and buffer: which blocks block_load accepts, which error it returns for the others, and what the disk then holds, byte by byte |
| BlockCodec.RecordExtends | Main/linux/block-migration.c:650-710 | a record is accepted or refused by its own bytes alone |
| BlockCodec.CutSection | Main/linux/block-migration.c:650-710 | a section cut short anywhere is an input error |
| BlockStreamExamples.BlockBytes | Main/linux/block-migration.c:86-100 | the bytes of the second chunk of a device |
| BlockCodec.SentReaches | Main/linux/block-migration.c:464-494 | what a run leaves at the destination is what replaying its sent blocks leaves |
| BlockCodec.BlockMigrationTransfersDisks | Main/linux/block-migration.c:558-714 | byte for byte: for every migration whose bulk phase ends with no read pending, the sections of a finished run load without error and the destination's disks hold the source's contents |
| BlockCodec.BlockLoader.BlockLoad | Main/linux/block-migration.c:640-714 | the loop accepts and writes exactly what the specification does, and fails where it fails |
| Buffered.Deliver | Main/linux/buffered_file.c:110-181 | any sequence of puts, ticks and changes of the limit, any short writes, EAGAIN and errors, then a close: without an error the backend has received exactly the bytes put, in order |
| Buffered.BufferedFile.PutBuffer | Main/linux/buffered_file.c:110-168 | exactly what is sent, held and left frozen or failed for any answers of the backend, and the result: the size if every byte given is accepted or held, -EINVAL if not; while has_error is clear, accepted bytes followed by the buffer are everything given, and nothing stays buffered unless the output is frozen or over its limit; notification |
| Buffered.PutInOrderIff | Main/linux/buffered_file.c:110-168 | what the backend has accepted is the beginning of what was given, however it answers, if and only if nothing was held, nothing is put, the limit was passed or all these bytes are equal |
| Buffered.UnsafePutDisorders | Main/linux/buffered_file.c:110-168 | otherwise there are answers that disorder the bytes |
| Buffered.OutOfOrder | Main/linux/buffered_file.c:110-168 | a file that was given bytes 1 and 2 and whose backend accepted 2 alone |
| Buffered.PutKeeps | Main/linux/buffered_file.c:110-168 | without an error a put keeps the bytes in order |
| Buffered.PutFreezes | Main/linux/buffered_file.c:110-168 | the output is frozen exactly when the last answer was EAGAIN, and what is accepted is the beginning of the buffer and then the bytes charged to the limit |
| Buffered.OfferWithinLimit | Main/linux/buffered_file.c:136-152 | with answers of at most c bytes no more than c bytes pass the limit |
| Buffered.FlushKeeps | Main/linux/buffered_file.c:73-108 | a flush keeps them in order, also when it fails |
| Buffered.BufferedFile.Flush | Main/linux/buffered_file.c:73-108 | empties the buffer, freezes or sets the error, as the answers have it |
| Buffered.BufferedFile.Append | Main/linux/buffered_file.c:49-71 | appends, growing the buffer when it is full |
| Buffered.BufferedFile.Close | Main/linux/buffered_file.c:170-191 | ends, frees the file, and without an error everything given has been accepted |
| Buffered.BufferedFile.SetRateLimit | Main/linux/buffered_file.c:209-223 | a tenth of the rate, rounded toward zero, unless there was an error; a rate of -10 or less wraps to a limit that is never reached |
| Buffered.BufferedFile.RateTick | Main/linux/buffered_file.c:232-252 | a tick flushes and notifies unless frozen; after an error it closes the file |
| Async.NoEnclosingRuns | Main/linux/async.c:65-105 | between a push and its pop no bottom half that existed at the push is called |
| Async.DeletedNeverRuns | Main/linux/async.c:138-166 | a deleted bottom half is never called again |
| Async.OneRunPerSchedule | Main/linux/async.c:138-189 | calls never outnumber the times it was scheduled |
| Async.PopLosesNothing | Main/linux/async.c:85-105 | if from a push to its pop no bottom half newer than the push is scheduled as idle, the popped context has none left that is to be called, whatever the enclosing contexts hold |
| Async.IdlePopLoses | Main/linux/async.c:138-174 | with an idle one, a bottom half that is not idle can be lost |
| Async.PopSafeIff | Main/linux/async.c:85-174 | from any state of a context: however it goes on to its pop, scheduling none of its own bottom halves as idle, nothing is lost, if and only if none of them is waiting as an idle one now |
| Async.IdleLoses | Main/linux/async.c:138-174 | otherwise there is such a pop that loses a bottom half |
| Async.PollRunsScheduled | Main/linux/async.c:138-152 | what is scheduled when the poll has yet to reach it, and not cancelled or deleted, is called |
| Async.WholePollRuns | Main/linux/async.c:138-166 | a whole poll calls every bottom half that was to be called when it began and that nobody cancels or deletes meanwhile |
| Async.KeepSplits | Main/linux/async.c:154-163 | removing deleted bottom halves keeps the others in their order |
| AsyncCode.AsyncContexts.BhPoll | Main/linux/async.c:138-166 | with arbitrary callbacks, also ones that push and pop, it ends, is a run of the machine from the start of the poll to its end, returns whether a bottom half that is not idle was called, and leaves the contexts below alone |
| AsyncCode.AsyncContexts.Pop | Main/linux/async.c:85-105 | it ends, returns to the parent with one more bottom half, scheduled and not idle, and loses nothing if since this context's push no newer bottom half has been scheduled as idle |
| AsyncCode.AsyncContexts.BhSchedule | Main/linux/async.c:168-184 | scheduling twice is scheduling once |
| AsyncCode.AsyncContexts.Push | Main/linux/async.c:65-71 | a new empty context on top |
| AsyncCode.AsyncContexts.BhNew | Main/linux/async.c:127-136 | a new bottom half in front of the current context's list, not scheduled |
| AsyncCode.AsyncContexts.BhCancel | Main/linux/async.c:186-189 | not scheduled any more |
| AsyncCode.AsyncContexts.BhDelete | Main/linux/async.c:191-195 | deleted and not scheduled |
| AsyncCode.AsyncContexts.RemoveDeleted | Main/linux/async.c:154-163 | exactly the deleted bottom halves leave the list |
| Bitops.Ffsl | Main/linux/bitops.h:31-61 | the halving search finds the lowest set bit |
| Bitops.Flsl | Main/linux/bitops.h:69-99 | and the highest |
| Bitops.Ffz | Main/linux/bitops.h:107-110 | the lowest zero bit |
| Bitops.FindNextBit | Main/linux/bitops.c:21-64 | equals a linear scan for a set bit, for any size and offset |
| Bitops.FindNextZeroBit | Main/linux/bitops.c:70-113 | equals a linear scan for a zero bit |
| Bitops.FindLastBit | Main/linux/bitops.c:115-142 | the highest set bit below size, or size if there is none |
| Bitmap.SetRange | Main/linux/bitmap.c:160-198 | bitmap_set and bitmap_clear change exactly the bits of the range |
| Bitmap.TestAndSetBit | Main/linux/bitops.h:156-164 | returns the old bit and sets only that one |
| Bitmap.TestAndClearBit | Main/linux/bitops.h:171-179 | returns the old bit and clears only that one |
| Bitmap.TestBit | Main/linux/bitops.h:201-204 | the bit |
| Bitmap.AlignUpIs | Main/linux/bitmap.c:200-228 | for a mask one less than a power of two, adding it and clearing its bits gives the least multiple not below the argument |
| Bitmap.AlignMaskOnWords | Main/linux/bitmap.c:200 | the macro's `&` and `~` on 64-bit words compute that sum without the mask's bits, when it fits into a word |
| Bitmap.ClearLow | Main/linux/bitmap.c:200 | clearing the low bits is dividing by the power of two and multiplying back |
| Bitmap.FindNextZeroArea | Main/linux/bitmap.c:214-237 | ends; for nr >= 1, the least aligned index with nr zero bits within size, and a value above size exactly when there is none; for nr = 0 the next zero bit, aligned |
| Drives.IndexNamesSlot | Main/linux/blockdev.c:78-88 | different indices name different slots, for all ints, and the nonnegative ones name exactly the slots that exist |
| Drives.IndexExamples | Main/linux/blockdev.c:34-50 | indices of IDE, SCSI and virtio, and a negative one |
| Drives.DriveList.FindFree | Main/linux/blockdev.c:414-427 | the search ends and finds the lexicographically first free slot from the given bus |
| Drives.FirstFreeUnique | Main/linux/blockdev.c:414-427 | there is only one such slot |
| Drives.DriveList.DriveGet | Main/linux/blockdev.c:117-131 | finds a drive in the slot if and only if there is one |
| Drives.DriveList.DriveInit | Main/linux/blockdev.c:405-473 | which slot or which error the options lead to; only success adds a drive, in a free slot |
| Drives.DriveList.PutRef | Main/linux/blockdev.c:181-196 | the last reference takes the drive off the list, and no slot is shared |
| Drives.DriveList.GetRef | Main/linux/blockdev.c:198-201 | one more reference |
| Drives.Serve | Main/linux/blockdev.c:181-473 | over any run of creations and deletions no two drives share interface, bus and unit, no unit is beyond its bus, and every listed drive is referenced |

## Left out

- `ram_load` for version 3, and RAM blocks that appear or vanish during a migration.
- KVM, `madvise`, host endianness, transferred-byte statistics and the bandwidth and downtime estimates (floating point): the answer of stage 2 is arbitrary where it depends on them.
- Guest stores within one `ram_save_block`: guest writes happen between two calls, as the global lock makes them.
- Cancelling a migration, and `blk_mig_cleanup` with reads in flight.
- Block migration with a shared base and with failing reads.
- The in-flight and dirty bitmaps of block migration are sets of chunks there; their words and counts are in `Dirty` and `Bitops`.
- The literal tables Te0 to Te3 and Td0 to Td3 are taken by the formulas in the comment at aes.c:47-57 over the bytes of the literal Te4 and Td4.
- The order in which `qsort` leaves requests or RAM blocks with equal keys: `Merge` holds for every sorted order, `RamSort` needs none since offsets differ.
- `multiwrite_merge`: the bookkeeping that frees merged vectors and zero buffers; memory is only ever added to.
- `bdrv_read_em`, `bdrv_write_em` and the bounce buffers under them.
- `bdrv_commit`: flushing the images; an image opened again is taken to hold what it held.
- MultiwriteRun.AioMultiwrite: after 0 the error fields are the old ones in some order, since the sort moves whole requests; which field goes with which request is not stated.
- Merge.MergeSafeIff: only for batches without a hook and with room in IOV_MAX for all of them; otherwise a dropped byte can happen to equal the one an unmerged request leaves, and `MergeContents` has the law over all contents.
- Buffered: 32-bit hosts, where a rate is cut at SIZE_MAX, and calls after the file was closed.
- Multiwrite, commit and byte access take the driver's own reads and writes by contract. A growing device behaves as block/raw-posix.c; a write that the driver cuts short and reports as a count is taken as failed.
- Commit.CowDevice.Commit: a failing driver write may leave anything in the sectors it was to write, but is assumed to touch no others.
- Indexes and sizes are unbounded integers; 64-bit wrap-around of sector arithmetic is not modelled, except in the countdown of `ram_load`'s block list.
- `Bitops` takes an unsigned long as its 64 bits; 32-bit hosts are not modelled, nor are `change_bit`, `test_and_change_bit` and the remaining logical operations on bitmaps.
- Timers, `put_ready` and `wait_for_unfreeze` of the buffered file are the caller's: a put or tick says whether it notifies, and what the client then writes comes as further puts.
- Re-entrant polls of one context, and `qemu_bh_update_timeout`.
- `drive_init` beyond placing the drive: media, geometry, file names, identifiers and device options.
