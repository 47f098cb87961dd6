# MiniC-OS in Dafny

A model of the parts of the MiniC-OS kernel that carry real algorithms or protocols, with proofs about
every input, every run or every reachable state. The C code works by updating memory in place, so the
model does too: methods with loops over arrays, and classes whose fields the methods change, each proved
against a specification stated on plain values. `dafny verify dfyconfig.toml` checks everything.

| area | files | main results |
|---|---|---|
| Bignum | `Limbs`, `Bignum`, `BignumBytes` | `ModExp` is the modular power, for all operands of 4096 bits, built on exact limb arithmetic; the one exception is stated as an if-and-only-if |
| Address spaces | `PageModel`, `Frames`, `Cow`, `CowModel`, `Paging`, `WriteFault`, `ForkCost`, `ForkWalk`, `CowFork`, `CowExit`, `ForkCall`, `FrameBooks`, `CowRun` | the four-level table is a flat map; over every run, copy-on-write shows each process what eager copying would, a store is refused only for want of a frame, and every frame is accounted for: a page's frame is freed exactly when its last reference goes; a fork is granted exactly when frames and slots suffice, and exactly which forks and exits lose count of a frame or leave a page that cannot be stored to; of the whole address space ring 3 reaches exactly the private pages whose leaf lets it, and every process keeps the kernel's part |
| Inflate | `BitStream`, `Huffman`, `BitStrings`, `DeflateFormat`, `Inflate`, `Deflate`, `DeflateStreams`, `DeflateAccepts` | `Inflate` accepts exactly the streams this decoder's grammar defines and writes exactly their bytes; every stream of stored, fixed and dynamic blocks decodes to its expansion; a compressed block is accepted exactly if it encodes a legal list of tokens, and any two codes of up to 318 lengths have a header |
| FAT32 | `FatModel`, `FatDirs`, `FatTrees`, `FatStores`, `FatRooms`, `FatWrites`, `Fat32`, `FatRuns` | chains stay disjoint and acyclic in every reachable volume; any run of writes, deletions and new directories is its replay on a ledger of names, free clusters and vacant slots, which alone decides what succeeds |
| Heap | `HeapModel`, `KernelHeap` | blocks tile the heap, live payloads are disjoint, aligned and untouched; every byte is accounted for, kfree undoes kalloc, and a free block serves exactly as many requests as fit into it; exactly which requests leave free neighbours |
| AES and users | `GaloisField`, `SBox`, `SBoxLaw`, `Octets`, `Aes`, `AesBlocks`, `AesLaws`, `AesKeys`, `Cbc`, `TlsPadding`, `BigEndians`, `TlsRecords`, `KeyWrap`, `Ccm`, `Ccmp` | the table is inversion in the field and an affine map, each round is given byte by byte and every key enters at its own place; decryption inverts encryption for the cipher, CBC, TLS records over whole exchanges, key wrap and CCM; packet numbers are never accepted or used twice |
| Concurrency | `Scheduler`, `Rings` | bounded waiting, no early and no late wake-up, mutual exclusion; cycle-bit rings are queues |
| PNG | `Png`, `Crc` | in-place defiltering inverts filtering; the table CRC is the bit-serial CRC, and it notices every change within 32 bits |

Some properties one would expect turned out to be false of the code. Each has a lemma or a contract that
says exactly when it holds:

- `ModExp` with modulus 1 and exponent 0 returns 1 and not 0 (`ModExpIsPowerModM`).
- Freeing an address space loses count of shared frames exactly when some tracked leaf carries NX, because
  the physical address read from the leaf keeps bit 63; the frame is then freed at once, whoever else maps
  it (`FreeAddressSpace`). Forking any NX page creates such a leaf (`ForkOfNxPageIsMissed`).
- A fork that fails frees a frame its parent still maps, unless it failed for want of frames below every NX
  page of the parent (`SyscallFork`). With frames enough that is exactly when the table has no slot for
  every untracked page of the parent (`SlotsDecide`), as for a process of 65 pages (`ForkPastTheTable`).
- A fork that fails once the child has its root leaves the parent's page where it stopped read-only. No store
  to that page goes through any more exactly when the page was untracked (`SyscallFork`), as for a process of
  one page when two frames are free, although no count is lost and frames are free (`StoreAfterFailedFork`).
- A new address space, and so a fork, that finds exactly one free frame takes it and never gives it back
  (`CloneAddressSpace`, `SyscallFork`, `SpawnOnLastFrame`); nothing else loses a frame (`KernelGrows`).
- The repair of a write fault drops the NX bit of the page (`RepairWriteFault`).
- The result of reading a file tells the bytes read exactly below 2^31 and is negative from there on
  (`Signed`, `ReadFile`).
- The rows of a PNG image stay inside the buffer allocated for them exactly when its bytes can be counted in
  32 bits (`RowsInsideIff`).
- A command entry written while 31 wait, or while 30 wait and the reader rests on the link, stalls the ring:
  the reader sees none of the entries that wait (`RingEnqueue`, `LapUnderLink`).
- `sleep_ticks` returns at once exactly when no other task can run (`SleepTicks`, `SleepAlone`).
- A TLS record leaves the buffer its MAC is computed in exactly when its content exceeds 1200 bytes, which
  records of the accepted length can have (`ReceiveEncryptedRecord`, `LongRecordDoesNotFit`).
- The CCM blocks are those of RFC 3610 exactly below 0xFF00 bytes of data and 2^16 bytes of message
  (`FormattedIffShort`).
- The bounds tests of `inflate` decide correctly exactly for buffers up to 0xFFFF_0000 bytes
  (`TestsDecideIff`).
- A wrapped key of 2^31 + 8 bytes or more is not copied before it is unwrapped (`AesKeyUnwrap`).
- A refused `kalloc` of nearly 2^64 bytes leaves neighbouring free blocks (`RefusedPairs`,
  `HugeRequestLeavesPair`), and some requests never return (`Settled`, outcome `Stuck`). A growth that fails
  has used up every page there was (`PagesLeft`).
- `mutex_unlock` ignores its caller: exclusion survives exactly when nobody else holds the mutex (`Unlock`).
- Nonces of one key repeat exactly every 2^48 frames (`NoncesRepeatIff`).

## Model

| member | source | states |
|---|---|---|
| Bignum.CmpLimbs | kernel/security/bignum/bignum.c:56-65 | the sign it returns is that of the difference of the two values, all three ways |
| Bignum.SubLimbs | kernel/security/bignum/bignum.c:68-82 | subtraction into any array, one of the operands included, is exact when the minuend is not smaller, and touches only n limbs |
| Bignum.Shr1Limbs | kernel/security/bignum/bignum.c:85-94 | halves the value, rounding down |
| Bignum.ShlLimbs | kernel/security/bignum/bignum.c:97-122 | multiplies by a power of two, truncated to n limbs, for every shift up to the whole width |
| Bignum.HighestBitIndex | kernel/security/bignum/bignum.c:125-139 | -1 exactly for zero, otherwise the index bounding the value between two powers of two |
| Bignum.TestBit | kernel/security/bignum/bignum.c:246-250 | the bit of the value at that weight |
| Bignum.BitOfValue | kernel/security/bignum/bignum.c:246-250 | a bit of the number is the bit of the limb that holds it |
| Bignum.MulLimbs | kernel/security/bignum/bignum.c:143-168 | the exact product of the two values |
| Bignum.ProductFits | kernel/security/bignum/bignum.c:153-158 | limb product plus old limb plus carry never leaves 64 bits, and the new carry fits a limb |
| Bignum.ModReduceWide | kernel/security/bignum/bignum.c:172-216 | the wide value modulo the modulus, and its low limbs when the modulus is zero |
| Bignum.RestoringDivision | kernel/security/bignum/bignum.c:197-209 | the loop keeps the remainder below twice the shifted modulus and ends with the remainder |
| Bignum.MulMod | kernel/security/bignum/bignum.c:234-244 | the product modulo the modulus, even when result aliases an operand |
| Bignum.SquareAndMultiply | kernel/security/bignum/bignum.c:259-266 | one exponent bit extends the prefix power |
| Bignum.ModExp | kernel/security/bignum/bignum.c:252-269 | base to the exponent modulo the modulus for all 128-limb operands; 1 for exponent 0 |
| Bignum.ModExpIsPowerModM | kernel/security/bignum/bignum.c:252-269 | that is the mathematical modular power if and only if the modulus exceeds 1 or the exponent is positive |
| BignumBytes.FromBytesBe | kernel/security/bignum/bignum.c:29-41 | the number whose big-endian bytes these are |
| BignumBytes.ToBytesBe | kernel/security/bignum/bignum.c:43-52 | the big-endian bytes of the number modulo the space they have |
| BignumBytes.ByteRoundTrip | kernel/security/bignum/bignum.c:29-52 | export after import of equally many bytes gives the bytes back |
| PageModel.DecodeInvertsEncode | kernel/mm/paging/paging.c:66-123 | page-table words as 64-bit numbers and as fields are the same thing |
| PageModel.EncodeInvertsDecode | kernel/mm/paging/paging.c:66-123 | in both directions, so nothing of a word is lost |
| PageModel.FieldsAreMasks | kernel/mm/paging/paging.c:66-123 | the fields are what the code's masks and shifts extract |
| PageModel.TableEntryIs | kernel/mm/paging/paging.c:44 | a new table is hooked in as its address plus 7: present, writable, user |
| PageModel.MakePteIs | kernel/mm/paging/paging.c:73 | a leaf is the page's address, the low twelve flag bits and NX, and the present bit, as a number |
| PageModel.ReadOnlyIs | kernel/mm/paging/paging.c:191 | a forked leaf is the number less its bit of weight two |
| PageModel.PrivateIs | kernel/mm/paging/paging.c:125-127 | the private region is the addresses from 0x80000000 up to 512 GB |
| PageModel.LeafWrite | kernel/mm/paging/paging.c:53-93 | writing one leaf slot changes the translation of that page only, in all trees |
| PageModel.LinkKeepsLookup | kernel/mm/paging/paging.c:34-48 | hooking in a zeroed table changes no translation |
| Frames.FrameAllocator.constructor | kernel/mm/frames/frames.c:102-109 | every frame starts used |
| Frames.FrameAllocator.MarkRangeFree | kernel/mm/frames/frames.c:83-99 | frees exactly the whole frames of the clamped range |
| Frames.FrameAllocator.AllocFrame | kernel/mm/frames/frames.c:151-166 | the lowest free frame, or NULL exactly when none is free; the count stays the number of clear bits |
| Frames.FrameAllocator.FreeFrame | kernel/mm/frames/frames.c:168-177 | adds exactly that frame, once, to the free set |
| Cow.CowTable.FindSlot | kernel/mm/cow/cow.c:27-36 | a slot exactly for tracked frames |
| Cow.CowTable.Track | kernel/mm/cow/cow.c:38-59 | starts at two or counts one more; refuses exactly an untracked frame when all slots are used |
| Cow.CowTable.IsShared | kernel/mm/cow/cow.c:61-66 | true exactly for tracked frames |
| Cow.CowTable.ShouldFree | kernel/mm/cow/cow.c:68-83 | true exactly for untracked frames and last references, and drops one reference |
| Paging.Kernel.TableGetOrCreate | kernel/mm/paging/paging.c:34-48 | the existing table or a zeroed new one, hooked in for ring 3 to read and write below; 0 exactly when it is missing and no frame is free |
| Paging.Kernel.MapPageIn | kernel/mm/paging/paging.c:53-93 | adds exactly one leaf to the flat map of all address spaces; succeeds exactly when there are frames for the missing tables, taking just those, and changes no translation otherwise; ring 3 may then do with the page exactly what the flags say |
| Paging.Kernel.TranslateIn | kernel/mm/paging/paging.c:100-123 | the flat map's physical address plus offset, or 0 |
| Paging.Ring3Exact | kernel/mm/paging/paging.c:139-151 | with permission the AND over every word of the processor's walk, ring 3 of a process reaches, of all 2^36 pages, exactly the private ones whose leaf lets it, and may read, write and run just what the leaf says |
| Paging.KernelAlike | kernel/mm/paging/paging.c:139-148 | kernel addresses are looked up in every process through the page directories of the boot-time tables |
| WriteFault.CloneAddressSpace | kernel/mm/paging/paging.c:128-154 | a new root without private pages and its PDPT, exactly when two frames are free; every other frame keeps its role; when exactly one is free it goes to the kernel for good; its first two PDPT entries are the kernel's without the user bit |
| WriteFault.RepairWriteFault | kernel/isr/isr.c:463-486 | repairs exactly tracked pages while a frame is free; no process sees any byte change, every count stays exact, every other page keeps its leaf and its frame its slot; the page moves to a frame nobody mapped, the same frames stay kernel's, roots and tables, and so the old frame is freed exactly with its last reference; the repaired leaf is writable and has lost NX |
| WriteFault.MayStore | kernel/mm/paging/paging.c:40-44 | every word on the walk lets ring 3 store exactly when the leaf does |
| WriteFault.Ring3Store | kernel/isr/isr.c:463-486 | a user store, repaired if need be, changes one word of one page of one process and nothing anyone else sees; exactly when it goes through; every page that could be stored to still can; no frame but pages' changes its role |
| WriteFault.MapFreshPage | proc/process.c:78-107 | a new private writable page on a frame nobody mapped, exactly when frames for it and its tables are free, taking just those; otherwise at most a page directory is left; the leaf is user, writable and no-execute as asked |
| CowModel.ShareKeepsRefs | kernel/mm/paging/paging.c:189-201 | sharing a tracked frame keeps count equal to leaves and all of them read-only |
| CowModel.RepairKeepsRefs | kernel/isr/isr.c:463-486 | moving one leaf off a shared frame keeps the counts exact; the frame is unmapped exactly when its count said so |
| CowModel.RepairOnlyAt | kernel/isr/isr.c:463-486 | the frame a repaired page leaves stays tracked while another page is on it |
| CowModel.RemoveKeepsRefs | kernel/mm/cow/cow.c:68-83 | dropping a leaf and one reference keeps the counts exact, and asks to free exactly the last one |
| CowModel.ShareUntrackedBreaksRefs | kernel/mm/cow/cow.c:38-59 | sharing a frame that could not be tracked breaks the count, so fork must stop |
| CowFork.CloneAddressSpaceCow | kernel/mm/paging/paging.c:164-212 | completes exactly when frames last for the child's tables and slots for the parent's untracked pages, and then both read, read-only, what an eager copy would show and can store on demand; otherwise it stops at the page where one runs out, every page still has its frame, the parent's page there is read-only, every other page can be stored to as before, and the counts are exact but for a page that found no slot |
| ForkCost.SpentShare | kernel/mm/paging/paging.c:189-201 | sharing one page takes exactly the tables no earlier page of the walk built, and a slot exactly if its frame had none |
| CowExit.FreeAddressSpace | kernel/mm/paging/paging.c:219-261 | only this space disappears, with its root and exactly its tables; counts stay exact if and only if no tracked leaf of it carries NX; the frames of the other spaces stay tracked or untracked; a data frame is free afterwards exactly when no leaf is left on it, or a leaf was that carries NX and is tracked or was shared without a slot |
| CowExit.ForkOfNxPageIsMissed | kernel/mm/paging/paging.c:219-261 | a forked NX page is such a leaf |
| ForkCall.SyscallFork | kernel/syscall/handlers/fork.c:106-115 | succeeds exactly when two frames, the child's tables and the parent's untracked pages fit frames and slots; it is eager copying or, for every reader, nothing; a mapped frame is left free exactly when it fails other than by running out of frames below every NX page of the parent; a page is left that cannot be stored to exactly when it stops at an untracked one, and it is that one; which frames the kernel, the roots, the tables, the pages and the table of shared frames then hold |
| ForkCall.SlotsDecide | kernel/mm/cow/cow.c:38-59 | with frames enough, a fork leaves counts, frames and writability in order exactly when the slots suffice |
| ForkCall.NoNxDecides | kernel/mm/paging/paging.c:164-212 | for a parent without NX pages counts stay exact exactly when the slots last as far as the frames do; with slots enough everything stays in order exactly when frames do not run out at an untracked page |
| ForkCall.ForkPastTheTable | kernel/syscall/handlers/fork.c:106-115 | from every sound state with 400 free frames, a process of 65 pages whose fork leaves a frame both mapped and free |
| ForkCall.StoreAfterFailedFork | kernel/isr/isr.c:463-500 | from every sound state with seven free frames, a process of one page whose fork fails and whose next store is refused |
| ForkCall.Teardown | kernel/mm/paging/paging.c:219-261 | an exit keeps the counts exactly when no tracked leaf of the space carries NX, gives back its root and exactly its tables, leaves in the table exactly the frames still mapped, and every page left can be stored to as before |
| FrameBooks.FreeIff | kernel/mm/frames/frames.c:151-177 | a frame is free exactly when it is neither the kernel's, a root nor a table, and no page is on it |
| FrameBooks.OneTablePerSpot | kernel/mm/paging/paging.c:34-93 | no two tables of a space cover the same pages |
| FrameBooks.FramesConserved | kernel/mm/frames/frames.c:151-177 | free, kernel, root, table and page frames are together all the frames there are |
| CowRun.Step | kernel/mm/paging/paging.c:128-261 | each operation is granted exactly when the state before it allows, forks included, does to what processes see exactly what it does without sharing, keeps the invariant, writability of every page included, exactly when a fork or exit meets its condition, and keeps the books: which frames become the kernel's, roots and tables, which frames the pages are on and which of them are in the table of shared ones |
| CowRun.TraceReplays | kernel/mm/paging/paging.c:128-261 | over any run, what every process reads equals the run in which fork copied memory |
| CowRun.StoreRefused | kernel/isr/isr.c:463-500 | over any run, a store to a page the machine without sharing has is refused only while no frame is free and the page's frame is in the table of shared ones |
| CowRun.RightsAt | kernel/mm/paging/paging.c:128-154 | at every moment of a run, every process has the two kernel entries there were at its beginning, without the user bit, and ring 3 of it reaches exactly its private pages as their leaves let it |
| CowRun.StorableMeans | kernel/isr/isr.c:463-486 | while counts are exact, ring 3 may store to a mapped page exactly when its frame is untracked |
| CowRun.FreedWithLast | kernel/mm/cow/cow.c:68-83 | after every step of a run that leaves the counts exact, the frame of a page is free exactly when no page is on it any more |
| CowRun.FreeAt | kernel/mm/frames/frames.c:151-177 | at every moment of a run the free frames are all but the kernel's, the processes' roots, their tables and the frames of pages |
| CowRun.StoreCosts | kernel/isr/isr.c:463-486 | a store costs a frame exactly while another page is on the frame of the page stored to |
| CowRun.KernelGrows | kernel/mm/paging/paging.c:128-136 | over any run the kernel gains a frame exactly at a spawn or fork that finds one free frame, and keeps it |
| CowRun.SpawnOnLastFrame | kernel/mm/paging/paging.c:128-136 | from every sound state with one free frame, a refused spawn after which none is |
| CowRun.Run | kernel/mm/paging/paging.c:128-261 | any sequence of spawns, mappings, stores, forks and exits, with every state on the way: each attempt is granted exactly when its state allows and moves the books accordingly, and the run keeps the invariant to its end exactly when every fork and exit meets its condition |
| BitStream.BitReader.GetBit | kernel/inflate/inflate.c:23-35 | the next bit of the stream, or the error flag at its end |
| BitStream.BitReader.GetBits | kernel/inflate/inflate.c:37-45 | n bits, least significant first; error exactly when fewer are left |
| BitStream.BitReader.Align | kernel/inflate/inflate.c:47-52 | moves to the next byte boundary |
| Huffman.HuffmanTable.Build | kernel/inflate/inflate.c:62-82 | the table lists the symbols by code length and then by number, for every length vector |
| Huffman.SlotsDiffer | kernel/inflate/inflate.c:62-82 | no two coded symbols share a table slot |
| Huffman.HuffmanTable.Decode | kernel/inflate/inflate.c:87-106 | returns a symbol exactly when the stream continues with its canonical code, and consumes just that code |
| Huffman.DecodesUnique | kernel/inflate/inflate.c:87-106 | at most one symbol's code starts at any position, for any length vector |
| Huffman.CanonicalOrder | kernel/inflate/inflate.c:54-106 | codes of one length go up with their symbols by ones and every shorter code precedes every longer one, as section 3.2.2 of RFC 1951 says |
| Huffman.AllFitIffKraft | kernel/inflate/inflate.c:62-106 | every symbol with a length has a code word if and only if the lengths satisfy the Kraft inequality |
| Huffman.FirstFitsInt | kernel/inflate/inflate.c:87-106 | the running code never leaves a 32-bit int |
| DeflateFormat.MatchFor | kernel/inflate/inflate.c:108-123 | every length 3 to 258 at every distance up to 32768 has an encoding in the base and extra-bit tables |
| DeflateFormat.LengthRangesMeet | kernel/inflate/inflate.c:108-115 | length codes cover consecutive ranges |
| DeflateFormat.DistanceRangesMeet | kernel/inflate/inflate.c:116-123 | distance codes cover consecutive ranges |
| DeflateFormat.LengthBases | kernel/inflate/inflate.c:108-111 | the least length of every code is the table's |
| DeflateFormat.LengthExtras | kernel/inflate/inflate.c:112-115 | so are its extra bits |
| DeflateFormat.DistanceBases | kernel/inflate/inflate.c:116-119 | the least distance of every code is the table's |
| DeflateFormat.DistanceExtras | kernel/inflate/inflate.c:120-123 | so are its extra bits |
| DeflateFormat.ClOrderIs | kernel/inflate/inflate.c:124-126 | code lengths are sent 16, 17, 18, 0, then from 8 outwards to 1 and 15 |
| DeflateFormat.CopyBackPeriodic | kernel/inflate/inflate.c:269-274 | each copied byte is the byte one distance before it, also where the copy overlaps itself |
| Inflate.CopyMatch | kernel/inflate/inflate.c:269-274 | the in-place copy is the back-reference's expansion |
| Inflate.TestsDecideIff | kernel/inflate/inflate.c:215-226 | the 32-bit bounds tests decide every position and length correctly if and only if the buffer has at most 0xFFFF_0000 bytes |
| Inflate.InflateBlockStored | kernel/inflate/inflate.c:209-232 | accepts exactly well-formed stored blocks that fit and appends their bytes |
| Inflate.InflateBlockHuffman | kernel/inflate/inflate.c:234-277 | accepts exactly well-formed token streams whose expansion fits, and appends it |
| Inflate.BuildFixedTables | kernel/inflate/inflate.c:128-139 | the tables of the fixed codes |
| Inflate.ReadCodeLengths | kernel/inflate/inflate.c:164-202 | the run-length coded lengths, rejecting exactly the malformed |
| Inflate.ReadDynamicTables | kernel/inflate/inflate.c:141-207 | the tables a dynamic header describes, or failure; which headers these are is in `DynamicHead` and `LongHeaderRefused` |
| Inflate.InflateBlock | kernel/inflate/inflate.c:299-318 | dispatches on the block type; type 3 fails |
| Inflate.Inflate | kernel/inflate/inflate.c:279-323 | for every byte string: terminates, succeeds exactly when it is a stream whose output fits, produces exactly that output, and never writes past the capacity |
| Deflate.TokenReads | kernel/inflate/inflate.c:241-275 | a token's bits are read back as that token |
| Deflate.BlockDecodes | kernel/inflate/inflate.c:234-277 | a block of literals and legal back-references decodes to its LZ77 expansion under any pair of codes |
| DeflateStreams.StoredReads | kernel/inflate/inflate.c:209-232 | a stored block's bits are read back as its bytes |
| DeflateStreams.HeadReads | kernel/inflate/inflate.c:141-207 | a dynamic header's bits are read back as its two code-length vectors |
| DeflateStreams.FixedLitCode | kernel/inflate/inflate.c:128-139 | the fixed literal/length codes are the ranges of section 3.2.6 of RFC 1951 |
| DeflateStreams.FixedDistCode | kernel/inflate/inflate.c:128-139 | fixed distance codes are five-bit numbers |
| DeflateStreams.FixedEncodable | kernel/inflate/inflate.c:128-139 | every token list can be sent with the fixed codes |
| DeflateStreams.DynamicHead | kernel/inflate/inflate.c:141-207 | any 257 to 288 and 1 to 32 code lengths up to 15, of at most 318 in all, are the tables of some dynamic header |
| DeflateStreams.LongHeaderRefused | kernel/inflate/inflate.c:159-163 | a header announcing more than 318 lengths is refused whatever follows |
| DeflateStreams.DynamicDecodes | kernel/inflate/inflate.c:279-323 | every legal token list that two such codes express inflates from a dynamic block with these codes |
| DeflateStreams.StreamDecodes | kernel/inflate/inflate.c:279-323 | any sequence of stored, fixed and dynamic blocks decodes to the whole expansion |
| DeflateStreams.RoundTrip | kernel/inflate/inflate.c:279-323 | inflating an encoded stream gives its expansion if it fits the buffer and fails otherwise |
| DeflateStreams.BlocksCap | kernel/inflate/inflate.c:279-323 | a larger buffer never changes the output |
| DeflateAccepts.BlockHeld | kernel/inflate/inflate.c:234-277 | whatever compressed block is accepted is the encoding of legal tokens, and the result is their expansion |
| DeflateAccepts.HuffmanIff | kernel/inflate/inflate.c:234-277 | with two codes at hand a block is accepted if and only if it encodes tokens whose matches stay inside the output and whose expansion fits |
| DeflateAccepts.StoredIff | kernel/inflate/inflate.c:209-232 | a stored block is accepted if and only if its length and the complement agree and so many bytes follow and fit |
| DeflateAccepts.CmdHeld | kernel/inflate/inflate.c:164-202 | every code-length symbol accepted is one of the four commands of section 3.2.7 of RFC 1951, a run too long being cut off |
| FatModel.Link | kernel/fs/fat32/fat32.c:106-117 | hanging a claimed cluster behind a chain gives a chain |
| FatModel.ObjectsDisjoint | kernel/fs/fat32/fat32.c:126-159 | no cluster belongs to two files or directories |
| FatModel.RemoveObject | kernel/fs/fat32/fat32.c:149-159 | freeing one chain leaves every other chain as it was |
| FatDirs.EntryFields | kernel/fs/fat32/fat32.c:494-513 | a directory slot gives back the name, attribute, first cluster and size stored in it |
| FatDirs.EntryBytes | kernel/fs/fat32/fat32.c:494-513 | byte by byte: the cluster's high half at 20 and low half at 26, the size at 28, zeros in between |
| FatDirs.Marks | kernel/fs/fat32/fat32.c:7-14 | the marks on the disk: 0x20 for a file, 0x10 for a directory, 0xE5 in a slot given up, 0x0FFFFFFF at a chain's end |
| FatDirs.HitUnique | kernel/fs/fat32/fat32.c:261-294 | no directory shows a name twice |
| FatTrees.EntryChain | kernel/fs/fat32/fat32.c:126-159 | in a sound volume an entry's chain ends, repeats no cluster and holds no free one |
| FatTrees.EntriesDisjoint | kernel/fs/fat32/fat32.c:126-159 | the chains of different entries and of the root are disjoint |
| FatTrees.UnusedTail | kernel/fs/fat32/fat32.c:261-333 | behind a directory's first unused slot every slot is unused |
| FatTrees.EnteredView | kernel/fs/fat32/fat32.c:487-515 | a new entry shows its node, every other name of every directory shows what it did |
| FatTrees.ErasedView | kernel/fs/fat32/fat32.c:517-542 | a removed entry is gone, every other name shows what it did |
| FatStores.StoreStep | kernel/fs/fat32/fat32.c:452-484 | one more cluster holds the next bytes, in a chain of clusters that were free |
| FatStores.StoreUndone | kernel/fs/fat32/fat32.c:454-459 | giving the new chain back restores the whole table |
| FatRooms.FreedCount | kernel/fs/fat32/fat32.c:149-159 | giving a chain back frees exactly as many clusters as it has |
| FatRooms.RoomyIff | kernel/fs/fat32/fat32.c:299-333 | a directory takes an entry without growing exactly while it has a vacant slot |
| Fat32.Volume.constructor | kernel/fs/fat32/fat32.c:64-89 | a formatted volume is sound and shows nothing |
| Fat32.Volume.SetFatEntry | kernel/fs/fat32/fat32.c:106-117 | one 28-bit entry changes, its top four bits stay |
| Fat32.Volume.AllocCluster | kernel/fs/fat32/fat32.c:126-147 | claims and zeroes the first free cluster; 0 exactly when none is free |
| Fat32.Volume.FreeClusterChain | kernel/fs/fat32/fat32.c:149-159 | frees exactly the chain's clusters |
| Fat32.Volume.FindEntryInDir | kernel/fs/fat32/fat32.c:261-294 | the one entry of that name, or none in the whole directory |
| Fat32.Volume.FindFreeDirSlot | kernel/fs/fat32/fat32.c:299-333 | a reusable slot, growing the directory by one blank cluster when all are taken; fails exactly when that needs a cluster and none is free |
| Fat32.Volume.StoreBytes | kernel/fs/fat32/fat32.c:448-485 | a new chain with the bytes exactly when enough clusters are free; otherwise the table is as it was |
| Fat32.Volume.WriteFile | kernel/fs/fat32/fat32.c:433-515 | succeeds exactly when the name is new and clusters suffice, then shows the bytes and takes exactly those clusters and one slot; a failure changes no 28-bit entry; no other name changes; the volume stays sound |
| Fat32.Volume.CreateDir | kernel/fs/fat32/fat32.c:544-588 | the same for an empty directory |
| Fat32.Volume.DeleteFile | kernel/fs/fat32/fat32.c:517-542 | succeeds exactly for an existing name, hides it and, for a directory, all its names; frees exactly the clusters of its chain and one slot; nothing else changes; the volume stays sound |
| Fat32.Volume.ReadFile | kernel/fs/fat32/fat32.c:394-431 | the bytes the name shows and their number as a signed 32-bit one, -2 if the file is larger than the buffer, -1 if there is no such file |
| FatRuns.ResolveDir | kernel/fs/fat32/fat32.c:376-392 | the directory the path leads to, walking the names shown |
| FatRuns.ReadPath | kernel/fs/fat32/fat32.c:394-431 | reading by path returns what the path shows |
| FatRuns.WriteKeepsPaths | kernel/fs/fat32/fat32.c:433-515 | after a write its path shows the bytes, and every path that showed something still shows it |
| FatRuns.RemoveUndoesWrite | kernel/fs/fat32/fat32.c:433-542 | removing a file just written gives back its clusters and slot; only a cluster its directory grew by stays taken |
| FatRuns.Step | kernel/fs/fat32/fat32.c:433-588 | one operation by path: exactly when it succeeds, and what every name, the free clusters and the room in every directory then are |
| FatRuns.Run | kernel/fs/fat32/fat32.c:433-588 | in any run the log alone decides what succeeds: each operation succeeds exactly when it can in the ledger of names, free clusters and vacant slots that replaying the log so far gives; the volume stays sound and ends as that replay |
| HeapModel.LiveDisjoint | kernel/mm/heap/heap.c:90-131 | live blocks do not overlap |
| HeapModel.LiveAligned | kernel/mm/heap/heap.c:90-131 | payloads are 16-byte aligned |
| HeapModel.PlaceKeeps | kernel/mm/heap/heap.c:101-119 | first-fit with split keeps the tiling and every live block, and adds one large enough |
| HeapModel.PlaceBytes | kernel/mm/heap/heap.c:103-115 | a request takes its size from the free bytes, and 16 more exactly when 32 or more were left over; otherwise it gets at most 16 bytes too many |
| HeapModel.BytesConserved | kernel/mm/heap/heap.c:184-199 | every byte of the heap is free, live or in a header |
| HeapModel.RoomyServes | kernel/mm/heap/heap.c:90-131 | n requests are served without growth if one free block has room for all with their headers |
| HeapModel.SoleServes | kernel/mm/heap/heap.c:90-131 | a heap with one free block serves n equal requests without growth if and only if they fit into it with a header between each two |
| HeapModel.FreedKeeps | kernel/mm/heap/heap.c:133-182 | freeing with both merges keeps the tiling and removes exactly one live block |
| HeapModel.FreedNoFreePair | kernel/mm/heap/heap.c:148-181 | merging leaves no two free neighbours |
| HeapModel.FreeUndoesPlace | kernel/mm/heap/heap.c:90-182 | freeing what was just placed restores the blocks exactly |
| HeapModel.FreedBytes | kernel/mm/heap/heap.c:133-182 | freeing gives back the block's bytes and 16 for each header merged away |
| HeapModel.RoundedPages | kernel/mm/heap/heap.c:47-54 | growth is 64 KB or the next multiple of 4096, unless it wraps to nothing |
| HeapModel.ChunkIs | kernel/mm/heap/heap.c:47-57 | the heap grows by that or up to 16 MB |
| KernelHeaps.KernelHeap.HeapGrow | kernel/mm/heap/heap.c:47-74 | the rounded, capped growth, all or nothing in size, for every 64-bit request |
| KernelHeaps.KernelHeap.HeapInit | kernel/mm/heap/heap.c:78-88 | one free block over the heap |
| KernelHeaps.KernelHeap.Kalloc | kernel/mm/heap/heap.c:90-131 | the exact outcome for every size, on the first call and later: a fresh aligned payload of at least the size, NULL, or no return, and how many pages are left; other live blocks untouched; no free neighbours for ordinary sizes; a block is less than 32 bytes larger than asked, and the free bytes left are given exactly, growth included |
| KernelHeaps.KernelHeap.Kfree | kernel/mm/heap/heap.c:133-182 | removes exactly that block, merges its neighbours, leaves other live blocks untouched |
| KernelHeaps.KernelHeap.HeapFreeBytes | kernel/mm/heap/heap.c:184-199 | the sum of the free blocks, of a heap set up on demand |
| KernelHeaps.PayloadMeans | kernel/mm/heap/heap.c:90-131 | a served request adds one live block that was not there |
| KernelHeaps.KernelHeap.KallocEach | kernel/mm/heap/heap.c:90-131 | as many requests as one free block has room for are all served, at different addresses, without growing the heap |
| KernelHeaps.FirstRequest | kernel/mm/heap/heap.c:78-119 | the first request on a fresh heap is at offset 16 and leaves the rest of the 64 KB free |
| KernelHeaps.OrdinaryKeepsPairs | kernel/mm/heap/heap.c:90-131 | requests far from 2^64 leave no free neighbours, served or refused |
| KernelHeaps.RefusedPairs | kernel/mm/heap/heap.c:121-130 | exactly which refused requests leave free neighbours |
| KernelHeaps.HugeRequestLeavesPair | kernel/mm/heap/heap.c:121-130 | a concrete request that does |
| GaloisField.GfMul | kernel/security/aes/aes.c:51-69 | the shift-and-add loop is the product by bits in GF(2^8) |
| GaloisField.UnmixInvertsMix | kernel/security/aes/aes.c:125-153 | the inverse column matrix times the column matrix is the identity |
| SBox.SubInverse | kernel/security/aes/aes.c:11-47 | the two tables are inverse, all 256 entries |
| SBoxLaw.SubLaw | kernel/security/aes/aes.c:11-28 | the table sends x to the affine image of y (section 5.1.1 of FIPS 197) if and only if x times y is 1 in the field, for all x but 0, and 0 to 0x63 |
| SBoxLaw.InverseExists | kernel/security/aes/aes.c:11-28 | every x but 0 has such a y |
| Aes.ShiftRowsInverse | kernel/security/aes/aes.c:89-123 | the row shifts are inverse |
| Aes.MixColumnsInverse | kernel/security/aes/aes.c:125-153 | the column mixes are inverse |
| Aes.DecryptInvertsEncrypt | kernel/security/aes/aes.c:207-263 | decryption undoes encryption for every 176-byte round-key array and block |
| AesLaws.OuterKeys | kernel/security/aes/aes.c:207-234 | adding to the first sixteen key bytes is adding to the block, and adding to the last sixteen is adding to the ciphertext |
| AesLaws.OwnKey | kernel/security/aes/aes.c:216-223 | adding to the r-th sixteen is adding to the state after round r, column mix included |
| AesLaws.MixRow | kernel/security/aes/aes.c:125-138 | encryption mixes a column by the circulant matrix of 2, 3, 1, 1, as products in the field |
| AesLaws.MatricesAre | kernel/security/aes/aes.c:125-153 | and decryption by that of 14, 11, 13, 9 |
| AesLaws.FetchedByte | kernel/security/aes/aes.c:89-105 | the diagonal's byte in row j is the table's entry for the byte j columns further on |
| AesLaws.RoundByte | kernel/security/aes/aes.c:216-223 | each byte of a round's result comes from the four bytes of one named diagonal and from the key's byte at its own place |
| AesLaws.LastRoundByte | kernel/security/aes/aes.c:225-227 | in the last round from one byte, unmixed |
| AesKeys.KeyExpand | kernel/security/aes/aes.c:163-205 | the word loop computes all eleven round keys, each from the one before |
| AesKeys.WordStep | kernel/security/aes/aes.c:173-197 | the recurrence over words and the step from round key to round key are the same |
| AesKeys.PreviousUndoesNext | kernel/security/aes/aes.c:163-205 | each round key gives back the one before it |
| AesKeys.RconIs | kernel/security/aes/aes.c:49 | the round constants are the powers of x in the field |
| AesBlocks.ShiftRowsInPlace | kernel/security/aes/aes.c:89-105 | the in-place loops compute the row shift |
| AesBlocks.InvShiftRowsInPlace | kernel/security/aes/aes.c:107-123 | the in-place loops compute the inverse row shift |
| AesBlocks.MixColumnsInPlace | kernel/security/aes/aes.c:125-138 | the in-place loop computes the column mix |
| AesBlocks.InvMixColumnsInPlace | kernel/security/aes/aes.c:140-153 | the in-place loop computes the inverse column mix |
| AesBlocks.EncryptBlock | kernel/security/aes/aes.c:207-234 | ten rounds in place are the cipher that `OuterKeys`, `OwnKey`, `RoundByte` and `LastRoundByte` describe |
| AesBlocks.DecryptBlock | kernel/security/aes/aes.c:236-263 | ten inverse rounds in place are its inverse |
| Cbc.CbcInverts | kernel/security/aes/aes.c:265-317 | CBC decryption undoes encryption for every length and every invertible block function |
| Cbc.CbcAt | kernel/security/aes/aes.c:265-290 | block i is the encryption of text block i plus the ciphertext block before it |
| Cbc.CbcEncrypt | kernel/security/aes/aes.c:265-290 | the loop computes CBC encryption |
| Cbc.CbcDecrypt | kernel/security/aes/aes.c:292-317 | the loop computes CBC decryption |
| TlsPadding.UnpadIff | kernel/security/aes/aes.c:341-367 | unpadding yields a text exactly for its padded forms |
| TlsPadding.UnpadInvertsPad | kernel/security/aes/aes.c:319-367 | padding is removed again |
| TlsPadding.PaddedBytes | kernel/security/aes/aes.c:319-339 | 1 to 16 bytes up to a whole block, each the number of those behind the first |
| TlsPadding.CbcEncryptTls | kernel/security/aes/aes.c:319-339 | pads and encrypts, -1 exactly when it does not fit |
| TlsPadding.CbcDecryptTls | kernel/security/aes/aes.c:341-367 | decrypts and unpads, -1 exactly for anything malformed |
| TlsRecords.MacInputInjective | kernel/net/tls/tls.c:227-254 | the MAC input determines sequence number, type and content |
| TlsRecords.MacInputBytes | kernel/net/tls/tls.c:227-254 | byte by byte: eight of sequence number, type, 3, 3, two of length, content |
| TlsRecords.ComputeRecordMac | kernel/net/tls/tls.c:227-254 | the MAC of sequence number, type, version, length and content; stays inside its 1213-byte buffer exactly for contents up to 1200 bytes |
| TlsRecords.Connection.SendEncryptedRecord | kernel/net/tls/tls.c:256-297 | protects the record under the current number and advances it |
| TlsRecords.Connection.ReceiveEncryptedRecord | kernel/net/tls/tls.c:299-339 | for every length the receiver takes: says exactly when the MAC buffer is left; when it is not, accepts exactly authentic records under the current number, and only then advances it |
| TlsRecords.OpenInvertsProtect | kernel/net/tls/tls.c:256-339 | opening a protected record returns its content, up to the longest a received record can hold, and the MAC buffer is kept exactly up to 1200 bytes |
| TlsRecords.ShortFits | kernel/net/tls/tls.c:227-254 | a record shorter than 1264 bytes never leaves the buffer, whatever it decrypts to |
| TlsRecords.LongRecordDoesNotFit | kernel/net/tls/tls.c:227-254 | a genuine record of 1280 bytes, which the receiver takes, does |
| TlsRecords.Exchange | kernel/net/tls/tls.c:256-339 | every sequence of records sent is received unchanged, with both numbers equal throughout |
| KeyWrap.StepInverts | kernel/security/aes/aes_keywrap.c:36-61 | each unwrapping step undoes a wrapping step |
| KeyWrap.UnwrapInvertsWrap | kernel/security/aes/aes_keywrap.c:15-71 | unwrapping undoes the wrap of section 2.2.1 of RFC 3394 for any number of blocks and restores the integrity value |
| KeyWrap.ShiftWraps | kernel/security/aes/aes_keywrap.c:5-71 | the wrap by indices that is undone equals the shift-register description of RFC 3394 from the integrity value of eight bytes 0xA6 |
| KeyWrap.ShiftedIs | kernel/security/aes/aes_keywrap.c:36-61 | after every step the two differ by a rotation of the blocks |
| KeyWrap.AesKeyUnwrap | kernel/security/aes/aes_keywrap.c:15-71 | the nested descending loops compute the unwrap below 2^31 + 8 bytes, and from there on the unwrap of what the buffer held; accepts exactly when the register is the integrity value |
| KeyWrap.FoldStep | kernel/security/aes/aes_keywrap.c:7-13 | adds the big-endian step number |
| Ccm.FormattedIffShort | kernel/security/aes/aes_ccm.c:40-116 | the kernel's blocks are the formatting of section 2.2 of RFC 3610 if and only if there are fewer than 0xFF00 bytes of data and 2^16 of message |
| Ccm.BlockBytes | kernel/security/aes/aes_ccm.c:6-26 | the first block and the counter blocks byte by byte, flags as section 2.2 of RFC 3610 composes them |
| Ccm.TagInStages | kernel/security/aes/aes_ccm.c:40-116 | CBC-MAC over the kernel's blocks equals the staged computation |
| Ccm.ComputeTag | kernel/security/aes/aes_ccm.c:40-116 | the loops compute that tag, with lengths truncated to two bytes, for every data and message length |
| Ccm.CtrTwice | kernel/security/aes/aes_ccm.c:118-139 | counter mode is its own inverse |
| Ccm.CtrByte | kernel/security/aes/aes_ccm.c:118-139 | byte i of the b-th sixteen is under byte i of the encrypted counter block b further on |
| Ccm.CtrCrypt | kernel/security/aes/aes_ccm.c:118-139 | the loop computes counter mode, writing no further |
| Ccm.ComputeMic | kernel/security/aes/aes_ccm.c:141-152 | the truncated tag under the counter-zero key stream |
| Ccm.MicBytes | kernel/security/aes/aes_ccm.c:141-152 | the eight bytes of the tag are those of the CBC-MAC under counter block 0 |
| Ccm.CcmEncrypt | kernel/security/aes/aes_ccm.c:154-169 | ciphertext and tag |
| Ccm.CcmDecrypt | kernel/security/aes/aes_ccm.c:171-190 | accepts exactly the tag of the decrypted text |
| Ccm.SealAndOpen | kernel/security/aes/aes_ccm.c:154-190 | a sealed message is accepted and its text comes back |
| Ccmp.PnIncrement | kernel/net/rtw89/rtw89.c:786-795 | adds one modulo 2^48 |
| Ccmp.PnGreater | kernel/net/rtw89/rtw89.c:799-808 | compares as 48-bit numbers |
| Ccmp.NonceInjective | kernel/net/rtw89/rtw89.c:828-842 | the nonce determines the packet number |
| Ccmp.NonceBytes | kernel/net/rtw89/rtw89.c:828-842 | byte by byte: TID, address, PN5 down to PN0 |
| Ccmp.Key.NextNonce | kernel/net/rtw89/rtw89.c:879-895 | each frame uses the next packet number |
| Ccmp.Key.Receive | kernel/net/rtw89/rtw89.c:956-993 | accepts exactly authentic frames beyond every number accepted on that TID |
| Ccmp.NoncesRepeatIff | kernel/net/rtw89/rtw89.c:770-842 | two nonces of one key are equal exactly when a multiple of 2^48 frames lies between them |
| Ccmp.AcceptedOnce | kernel/net/rtw89/rtw89.c:956-993 | accepted numbers strictly increase per TID |
| Ccmp.SendAll | kernel/net/rtw89/rtw89.c:879-895 | of any number of frames sent, two nonces are equal exactly when a multiple of 2^48 frames lies between them |
| Ccmp.ReceiveAll | kernel/net/rtw89/rtw89.c:956-993 | of any sequence of frames exactly the authentic ones beyond everything accepted before on their TID are accepted, so none twice |
| Scheduling.Scheduler.Yield | kernel/sched/task.c:126-170 | switches to the nearest task in cyclic order that is or becomes runnable, and wakes only that one |
| Scheduling.Scheduler.SleepTicks | kernel/sched/task.c:258-265 | the caller goes on running exactly when no other task can; otherwise it is left asleep exactly when it waited for no flag and its tick lies ahead |
| Scheduling.CloserOrChosen | kernel/sched/task.c:126-170 | a ready task is chosen or its cyclic distance falls |
| Scheduling.BoundedWait | kernel/sched/task.c:126-170 | a task that stays ready runs within task count minus one switches |
| Scheduling.SleeperSleeps | kernel/sched/task.c:126-170 | a yield neither switches to a sleeper before its tick nor wakes it |
| Scheduling.NeverEarly | kernel/sched/task.c:126-170 | over every run of yields, whatever else changes, a task switched away from asleep does not run before its tick |
| Scheduling.DueRuns | kernel/sched/task.c:126-170 | once its tick or its flag has come, a blocked task runs within task count minus one switches |
| Scheduling.Sleep | kernel/sched/task.c:245-265 | so a call of sleep_ticks is followed by no early run of its caller, if another task could run |
| Scheduling.SleepAlone | kernel/sched/task.c:258-265 | a lone task's sleep returns at once, however long it was to be |
| Scheduling.RunnableRuns | kernel/sched/task.c:126-170 | a runnable task runs within task count minus one switches of every run in which nobody else changes its entry |
| Scheduling.Mutex.TryLock | kernel/sched/task.c:212-227 | takes the mutex exactly when nobody holds it |
| Scheduling.Mutex.Unlock | kernel/sched/task.c:229-237 | exclusion survives exactly when nobody but the caller holds it |
| Scheduling.RunMutex | kernel/sched/task.c:212-237 | under every interleaving in which only holders unlock there is at most one holder, and it is the one the sequence of attempts determines |
| Rings.EventRing.TryConsumeEvent | kernel/drivers/usb/xhci.c:219-232 | yields the next posted event exactly when there is one |
| Rings.CommandRing.constructor | kernel/drivers/usb/xhci.c:193-196 | an empty ring with its link |
| Rings.CommandRing.RingEnqueue | kernel/drivers/usb/xhci.c:202-213 | appends one entry and hands over the link at the end of a lap; the ring stays a queue exactly when fewer than 31 entries wait, or 30 while the reader rests on the link, and otherwise its reader sees none of the waiting entries |
| Rings.LapUnderLink | kernel/drivers/usb/xhci.c:202-213 | a run of entries after which the reader never leaves the link |
| Rings.CommandRing.Fetch | kernel/drivers/usb/xhci.c:202-213 | a link-following, cycle-toggling reader gets the next entry exactly when there is one |
| Rings.ReaderSees | kernel/drivers/usb/xhci.c:202-232 | the cycle bit of a slot tells a new entry from one of the lap before |
| Rings.RunEvents | kernel/drivers/usb/xhci.c:219-232 | under every interleaving the event ring is a queue of 32 entries, across any number of wraps |
| Rings.RunCommands | kernel/drivers/usb/xhci.c:193-213 | the same for a command ring: a queue of 31 entries, one fewer while the reader rests on the link |
| Png.PaethIsClosest | kernel/gfx/png/png.c:67-78 | the predictor is a neighbour closest to the linear estimate, ties going to the left, then above |
| Png.RowRoundTrip | kernel/gfx/png/png.c:80-110 | reconstructing a filtered row gives the row |
| Png.SubRows | kernel/gfx/png/png.c:80-110 | type 1 makes each byte the sum of the filtered bytes up to it at pixel steps, whatever is above |
| Png.PlainAndUpRows | kernel/gfx/png/png.c:80-110 | type 0 is the bytes themselves and type 2 adds the byte above |
| Png.AverageRows | kernel/gfx/png/png.c:80-110 | type 3 adds half the sum of left and above |
| Png.PaethRows | kernel/gfx/png/png.c:80-110 | type 4 adds the Paeth neighbour, at the left edge the byte above |
| Png.ImageRoundTrip | kernel/gfx/png/png.c:80-110 | defiltering inverts filtering (section 6 of RFC 2083) for every image and every choice of filter per row |
| Png.DefilterRow | kernel/gfx/png/png.c:80-110 | one row in place, left to right |
| Png.Defilter | kernel/gfx/png/png.c:80-110 | the whole buffer in place; fails exactly for an unknown filter type on a non-empty row |
| Png.RowsInsideIff | kernel/gfx/png/png.c:80-86 | with 32-bit sizes and positions every row stays inside the buffer if and only if height times row length is below 2^32 |
| Png.DefilterAllocated | kernel/gfx/png/png.c:204-231 | for the buffer as allocated: says exactly when a row leaves it, and otherwise defilters it in place |
| Png.KindsOfEncoded | kernel/gfx/png/png.c:80-110 | an encoded image has known filter types exactly when each row was given one |
| Png.DefilterEncoded | kernel/gfx/png/png.c:80-110 | in place, a filtered image turns back into its rows; it is refused exactly for an unknown type on a non-empty row |
| Crc.TableStep | kernel/gfx/png/png.c:26-51 | eight turns of the register are a table entry of the low byte plus a shift |
| Crc.FeedAllIs | kernel/gfx/png/png.c:44-51 | feeding bits one by one is adding them and turning |
| Crc.Crc32Init | kernel/gfx/png/png.c:26-42 | the table of eight turns of every byte |
| Crc.Crc32Of | kernel/gfx/png/png.c:44-51 | the table-driven loop is the bit-serial CRC of every message |
| Crc.PolyTerms | kernel/gfx/png/png.c:34 | the fourteen terms of the generator below x^32 |
| Crc.BurstDetected | kernel/gfx/png/png.c:44-51 | any change within 32 bits changes the register, whatever precedes and follows |
| Crc.FourBytesDetected | kernel/gfx/png/png.c:44-51 | so messages that differ in up to four neighbouring bytes have different CRCs |
| Crc.Residue | kernel/gfx/png/png.c:44-51 | a message followed by its CRC always leaves the same register |

## Left out

- CowRun.Run: stops after the first fork or exit that loses count of a frame or leaves a page that cannot be stored to; the states after it, in which a mapped frame may be handed out again, are not followed. The tests that tell it where to stop (`ForkCall.MissesNothing`, `ForkCall.UndoneInOrder`) are not the kernel's.
- ForkCall.SyscallFork: the limits on processes and tasks are not modelled; a fork given up for want of a task is a fork followed by an exit.
- Fat32.Volume.constructor: stands for an image made by a formatting tool; the boot sector's fields are not read.
- Fat32.Volume.GetFatEntry: the table is an array of 32-bit words and a cluster one byte string; sector reads and writes, which never fail here, and the little-endian bytes of a table word are not modelled.
- Fat32.Volume.DeleteFile: the clusters of what a removed directory held stay allocated, as in the code; no operation reclaims them.
- FatRuns.ResolveDir: paths are lists of 8.3 names; splitting a string, upper-casing and the limits of 8 components and 63 characters are not modelled, nor names starting with byte 0xE5.
- Paging.Kernel.MapPageIn: private addresses only (PML4 slot 0, PDPT slots 2 to 511); TLB invalidation has no effect on memory and is left out.
- WriteFault.CloneAddressSpace: the kernel's own mappings are those of boot; nothing maps pages in the boot-time space afterwards.
- WriteFault.RepairWriteFault: a frame is copied as 512 words; frames owned by shared-memory objects do not occur; reference counts are unbounded.
- Frames.FrameAllocator.MarkRangeFree: a bitmap byte is a row of eight bits; the Multiboot memory map is not parsed.
- Inflate.Inflate: buffers of up to 0xFFFF_0000 bytes; beyond that the code's bounds tests are wrong (`Inflate.TestsDecideIff`) and what it does then is not followed.
- Inflate.InflateBlock: the same bound.
- Inflate.InflateBlockStored: the same bound.
- Inflate.InflateBlockHuffman: the same bound on its output.
- KernelHeaps.KernelHeap.Kalloc: pages come from a counter; a first call with fewer than 16 pages, which faults in the kernel, counts as one that does not return; payload bytes are not modelled, only that no header of a live block is written.
- KernelHeaps.KernelHeap.Kfree: takes a pointer kalloc returned, NULL, or one outside the heap; any other pointer inside the heap is the caller's error.
- Cbc.CbcEncrypt: the modes take the keyed block function as a parameter; the proof that AES is one is `Aes.AesInverse`.
- TlsRecords.Connection.ReceiveEncryptedRecord: HMAC is any function with 32-byte results and the initialisation vector is a parameter; record framing over TCP is not modelled.
- Crc.Crc32Of: 32-bit words are sequences of 32 bits.
- Rings.RunCommands: the code has no overrun test; the writer of the run holds back where `RingEnqueue` would stall the ring.
- Png.DefilterAllocated: what defiltering does once a row leaves the buffer is not followed.
- Png.Defilter: takes the buffers below 2^32 bytes, which are those no row leaves (`Png.RowsInsideIff`).
- Png.DefilterEncoded: the same.
- Ccmp.Key.Receive: whether the frame authenticates and fits is a parameter; frame headers and additional data are not built.
- Scheduling.BoundedWait: the number of tasks is fixed, and events, mutexes and timers a task waits on are flags.
- PNG chunk parsing, Adler-32 and colour conversion.
- SHA-1, SHA-256, HMAC, PBKDF2 and the random number generator.
- TLS, X.509 and WPA2 handshakes; TCP, UDP, DHCP, DNS, ARP, ICMP, HTTP.
- MiniFS, tmpfs, devfs, procfs and the VFS layer, whose properties are easier forms of the FAT32 ones; FAT32 listing and stat.
- Device drivers apart from the xHCI rings, interrupt entry, assembly and CPU registers.
- Channels, I/O requests and thread joining, window server, fonts, shell, editor and user programs.
