# smol-db storage layer, verified

A Dafny model of the storage layer of smol-db, bottom up:

- slotted leaf pages, their byte codec, and internal routing pages (`Leaf`, `LeafLaws`, `LeafPage`,
  `LeafRuns`, `Node`, `Codec`, `PageIO`);
- the arena LRU replacer (`Lru`) and the buffer pool over a disk of page images (`Pool`, `PoolLaws`,
  `PoolAgreement`, `PoolRuns`, `PoolOutcomes`, `PoolProgress`, `BufferPool`);
- the write-ahead log (`Wal`);
- inserting into the chain of leaves and finding a record by descent (`Tree`, `TreeLaws`, `Chain`,
  `LeafInserts`, `InsertErrors`, `InsertAgreement`, `ChainRuns`, `TreeProgress`, `Search`, `TreeInserts`,
  `BpTree`);
- redo, crashes and startup (`Redo`, `Recovery`, `Histories`, `Replays`, `Startup`, `SystemRuns`,
  `SystemStory`, `RecoveryEngine`).

Every component that the program mutates is a class whose methods carry the program's loops and
assignments (`LeafPage`, `InnerPage`, `ByteCursor`, `LruReplacer`, `WalManager`, `DiskManager`,
`BufferPool`, `BpTree`, and the methods of `RecoveryEngines`). Each method is proved equal to a
function on values, failures included; the laws are then proved about those functions.

The two ends of the development are:

- **Crash recovery.** `SystemRuns.EveryRunRecovers` and `SystemRuns.WriteAhead`: over every run of log
  appends, applied entries, fetches, evictions, flushes, I/O failures, crashes and recoveries, the log
  is ahead of the disk, and replaying what a crash leaves of it over the pages on disk gives every page
  its base image with its logged entries applied in order, which for the rows of a leaf means every
  logged insert, update and delete carried out (`Redo.AppliedRefinesMap`).
  `SystemStory.NothingAckedIsLost` carries that through any number of recoveries, from the very first
  images on. `Startup.CutOnlyWhenSynced` says that
  the log is given up only for pages that are on disk, and `Replays.RecoveryRestarts` that a replay may
  crash in turn, with any of its pages written back in any of their states.
- **The leaf level.** `ChainRuns.LevelLife` and `BpTrees.BpTree.FindRecord`: through every run of
  inserts that succeed or are turned down, with whatever else the pool does in between, the leaves stay
  one doubly linked chain with ascending keys holding exactly what was inserted, and a descent through a
  well-formed tree finds exactly what its leaves hold. `TreeInserts.InsertThenFind` puts the two
  together. `TreeProgress.InsertReports` says which result an insert has, by the leaf alone, and that
  the pool is ready for the next one; `TreeProgress.InsertGivesBack` that no failure keeps a page held.

A page's *content* is its node without the free-byte counter and the dirty flag (`Nodes.Norm`); a
panic and a thread waiting for its own lock are modelled as the errors `Panic` and `Deadlock`. The
environment can make reads and writes of chosen pages, header writes, log writes and log syncs fail at
any time, make a log write stop after any of its bytes, and write cached file data back at any time. Of
a crash survive the pages last synced or written back, and the log up to any byte behind its durable
part.

## What turned out not to hold

Each of these has a lemma with the exact condition, or with a concrete input.

- Updating a record, and reviving a tombstone, do no byte check: `LeafLaws.UpdateRefinesMap` and
  `LeafLaws.InsertReuse` give the exact condition, `LeafRuns.UpdateCanOverflow` and
  `LeafRuns.ReviveCanPanic` inputs that break a page.
- Splitting by count need not make room: `LeafInserts.RetryOutcome` gives the exact condition on the live
  records of the halves, `LeafRuns.SkewedSplit` an input. The upper half of the page is then lost from
  the chain (`LeafInserts.FailedRetryLosesUpperHalf`, `LeafInserts.FailedRetryOnChain`). Splitting does
  make room while footprints differ by at most 5/3 (`LeafLaws.SplitSuffices`).
- An insert that returns an error may have changed pages: it has iff a split had begun
  (`InsertErrors.FailedInsert`, `InsertErrors.HalfDone`).
- A leaf whose next link leads back to it makes a splitting insert wait for its own lock, and nothing
  else does (`TreeProgress.FinishFailures`).
- A split whose upper half is all tombstones reports an error after both pages changed
  (`LeafLaws.SplitLaw`).
- Without syncing writes the log is not ahead of the disk (`Wal.WriteAheadIffSync`); the doc comment on
  the flushed LSN (src/storage/wal.rs:146-147 and 181) says otherwise.
- A new page that is neither marked dirty nor written before its last holder lets go of it is lost on
  eviction, and nothing else is (`PoolAgreement.LostIffNeverWritten`, `PoolRuns.UntouchedNewPageIsLost`).
- A batch is not atomic across a crash unless it is a single entry (`Wal.AtomicIffSingle`), against
  NOTES.md:27-29.
- A crash that leaves four bytes or more of a frame ends startup for good, with the durable entries
  before it unread (`Startup.StartupTornIff`).
- An empty log makes startup report LSN 0, and entries numbered from there are skipped by redo on pages
  that carry an LSN (`Startup.CounterFallsBack`, `Redo.SkippedIffSeen`).
- One to three bytes of a torn length prefix survive startup when no entry was read, and what is then
  logged behind them does not read back, exactly when there are any (`Wal.AppendReadableIffNoTail`,
  `SystemRuns.BehindATail`). It can even read as an entry nobody wrote (`Wal.TailAltersEntry`).
- A log write that fails may stop inside a frame, and the next write goes behind it: entries acknowledged
  and durable then do not read back (`Wal.AppendBehindTornEntry`), and startup may fail with another error
  than a torn write (`Wal.StoppedWriteSpoilsLog`).
- A page whose flush failed on eviction stays cached but untracked; once no tracked page is free the
  cache refuses every other page, repaired disk or not (`PoolProgress.StuckIffNoneTracked`).
- `peek_rev` returns up to one page more than its limit, against its doc comment
  (`Lru.LruReplacer.PeekRev`).
- Insert accepts payloads of 400 bytes, update only shorter ones (src/storage/page.rs:225 and 283);
  both follow the code here.

## Model

| member | source | states |
|---|---|---|
| LeafPages.LeafPage.Compact | src/storage/page.rs:164-192 | the in-place loop leaves exactly the live records in key order, renumbered, with the free-byte counter exact; over 4096 bytes it panics |
| LeafPages.LeafPage.MoveUpper | src/storage/page.rs:196-207 | the first loop of a split copies the upper half of the slots behind the sibling's records and truncates the slots |
| LeafPages.LeafPage.Split | src/storage/page.rs:196-219 | a split is: move the upper half, compact both, promote the first key on the right, or report an empty right sibling with both pages already changed |
| LeafPages.LeafPage.BinarySearch | src/storage/page.rs:229-231 | the search finds the first slot whose key is not below the wanted one, and whether it holds it |
| LeafPages.LeafPage.FooterLen | src/storage/page.rs:251-255 | the loop adds up the record bytes of all slots, tombstones included |
| LeafPages.LeafPage.InsertRecord | src/storage/page.rs:224-279 | the in-place insert equals the specified one in result and page, every rejection, tombstone reuse and slot insertion included |
| LeafPages.LeafPage.UpdateRecord | src/storage/page.rs:282-294 | the in-place update equals the specified one; there is no byte check |
| LeafPages.LeafPage.DeleteRecord | src/storage/page.rs:298-307 | the in-place delete equals the specified one: it sets the tombstone and moves nothing |
| LeafPages.LeafPage.GetRecord | src/storage/page.rs:314-328 | returns exactly what the live map of the page holds for the key |
| LeafLaws.CompactLaw | src/storage/page.rs:164-192 | compaction keeps the live map and key order, frees the tombstones' bytes, and fails exactly when the live bytes exceed a page |
| LeafLaws.RejectsExactly | src/storage/page.rs:248-262 | the page is full exactly when 17 bytes and the payload do not fit: the slot-count check never decides |
| LeafLaws.InsertFresh | src/storage/page.rs:247-276 | a key that is not held goes to its place in key order, taking 15 bytes and its payload |
| LeafLaws.InsertReuse | src/storage/page.rs:233-244 | a tombstone is revived and the page compacted; it panics exactly when the live bytes with the new payload exceed a page |
| LeafLaws.InsertRefinesMap | src/storage/page.rs:224-279 | insert on a map of live keys: succeeds iff the key is not live, the payload is allowed and there is room, and then adds the pair; each error iff its own cause, and all but the panic change nothing |
| LeafLaws.UpdateRefinesMap | src/storage/page.rs:282-294 | update overwrites a live key, says nothing about a tombstoned one although it succeeds, and keeps the page within 4096 bytes iff the growth fits; it reports a too large tuple iff the payload has 400 bytes or more, and a missing key iff no record has it |
| LeafLaws.DeleteRefinesMap | src/storage/page.rs:298-307 | delete removes the key from the live map and keeps the bytes; it fails iff no record has the key |
| LeafLaws.GetRefinesMap | src/storage/page.rs:314-328 | get is lookup in the live map |
| LeafLaws.SplitLaw | src/storage/page.rs:196-219 | both halves of a split are well-formed, fit, have exact counters and hold the live records of their half; the promoted key is the first live one of the upper half, or an error iff there is none |
| LeafLaws.SplitOutcome | src/storage/page.rs:196-219 | what a split reports of any leaf, an overflowing one too: it panics iff the live records of one half do not fit on a page |
| LeafLaws.SplitMeaning | src/storage/page.rs:196-219 | the live maps of the halves add up to the old one, and the promoted key separates them |
| LeafLaws.PageFullMeansNine | src/storage/page.rs:247-262 | an insert rejected as full means at least nine slots |
| LeafLaws.RetryFits | src/storage/bptree.rs:83-91 | after the split of a full page the second insert succeeds iff its half has the bytes, and otherwise is rejected as full, never otherwise |
| LeafLaws.SplitSuffices | src/storage/bptree.rs:83-91 | without tombstones, and with the largest footprint at most 5/3 of the smallest, the second insert always succeeds |
| LeafRuns.StepKeepsPage | src/storage/page.rs:164-328 | an operation keeps the page invariant (permutation, key order, byte budget, counter) without a panic iff its unchecked write is in bounds; operations without such a write always do |
| LeafRuns.InsertKeepsFree | src/storage/page.rs:264-275 | the free-byte counter stays a lower bound under inserts, and stays exact once exact: the byte check counts one slot twice |
| LeafRuns.DeleteStep | src/storage/page.rs:298-307 | delete keeps the page invariant and the exactness of the counter |
| LeafRuns.SplitStep | src/storage/page.rs:196-219 | a split keeps the page invariant in both halves and makes both counters exact |
| LeafRuns.ReloadStep | src/storage/page.rs:579-613 | writing and reading a page back keeps the invariant and the live map and makes the counter exact |
| LeafRuns.EmptyLeafIsAPage | src/storage/page.rs:343-356 | a new leaf is such a page, with nothing in it: where LeafLife starts |
| LeafRuns.LeafLife | src/storage/page.rs:164-328 | over every life of a page with its unchecked writes in bounds: slots a permutation in key order, 4096 bytes never exceeded, at most 270 slots |
| LeafRuns.UpdateCanOverflow | src/storage/page.rs:282-294 | counterexample: an update that succeeds and leaves a page of more than 4096 bytes |
| LeafRuns.ReviveCanPanic | src/storage/page.rs:233-244 | counterexample: reviving a tombstone with a larger payload reaches the unreachable arm of compaction |
| LeafRuns.SplitStaysFull | src/storage/bptree.rs:85-91 | if the half of the key has no room for it, splitting does not help |
| LeafRuns.SkewedSplit | src/storage/bptree.rs:85-91 | counterexample family: nine empty payloads below nine of 400 bytes; the page is full and so is the half after the split |
| Nodes.PartitionPoint | src/storage/page.rs:124-140 | the number of keys at most the wanted one |
| Nodes.InnerPage.RouteTo | src/storage/page.rs:124-140 | binary search over a sorted internal page finds the child for the key, the rightmost one past the last entry |
| Codec.RoundTrip | src/storage/page.rs:493-651 | a page of either kind whose slots are a permutation and whose bytes fit decodes from its image to the same node, record positions and tombstones included, with the counter exact and the dirty flag cleared, whatever was in the buffer |
| Codec.DecodeErrors | src/storage/page.rs:493-577 | a page is refused as corrupt iff its first byte is neither 0 nor 1; any other that is not as its header says panics |
| Codec.LeafLayout | src/storage/page.rs:582-619 | where the kind, page, LSN, links, slot count, slots and records of a leaf are in its image |
| Codec.InnerLayout | src/storage/page.rs:620-648 | where those of an internal page are |
| Codec.LeafAccepted | src/storage/page.rs:493-540 | any 4096 bytes accepted as a leaf spell out what the leaf has: header, slots, gap, and the records in slot order, any flag byte but zero being a tombstone |
| Codec.InnerAccepted | src/storage/page.rs:541-575 | the same for an internal page, to the last byte of its routing entries |
| Codec.PermutationCovers | src/storage/page.rs:498-540 | a permutation names every record position, so decoding restores each of them |
| PageIO.ByteCursor.WriteU64 | src/storage/page.rs:439-442 | writes eight bytes at the position, nothing else, and moves past them |
| PageIO.ByteCursor.ReadU64 | src/storage/page.rs:475-483 | reads the number eight bytes encode and moves past them |
| PageIO.ByteCursor.WriteBytes | src/storage/page.rs:444-447 | writes the bytes at the position, nothing else, and moves past them |
| PageIO.EncodeLeaf | src/storage/page.rs:582-619 | the cursor loops write the specified image and end at byte 4096; a page that does not fit is rejected with the buffer unchanged |
| PageIO.EncodeInner | src/storage/page.rs:620-648 | the same for internal pages |
| PageIO.EncodeNode | src/storage/page.rs:579-651 | encoding in place equals the specified encoding, errors included |
| PageIO.DecodeLeafPage | src/storage/page.rs:498-540 | the decoding loops return what the specified decoding does, out-of-range reads as a panic included |
| PageIO.DecodeInnerPage | src/storage/page.rs:541-574 | the same for internal pages |
| PageIO.DecodeNode | src/storage/page.rs:493-577 | decoding any 4096 bytes equals the specified decoding, an unknown node type included |
| Lru.LruReplacer.Unlink | src/storage/lru.rs:118-134 | unlinking joins the neighbours and keeps the list linked both ways from head to tail |
| Lru.LruReplacer.InsertHead | src/storage/lru.rs:104-115 | a free slot becomes the head of the list |
| Lru.LruReplacer.RecordAccess | src/storage/lru.rs:64-93 | the page moves to, or enters at, the front of the recency sequence; the structure stays valid: links mutual, the map a bijection onto linked slots, linked and free slots partitioning an arena within capacity |
| Lru.LruReplacer.Remove | src/storage/lru.rs:96-101 | exactly the page leaves the sequence |
| Lru.LruReplacer.Evict | src/storage/lru.rs:141-150 | the last page of the sequence is dropped and returned |
| Lru.LruReplacer.EvictIf | src/storage/lru.rs:175-193 | the backward walk ends, and drops exactly the last page that satisfies the predicate, leaving all others in order; none if there is none |
| Lru.LruReplacer.PeekRev | src/storage/lru.rs:154-166 | the pages from the tail on, up to one more than the limit |
| Lru.LruReplacer.Size | src/storage/lru.rs:54-56 | the number of tracked pages |
| Lru.TouchLaw | src/storage/lru.rs:64-93 | using a page keeps the sequence free of duplicates, puts it first and leaves all others in their order |
| Lru.UnlinkLinks | src/storage/lru.rs:118-134 | joining the neighbours of a position links the sequence without it |
| Lru.InsertLinks | src/storage/lru.rs:104-115 | putting a free slot before the head links the sequence with it in front |
| Wal.EntryBack | src/storage/wal.rs:71-127 | an entry decodes from its bytes |
| Wal.EntryLayout | src/storage/wal.rs:71-88 | where each field of an entry is in its bytes, and which byte stands for which operation |
| Wal.RejectedEntry | src/storage/wal.rs:96-127 | a buffer is refused as too short, for its operation byte, or for its payload iff it ends in the header, names no operation, or ends in the payload |
| Wal.AcceptedStartsWithEntry | src/storage/wal.rs:96-127 | whatever buffer an entry is accepted from starts with the bytes of that entry |
| Wal.ReadPrefix | src/storage/wal.rs:263-311 | for any byte prefix of a log the reader returns exactly the complete entries when at most three bytes follow them, and a torn-write error otherwise, never an altered entry |
| Wal.ReadAll | src/storage/wal.rs:202-311 | a log reads back as the entries written |
| Wal.BatchesReadBack | src/storage/wal.rs:202-311 | any list of batches reads back as their concatenation |
| Wal.BatchIsNotAtomic | src/storage/wal.rs:202-240 | a crash can leave any number of the first entries of a log to be read |
| Wal.AtomicIffSingle | src/storage/wal.rs:202-240 | false promise (NOTES.md:27-29): behind any log a batch is read whole or not at all, wherever the file is cut, iff it has at most one entry |
| Wal.ReadTorn | src/storage/wal.rs:263-311 | a log with the beginning of a frame behind it reads as its entries while that is at most three bytes, and as a torn write otherwise |
| Wal.ZeroEndsLog | src/storage/wal.rs:282-290 | a zero length ends the log, whatever follows |
| Wal.BadFrameSpoilsLog | src/storage/wal.rs:263-311 | one frame that does not decode makes the whole log unreadable, with the reason reported |
| Wal.CutTorn | src/storage/wal.rs:263-311 | such a log cut anywhere is its first entries with the beginning of a frame behind them, and reads so |
| Wal.AppendReadableIffNoTail | src/storage/wal.rs:263-311 | behind any log with at most three leftover bytes, what is appended (its first entry below 2^16 bytes) reads back iff there were none |
| Wal.TailAltersEntry | src/storage/wal.rs:263-311 | counterexample family: behind one leftover byte, entries of at most 400 bytes of payload read as a single insert of at least 58112, none of those written |
| Wal.AppendBehindTornEntry | src/storage/wal.rs:202-240 | what is appended behind a torn entry that goes past its LSN never reads back as written, unless it starts with the same LSN |
| Wal.StoppedWriteSpoilsLog | src/storage/wal.rs:202-240 | counterexample: a write stops after ten bytes and the next succeeds, durable, but the file reads as an entry cut short, not even as a torn write |
| Wal.LeftoverByteSpoilsLog | src/storage/wal.rs:263-292 | counterexample: one leftover byte reads as an empty log, and before an entry without payload as a torn write |
| Wal.WriteAheadIffSync | src/storage/wal.rs:233-237 | forcing the log for a batch just written makes it durable iff the manager syncs its writes |
| Wal.BatchWritten | src/storage/wal.rs:202-245 | a batch that is written is in the file as a whole, durable if the manager syncs, counted entry by entry, and its highest LSN is the flushed one; a write that fails changes nothing but the end of the file; iff conditions for both |
| Wal.ForcedUpto | src/storage/wal.rs:152-162 | forcing up to an LSN does nothing if that is flushed, and otherwise makes everything written durable or fails and changes nothing |
| Wal.Synced | src/storage/wal.rs:193-197 | a sync makes everything written durable and changes nothing else |
| Wal.CutIsFresh | src/storage/wal.rs:248-257 | cutting the log leaves the manager like one that just opened an empty file, flushed LSN and entry count 0; a cut that fails keeps the counters |
| Wal.ReadCounts | src/storage/wal.rs:263-311 | reading the log makes what it read the entry count and its highest LSN the flushed one, 0 for none; a log that cannot be read changes nothing |
| Wal.WalManager.Append | src/storage/wal.rs:202-240 | the loop frames the batch and writes it, all or, failing, any first part of it; then it syncs if asked to, and counts; a failed write or sync leaves the flushed LSN |
| Wal.WalManager.ForceUpto | src/storage/wal.rs:152-162 | syncs the file and raises the flushed LSN iff the requested one is above it |
| Wal.WalManager.Clear | src/storage/wal.rs:248-257 | empties the file and resets the counters; failing to resize, rewind or sync it stops there |
| Wal.WalManager.Read | src/storage/wal.rs:263-311 | the reading loop over the file equals the specified reader, and sets the flushed LSN to the highest read; a file that cannot be rewound is an error |
| Pools.FlushCases | src/storage/buffer_pool.rs:92-107 | a flush changes only the log, or writes the page image and cleans the page; a clean or uncached page is not touched |
| Pools.EvictCases | src/storage/buffer_pool.rs:121-138 | eviction takes the least recently used page nobody holds out of the replacer and then flushes it; if that fails it stays cached but untracked |
| Pools.EvictKeepsWF | src/storage/buffer_pool.rs:121-138 | eviction keeps the pool well-formed even when its flush fails, and never removes a held page |
| PoolLaws.ReplacerHasRoom | src/storage/lru.rs:69-72 | the capacity assertion of the replacer cannot fail |
| PoolLaws.FetchKeepsWF | src/storage/buffer_pool.rs:52-73 | fetching keeps tracked and held pages cached and the cache within capacity; on success the page is cached, held once more and most recently used |
| PoolLaws.NewKeepsWF | src/storage/buffer_pool.rs:76-89 | allocating does the same, with a page number not in use before and an empty node |
| PoolLaws.EmptyIsBlank | src/storage/page.rs:343-356 | a new node knows its page, has LSN 0, links nowhere and holds nothing |
| Nodes.MarksOnly | src/storage/page.rs:371-401 | marking sets the LSN and the flag, clearing takes the flag back, and neither touches anything else |
| PoolOutcomes.FlushOutcome | src/storage/buffer_pool.rs:92-107 | each result of a flush iff its cause: the log cannot be synced up to the page, the page does not fit, the disk fails; a flush that fails leaves cache and disk alone, one that writes has the log flushed up to the page before |
| PoolOutcomes.FetchOutcome | src/storage/buffer_pool.rs:52-73 | a cached page is always found; any other is fetched iff there is room and its image can be read and decoded, with the error saying which failed, and nothing added to the cache then |
| PoolOutcomes.NewOutcome | src/storage/buffer_pool.rs:76-89 | a page is allocated iff there is room and a page number left; it takes exactly the next one, and the replacer tracks it, most recent first, besides what it tracked |
| PoolOutcomes.StopsAtFirst | src/storage/buffer_pool.rs:110-115 | flushing many pages stops at the first that fails, with those before it flushed and that page's error reported |
| PoolOutcomes.FlushAllOutcome | src/storage/buffer_pool.rs:110-117 | flushing everything succeeds iff every page is flushed and the header can be written, and only then are the images synced |
| PoolLaws.FlushContent | src/storage/buffer_pool.rs:92-107 | flushing changes the content of no page, and what it wrote is what the page shows |
| PoolAgreement.LostIffNeverWritten | src/storage/buffer_pool.rs:121-138 | while clean pages that have an image equal it, eviction keeps the content of its victim iff that is dirty or was ever written to disk, and all other content |
| PoolLaws.FetchContent | src/storage/buffer_pool.rs:52-73 | fetching shows the content of the page and changes none |
| PoolLaws.NewContent | src/storage/buffer_pool.rs:76-89 | allocating shows one new empty page and changes no other |
| PoolAgreement.FlushAgrees | src/storage/buffer_pool.rs:92-107 | a flush, failed or not, leaves every clean cached page equal to its image, held or not |
| PoolAgreement.FetchAgrees | src/storage/buffer_pool.rs:52-73 | so does a fetch with the eviction before it |
| PoolAgreement.NewAgrees | src/storage/buffer_pool.rs:76-89 | so does an allocation; the new page, clean and without an image, is held |
| PoolAgreement.ReleaseAgrees | src/storage/buffer_pool.rs:21-23 | letting go of any page keeps clean pages equal to their images, and every clean page with an image or held, unless it is a new page never marked or written, let go of by its last holder |
| PoolRuns.StepShows | src/storage/buffer_pool.rs:52-138 | one action: the pool keeps showing the plain page map, and every clean page, held or not, stays as on disk unless it is new and held |
| PoolRuns.PoolIsTransparent | src/storage/buffer_pool.rs:52-138 | over every run of fetches, marked writes, allocations, releases, flushes, evictions and failures, in which only new pages must be dirtied before their last release, the pool shows the plain map of what was written, every clean page equals its image, held or not, unless it is new and held, and the pool stays well-formed |
| PoolRuns.FetchShowsMap | src/storage/buffer_pool.rs:52-73 | a fetch after any run hands out what the map says |
| PoolRuns.UntouchedNewPageIsLost | src/storage/buffer_pool.rs:76-89 | counterexample: a new page nobody marked dirty is gone after its eviction |
| BufferPools.DiskManager.AllocatePage | src/storage/page.rs:715-719 | hands out the next free offset, unless adding a page to it overflows |
| BufferPools.BufferPool.FlushPage | src/storage/buffer_pool.rs:92-107 | equals the specified flush: log first, then encode, write, and only then clean |
| BufferPools.BufferPool.EvictPage | src/storage/buffer_pool.rs:121-138 | equals the specified eviction, failed flushes included |
| BufferPools.BufferPool.FetchPage | src/storage/buffer_pool.rs:52-73 | equals the specified fetch; the frame handed out is the one in the page table |
| BufferPools.BufferPool.NewPage | src/storage/buffer_pool.rs:76-89 | equals the specified allocation, with a fresh frame |
| BufferPools.BufferPool.FlushAllPages | src/storage/buffer_pool.rs:110-117 | flushes every cached page once, in the order the page table lists them, until one fails, then writes the header |
| BufferPools.BufferPool.GiveBack | src/storage/buffer_pool.rs:21-23 | dropping a frame takes one reference away |
| PoolProgress.FetchReady | src/storage/buffer_pool.rs:52-73 | with a working disk, all pages fitting and one page of the cache not held, every page that is cached or on disk can be fetched |
| PoolProgress.NewReady | src/storage/buffer_pool.rs:76-89 | under the same conditions and with a page number left a page can be allocated, and is as ready to be evicted as any other once let go of |
| PoolProgress.FlushEachReady | src/storage/buffer_pool.rs:110-117 | with a working disk and all pages fitting flushing everything succeeds |
| PoolProgress.StuckIffNoneTracked | src/storage/buffer_pool.rs:121-138 | a page is refused for want of a victim iff it is not cached, the cache is full and every tracked page is held; nothing changes then, and fetching a cached page tracks it again |
| BpTrees.SplitAndRetryInPlace | src/storage/bptree.rs:83-91 | splitting a leaf in place and inserting into the half of the key equals the specified split and second insert |
| BpTrees.BpTree.InsertLeaf | src/storage/bptree.rs:49-126 | equals the specified insert over the pool in page contents, cache, pins and result, every error path included |
| BpTrees.BpTree.SplitAndInsert | src/storage/bptree.rs:77-125 | the splitting part: allocation, split, second insert, links, dirty marks and releases |
| BpTrees.BpTree.LinkOldRight | src/storage/bptree.rs:106-117 | the old right sibling is fetched and pointed back at the new page; a chain that leads back to a page whose guard is held is a self-deadlock |
| TreeLaws.InsertInPlace | src/storage/bptree.rs:56-70 | an insert that fits changes the content of the one page only, to the leaf insert with the LSN stamped |
| TreeLaws.RejectedInsert | src/storage/bptree.rs:72-76 | a live key or an oversized payload is rejected with that error and no content changes |
| TreeLaws.LinkMoves | src/storage/bptree.rs:106-117 | rewiring changes the back link of the old right sibling only, and the pages held stay cached and unchanged |
| TreeLaws.HeldStays | src/storage/bptree.rs:56-111 | a page whose guard is held stays cached unchanged through every eviction, fetch and allocation |
| TreeLaws.SplitMoves | src/storage/bptree.rs:77-125 | a splitting insert that succeeds changes the content of exactly the leaf, the new page and the old right sibling |
| Chains.RetryLists | src/storage/bptree.rs:83-91 | the two halves after the second insert hold the old live records with the new one in its place |
| Chains.SplicedLinks | src/storage/bptree.rs:92-117 | the chain with the new page behind the old one is linked both ways |
| Chains.SplicedChain | src/storage/bptree.rs:92-117 | the spliced chain is a sorted doubly linked list, and exactly the new key is added to what is live along it |
| LeafInserts.InPlaceKeepsChain | src/storage/bptree.rs:56-70 | an insert that fits, of a key in the leaf's range, keeps the chain and adds exactly its key |
| LeafInserts.SplitKeepsChain | src/storage/bptree.rs:77-125 | a splitting insert of a key in the leaf's range splices the new page directly behind the old one, keeps the chain sorted and linked, adds exactly the key, and the promoted key divides the two leaves |
| LeafInserts.RetryOutcome | src/storage/bptree.rs:83-91 | splitting a full page and inserting again succeeds iff the upper half has a live record and the payload fits beside the live records of its half; otherwise the error is the empty sibling or a full page |
| LeafInserts.FailedRetryLosesUpperHalf | src/storage/bptree.rs:83-91 | when the payload does not fit, the leaf keeps only the live records of its lower half, the new page holds those of the upper one and links to nothing, and no other page changes, so none links to it |
| LeafInserts.FailedRetryOnChain | src/storage/bptree.rs:83-91 | on the chain that means: it stays a chain, without the keys live in the upper half |
| InsertErrors.RejectedChangesNothing | src/storage/bptree.rs:56-80 | an insert that fails before the split, short of a panic, changes no content |
| InsertErrors.FailedInsert | src/storage/bptree.rs:49-126 | short of a panic, an insert that returns an error changes no content iff no split had begun: the leaf was not full, or no new page could be had |
| InsertErrors.HalfDone | src/storage/bptree.rs:77-117 | from then on it leaves the leaf halved, and relinked if only the old right sibling could not be fetched, the rest on the new page, neither marked dirty, and no other page changed |
| TreeProgress.InsertGivesBack | src/storage/bptree.rs:49-126 | however an insert ends, in place, by a split, turned down, or failing at the fetch, the allocation, the second insert or the link, it holds no page it did not hold before; only a deadlock keeps three |
| TreeProgress.InsertFailures | src/storage/bptree.rs:49-80 | a page that cannot be fetched is reported with the error of the pool, and an insert reports an internal page iff it was given one |
| TreeProgress.SplitFailures | src/storage/bptree.rs:77-95 | a new page that cannot be had, and a second insert that fails, are reported with their own error |
| TreeProgress.FinishFailures | src/storage/bptree.rs:100-125 | linking succeeds iff there is no old right sibling or it can be fetched and is not held by the insert itself; it waits for itself iff it is |
| TreeProgress.PanicKeepsRecord | src/storage/bptree.rs:56-80 | an insert that panics on reviving a tombstone leaves the record in the page |
| TreeProgress.InsertReports | src/storage/bptree.rs:49-126 | on a working pool with room for three pages the result is a function of the leaf: each error and each success iff its own cause, and short of a panic the pool is ready for the next insert |
| InsertAgreement.InsertKept | src/storage/bptree.rs:49-126 | an insert that succeeds, or is turned down before a split, leaves every clean page as on disk |
| ChainRuns.SuccessKeepsLevel | src/storage/bptree.rs:49-126 | a successful insert, in place or splitting, keeps the leaf level and adds exactly its key |
| ChainRuns.RejectionKeepsLevel | src/storage/bptree.rs:49-80 | an insert turned down before the split keeps the leaf level and what is live along it |
| ChainRuns.PoolStepKeepsLevel | src/storage/buffer_pool.rs:52-138 | whatever else the pool is asked for or suffers, short of writes to the chain, keeps the leaf level and what is live along it |
| ChainRuns.LevelLife | src/storage/bptree.rs:49-126 | over every run of inserts that succeed or are turned down before a split, with fetches, flushes, allocations, writes to other pages and failures in between, the leaves stay one sorted doubly linked chain and hold the old records plus exactly those whose insert succeeded |
| ChainRuns.FirstLeaf | src/storage/buffer_pool.rs:76-89 | a first leaf page is an empty leaf level |
| Search.RouteStep | src/storage/bptree.rs:132-145 | one step down a well-formed tree: the child a key is routed to is a smaller tree that answers for the whole one |
| Search.TreeKeys | src/storage/page.rs:108-119 | a tree holds keys of its interval only |
| Search.DescentIsLookup | src/storage/bptree.rs:132-145 | the leaf a descent ends at holds for the key what the union of all leaf maps does |
| Search.SplitRoutes | src/storage/page.rs:124-140 | an internal page with the promoted key and old page as its only entry and the new page rightmost routes every key, the promoted one and gaps included, to the leaf that can hold it, and finds what the two hold |
| Search.TreeGains | src/storage/bptree.rs:132-145 | a leaf that got the key routed to it leaves the tree well-formed, its leaves in order, and the tree holding one key more |
| Search.RoutedInRange | src/storage/bptree.rs:132-145 | when the chain is the leaves of a tree from left to right, a key is routed to the leaf of the chain in whose range it lies |
| TreeInserts.InsertThenFind | src/storage/bptree.rs:49-145 | inserting a key that fits into the leaf it is routed to keeps the tree and its chain and adds exactly the key to what finding looks up |
| TreeInserts.RoutedSplitKeepsChain | src/storage/bptree.rs:49-145 | a routed insert that splits keeps the chain and adds exactly the key to it |
| BpTrees.BpTree.Visit | src/storage/bptree.rs:134-143 | fetching a page and reading it for a key gives the routed child or the leaf's value, and changes no content |
| BpTrees.BpTree.FindRecord | src/storage/bptree.rs:132-145 | on a well-formed tree the loop ends with the height as measure and returns the lookup in the union of all leaf maps, across evictions; it fails only when the pool does |
| Redo.RedoNorm | src/storage/recovery.rs:56-63 | whether and how an entry is redone does not depend on the free-byte counter or the dirty flag |
| Redo.ApplyRefinesMap | src/storage/recovery.rs:71-96 | an entry does to the rows of a leaf what its operation says: an insert adds a row that is not there, an update overwrites one that is, a delete removes one; it applies iff that can be done |
| Redo.ApplyErrors | src/storage/recovery.rs:71-96 | each error of applying an entry iff its own cause; an internal page refuses every entry and stays as it is |
| Redo.AppliedRefinesMap | src/storage/recovery.rs:50-66 | after the entries of a log for a page its rows are those before with every insert, update and delete carried out in order |
| Redo.RedoneLsn | src/storage/recovery.rs:56-63 | after redo the page LSN is at least every redone LSN, and is one of them or the old one |
| Redo.CatchUp | src/storage/recovery.rs:56-63 | idempotency: from any state the page went through, redoing the whole log ends where redoing it from the base does |
| Redo.GuardNeverBites | src/storage/recovery.rs:56-63 | with rising LSNs above the page's own, guarded redo is plain application in order |
| Redo.SkippedIffSeen | src/storage/recovery.rs:56-61 | redoing an entry leaves the page alone iff its LSN is not above the page's |
| Recoveries.ReplayStopsAt | src/storage/recovery.rs:50-66 | a replay that fails does so at one entry, all before it replayed: its page cannot be fetched or it does not apply there, and that error is reported |
| Recoveries.ReplayOutcome | src/storage/recovery.rs:47-68 | replaying and flushing fails with the error of the entry, flush or header that failed, reports the highest LSN when none does, and gives back every page it fetched |
| RecoveryEngines.ApplyEntry | src/storage/recovery.rs:71-96 | applies an entry to a page in memory by its operation; internal pages are rejected |
| RecoveryEngines.ReplayEntry | src/storage/recovery.rs:51-64 | fetch, guard, apply, mark dirty and release equal the specified step |
| RecoveryEngines.Replay | src/storage/recovery.rs:47-68 | the loop over the batch and the final flush equal the specified replay; the result is the highest LSN |
| RecoveryEngines.Init | src/storage/recovery.rs:23-43 | startup equals the specified one: read, replay, flush, and only then truncate and sync |
| Histories.ForceKeeps | src/storage/wal.rs:152-162 | after forcing the log for an LSN every entry up to it is durable, and the flushed LSN stays at most the highest durable one |
| Histories.FlushLogged | src/storage/buffer_pool.rs:92-107 | a flush keeps every disk image at a state made of durable entries only |
| Histories.FetchLogged | src/storage/buffer_pool.rs:52-73 | so do fetches with their evictions, failed ones included |
| Replays.CrashKeeps | src/storage/recovery.rs:23-43 | a crash keeps the durable entries and the pages on disk at states of the log that survives; what is left of the log reads as exactly that, or as torn iff four bytes or more of a frame are left |
| Replays.ReplayReaches | src/storage/recovery.rs:47-66 | however far a replay gets, the disk keeps to the log; when it succeeds every page has seen every entry replayed |
| Replays.RecoveryIsExact | src/storage/recovery.rs:47-68 | after a crash, a replay that succeeds ends with every page being its base image with all its entries applied in order: all durable ones, and of the others those that are complete |
| Replays.ReplayTwice | src/storage/recovery.rs:47-68 | replaying twice is replaying once |
| Replays.RecoveryRestarts | src/storage/recovery.rs:47-68 | a replay crashing anywhere, with any page on disk in any state it has had there since, evictions and flushes included, can be repeated from those images with the same final pages |
| Replays.FlushAllShows | src/storage/buffer_pool.rs:110-117 | after flushing everything the disk, synced, holds what the pool shows |
| Startup.CutOnlyWhenSynced | src/storage/recovery.rs:23-43 | the log is cut only once every page is flushed and synced with the whole log applied, and is then as one just opened on an empty file; after every failure disk and log still belong together; a log that cannot be read, and an empty one, is left alone, the latter reported as LSN 0 |
| Startup.StartupOutcome | src/storage/recovery.rs:23-43 | startup on a log with entries succeeds iff the replay, the cut and the sync do; it reports the error of the replay, an I/O error for the others, and else the highest LSN |
| Startup.StartupTornIff | src/storage/recovery.rs:23-28 | startup fails with a torn write iff the crash left four bytes or more of a frame, and then leaves pool and log as they are, for every later startup too |
| Startup.CutEitherWay | src/storage/recovery.rs:37-40 | whether a crash leaves the cut log or the old one, nothing is lost |
| Startup.RecoverySucceeds | src/storage/recovery.rs:23-43 | with a working disk, room for one page and pages that keep fitting, startup after a crash succeeds |
| Startup.CounterFallsBack | src/storage/recovery.rs:30-34 | false promise: after an empty log LSNs start again, and an entry numbered so is skipped by redo iff the page carries an LSN already |
| SystemRuns.InsertIsRedo | src/storage/recovery.rs:56-63 | what a running system does with an insert that fits is what redo does with its entry |
| SystemRuns.StepKeeps | src/storage/recovery.rs:19-97 | every action of the system, failed and partial ones included, keeps cache, disk and log at states of one history |
| SystemRuns.BehindATail | src/storage/wal.rs:202-240 | a batch appended to any such log is acknowledged and durable, but behind at most three leftover bytes reads back iff there were none, and behind a torn entry that goes past its LSN never, unless it starts with the same LSN |
| SystemRuns.RunsCanStart | src/storage/buffer_pool.rs:36-48 | any set of page images over an empty log is such a state |
| SystemRuns.EveryRunRecovers | src/storage/recovery.rs:23-96 | over every run of appends, applied entries, fetches, evictions, flushes, failures, crashes and recoveries: a crash anywhere leaves the first entries with all durable ones; a successful replay of them yields each page with its entries applied in order, the rows of a leaf with every insert, update and delete carried out, and when the reader cannot get at them startup fails without touching anything |
| SystemRuns.WriteAhead | src/storage/buffer_pool.rs:96-103 | over every run: an image on disk with LSN n has all its entries up to n durable, and the flushed LSN is at most the highest durable one |
| SystemStory.AppliedConcat | src/storage/recovery.rs:56-63 | applying two lists of entries one after the other is applying them as one |
| SystemStory.StepTold | src/storage/recovery.rs:19-97 | every action keeps it so that the bases of the log are the first images with all entries cut so far applied in order, and that every acknowledged entry is among those or durable in the log |
| SystemStory.StoryStarts | src/storage/recovery.rs:19-97 | so it is at the beginning |
| SystemStory.NothingAckedIsLost | src/storage/recovery.rs:23-96 | over every run, through any number of crashes, recoveries and cuts of the log, and one more crash: all surviving entries are in LSN order and include every one ever acknowledged, and a replay that succeeds shows each page as its very first image with all of them applied, its rows with every insert, update and delete of them carried out |

## Left out

- Files, offsets and partial page writes: the data file is a map from page to 4096 bytes, a page write
  is atomic, the log file is a byte sequence; a sync that fails has no effect, and a sync that succeeds
  covers everything written. Overlap of pages with the header or each other is not modelled.
- Reads of the log file that fail in the middle; only a file that cannot be rewound is.
- Holes: a page never written lies in a hole of the file once a later page is written, and then reads as
  zero bytes, which decode as an empty internal page. Reading it is an I/O error here.
- The file header apart from the next free offset, which survives crashes here; the program saves it
  only with the header.
- Threads, channels and timers: the background flusher is a flush of all pages that may happen at any
  step. Of locks only the self-deadlock on a page whose guard is held is modelled, of reference counts
  only how many references to a page are out.
- Crash recovery of splits and page allocation: they are not logged. The recovery theorems are about
  pages that have a disk image.
- Insertion into internal pages, root growth, joins and queries: not implemented in the program.
  Well-formed trees are a precondition of FindRecord.
- The order in which the hash table lists pages is arbitrary: a ghost result says which it was.
- A second handle on the log file: startup's own log handle and the pool's are one log in the runs of
  the system; RecoveryEngines.Init has them apart.
- A panic ends the run it happens in.
- Error message texts; corrupt-page errors carry the reason instead.
- SystemRuns.EveryRunRecovers: no run appends behind leftover bytes (SystemRuns.Appendable). BehindATail
  says what that does to the log behind at most three bytes, and behind a torn entry of thirteen and
  more; behind four to twelve bytes, short of the LSN, what is appended may happen to read right. LSNs
  rise strictly through the whole log, as a single counter hands them out, and lie above those the pages
  carry: an append whose sync fails leaves entries that are not durable, and the log is forced by
  comparing one LSN for all pages, so a lower LSN behind such entries would count as flushed; if no sync
  failed a rise page by page would do. Applying an entry while running is the guarded redo step, which
  InsertIsRedo shows to be what an insert that fits does.
- TreeProgress.InsertReports: on a pool where nothing fails and nothing else is held; with failures,
  PoolOutcomes says what each operation reports, and InsertGivesBack and FailedInsert what is left.
- ChainRuns.LevelLife: runs end at an insert that fails after its split began, or panics; what it leaves
  is said by HalfDone. That a successful insert goes to the leaf in whose range its key lies is a
  precondition, since the program leaves choosing the leaf to its caller; RoutedInRange meets it.
- AppendReadableIffNoTail: the first entry appended is below 2^16 bytes; a record takes 400.
- Entries of more than 4 GiB, whose length the log's prefix cannot hold.
