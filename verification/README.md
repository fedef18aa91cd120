# A verified model of the xet client core

This project models, in Dafny, the parts of the xet client that carry its hardest promises, and
proves those promises for every input, every run or every reachable state.

* **File hashes from compact subtrees.** A file hash collapses a list of chunk hashes level by level.
  A subtree keeps only the unstable ends of each level of a chunk range, in one flat array, and
  neighbouring subtrees merge without the chunks. The model has the collapsing algorithm, the stable
  cut searches, the flat storage and the merge, with an arbitrary merge hash. Left-to-right merging
  of ranges that cover a file gives the file hash, and so does every merge order in which each join
  touches the start or the end of the file. **Where the documentation promises more, it is wrong**:
  the module documentation (`merkle_hash_subtree.rs:31-38`) and `merge_into` allow any two neighbours
  to be merged, but merging two ranges that are both open forgets where the middle was. Take any sixteen
  chunks with a cut at every third one and move three of them past the next six: under every merge hash
  both lists get the same subtree. The order condition is exact: under a merge hash that tells some such
  lists apart, an order is right for all contents if and only if it never joins a range without the start
  to a range without the end. `merge` is right on ranges that cover a file from its start, as range
  uploads use it; `merge` of two open ranges is itself such a join, and `merge_into` is open to callers
  of the bindings.
* **Dirty windows and edits.** The builder that walks a file's chunks against dirty byte ranges, its fast
  path, the segment walk and the server response; and the upload of edits against it: validation, the
  query of merged segments, the loop that gives edits to windows and streams them, and the composition of
  gaps and windows. For validated edits every edit goes to exactly one window, the streamed windows between
  the gaps are the edited file, and the composed hash is the hash of chunks with exactly those bytes.
  The check that closes the loop (`range_upload.rs:262-271`) is weaker than its comment says: with windows
  narrower than the query, an edit before a later window passes it and is streamed in the wrong place. When
  the check passes, the result is the edited file if and only if every edit lies in some window.
* **The disk chunk cache.** The index with its counters and random eviction, loading from a directory,
  the cache object, and all interleavings of concurrent gets, puts, evictions and outside file
  deletions and replacements. No hit serves a file that fails its checksum unless this process put the item
  or found it intact before. One promise fails: a put does not always return. Its match loop
  (`disk.rs:385-389`) keeps the read guard of its scrutinee while validation asks for the write guard,
  so a put that meets a stored item with an unusable file waits for itself, and nothing changes the
  index from then on; with a first-come, first-served lock no lookup is answered either. The cache gets
  there by itself, from empty, with honest puts only and no outside deletion: files of evicted items are
  deleted after the lock is released (`disk.rs:445-454`), so a late deletion can hit an item that was
  stored again. A put that compares itself with a stored item, if no operation fails, blocks if and only if
  the item's file is unusable. It panics if and only if the file is usable, its header has fewer offsets
  than the put needs, and either no common step differs or debug messages are on, since the message about
  a difference quotes the missing offsets (`disk.rs:509-515`). Otherwise it returns. Loading panics too:
  `try_parse_key` cuts a hash out of the decoded directory name unchecked (`disk.rs:786`), so a stray
  directory whose name decodes to fewer than 32 bytes ends the load, if and only if it is met before any
  failure and before the index is full.
* **Stream parsers.** The multipart/byteranges parser (section 4.1 and Appendix A of RFC 7233), with
  its round trip, and the newline-delimited JSON reader of shard uploads, whose result does not depend
  on how the network cuts the bytes.
* **Progress and retries.** The retry loop and its permit, body streams that share a high-water mark,
  shard uploads with fallback, and the transfer agent's progress messages as interleaved atomic steps.
  The status check lets every status outside 400-599 through to the response handler, redirects
  included, although the documentation of the loop (`retry_wrapper.rs:254-256`) speaks of an OK status.
* **Text forms.** Hash hex on either byte order, and keys.

Code that updates fields or arrays step by step is modelled by classes and loops proved against
functions; the properties are lemmas about those functions. Concurrent protocols are step relations.
BLAKE3, CRC32, base64, UTF-8 decoding and the JSON decoder are arbitrary functions; random numbers,
directory listings, request outcomes and thread schedules are arbitrary inputs.

## Model

| member | source | states |
|---|---|---|
| Aggregation.NextMergeCutFirst | xet_core_structures/src/merklehash/aggregated_hashes.rs:11-53 | on either byte order, the scanned cut is the one group length that the declarative definition allows: first natural cut at position 2 to 8, else the bound |
| Aggregation.IsNaturalCut | xet_core_structures/src/merklehash/aggregated_hashes.rs:11-15 | a node is cut after exactly when the last word of its hash, in little-endian order on either machine, is a multiple of four |
| Aggregation.FindMergeCut | xet_core_structures/src/merklehash/aggregated_hashes.rs:37-53 | the loop returns the length of the first group |
| Aggregation.AggregatedNodeHash | xet_core_structures/src/merklehash/aggregated_hashes.rs:143-169 | the in-place collapse of the working array computes the repeated grouping down to one node, and the zero hash for no chunks |
| Aggregation.GapPairIsEdge | xet_core_structures/src/merklehash/merkle_hash_subtree.rs:325-357 | two natural cuts 3 to 7 apart force a group edge after the second, whatever comes before or after |
| Aggregation.GroupsAppend | xet_core_structures/src/merklehash/merkle_hash_subtree.rs:325-411 | grouping splits at a stable end: the groups of the whole are the groups of the two sides |
| Mids.NextCutUnbounded | xet_core_structures/src/merklehash/merkle_hash_subtree.rs:293-300 | the first natural cut, or none if there is none |
| Mids.PrevCutUnbounded | xet_core_structures/src/merklehash/merkle_hash_subtree.rs:306-308 | the last natural cut, or none if there is none |
| Mids.FindStableStart | xet_core_structures/src/merklehash/merkle_hash_subtree.rs:325-357 | one past the first cut whose gaps to both neighbouring cuts are valid, or none exactly when there is no such cut |
| Mids.FindStableEnd | xet_core_structures/src/merklehash/merkle_hash_subtree.rs:379-411 | one past the last such cut, or none exactly when there is none |
| Humps.BuildStands | xet_core_structures/src/merklehash/merkle_hash_subtree.rs:902-956 | building a subtree from chunks gives levels that stand for exactly those chunks, for each combination of known ends |
| HumpMerge.MergeStands | xet_core_structures/src/merklehash/merkle_hash_subtree.rs:643-801 | merging level by level with a carry gives levels that stand for the concatenation, provided one outer end is a file boundary |
| MergeOrders.AnchoredOrderIsExact | xet_core_structures/src/merklehash/merkle_hash_subtree.rs:601-801 | every merge order in which each join has the file start on its left or the file end on its right yields the aggregated hash of all chunks |
| MergeOrders.MergeAllIsExact | xet_core_structures/src/merklehash/merkle_hash_subtree.rs:611-624 | left-to-right merging of any ranges that cover a file succeeds and yields the aggregated hash of their concatenation, including no ranges and empty ranges |
| OpenMerges.OpenJoinsCollide | xet_core_structures/src/merklehash/merkle_hash_subtree.rs:601-604 | under every merge hash, merging two ranges without known ends gives one subtree for any sixteen chunks with a cut at every third one and for the same chunks with three of them moved past the next six |
| OpenMerges.AnchoredIffExact | xet_core_structures/src/merklehash/merkle_hash_subtree.rs:601-604 | under any merge hash that tells some two such lists apart, a merge order is right for every content if and only if each of its joins has a known outer end |
| SubtreeStore.Locate | xet_core_structures/src/merklehash/merkle_hash_subtree.rs:577-587 | the computed offsets cut exactly the left and right nodes of a level out of the flat array |
| SubtreeStore.ComputeOffsets | xet_core_structures/src/merklehash/merkle_hash_subtree.rs:449-470 | left offsets are the sums below, right offsets the left total plus the sums above |
| SubtreeStore.SplitAndPromote | xet_core_structures/src/merklehash/merkle_hash_subtree.rs:980-1020 | keeps the unstable prefix and suffix and promotes the merged groups of the part between the stable cuts |
| SubtreeStore.BuildUp | xet_core_structures/src/merklehash/merkle_hash_subtree.rs:902-956 | the level loop collects the sides of the recursive definition, in production order |
| SubtreeStore.MerkleHashSubtree.FromChunks | xet_core_structures/src/merklehash/merkle_hash_subtree.rs:543-561 | the flat arrays represent the subtree of the chunks |
| SubtreeStore.MerkleHashSubtree.LeftAt | xet_core_structures/src/merklehash/merkle_hash_subtree.rs:577-580 | the prefix nodes of a level, read from the flat array |
| SubtreeStore.MerkleHashSubtree.RightAt | xet_core_structures/src/merklehash/merkle_hash_subtree.rs:584-587 | the suffix nodes of a level, read from the flat array |
| SubtreeStore.MerkleHashSubtree.MergeInto | xet_core_structures/src/merklehash/merkle_hash_subtree.rs:601-801 | merges in place to the subtree of the merge function, or refuses (end before start) and changes nothing |
| SubtreeStore.MerkleHashSubtree.FinalHash | xet_core_structures/src/merklehash/merkle_hash_subtree.rs:812-834 | no hash if and only if an end is open; with both ends known the zero hash for an empty file, else the hash of the first top node, or a panic if there is none |
| ChunkWindows.InterleavedIsPrefix | xet_client/src/cas_client/chunk_window_builder.rs:49-127 | gaps and windows in turn tile the chunk list up to each window |
| WindowsAreGreedy.BuilderIsGreedy | xet_client/src/cas_client/chunk_window_builder.rs:49-127 | after any file, the builder reports exactly the greedy windows (open at the next dirty chunk, close after the first two consecutive clean stable chunks or at the end of the file) and the summaries of the gaps around them |
| WindowsAreGreedy.WindowsAligned | xet_client/src/cas_client/chunk_window_builder.rs:49-93 | windows are sorted, do not overlap, and start and end at chunk offsets |
| WindowsAreGreedy.SummariesMatchGaps | xet_client/src/cas_client/chunk_window_builder.rs:76-127 | one summary more than windows, each of exactly its gap's chunks, absent exactly for an empty gap, marked as start only if first and as end only if last |
| WindowsAreGreedy.ChunksConserved | xet_client/src/cas_client/chunk_window_builder.rs:49-127 | gap chunks and window chunks interleaved give back the chunk list |
| WindowsAreGreedy.DirtyBytesCovered | xet_client/src/cas_client/chunk_window_builder.rs:49-139 | every byte of the file in a dirty range lies in a window |
| WindowsAreGreedy.SkipRefinesProcess | xet_client/src/cas_client/chunk_window_builder.rs:95-112 | on an entry inside one dirty range, the fast path leaves the same builder as processing any non-empty split of the entry into positive chunks |
| ChunkWindows.SummaryNone | xet_client/src/cas_client/chunk_window_builder.rs:141-147 | a summary is absent exactly for a gap without chunks |
| WindowBuilder.ChunkWindowBuilder.constructor | xet_client/src/cas_client/chunk_window_builder.rs:31-45 | starts at the first range, outside a window, with nothing recorded |
| WindowBuilder.ChunkWindowBuilder.ProcessChunk | xet_client/src/cas_client/chunk_window_builder.rs:49-84 | moves the whole builder state as the step function that BuilderIsGreedy is about, with every recorded summary well stored |
| WindowBuilder.ChunkWindowBuilder.SkipDirtyEntry | xet_client/src/cas_client/chunk_window_builder.rs:102-112 | moves the whole builder state as the skip function that SkipRefinesProcess is about, with every recorded summary well stored |
| WindowBuilder.ChunkWindowBuilder.OpenWindow | xet_client/src/cas_client/chunk_window_builder.rs:121-127 | records the gap's summary, well stored, opens a window at the cursor and looks ahead |
| WindowBuilder.ChunkWindowBuilder.MergeAhead | xet_client/src/cas_client/chunk_window_builder.rs:135-139 | moves past every range the window end already reaches into, and no further |
| WindowBuilder.ChunkWindowBuilder.Finish | xet_client/src/cas_client/chunk_window_builder.rs:115-119 | the windows and all summaries, well stored, the last one for the trailing gap |
| WindowBuilder.GapVerification | xet_client/src/cas_client/chunk_window_builder.rs:186-219 | the two-pointer walk returns the hashes, in segment order, of exactly the segments that overlap no window |
| WindowBuilder.WindowsInOrder | xet_client/src/cas_client/chunk_window_builder.rs:49-127 | whatever the dirty ranges, sorted or not, the windows come out in order and do not overlap, as the walk needs |
| ChunkWindows.ClampBytes | xet_client/src/cas_client/chunk_window_builder.rs:163-167 | a byte lies in a cut range if and only if it lies in the file and in a requested range |
| WindowBuilder.BuildFileChunkHashesResponse | xet_client/src/cas_client/chunk_window_builder.rs:157-233 | for any ranges, each failure exactly when its condition holds, no valid range exactly when no byte of the file was requested; otherwise counts, windows, well stored summaries and gap verification; for requested ranges in order, every requested byte of the file lies in a returned window |
| RangeCompose.ComposeIsExact | xet_data/src/processing/range_upload.rs:273-303 | merging gap summaries and uploaded windows in turn yields the aggregated hash of the edited chunk list |
| RangeCompose.EditedFileHash | xet_data/src/processing/range_upload.rs:273-303 | the same from a builder run: the composed hash is the hash of the file with its windows replaced |
| RangeCompose.UnchangedWindowsKeepHash | xet_data/src/processing/range_upload.rs:273-303 | uploading the old window chunks gives back the old chunk list |
| RangeEdits.ValidateDirtyRanges | xet_data/src/processing/range_upload.rs:428-453 | accepts exactly the edits that are in the file, in order and not overlapping |
| RangeEdits.SplicedLength | xet_data/src/processing/range_upload.rs:456-470 | the announced total and window sizes are the lengths of the edited bytes and never underflow |
| RangeEdits.StreamWindow | xet_data/src/processing/range_upload.rs:222-253 | the cursor loop streams original bytes and new bytes in turn |
| RangeEdits.WindowIsSpliced | xet_data/src/processing/range_upload.rs:222-253 | a window whose edits lie in it streams exactly its edited bytes |
| RangeEdits.StreamWindows | xet_data/src/processing/range_upload.rs:191-271 | gives each window the longest run of edits it takes, streams each, and fails exactly when an edit is left over |
| EditWindows.EveryEditGiven | xet_data/src/processing/range_upload.rs:195-271 | if every validated edit lies in some window, each goes to exactly one window, the one it lies in, and none is left over |
| EditWindows.StreamedWindowsAreTheFile | xet_data/src/processing/range_upload.rs:191-263 | then gap bytes and streamed window bytes in turn are the edited file |
| EditWindows.FileIffOwned | xet_data/src/processing/range_upload.rs:192-271 | for any windows in order: where no edit is left over, the composed bytes are the edited file if and only if every edit lies in some window |
| EditWindows.MissedEditPasses | xet_data/src/processing/range_upload.rs:262-271 | an edit wholly before the only window is not left over although no window holds it, so the closing check does not see it |
| EditQuery.SegmentStarts | xet_data/src/processing/range_upload.rs:119-127 | the segment edges are the running sums, strictly increasing up to the file size |
| EditQuery.Snap | xet_data/src/processing/range_upload.rs:138-152 | the range for an edit is not empty, in the file, between two segment edges and around the edit, for insertions and appends too |
| EditQuery.SnapNarrowest | xet_data/src/processing/range_upload.rs:138-152 | no narrower pair of segment edges holds the edit |
| EditQuery.Coalesce | xet_data/src/processing/range_upload.rs:155-164 | the merging loop computes the recursive merge |
| EditQuery.CoalescedCovers | xet_data/src/processing/range_upload.rs:155-164 | merged ranges are sorted, disjoint, in the file, and cover every range they came from |
| EditQuery.CoalescedBytes | xet_data/src/processing/range_upload.rs:155-164 | merging neither adds nor loses a byte |
| EditQuery.CoalescedApart | xet_data/src/processing/range_upload.rs:155-164 | no two merged ranges touch |
| EditQuery.QueryHoldsEdits | xet_data/src/processing/range_upload.rs:136-168 | the query meets the server builder's demands, and some range of it holds each edit |
| EditQuery.QueryBytes | xet_data/src/processing/range_upload.rs:136-168 | the query asks for exactly the bytes of the segments around edits |
| EditedUpload.RangeInWindow | xet_client/src/cas_client/chunk_window_builder.rs:49-84 | no window splits a dirty range: each lies in one window |
| EditedUpload.WindowsHoldEdits | xet_data/src/processing/range_upload.rs:136-271 | for validated edits, any segments and any non-empty chunks, the windows that come back are in order and hold every edit, so none is left over |
| EditedUpload.UploadIsTheEditedFile | xet_data/src/processing/range_upload.rs:136-303 | whatever chunks each streamed window is cut into, the composed hash is the aggregated hash of a chunk list whose bytes are the edited file |
| CacheFile.ReadHeaderBack | xet_client/src/chunk_cache/disk/cache_file_header.rs:20-56 | decoding an encoded file gives its offsets back |
| CacheFile.ReadHeaderIff | xet_client/src/chunk_cache/disk/cache_file_header.rs:34-50 | a header is read from content if and only if the content begins with its encoding and its offsets, if any, start at 0 and increase |
| CacheFile.GetRangeOfChunks | xet_client/src/chunk_cache/disk.rs:595-620 | the file of a chunk list answers every range with exactly those chunks and their running lengths from 0 |
| CacheFile.GetRangeIs | xet_client/src/chunk_cache/disk.rs:595-620 | on any content behind a header, a range is read exactly when both offsets are there and the bytes reach, and gives the bytes between them with offsets from 0 |
| CacheFile.ValidateMatch | xet_client/src/chunk_cache/disk.rs:461-525 | compares a put with a stored file, in the order of the checks and with the quoting debug message, to the declared verdict |
| CacheFile.JudgeIntact | xet_client/src/chunk_cache/disk.rs:499-524 | against an intact file a put is accepted exactly when every chunk's length and bytes equal the stored chunk's, refused otherwise |
| CacheState.CacheState.FindMatch | xet_client/src/chunk_cache/disk.rs:52-62 | the first held item that covers the range, none exactly when none does |
| CacheState.CacheState.RandomItem | xet_client/src/chunk_cache/disk.rs:104-126 | for any map order, the held item at place number modulo count; none exactly when the index is empty |
| CacheState.CacheState.EvictToCapacity | xet_client/src/chunk_cache/disk.rs:69-101 | ends within the bound whatever is drawn, keeps the counters true, removes exactly the listed items and not one more than needed |
| CacheState.EvictionConserves | xet_client/src/chunk_cache/disk.rs:69-101 | items and bytes before are items and bytes after plus those evicted |
| CacheState.InsertKeepsCounts | xet_client/src/chunk_cache/disk.rs:438-442 | adding an item keeps both counters true |
| CacheState.RemoveKeepsCounts | xet_client/src/chunk_cache/disk.rs:537-543 | taking an item out keeps both counters true and leaves no empty list |
| CacheState.CacheState.RemoveItem | xet_client/src/chunk_cache/disk.rs:528-545 | forgets the item if it is held and tells whether the file must go |
| CacheLoad.ParseFile | xet_client/src/chunk_cache/disk.rs:671-732 | a file is tracked exactly when its name decodes to its true length, within both limits; it fails the load exactly when it cannot be read, is over the configured limit, or is misnamed and cannot be deleted |
| CacheLoad.Initialize | xet_client/src/chunk_cache/disk.rs:208-315 | the nested directory loops load what walking the flattened listing loads, with every skip, failure, panic and early stop; a missing directory loads as empty, an unreadable one or no capacity fails |
| CacheLoad.InitializePanicsIff | xet_client/src/chunk_cache/disk.rs:784-789 | loading panics if and only if a key directory whose name decodes to too few bytes is met before any failure and before everything trackable so far reaches twice the capacity |
| CacheLoad.InitializedBound | xet_client/src/chunk_cache/disk.rs:225-315 | less than three times the capacity is loaded |
| CacheLoad.LoadedCountersTrue | xet_client/src/chunk_cache/disk.rs:225-315 | the loaded counters are true if and only if no key is loaded from two directories |
| CacheLoad.DistinctKeysFresh | xet_client/src/chunk_cache/disk.rs:225-315 | directory names that decode to distinct keys satisfy that condition |
| CacheListing.ReadListing | xet_client/src/chunk_cache/disk.rs:242-276 | the load meets exactly the readable and broken entries of prefix directories with two-character names, each once and in listing order |
| CacheListing.LoadByListing | xet_client/src/chunk_cache/disk.rs:225-315 | for everything a listing shows: the load panics exactly on a short name that is reached, fails exactly on an unreadable entry or failing file that is reached, and with distinct keys otherwise holds the shortest run of trackable files that reaches twice the capacity, or all of them |
| CacheListing.LoadedHolds | xet_client/src/chunk_cache/disk.rs:225-315 | a load that ends below twice the capacity holds for each key exactly the trackable files of the directory that names it, and nothing for a key no directory names |
| CacheListing.LoadableAre | xet_client/src/chunk_cache/disk.rs:671-732 | the trackable files are those whose names decode, give their true lengths and are within both limits |
| CacheSafety.CountersStayTrue | xet_client/src/chunk_cache/disk.rs:317-555 | in every run of concurrent calls the counters equal the true count and sum and no key has an empty list |
| CacheSafety.WithinCapacity | xet_client/src/chunk_cache/disk.rs:421-442 | from the first insertion of a run on, the byte count never exceeds the capacity |
| CacheSafety.LoadedRun | xet_client/src/chunk_cache/disk.rs:208-457 | if directory names decode to distinct keys, every run from the loaded index keeps true counters, stays below three times the capacity, and within the capacity from its first insertion on |
| CacheSafety.RangesStayDistinct | xet_client/src/chunk_cache/disk.rs:421-442 | in every run no key holds the same chunk range twice |
| CacheSafety.NoContainedInsert | xet_client/src/chunk_cache/disk.rs:421-442 | no put inserts a range that a held item of the key contains, and what it inserts is held |
| CacheTruth.HitsAreTrue | xet_client/src/chunk_cache/disk.rs:317-457 | if every put supplies true chunks, then in every interleaving a get that finds something returns exactly the requested chunks and their running lengths |
| CacheChecks.HitsAreChecked | xet_client/src/chunk_cache/disk.rs:317-364 | in every run, with any files deleted or replaced from outside, every hit is what the stored file of an item that was held and covers the request gives, and that file had the item's checksum or the item had earned its mark |
| CacheChecks.MarksEarned | xet_client/src/chunk_cache/disk.rs:340-350 | in every run an item is marked only after the run put it or read its file with the right checksum |
| CacheTruth.HonestPutsAccepted | xet_client/src/chunk_cache/disk.rs:367-457 | such puts are never refused and never panic |
| CacheTruth.HonestCheck | xet_client/src/chunk_cache/disk.rs:461-525 | such a put that meets a stored item is accepted if the item's file is in place and blocks otherwise |
| CacheTruth.ReputJudged | xet_client/src/chunk_cache/disk.rs:374-389 | any put inside an item with an intact file is accepted exactly when its chunks are the stored ones, and changes neither index nor files |
| CacheBlocking.LockExclusive | xet_client/src/chunk_cache/disk.rs:385-421 | the index lock is never held for reading and writing at once |
| CacheBlocking.BlockedForever | xet_client/src/chunk_cache/disk.rs:385-389 | a put that has to drop an item under its own read guard never moves again, and the index never changes again |
| CacheBlocking.BlockedStopsLookups | xet_client/src/chunk_cache/disk.rs:322-389 | if the lock serves in order of arrival, no get or put at its lookup then, or begun later, ever gets past it |
| CacheBlocking.CacheBlocksItself | xet_client/src/chunk_cache/disk.rs:385-454 | for any two honest puts that fit one by one but not together and do not cover each other, a run from the empty cache without deletions from outside or failures ends in a blocked put |
| CacheBlocking.OneByteChunksBlock | xet_client/src/chunk_cache/disk.rs:385-454 | two chunks of one byte each are such puts |
| CacheBlocking.ChecksSettled | xet_client/src/chunk_cache/disk.rs:374-386 | in every run a put in progress passed its argument checks, and the item it compares itself with covers it |
| CacheBlocking.PutReturnsIff | xet_client/src/chunk_cache/disk.rs:385-525 | in every run a put that compares itself with a stored item blocks if and only if the file is unusable, panics if and only if a usable file's header is too short for it and no common step differs or debug messages are on, and otherwise returns |
| DiskCache.DiskCache.Get | xet_client/src/chunk_cache/disk.rs:317-364 | the retry loop ends; whatever the files hold, a hit is what the first covering item left gives, whose file was in place, marked or of the right checksum, and readable; only unusable covering items and their files are dropped; only files of the right checksum earn marks; with true files it fails only by a failing file operation, and otherwise finds the range exactly when some covering item has its file, and answers with the true chunks |
| DiskCache.DiskCache.Put | xet_client/src/chunk_cache/disk.rs:367-457 | refused, covered and oversized puts and failed writes change nothing; a put that is not covered fails only by a failing file operation; a fitting put evicts just enough, deletes the evicted files, ends within capacity, is available and marked afterwards and keeps all files true, even if a deletion fails |
| DiskCache.DiskCache.Commit | xet_client/src/chunk_cache/disk.rs:391-442 | looks once more; a covered range changes nothing, otherwise places the file, evicts just enough and adds the item, as in the concurrent model |
| DiskCache.DiskCache.RemoveFiles | xet_client/src/chunk_cache/disk.rs:447-454 | deletes the files of the evicted items in order and no other, up to the first that cannot be deleted |
| DiskCache.DiskCache.RemoveItem | xet_client/src/chunk_cache/disk.rs:528-555 | drops the item from the index and its file from disk unless the item was already gone or the deletion fails |
| Text.Find | xet_client/src/cas_client/multipart.rs:119-121 | the first occurrence, none exactly when there is none |
| Text.ParseUndoesPrint | xet_client/src/cas_client/multipart.rs:104-109 | parsing a printed 64-bit number gives it back |
| Text.ParseU64Is | xet_client/src/cas_client/multipart.rs:104-109 | exactly the digit strings whose value fits 64 bits are numbers, with or without a plus sign |
| ContentRange.BoundaryRoundTrip | xet_client/src/cas_client/multipart.rs:75-84 | a token boundary comes back from the content type, quoted or not |
| ContentRange.BoundaryIs | xet_client/src/cas_client/multipart.rs:75-84 | the first parameter with the name gives the boundary; none without one |
| ContentRange.LineRoundTrip | xet_client/src/cas_client/multipart.rs:86-117 | a printed Content-Range line gives its range back, whatever follows the slash |
| ContentRange.SpecIs | xet_client/src/cas_client/multipart.rs:97-111 | a range is read exactly from two numbers with a dash between and a slash behind them |
| ContentRange.FirstRangeIs | xet_client/src/cas_client/multipart.rs:90-116 | the range of the headers is that of their first byte-range line, if valid; an invalid one is not passed over |
| Multipart.ParseMultipartByteranges | xet_client/src/cas_client/multipart.rs:16-73 | the offset loop ends and computes the recursive reading of the body, with every failure |
| Multipart.PartsAreStarts | xet_client/src/cas_client/multipart.rs:32-68 | parsing succeeds exactly when every begun part has a blank line and a valid range, and gives all of them in order, the last one also without a closing delimiter |
| Multipart.ParseFailsIff | xet_client/src/cas_client/multipart.rs:16-73 | the parser fails exactly without a boundary, without a delimiter, or on a malformed part; otherwise it gives the begun parts sorted |
| Multipart.SortIsStable | xet_client/src/cas_client/multipart.rs:70 | the result is sorted by start and keeps, for every start, the same parts in the same order |
| Multipart.ParseUndoesPrintBody | xet_client/src/cas_client/multipart.rs:16-121 | printing sections with a token boundary, behind any preamble without the delimiter, and parsing gives back all ranges and data, stably sorted, provided a line break followed by the data holds no delimiter |
| ShardNdjson.ReadShardUploadNdjson | xet_client/src/cas_client/shard_upload_v2.rs:18-70 | over any network chunks, the events and the outcome are those of the concatenated bytes and the way the body ends |
| ShardNdjson.Drain | xet_client/src/cas_client/shard_upload_v2.rs:27-47 | taking complete frames off the buffer keeps the meaning of buffer plus future bytes |
| ShardNdjson.Oversized | xet_client/src/cas_client/shard_upload_v2.rs:48-51 | an unfinished frame over the limit is fatal whatever follows |
| ShardNdjson.OutcomeIsLastEvent | xet_client/src/cas_client/shard_upload_v2.rs:88-110 | all events but the last are progress; a last event that is a result, a retryable or another error gives success, a retry or a fatal end; without one, a transient break of a readable body gives a retry and anything else a fatal end |
| ShardNdjson.EventsAreLines | xet_client/src/cas_client/shard_upload_v2.rs:25-65 | the callback gets the decoded lines in order, up to the first terminal event or the first line that does not decode or exceeds 1,048,576 bytes, and no more |
| RetryLoop.RunAndProcess | xet_client/src/cas_client/retry_wrapper.rs:171-378 | attempts stop at the first non-retryable outcome or after max_attempts + 1; the result is that of the last attempt; the permit's trace is fixed by both; the handler sees exactly the replies whose status is outside 400-599, redirects included |
| RetryLoop.OutcomeTable | xet_client/src/cas_client/retry_wrapper.rs:129-248 | which replies end the request, are tried again or reach the handler: transient transport errors are tried again, as are 408, 500-599 but 501, and 403 and 429 as configured |
| RetryLoop.PermitSees | xet_client/src/cas_client/retry_wrapper.rs:291-366 | such a trace has one start per attempt, one report per retryable failure and one completion, which is last |
| UploadProgress.StreamProgressReporter.ReportProgress | xet_client/src/cas_client/progress_tracked_streams.rs:57-77 | raises the mark and calls back with the excess, the new total done and the larger total, only if it exceeds the mark |
| UploadProgress.UploadProgressStream.PollNext | xet_client/src/cas_client/progress_tracked_streams.rs:89-106 | hands out the next non-empty block and reports the ones before it; a drained stream reports nothing |
| UploadProgress.UploadProgressStream.Drop | xet_client/src/cas_client/progress_tracked_streams.rs:115-117 | reports everything handed out |
| UploadProgress.PollIsStep | xet_client/src/cas_client/progress_tracked_streams.rs:89-106 | what a poll of the stream object promises is the poll step of the interleaved model followed by its callback |
| UploadProgress.DropIsStep | xet_client/src/cas_client/progress_tracked_streams.rs:115-117 | what dropping the stream object promises is the close step of the interleaved model followed by its callback |
| UploadProgress.PollingDrains | xet_client/src/cas_client/progress_tracked_streams.rs:89-106 | with a positive block size polling drains the stream |
| UploadProgress.ReportedIsFurthest | xet_client/src/cas_client/progress_tracked_streams.rs:57-118 | in every interleaving of streams and callbacks all deltas are positive and, once all streams are dropped, sum to the furthest byte handed out; to all bytes exactly when some stream handed out all |
| UploadProgress.DrainedIsData | xet_client/src/cas_client/progress_tracked_streams.rs:89-106 | the chunks of a stream concatenate to the start of the data, of a drained one to all of it |
| ShardUpload.V2Net | xet_client/src/cas_client/remote_client.rs:361-449 | with body streams dropped before the retry loop returns, net progress of a V2 upload stays between 0 and the size, is 0 after a failure and what was sent after a success |
| ShardUpload.V1Balanced | xet_client/src/cas_client/remote_client.rs:350-355 | a V1 success reports the full size |
| ShardUpload.RemoteClient.UploadShardV1 | xet_client/src/cas_client/remote_client.rs:314-358 | reports a full transfer and a result after a success, nothing after a failure |
| ShardUpload.RemoteClient.UploadShardV2 | xet_client/src/cas_client/remote_client.rs:361-449 | reports every signal in order and takes back the sum of its transfers after a failure |
| ShardUpload.RemoteClient.UploadShard | xet_client/src/cas_client/remote_client.rs:452-496 | tries the forced version first, else the one known to work, else 2, and no other than 1 and 2; goes on to 1 if and only if an unforced V2 failed with 404 or 501 and a permit was granted; succeeds if and only if the last version tried did; net progress is never negative, 0 after any failure, the full size after V1 or fallback, at most the size after V2; remembers a version only after an unforced success |
| ProgressMessenger.ProgressIsMonotone | git_xet/src/lfs_agent_protocol/progress_updater.rs:34-69 | in every interleaving what was last sent never exceeds what was reported, sent values never decrease and are reported values, and the increments sum to the last value sent |
| ProgressMessenger.NeverUnderflows | git_xet/src/lfs_agent_protocol/progress_updater.rs:56-66 | the increment of a message is never negative and a call that sends covers its own number |
| ProgressMessenger.NewsIsSent | git_xet/src/lfs_agent_protocol/progress_updater.rs:34-69 | with the channel free and no other call under way, an update is sent if and only if it is a new maximum, with the new progress and what was added since the last message |
| HashText.FromHexUndoesToHex | xet_core_structures/src/merklehash/data_hash.rs:145-179 | parsing undoes printing for every hash on either byte order |
| HashText.ToHexUndoesFromHex | xet_core_structures/src/merklehash/data_hash.rs:145-179 | exactly 64 hex digits parse, and print back in lower case |
| HashText.FromBeBytes | xet_core_structures/src/merklehash/data_hash.rs:208-216 | the hash whose hex is the given bytes in order |
| HashText.ParseKeyUndoesPrintKey | xet_client/src/cas_types/key.rs:17-39 | every key comes back from its text, slashes in the prefix included |
| HashText.PrintKeyUndoesParseKey | xet_client/src/cas_types/key.rs:17-39 | exactly the key-shaped texts parse, and print back up to the case of the hash digits |

## Left out

- HTTP clients, authentication, token refresh, credential helpers, process spawning, the Python, wasm and napi bindings and the command line: plumbing and user interface.
- BLAKE3, SHA-256, CRC32, base64, JSON and UTF-8 decoding, and the keyed step that turns an aggregated hash into a file hash: arbitrary functions or outside the model.
- Content-defined chunking, shard formats, adaptive concurrency, file reconstruction and the composition of shard metadata after a range upload.
- Serialization of subtrees, and the assertions of debug builds.
- EditedUpload.UploadIsTheEditedFile: segments and chunks are not empty and readers yield the bytes they announce; a reader or network error ends the upload, which the model leaves out, as it does the fresh upload for an empty original.
- Backoff delays, jitter and clock time; only their number matters to the retry loop.
- 64-bit overflow of byte offsets and totals, and 32-bit overflow of a chunk range of 2^32 - 1 chunks: numbers are unbounded except where a parser rejects them.
- CacheTruth.HitsAreTrue: starts from files that are true for their names and allows outside deletions only; altered bytes in a file whose item is already marked verified are served unchecked by design.
- CacheChecks.HitsAreChecked: a mark belongs to a key and item, so a call that still holds the cell of a dropped item may test a checksum once more than the marks ask for; a file is replaced as a whole, not rewritten under an open handle.
- Removal of empty cache directories.
- DiskCache.DiskCache.Put: answers None where the original never returns, since a method must end.
- CacheProtocol grants a lookup while a writer waits, which allows more runs than the original's first-come, first-served lock; BlockedStopsLookups adds that order for a blocked put, but not for writers that wait and then go on.
- ShardUpload.RemoteClient.UploadShard: one call at a time; concurrent calls that store different detected versions are not modelled.
- ProgressMessenger.ProgressIsMonotone: calls are steps on values, not an object, because they interleave between single atomic operations; a report made while the channel is busy may never be sent, as designed.
- The transfer agent state machine, simulation, benchmark and reporting code: easy or floating point.
