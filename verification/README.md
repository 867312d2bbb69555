# A Dafny model of the search engine's core

The project models three connected parts of the search engine and proves what they promise.

* **Index and query.** Documents go into `IndexBuilder`, which sorts, packs and encodes their postings
  (FOR-32 blocks of 128, a LEB128 tail, a two-level skip list, stored score bounds). Queries go through
  `PostingIter` and block-max MaxScore. The end result, `IndexingSessions.IndexAndSearch`, runs from a sequence of `Add`
  calls to the ranked answer: it is an exact top-K of the documents' last versions under full exhaustive scores (beyond 2^31
  documents, of what the build keeps of them);
  `IndexingSessions.SearchWithBm25` is the same with the engine's default scorer, and `SegmentSessions.SearchSegment` goes
  through a segment file: written, parsed back, searched.
* **WAL replication.** The primary catches a replica up from WAL files, a wrapping ring and a lossy live channel. One
  system with 24 kinds of steps (`ReplicationRun`) interleaves appends, lost channel sends, ring overwrites, partial
  scans, lost or repeated messages, failing applies, disconnects, crashes and graceful restarts, while other replicas come,
  read and go; `ReplicationSafety` says what holds in every state of every run, `ReplicationCatchUp` when a stream gets all
  it needs and goes live.
* **A shard's log, segments and routing.** WAL framing, sequence numbers, crash recovery, flush, reset, the k-way
  segment merge, and the consistent-hash ring.

Code that works on arrays or updates fields is modelled by methods and classes that do the same; each is proved
against a specification function or predicate, and the properties are lemmas about those specifications.

## How the parts fit together

| part | files |
|---|---|
| bits, bytes, sorting | `Options`, `Collections`, `Bits`, `Varint`, `WidthPaths`, `BlockPack`, `RadixSort`, `PostingFormat` |
| reading an index | `SkipList`, `SkipBytes`, `BlockCache`, `PostingIter`, `InvertedIndex` |
| search | `ScoreHeap`, `TopK`, `MaxScoreModel`, `MaxScorePruning`, `MaxScoreSteps`, `MaxScoreRounds`, `MaxScoreScoring`, `MaxScore`, `QueryTerms`, `QueryEntries`, `MaxScoreSearch`, `DocScores` (the answer, said of documents alone) |
| building an index | `BuiltIndex` (what an index of given documents is), `IndexedDocs` (which documents a build indexes), `BuilderTables`, `Compaction`, `TermSlices`, `TermEncoding`, `IndexAssembly`, `IndexBuilder`, `BuiltIndexFacts`, `Bm25`, `IndexingSessions` |
| replication | `Replication` (one node's reactions), `ReplicationRun` (steps and invariant), `ReplicationSafety`, `ReplicationCatchUp` (streams that succeed), `ReplicationNodes` (the classes) |
| write-ahead log | `WalFormat`, `WalRecords` |
| segment files | `SegmentFile` (the bytes, writing and parsing), `SegmentReader` (what a parsed segment answers), `SegmentSessions` |
| segment merge | `MergeHeap`, `SegmentContents`, `SegmentMerge`, `MergeLoop`, `Merging`, `MergeRefinement` (the shard's view of it) |
| shard | `ShardModel` (state and operations), `ShardSequence`, `ShardRecovery`, `ShardMerge`, `ShardRuns` (whole runs, merges and restarts included), `ShardConvergence`, `ShardManager` (the classes) |
| routing | `HashRing` |

Scores, impacts and bounds are reals. The scorer is an unknown function; `QueryEntries.Bounded` is what a search asks of
it: scores are not negative, and each is at most the stored block impact and the stored term bound times (1 + 1e-6).
`BuiltIndexFacts.BuiltIsBounded` discharges it for an index searched with the scorer it was built with, when every
score of a build is 0 or within the normal range of a 32-bit float and rounding such a number loses less than the margin;
`SegmentReader.LoadedIsBounded` does so for the segment read back, whose term bounds are rounded too.
`Bm25` shows that the default scorer's scores are, whatever the logarithm, as long as 1 - 1/y <= ln y <= y - 1 for y >= 1.

## Where the code does less than one would expect

* `HasTerm` answers true for a term that kept no postings when the document is number 0
  (internal/index/inverted.go:131-142). `InvertedIndex.HasTerm` gives the exact condition and
  `IndexingSessions.StaleTerm` an `Add` sequence that reaches it.
* Once a version was superseded, a build numbers the live documents by an int32 (internal/index/builder.go:277-307), so
  the postings of documents from number 2^31 on are dropped. `IndexedDocs.IndexedIsLast` and `BuiltIndexFacts.LastAddWins`
  give the exact condition, `IndexedDocs.TooManyAreCut` an input and `IndexingSessions.AddsAreCut` the `Add` calls that give it.
* Replaying an index entry removes its tombstone from the manifest, and replaying the later delete puts it back in
  memory only (internal/shard/wal.go:294-320). One crash is harmless (`ShardRuns.CrashRecovery`); a second
  crash after a flush brings the deleted document back exactly when it was indexed and then deleted in the replayed log
  (`ShardRecovery.SecondCrash`, `ShardRecovery.DeletedDocReturns`).
* A merge of some segments gives its output the highest FlushSeq of its inputs, so it can overtake a newer copy in a
  segment that lies between them, and it purges tombstones of documents that still have a copy elsewhere
  (internal/shard/merge.go:180-186, 256-299). The comment there says that a purged document lived in the merged segments
  only; the code does not check it, and the model follows the code. `ShardMerge.MergePreserves` gives the exact
  condition, `ShardMerge.StaleCopyWins` and `ShardMerge.PurgeRevives` reachable states that violate it; a forced merge picks
  such inputs by size, in batches of any number (`ShardMerge.ForcedMergeLoses`, `ShardMerge.EveryBatchLoses`), and the
  background expunge picks them by itself, since a delete is counted against one holder only (`ShardMerge.ExpungeRevives`).

## Model

| member | source | states |
|---|---|---|
| BlockPack.PackBits32 | internal/codec/blockpack.go:58-76 | The bit-buffer loop writes exactly the little-endian bytes of the number whose base-2^bits digits are the values, and nothing outside its slice |
| BlockPack.BufferValue | internal/codec/blockpack.go:58-76 | Or-ing a value above the buffered bits of the 64-bit word loses no bit |
| BlockPack.PackFOR32 | internal/codec/blockpack.go:25-39 | For any 128 32-bit values the first n bytes are the block (width of the maximum, then the stream), n at most 513 |
| BlockPack.UnpackBits32 | internal/codec/blockpack.go:81-97 | The generic decoder yields digit i of the stream in out[i] and leaves the rest of out alone |
| WidthPaths.LinesCutFields | internal/codec/blockpack_nocgo.go:22-240 | The shift and mask constants of every line of every width path, as written, are those of field k of its group |
| WidthPaths.CutIsField | internal/codec/blockpack_nocgo.go:22-240 | Such a line, inside the low word, across the boundary, inside the high word or unmasked at the top, computes that field |
| BlockPack.LineValue | internal/codec/blockpack_nocgo.go:22-240 | Line k of group g gives digit m*g + k of the whole stream |
| BlockPack.UnpackGroups | internal/codec/blockpack_nocgo.go:22-240 | Every width path gives the same digits as the generic decoder, for any byte block |
| BlockPack.GroupField | internal/codec/blockpack_nocgo.go:10-245 | Field k of group g is field m*g + k of the whole stream |
| BlockPack.UnpackFOR32Into | internal/codec/blockpack_nocgo.go:10-245 | Whatever path the width selects, the 128 values are the generic ones and 1 + 16*bits bytes are consumed |
| BlockPack.BlockRoundTrip | internal/codec/blockpack.go:25-97 | Unpacking a packed block gives the 128 values back and consumes exactly its bytes, whatever follows |
| Varint.AppendVarint | internal/codec/varint.go:4-10 | Appends the LEB128 bytes of the value |
| Varint.EncodeIs | internal/codec/varint.go:4-10 | Every byte but the last has the high bit, and byte k carries digit k of the number to base 128 |
| Varint.ReadVarint | internal/codec/varint.go:14-27 | On any terminated bytes: the low 64 bits of the number spelt, and its length |
| Varint.RoundTrip | internal/codec/varint.go:4-27 | Reading back what was appended gives the number and its length, whatever surrounds it |
| RadixSort.StablePass | internal/index/radixsort.go:75-148 | One counting pass, left to right, is the concatenation of the buckets in arrival order |
| RadixSort.StablePassRight | internal/index/radixsort.go:12-66 | The string sort's pass from the right places the same concatenation |
| RadixSort.BucketsOrdered | internal/index/radixsort.go:75-148 | A stable pass refines whatever order the elements arrived in |
| RadixSort.BucketsPermute | internal/index/radixsort.go:75-148 | A pass loses and invents nothing |
| RadixSort.RadixSortPostings | internal/index/radixsort.go:75-148 | The postings end up a permutation sorted by (TermID, DocID) |
| RadixSort.RadixSortStrings | internal/index/radixsort.go:12-66 | The strings end up a lexicographically sorted permutation, lengths mixed |
| RadixSort.SortedStringsUnique | internal/index/radixsort.go:12-66 | There is one sorted order, so the short and the radix path agree |
| RadixSort.TermSlice | internal/index/builder.go:337-347 | Between a term's start positions lie exactly that term's records, in document order |
| PostingFormat.BlockAt | internal/index/builder.go:366-455 | The two blocks at block b's offset decode to its deltas and frequencies |
| PostingFormat.PairAt | internal/index/builder.go:366-455 | The tail pair of posting i reads back as its delta and frequency and ends where the next starts |
| PostingFormat.DecodePostings | internal/segment/merge.go:189-227 | Decoding an encoded list gives every document and frequency of it |
| SkipList.BuildSkipList | internal/index/skiplist.go:32-51 | L1 samples every 32 L0 entries and holds the last document each covers; L0 is kept |
| SkipList.L1Samples | internal/index/skiplist.go:32-51 | One L1 entry per 32 L0 entries or part of them, with the index of the first and the document of the last of these |
| SkipList.BucketHolds | internal/index/skiplist.go:59-95 | The L1 bucket found holds the first block that reaches the target |
| SkipList.SkipTo | internal/index/skiplist.go:59-95 | The two-level search returns offset, base and number of the first block whose last document reaches the target, zeros past the end |
| SkipList.BlockFor | internal/index/skiplist.go:101-127 | The same block, false past the last full block or without a list |
| SkipList.FirstBlock | internal/index/skiplist.go:15-18 | On a list's own skip list that block is where the list passes the target |
| SkipBytes.RawSkipBytes | internal/index/inverted.go:160-190 | The buffer filled through the advancing offset is header, L0 entries, L1 entries |
| SkipBytes.L0Layout | internal/index/inverted.go:144-190 | Entry i of L0 lies at 8 + 28 i: document, offset, base, impact |
| SkipBytes.L1Layout | internal/index/inverted.go:144-190 | Entry j of L1 lies behind all of L0, 16 bytes each: document, L0 index |
| SkipBytes.LoadSkipFromBytes | internal/index/skiplist.go:162-192 | Loads exactly when the announced entries fit; each column is what the bytes say and L1 is rebuilt |
| SkipBytes.SkipRoundTrip | internal/index/skiplist.go:162-192 | Whatever is loaded from a skip list's bytes is that skip list |
| SkipBytes.Reload | internal/index/inverted.go:160-190 | Write then load: the same skip list, none when it was empty |
| BlockCache.KeyInjective | internal/index/blockcache.go:43-45 | 32-bit ordinals and block numbers never share a key |
| BlockCache.BlockCache.Get | internal/index/blockcache.go:47-49 | A hit is what decoding that block gives, whatever was set and evicted before |
| BlockCache.BlockCache.Set | internal/index/blockcache.go:51-53 | The entry is there, others keep their value or are evicted, and every cached block still agrees with decoding |
| PostingIter.PostingIter.LoadBlock | internal/index/postings.go:55-103 | From cache, packed blocks or the tail, the buffers hold the plain list's deltas and frequencies |
| PostingIter.PostingIter.Next | internal/index/postings.go:107-126 | One step of a cursor over the plain list, false at its end |
| PostingIter.PostingIter.SkipTo | internal/index/postings.go:194-227 | Stays when already at or past the target, else lands on the first later posting that reaches it, else false; the same with or without skip list and cache |
| PostingIter.PostingIter.ShallowBlock | internal/index/postings.go:157-184 | Impact and last document of the first full block from the forward cursor that reaches the target, without moving the iterator |
| PostingIter.ForwardTo | internal/index/postings.go:157-184 | Eight single steps or the fallback search, the block found is the same |
| ScoreHeap.ScoreHeap.Push | internal/index/maxscore.go:28-34 | Adds the entry and keeps a least one at the root |
| ScoreHeap.ScoreHeap.ReplaceMin | internal/index/maxscore.go:53-56 | The new entry takes the least one's place and a least one is at the root again |
| ScoreHeap.ScoreHeap.Sorted | internal/index/maxscore.go:60-76 | Everything kept, by descending score, ranked from 1 |
| TopK.ScoresAreDetermined | internal/index/maxscore.go:149-150 | Two exact top-K answers have equal scores at every rank |
| TopK.ExhaustiveIsTopK | internal/index/maxscore.go:149-150 | Scoring everything, sorting and cutting is an exact top-K |
| MaxScoreSteps.FindPivot | internal/index/maxscore.go:129-147 | The pivot is the largest head whose bound with margin stays below the threshold |
| MaxScoreSteps.PivotMonotone | internal/index/maxscore.go:129-147 | A higher threshold never lowers the pivot |
| MaxScoreSteps.TermBound | internal/index/maxscore.go:267-291 | Current block, shallow block or global bound: with the margin it bounds the term on every document of the range |
| MaxScoreSteps.SelectCandidate | internal/index/maxscore.go:237-251 | The least current document of the live essential terms |
| MaxScorePruning.OnlyNonEssential | internal/index/maxscore.go:117-147 | A document in no essential list scores below the threshold |
| MaxScorePruning.BlocksBehind | internal/index/postings.go:157-184 | The blocks a forward cursor has left end before the candidate |
| MaxScorePruning.InFirstBlock | internal/index/maxscore.go:253-292 | Within the range, a lagging term's postings lie in the one block found ahead of it |
| MaxScorePruning.Push | internal/index/maxscore.go:362-366 | Pushing a scored candidate keeps the heap the exact top-k of the documents passed |
| MaxScorePruning.Replace | internal/index/maxscore.go:367-370 | So does replacing the minimum, and the threshold does not fall |
| MaxScorePruning.Pass | internal/index/maxscore.go:293-305 | Documents that cannot beat the threshold may be passed |
| MaxScoreRounds.BlockBounds | internal/index/maxscore.go:264-292 | Bounds of all terms, their sum and the end of the range they hold on |
| MaxScoreRounds.RangeBounded | internal/index/maxscore.go:253-305 | The sum with the margin bounds the full score of every document of the range |
| MaxScoreRounds.SkipRange | internal/index/maxscore.go:293-305 | Every essential term ends past the range and none loses a later posting |
| MaxScoreScoring.ScoreEssential | internal/index/maxscore.go:319-333 | Adds exactly the essential terms' contributions and moves each past the candidate |
| MaxScoreScoring.ScoreRest | internal/index/maxscore.go:334-360 | The score is the full one, or scoring stopped early and both the partial and the full score stay at or below the threshold |
| MaxScoreScoring.CannotBeat | internal/index/maxscore.go:334-351 | When score plus rest cannot exceed the threshold, neither does the full score |
| MaxScore.UnreadIsPast | internal/index/maxscore.go:231-371 | Between rounds, what the essential terms have left to read is what their lists hold past the frontier |
| MaxScore.AllPastLess | internal/index/maxscore.go:231-371 | Passing a posting of an essential term leaves less, a rising pivot included |
| MaxScore.Round | internal/index/maxscore.go:231-371 | One iteration keeps the run invariant; threshold and pivot never fall, the frontier rises and the unread essential postings plus live essential iterators strictly fall, or the loop is done and the heap is exact |
| MaxScore.Loop | internal/index/maxscore.go:231-371 | The loop ends, by the postings its essential terms have left to read, and then the heap is the exact top-k of all documents |
| MaxScore.HeapIsTopK | internal/index/maxscore.go:373-374 | An exact heap, sorted, is an exact top-K with full scores |
| InvertedIndex.Iterator | internal/index/inverted.go:81-102 | A fresh cursor over the term's list with its skip list, none for an unknown term |
| InvertedIndex.HasTerm | internal/index/inverted.go:131-142 | Right exactly unless the term has no postings and the document is number 0 |
| QueryTerms.Collapse | internal/index/maxscore.go:159-170 | Distinct terms weighted by their frequency score every document as the tokens with repeats do |
| QueryEntries.MakeEntries | internal/index/maxscore.go:172-199 | One entry per known term over its own fresh iterator |
| QueryEntries.EntryDominated | internal/index/maxscore.go:190-198 | Domination of the stored bounds carries over to the weighted entry |
| QueryEntries.EntriesScore | internal/index/maxscore.go:172-199 | The entries' full score is the weighted sum over the query's distinct terms |
| QueryEntries.FullPermuted | internal/index/maxscore.go:204-207 | Sorting the entries by bound changes no document's score |
| MaxScoreSearch.Search | internal/index/maxscore.go:150-374 | For every index, token list and K: min(K, matches) distinct matching documents, each by its own ID in the document table and with its exhaustive score, none left out that scores higher; nothing for K <= 0 |
| MaxScoreSearch.SameAsExhaustive | internal/index/maxscore.go:149-374 | Rank by rank the answer scores what exhaustive search scores |
| DocScores.AnswersAreDocs | internal/index/maxscore.go:149-374 | An exact answer of an index is the exact top-K of its documents, with scores summed over the tokens from their frequencies, document counts and lengths, and with their IDs |
| DocScores.BuiltHolds | internal/index/builder.go:225-308 | A built index holds what a search reads of its documents |
| DocScores.AverageIs | internal/index/builder.go:225-308 | The average length times the number of documents is the sum of the lengths |
| BuiltIndex.LastWins | internal/index/builder.go:138-162 | The versions kept are exactly each document's last |
| BuiltIndex.LastIdempotent | internal/index/builder.go:263-308 | Adding only the last versions keeps them all, in the same order |
| BuilderTables.NewSlot | internal/index/builder.go:138-162 | A new slot supersedes the one before it and the tables still tell live slots from superseded ones |
| Compaction.Renumber | internal/index/builder.go:277-291 | Live slots get consecutive numbers in order, wrapped as an int32 wraps them, the others -1, and the tables are those of the last versions |
| Compaction.MovedRecorded | internal/index/builder.go:293-300 | The renumbered records are exactly those of the last versions whose number fits an int32 |
| IndexedDocs.IndexedIsLast | internal/index/builder.go:277-308 | A build indexes the last versions exactly when no version was superseded or no document from number 2^31 on has a term |
| IndexedDocs.FewAreKept | internal/index/builder.go:277-308 | Up to 2^31 live documents nothing is cut |
| IndexedDocs.TooManyAreCut | internal/index/builder.go:277-300 | One document added twice among 2^31 + 1: the last one loses its postings |
| IndexingSessions.AddsAreCut | internal/index/builder.go:277-307 | Add calls within the 32-bit limits that give this input |
| IndexBuilder.IndexBuilder.InternDoc | internal/index/builder.go:138-162 | A new slot for the document; its earlier slot is superseded |
| IndexBuilder.IndexBuilder.Add | internal/index/builder.go:184-215 | Appends the version with its term counts and length, whatever order the terms are taken in |
| IndexBuilder.IndexBuilder.PreRegisterDoc | internal/index/builder.go:492-496 | Appends a version without postings |
| IndexBuilder.IndexBuilder.WritePosting | internal/index/builder.go:501-516 | Gives the registered document's newest slot one more term; drops the posting of an unknown document but keeps the term |
| IndexBuilder.IndexBuilder.CompactTables | internal/index/builder.go:263-308 | Tables, total length and records of what is indexed; the builder stays as it is |
| IndexBuilder.IndexBuilder.Build | internal/index/builder.go:225-477 | The index of the last versions, save for postings an int32 number loses, and no field of the builder changes |
| TermSlices.TermStarts | internal/index/builder.go:337-347 | Prefix sums of the counts are where each term's records start |
| TermSlices.SliceIsList | internal/index/builder.go:337-347 | A term's slice is its posting list: one posting per document that has the term, in order |
| TermEncoding.EncodeBlock | internal/index/builder.go:387-428 | One full block: its bytes and a skip entry with last document, offset, delta base and maximum impact |
| TermEncoding.EncodeTail | internal/index/builder.go:430-446 | The rest as LEB128 pairs, and the running maximum over the whole list |
| TermEncoding.EncodeTerm | internal/index/builder.go:366-454 | The bytes encode the list, the skip list describes every full block with its rounded maximum impact, the bound is the maximum score |
| IndexAssembly.EncodeAll | internal/index/builder.go:349-455 | Every term's list encoded one after the other, with offsets, frequencies, skip lists and bounds |
| BuiltIndexFacts.BuiltRepresents | internal/index/builder.go:349-477 | A built index stores, for every term, the encoding of exactly its list, with a true skip list: what the iterators need |
| BuiltIndexFacts.BuiltUnique | internal/index/builder.go:225-477 | Documents and terms determine the index |
| BuiltIndexFacts.LastAddWins | internal/index/builder.go:138-162 | The index of all versions and that of the last versions agree on documents, lengths, count and average, and on every term's postings exactly when nothing is cut |
| BuiltIndexFacts.BuiltIsBounded | internal/index/builder.go:356-455 | Searching with the build's own scorer meets the domination precondition when its scores fit a 32-bit float |
| BuiltIndex.MaxIsReached | internal/index/builder.go:366-455 | A stored maximum is the score of some posting, unless it is 0 |
| SegmentFile.WriteSegment | internal/segment/writer.go:51-208 | The sections written one after the other are the file of the index: header with offsets, dictionary, term infos, lengths, IDs, and per term skip data and postings |
| SegmentFile.ParseSegment | internal/segment/format.go:82-180 | On any bytes: the segment read, or the error of the first check that fails |
| SegmentFile.RefusedBecause | internal/segment/format.go:82-106 | Which bytes make a file too small, without the magic, of another version, or without a dictionary, each exactly then and in that order |
| SegmentFile.ReadMeans | internal/segment/format.go:82-167 | A file that is read has magic and version; dictionary and postings lie where the header says |
| SegmentFile.CountsRead | internal/segment/format.go:131-150 | The lengths follow the term infos and the IDs follow the lengths, each behind the same count |
| SegmentFile.TablesRead | internal/segment/format.go:117-140 | Term info i is the four fields 24 i bytes behind its section's offset, length i the four bytes 4 i behind its own |
| SegmentFile.IDsRead | internal/segment/format.go:142-165 | The IDs lie one after the other, each behind its four-byte length |
| SegmentFile.NumbersRead | internal/segment/format.go:152-165 | An ID has a number exactly when it occurs, and that of its last place |
| SegmentFile.FileRoundTrip | internal/segment/format.go:82-180 | Parsing the file of an index gives back its terms, frequencies, lengths, IDs and postings, with the bounds rounded to 32 bits |
| SegmentReader.Iterator | internal/segment/reader.go:114-136 | A fresh cursor over the term's list, its skip list loaded from the bytes as it was, and none for a term the segment does not have |
| SegmentReader.SegmentPresents | internal/segment/reader.go:138-187 | Bounds and frequencies answered are those of the term tables with rounded bounds, 0 for an unknown term; IDs and lengths those of the document tables; count and average the same |
| SegmentReader.BuiltFileFits | internal/segment/writer.go:51-208 | Every built index whose sizes fit the fields writes a file that parses back |
| SegmentReader.FileHolds | internal/segment/merge.go:126-134 | The file of a built index, parsed, is to a merge a segment of exactly its documents |
| SegmentReader.LoadedIsBounded | internal/segment/reader.go:138-141 | A segment read back still meets the domination precondition with the scorer of the build, one rounding of each term's bound included |
| SegmentSessions.SearchSegment | internal/segment/reader.go:204-207 | Index, write, parse, search: the exact top-K of the indexed documents, by their IDs and with scores said of the documents alone |
| Bm25.ScoreStorable | internal/scoring/bm25.go:33-37 | Every score the default scorer gives in a build of up to 2^32 documents is positive and within the normal 32-bit range |
| Bm25.Bm25IsSame | internal/scoring/bm25.go:51-59 | Its two query-time parts multiply to its build-time score, so it meets what BuiltIsBounded asks |
| Bm25.TfNormIs | internal/scoring/bm25.go:33-37 | Times tf avg + 0.3 avg + 0.9 dl it is 2.2 tf avg; at the average length 2.2 tf / (tf + 1.2) |
| Bm25.LongerIsLess | internal/scoring/bm25.go:33-37 | A longer document scores strictly less |
| Bm25.OftenIsMore | internal/scoring/bm25.go:33-37 | A term that occurs more often scores strictly more |
| Bm25.IdfIs | internal/scoring/bm25.go:51-53 | The rarity is the logarithm of (n + 1) / (df + 0.5) |
| IndexingSessions.BuildTwice | internal/index/builder.go:225-308 | A second build returns the same index |
| IndexingSessions.AddAllOrLast | internal/index/builder.go:184-308 | For any Add calls: adding all versions or only the last ones, in order of last Add, gives the same tables, and the same postings exactly when nothing is cut |
| IndexingSessions.IndexAndSearch | internal/index/maxscore.go:150-374 | From any Add calls to the answer: the exact top-K of the documents the build indexes, by their IDs and with scores said of the documents alone; these are the last versions exactly when nothing is cut; nothing for K <= 0 |
| IndexingSessions.SearchWithBm25 | internal/index/maxscore.go:150-374 | The same for the scorer the engine builds with |
| IndexingSessions.StaleTerm | internal/index/inverted.go:131-142 | An Add sequence after which HasTerm is wrong |
| Replication.ReceiveCounts | internal/replication/replica.go:289-356 | After any message failures are counted for the next entry only and fewer than five; appliedSeq moves by one at most; an entry is set aside only on its fifth failure |
| Replication.DeliveryProgress | internal/replication/replica.go:323-354 | Each failed delivery of the next entry raises its count until the entry is passed |
| Replication.FiveDeliveries | internal/replication/replica.go:62-65 | Five deliveries of the next entry always move the replica past it |
| Replication.GapStops | internal/replication/replica.go:318-327 | A message beyond the next entry ends the stream and leaves the replica as it was |
| Replication.NextMovesOrStops | internal/replication/replica.go:328-354 | The next entry moves the replica when it applies or fails for the fifth time, and ends the stream when it fails less often |
| Replication.StoredStays | internal/replication/primary.go:98-107 | A stored entry stays in its slot until 10000 newer ones were stored |
| Replication.LettersAreLast | internal/replication/deadletter.go:58-80 | The letters kept are the last 100 written, the newest last |
| ReplicationRun.StepKeeps | internal/replication/primary.go:98-243 | Every enabled step of primary, network and replica keeps the invariant |
| ReplicationRun.RunKeeps | internal/replication/replica.go:173-356 | So it holds in every state of every run |
| ReplicationRun.SendKeeps | internal/replication/primary.go:161-180 | Whatever source an entry comes from, what was sent stays an exact stretch of the log |
| ReplicationSafety.HandledIsTheLog | internal/replication/replica.go:289-356 | What a replica process handled is exactly the log from where it started to appliedSeq, once each, in order; appliedSeq never passes the head |
| ReplicationSafety.EverHandled | internal/replication/replica.go:133-150 | Across restarts, every entry up to appliedSeq was handled in some state: none is passed over |
| ReplicationSafety.SetAsideAfterFive | internal/replication/deadletter.go:10-15 | An entry is dead-lettered exactly when it failed five times; an applied one was applied once, after fewer failures |
| ReplicationSafety.NothingAheadWasTried | internal/replication/replica.go:62-65 | Counts never leak: only the next entry has failures and none ahead was applied |
| ReplicationSafety.StepMonotone | internal/replication/replica.go:222-237 | Only a crash lowers appliedSeq, to the saved number and never above what was applied; a graceful close keeps it |
| ReplicationSafety.GapDisconnects | internal/replication/replica.go:318-327 | In every run the delivery of a message beyond the next entry leaves no connection, its channel gone and the replica unchanged |
| ReplicationSafety.OthersGoOn | internal/replication/replica.go:307-317 | Heartbeats, old entries and applied ones leave the stream as it is, one message shorter |
| ReplicationSafety.ResyncStep | internal/replication/replica.go:293-301 | needsResync is set by a refusal alone and stays set until an entry is handled |
| ReplicationSafety.OthersUntouched | internal/replication/primary.go:98-158 | No step of one stream touches another's channel: appends add to it, its own stream takes from it, and only its own end or a restart of the primary removes it |
| ReplicationSafety.HeadTracksLog | internal/replication/primary.go:98-116 | In every run the ring's head is 0 or just past what was stored of the log |
| ReplicationSafety.NeverFalls | internal/replication/replica.go:289-356 | While the process lives appliedSeq never falls and nothing handled is taken back |
| ReplicationSafety.StartIsTheLogsEnd | internal/replication/primary.go:182-187 | The number a stream must reach is the end of the log at the step where this very stream read it |
| ReplicationSafety.NoSilentHole | internal/replication/primary.go:182-222 | A stream that goes live has sent every entry after fromSeq up to the log's end as it was at that step, once each, in order |
| ReplicationSafety.LiveForwardsOrEnds | internal/replication/primary.go:161-180 | The entry at the head of the channel was sent already, or is the next of the log and is forwarded, or lies beyond a gap and ends the stream with Unavailable |
| ReplicationSafety.NoDropNoEnd | internal/replication/primary.go:98-116 | A live stream whose channel lost nothing does not end by itself |
| ReplicationSafety.DrainedIsCaughtUp | internal/replication/primary.go:224-243 | A live stream with an empty channel that lost nothing has sent the whole log |
| ReplicationCatchUp.RingHoldsTheLatest | internal/replication/primary.go:98-107 | In every state of every run the ring holds entries of the last 10000 only, with one of them all later ones, and the newest |
| ReplicationCatchUp.ScanForwardsOrEnds | internal/replication/primary.go:161-180 | A scanned entry was sent already, or is the next and is forwarded, or lies beyond a gap and ends the stream, to be re-seeded |
| ReplicationCatchUp.CatchUpSucceeds | internal/replication/primary.go:195-222 | A stream that finds in the ring every entry it has not sent sends them all and goes live, unless the log had ended later still when it started |
| ReplicationCatchUp.RetainedGoesLive | internal/replication/primary.go:195-222 | A replica whose next entry is in the ring when the scan ends and that is at most 10000 entries behind goes live with all the log had then |
| ReplicationCatchUp.QuietRing | internal/replication/primary.go:195-222 | Without appends a ring that holds the next entry gives all the rest |
| ReplicationSafety.GapsNeedLoss | internal/replication/replica.go:296-322 | Without losses or repeats on the network every message is a heartbeat or the entry the replica waits for |
| ReplicationNodes.PrimaryReplicator.Append | internal/replication/primary.go:98-116 | Stores the entry in the slot of its number and in no other, and adds it to every channel with fewer than 256 entries; full channels lose it |
| ReplicationNodes.PrimaryReplicator.Unregister | internal/replication/primary.go:141-145 | Removes exactly this connection's channel; every other one keeps its entries |
| ReplicationNodes.HeadSeqIsTheLogs | internal/replication/primary.go:72-82 | In every state of every run HeadSeq is the log's last number when the WAL is asked, and from the ring alone that number once the append is stored, 0 while the ring is empty |
| ReplicationNodes.SendEntry | internal/replication/primary.go:161-180 | Skips, forwards or fails as the sequence number demands, keeping an exact stretch |
| ReplicationNodes.CatchUp | internal/replication/primary.go:182-222 | Whatever the scan yielded and however the ring changes between reads: an exact stretch of the log, and success exactly when the scan leaves no hole, the ring goes on from there without one, and both reach lastAtStart |
| ReplicationNodes.StreamToReplica | internal/replication/primary.go:160-243 | Everything sent is an exact stretch of the log; once caught up, all arrivals are sent when each was sent before or is the next, and else the stream ends with Unavailable |
| ReplicationNodes.ReplicaApplier.LoadAppliedSeq | internal/replication/replica.go:133-150 | The saved number, the initial one without a file, an error for a malformed file |
| ReplicationNodes.ReplicaApplier.PersistTick | internal/replication/replica.go:222-237 | A tick saves the number observed a tick earlier, so the saved number never runs ahead of appliedSeq and never goes back |
| ReplicationNodes.ReplicaApplier.DeadLetterEntry | internal/replication/deadletter.go:58-87 | Appends to the file, counts, and keeps the last 100 letters of it, the new one last |
| ReplicationNodes.ReplicaApplier.Take | internal/replication/replica.go:296-354 | One message changes the state as the step model says: old ones nothing, one beyond the next entry stops the stream, the next moves it when it applies |
| ReplicationNodes.ReplicaApplier.ApplyStream | internal/replication/replica.go:289-356 | A whole stream is the fold of its messages up to the first error; a message beyond the next entry is the last one read; needsResync is set exactly by a refusal and stays until an entry is handled |
| ReplicationNodes.GapEndsStream | internal/replication/replica.go:318-327 | Whatever else was under way, a stream is given up at a gap |
| ReplicationNodes.ConsumedKeeps | internal/replication/replica.go:289-356 | However a stream goes, appliedSeq does not fall and counting stays exact |
| WalFormat.StrBack | internal/shard/wal.go:608-658 | A length-prefixed string within its width reads back with what follows it |
| WalFormat.PairsBack | internal/shard/wal.go:508-600 | A written map reads back, in whatever order its entries were written |
| WalFormat.EntryRoundTrip | internal/shard/wal.go:508-600 | Decoding an encoded entry gives back what the log keeps of it |
| WalFormat.OpByByte | internal/shard/wal.go:534-600 | Of a payload with a readable ID, byte 16 decides: 2 is a delete, 1 an index with its text, anything else is refused; number, time and ID are at their offsets |
| WalFormat.EntryLayout | internal/shard/wal.go:508-531 | An encoded entry has number, time, 1 for an index and 2 otherwise, and the ID at fixed offsets; a delete has nothing more |
| WalRecords.WriteRecord | internal/shard/wal.go:496-505 | Appends length, checksum and payload |
| WalRecords.ReadBinaryWALRecords | internal/shard/wal.go:396-445 | On any bytes: the valid records in order, corrupt ones skipped, a cut tail ends it |
| WalRecords.DeleteRead | internal/shard/wal.go:396-445 | The bytes of a delete record are read as that delete, whatever follows |
| WalRecords.UnknownOpSkipped | internal/shard/wal.go:596-597 | A record with another operation byte is passed over |
| WalRecords.RecordsAt | internal/shard/wal.go:401-412 | Four bytes of length and four of checksum, then the payload: a record that is cut ends the file |
| WalRecords.CorruptSkipped | internal/shard/wal.go:413-438 | A record with a bad checksum or payload is passed over and later ones survive |
| WalRecords.WholeRecordsIs | internal/shard/wal.go:396-445 | Record k counts as inside a prefix exactly when the stream up to it fits |
| WalRecords.PrefixDecodes | internal/shard/wal.go:396-445 | Any byte prefix decodes to exactly the entries whose records lie wholly inside it |
| WalRecords.StreamRoundTrip | internal/shard/wal.go:396-600 | A whole stream decodes to its entries |
| HashRing.BuildConsistentRing | internal/cluster/ring.go:135-154 | The sorted ring holds every vnode of every shard; vnodes <= 0 means 150 |
| HashRing.ConsistentRing.Swap | internal/cluster/ring.go:191-194 | Tokens and owners move together |
| HashRing.ConsistentRing.ShardFor | internal/cluster/ring.go:177-186 | The owner of the clockwise successor token, wrapping around |
| HashRing.OwnerUnique | internal/cluster/ring.go:177-186 | With distinct tokens every position has one owner |
| HashRing.GrowthMovesToNewShard | internal/cluster/ring.go:135-154 | With one more shard every document stays or moves to the new shard |
| HashRing.RouteAcrossGrowth | internal/cluster/ring.go:135-186 | The same through both rings' ShardFor |
| SegmentContents.IndexMakesSegment | internal/segment/merge.go:59-183 | A built index, loaded as a segment, holds exactly its documents |
| SegmentMerge.BuildDocMap | internal/segment/merge.go:64-85 | Each live document is owned by the last input holding it, with that input's length; tombstoned ones by none |
| SegmentMerge.RegisterAll | internal/segment/merge.go:87-92 | Exactly the owned documents are registered, once each, whatever order the map is walked in |
| SegmentMerge.WriteOne | internal/segment/merge.go:133-143 | One posting goes to its document and to no other |
| MergeLoop.EmitPostings | internal/segment/merge.go:126-145 | A term of a segment is written for exactly the documents that segment owns |
| MergeLoop.ConsumeOne | internal/segment/merge.go:121-152 | Popping one iterator keeps what is written equal to the owned postings of the terms consumed |
| Merging.MergeTerms | internal/segment/merge.go:94-152 | Every term of every segment is consumed once, in ascending order |
| Merging.MergeSegments | internal/segment/merge.go:59-183 | The output holds, for every document not tombstoned, exactly the version of the last input that has it; no inputs is an error |
| Merging.MergedPostings | internal/segment/merge.go:59-183 | (term, doc, tf) is in the output exactly when doc is not tombstoned and the last input holding doc has it |
| Merging.OrderByFlushSeq | internal/shard/merge.go:357-370 | Ascending FlushSeq, each segment still with its own |
| Merging.NewestSurvives | internal/shard/merge.go:357-370 | On inputs so ordered the version kept is the one flushed last |
| MergeRefinement.MergeRefines | internal/shard/merge.go:161-208 | With inputs ordered by FlushSeq, the record the shard model gives a merge's output is that of exactly the documents the k-way merge keeps |
| MergeRefinement.OrderIrrelevant | internal/shard/merge.go:161-186 | Contents and number of that record do not depend on the order in which the inputs are listed |
| MergeRefinement.MergeInputs | internal/shard/merge.go:161-208 | The k-way merge of ordered inputs writes the segment that the shard model records |
| ShardSequence.AboveIs | internal/shard/wal.go:240-271 | Replay takes exactly the log's entries above the mark, in order |
| ShardSequence.NeverRewinds | internal/storage/manifest.go:124-158 | No write, flush, reset, merge or restart lowers the high-water mark or the next number, and numbers stay fresh |
| ShardSequence.RunNeverRewinds | internal/shard/segmentmanager.go:396-407 | Over any run, and the next number exceeds the mark and everything logged |
| ShardSequence.MergeNumbers | internal/shard/merge.go:180-186 | The output's number is an input's, so the maximum stays |
| ShardRecovery.ReplayIs | internal/shard/wal.go:294-320 | What replay leaves of a document: its last index, its last delete, and which tombstones are on disk |
| ShardRecovery.RecoverIs | internal/shard/segmentmanager.go:462-507 | Recovery brings back buffer, segments and numbering; its tombstones are those of the log's last operations, else of the manifest, and the ones before the crash but for documents that nothing holds; it says which are lost on disk |
| ShardRecovery.RecoveryPreserves | internal/shard/segmentmanager.go:462-507 | Every document reads after one recovery as before the crash, also after merges purged tombstones whose deletes are still in the log |
| ShardRecovery.RestartInSync | internal/shard/wal.go:294-320 | When no replayed document was indexed and then deleted, disk and memory fit each other after a restart as before |
| ShardRecovery.FlushPreserves | internal/shard/flush.go:172-258 | A flush changes no document's reading |
| ShardRecovery.SecondCrash | internal/shard/wal.go:294-320 | A second crash keeps it exactly when no document was indexed and then deleted in the replayed log |
| ShardRecovery.DeletedDocReturns | internal/shard/wal.go:294-320 | Index, delete, two crashes around a flush: the document is back |
| ShardMerge.MergeKeepsDoc | internal/shard/merge.go:180-299 | A merge keeps a document's reading exactly when it is safe |
| ShardMerge.MergePreserves | internal/shard/merge.go:180-299 | A merge keeps the whole shard exactly when every document is safe |
| ShardMerge.AdjacentIsSafe | internal/shard/merge.go:180-299 | Merging neighbours in flush order is safe when no deleted document has a copy elsewhere |
| ShardMerge.MergeInSync | internal/shard/merge.go:180-299 | After a merge that is safe for every document a restart still finds what memory holds, the purged tombstones of logged deletes included |
| ShardMerge.CopyOvertaken | internal/shard/merge.go:180-186 | A newest copy outside whose number is not above the inputs' highest is replaced by the inputs' newest copy |
| ShardMerge.PurgedReturns | internal/shard/merge.go:256-299 | Once a merge purged a document's tombstone, the newest copy outside is found again |
| ShardMerge.StaleCopyWins | internal/shard/merge.go:180-186 | In a backlog of any number of segments, a merge that takes the old text and something flushed last, but not the newer text, brings the old text back |
| ShardMerge.BacklogReached | internal/shard/flush.go:172-258 | A run of writes, each flushed, reaches that backlog |
| ShardMerge.PurgeRevives | internal/shard/merge.go:256-299 | Of two segments that hold a deleted and a live document, merging either one alone revives the other's copy of the deleted one and leaves the live one as it reads |
| ShardMerge.DeletedTwiceReached | internal/shard/segmentmanager.go:594-614 | Four writes, two flushes and a delete reach that state |
| ShardMerge.ExpungeRevives | internal/shard/tieredmerge.go:150-161 | There the delete is counted against the older segment, the expunge picks that segment alone, and the newer text is found again |
| ShardMerge.SmallestArePicked | internal/shard/merge.go:396-414 | Whatever the order of equal sizes, a forced merge of a batch of n leaves out a segment with n smaller ones and takes one with at most n not larger, itself included |
| ShardMerge.ForcedMergeLoses | internal/shard/merge.go:396-414 | For any segments and any batch: when a segment with the newest text of a document is left out by size and its number lies below a picked one's, the newest picked copy replaces its text |
| ShardMerge.EveryBatchLoses | internal/shard/merge.go:396-414 | For every batch of two or more there is a reachable backlog of one segment more on which that happens |
| ShardRuns.ExecInSync | internal/shard/segmentmanager.go:462-614 | Writes, flushes, resets, safe merges and harmless restarts keep disk and memory in step, over any run |
| ShardRuns.ExecIsLogical | internal/shard/segmentmanager.go:537-614 | Any such run holds the last-write-wins map, at every document |
| ShardRuns.CrashRecovery | internal/shard/wal.go:226-320 | After any such run, one more crash and recovery leave that map |
| ShardConvergence.ResumeConverges | internal/replication/replica.go:26-30 | However many streams broke off and resumed from saved positions, once the last has come as far as any did the state is that of the log up to there |
| ShardConvergence.StreamsAgree | internal/replication/replica.go:26-30 | Before that, a document that nothing from entry k on settles is as the first k entries leave it, for every k the last stream covers |
| ShardConvergence.ExecFromReads | internal/shard/segmentmanager.go:537-614 | Writes, flushes, resets and safe merges do to any recovered shard what they do to the logical map |
| ShardConvergence.ReplicaReadsAsPrimary | internal/replication/replica.go:133-150 | A replica that flushed, merged, crashed and recovered harmlessly in between reads as the primary's shard once its last stream has come as far as any did |
| ShardManager.ShardMeta.AddThenRemoveSegments | internal/storage/manifest.go:96-112 | Output in and inputs out, the others untouched |
| ShardManager.ShardMeta.SeqHighWater | internal/storage/manifest.go:139-147 | The larger of the floor and the largest FlushSeq |
| ShardManager.ShardMeta.SetSeqFloor | internal/storage/manifest.go:150-158 | Raises the floor, never lowers it |
| ShardManager.ShardMeta.RemoveTombstone | internal/storage/manifest.go:176-193 | Exactly this document's record goes |
| ShardManager.ShardMeta.Reset | internal/storage/manifest.go:205-211 | Segments and tombstones go, the floor stays |
| ShardManager.SegmentManager.IndexDocument | internal/shard/segmentmanager.go:537-591 | Logs the document under the next number, buffers it and clears its tombstone: the model's index step |
| ShardManager.SegmentManager.DeleteDocument | internal/shard/segmentmanager.go:594-614 | Logs the delete and records the tombstone in memory and on disk: the delete step |
| ShardManager.SegmentManager.FlushBuffer | internal/shard/flush.go:172-258 | Registers the buffer as a segment under the last number, empties it and rotates the log: the flush step |
| ShardManager.SegmentManager.ResetShard | internal/shard/segmentmanager.go:348-424 | Empties log, buffer, tombstones and manifest and raises the floor: the reset step |
| ShardManager.SegmentManager.ReplayWAL | internal/shard/wal.go:226-272 | The replay loop applies the entries above the mark in order and finds the largest number |
| ShardManager.SegmentManager.LoadFromMeta | internal/shard/segmentmanager.go:462-507 | Loading is the model's recovery |
| ShardManager.SegmentManager.ExecuteMerge | internal/shard/merge.go:180-351 | The loops for the number, the purged tombstones and the manifest take the merge step of the model, whatever inputs a policy or a caller chooses |

## Left out

- Floating point: scores, impacts and bounds are reals; only the margin 1 + 1e-6 and an unknown 32-bit rounding remain. An average length that is not positive, where the code divides by it, never arises in a build.
- RadixSort.RadixSortPostings: below 512 elements `sort.Slice` is any ordered permutation (a verified insertion sort); the same for `sort.Strings` below 32.
- ScoreHeap.ScoreHeap.Push: `container/heap` is a sequence with a least entry at the root, not its sifting; likewise the merge heap.
- HashRing.ConsistentRing.Sort: `sort.Sort` is a sort by swaps; the ring hash is an unknown function, and growth assumes distinct vnode tokens.
- BlockCache.BlockCache.Set: which entries an LRU cache evicts is left open, and concurrent use of one cache is left out.
- InvertedIndex.HasTerm: the term dictionary (FST) is a map from terms to ordinals, and the segment's is the sorted list of its terms; bloom filters are left out.
- MaxScoreSearch.Search: IDF caching and readers without numeric document lengths are left out; both give the same numbers.
- IndexBuilder.IndexBuilder.Build: the temporary file's 12-byte records are a sequence of records, and its I/O errors are left out; slots and terms are assumed below 2^32, where the code's uint32 numbers wrap; the int32 numbers of a compaction are modelled.
- IndexBuilder.IndexBuilder.Add: the per-field index (`AddFields`, BM25F) is left out.
- ReplicationNodes.StreamToReplica: what scan, ring reads and channel yield are parameters; their interleaving with appends is in `ReplicationRun`.
- ReplicationNodes.ReplicaApplier.DeadLetterEntry: the dead-letter file is an append-only sequence; its JSON text, its errors and the wall-clock fields are left out.
- Replication timing: back-off, heartbeat periods and idle timeouts; a step may happen at any time instead. A primary that loses unsynced entries it already streamed is left out. A stream that its replica gave up but that still runs on the primary is a channel like those of other replicas.
- ReplicationSafety.NoSilentHole: speaks of primaries that know their last assigned number (`lastSeq` set), as the source promises it only then.
- WalRecords.ReadBinaryWALRecords: LZ4 payloads, JSON log files, the file header and I/O errors are left out; the checksum is an unknown function.
- WalFormat.EntryRoundTrip: for entries within their field widths; a longer string is cut by its length field as in the code, and nothing is claimed of it.
- ShardRuns.CrashRecovery: the log is fully synced and every operation is one atomic step; background flushes, writers between log append and buffer add, and `wal=off` writes are left out.
- ShardManager.SegmentManager.ExecuteMerge: file names, uploads and deletions are left out, and of the choice of inputs the tiered policy's scores; documents are opaque contents here, and what the merge does to postings is in `Merging`, tied to these contents by `MergeRefinement.MergeInputs`.
- Merging.MergeSegments: inputs whose documents or terms together reach 2^32, which the 32-bit numbers cannot hold; the stored-fields sidecar, file writing and the term iterators of segments without terms are left out.
- SegmentContents.IndexMakesSegment: a segment is its logical tables and posting bytes here; its file is in `SegmentFile`.
- SegmentFile.ParseSegment: the dictionary's own bytes are an unknown function that loads what it built, offsets do not wrap at 64 bits, and file names, memory mapping and the bloom and stored-fields sidecars are left out.
- Search across segments (`searchAll`), RRF fusion, snippets, phrase boosts, the query parser, tokenizers, the cluster's node placement (`Ring.Rebuild`) and everything under cmd/ and internal/api.
