# Monocle, verified

Monocle is a crawler with a search engine. This project models its hand-written algorithms and
state in Dafny and proves what they are for.

- **Spelling correction** (`EditDistance`, `SpellChecker`, `NGrams`, `Store`, `Repository`,
  `Indexer`). The table of the edit distance computes the length of the shortest script of
  insertions, deletions and replacements. The chunked n-gram index files, under every n-gram,
  exactly the words of the log of all indexed words that contain it. k edits cannot destroy all
  windows of a word that has more than k·n of them, and this bound is the best possible. Together:
  the replacement of a query word is an indexed word within the bound whenever there is one and the
  query word is long enough.
- **Inverted index** (`Keys`, `Store`, `Repository`, `Positions`). Keys read back, a prefix scan
  returns the last postings written for a word, and the recorded positions of a document lose and
  invent nothing.
- **Link cache** (`LruCache`, `CacheTraces`). The linked list and the map refine a recency sequence;
  on every trace a smaller cache is a subsequence of a larger one, and a key just used stays as long as
  fewer other keys than the capacity are used.
- **Search features** (`Proximity`, `UrlScanner`, `Cosine`). The greedy chain of binary searches is
  the minimum over all chains, the address scanner is exact for a word under an exact condition,
  and the similarity obeys the Cauchy-Schwarz inequality.
- **Worker pool and crawl** (`CrawlMachine`, `CrawlCoverage`, `CrawlExactness`, `CrawlRaces`,
  `CrawlLosses`). Run, the workers and all nested inline tasks take
  interleaved steps. Every run is finite, no run gets stuck before Run returns, no task is lost or
  run twice, nothing is sent on a closed channel, and no page is fetched twice. Only pages within the
  depth limit are fetched; conditions on the link graph say when all of them are, in every
  interleaving, and there are runs that miss a page.
- **Tokenizer and stemmer** (`Tokenizer`, `Stemmer`, `StemOrder`, `StemThresholds`). Tokens spell the
  text, every selected entity is a token, runs are maximal and unique, words and lemmas come from
  exactly the tokens they should, and the stemmer is described for every order in which its rule maps may be
  walked, down to exactly which words have one stem.

## How the code is modelled

Strings are sequences of runes; where the code counts bytes, the width of a rune is a parameter.
Letter classes, lower-casing, the three regular expressions (which stretches of a text they match)
and the square root are parameters with stated properties. The stemmer's rule maps are fields, as in
the code, and the general results hold for all rules that lengthen no word. An arbitrary choice (`:|`) stands for the
order in which Go walks a map and in which a scan meets keys, so every result holds for all orders.
The key-value store is a map from keys to decoded values and writes succeed. The index starts from
an empty store, because the chunk counters are not reloaded, and one n is used for all n-grams
(internal/app/indexer/indexer.go:61). Concurrency is a state machine whose runs are arbitrary
sequences of possible steps.

What the proofs brought out about the code:

- The address scanner skips a whole word length after a partial match and can step over an
  occurrence. It is exact for all texts if and only if the last rune of the word occurs nowhere
  earlier in it (`UrlScanner.ExactForAllTexts`).
- A lookup of a word fails with a decoding error if and only if some stored word continues it with
  an underscore (`Repository.IndexRepository.GetDocumentsByWord`). Stored e-mail and web addresses
  can do that: with "john_doe@mail.org" stored, a lookup of "john" fails (`Store.AddressShadows`).
- The query handler compares the lemma's index, not the word's, with the number of words, so a word
  after a number or an address may go uncorrected. Every word is covered if and only if no other
  lemma precedes a word lemma (`Indexer.EveryWordEligible`). In "7 helo" the word never is, whatever
  is indexed (`Indexer.NotCorrected`).
- The stem of a word depends on the order in which the rule maps are walked: "ponies" and "agreed"
  have two stems each (`StemOrder.TwoStems`). Two outcomes of a step never meet again, so a stem is the
  only one exactly if none of seven suffixes was met, and could be replaced, at its step on the way;
  any one run of the stemmer shows it (`StemOrder.OneStem`).
- An indexed word is found again by its stem if it has only one (`Indexer.QueryFindsWord`). A word
  with two may be filed under one and looked up under the other (`Indexer.TwoStemsMayMiss`).
- Taking in a document again adds and replaces postings and removes none. It is then found under words
  it no longer contains exactly if it had postings for them (`Store.StaleWords`). Within a run no page
  is fetched twice; it takes a store kept from a run that ended before the visited addresses were
  saved, which happens only when the run returns (internal/app/indexer/indexer.go:78).
- A crawl that nothing from outside cuts short can still miss pages. A page found again at a smaller
  depth has its links submitted again, but they are looked for in the cache and the store
  (internal/app/scraper/scraper.go:131-142); while the first visit is still fetching they are in
  neither, and the second task ends. Links recorded at no greater depth are also left out of what is
  stored (internal/app/scraper/htmlHandling.go:155-160). So a page may stay as deep as it was first
  seen. With start pages "a" and "u", links from "a" to "u" and from "u" to "v", and depth limit two, a
  run misses "v", one link below a start page (`CrawlLosses.MissesOneLinkAway`).
- No page is ever found again at a smaller depth, in all interleavings and for all numbers of workers,
  if and only if all simple paths to a page below the depth limit have the same length
  (`CrawlRaces.ReloadsIff`), and then the crawl is exact. It is also exact under another condition, which
  looks at the last depth only (`CrawlExactness.CrawlIsExact`), and not exact, with enough workers, if
  every path to a page leads through one that can be first seen there (`CrawlLosses.PageMissed`).
- The branch that skips a replacement with an empty stem can never be taken, and neither can the
  last return of the replacement search.
- A page whose site map can be read is dropped before it is looked up, since the site map call
  always ends with an error value (internal/app/scraper/sitemapHandling.go:132-135,
  internal/app/scraper/scraper.go:121-124). The model allows this outcome for every page.
- The repository's README names a limit of links per page; the code has none. The number of links
  is a parameter of the bound on submitted tasks.

## Model

| member | source | states |
|---|---|---|
| EditDistance.WithinIffScript | internal/app/indexer/spellChecker/spellChecker.go:66-79 | the distance is at most k exactly when at most k single-rune edits, at any positions, turn one word into the other |
| EditDistance.NoShorterScript | internal/app/indexer/spellChecker/spellChecker.go:66-79 | every script that turns one word into the other is at least as long as the distance, although equal last runes look only at the diagonal |
| EditDistance.ShortestScript | internal/app/indexer/spellChecker/spellChecker.go:66-79 | a script of exactly the distance's length exists |
| EditDistance.EditMovesByOne | internal/app/indexer/spellChecker/spellChecker.go:66-79 | one edit anywhere in a word raises or lowers its distance to any other word by at most one |
| EditDistance.PrefixStep | internal/app/indexer/spellChecker/spellChecker.go:68-75 | the recurrence between neighbouring cells: diagonal for equal runes, else one more than the least of three |
| EditDistance.AtLeastLengthDifference | internal/app/indexer/spellChecker/spellChecker.go:51-53 | the distance is at least the difference of the lengths, so the cut-off rejects no word within the bound |
| EditDistance.MapContracts | internal/repository/chunkRepos.go:71 | lower-casing both words never moves them apart |
| Spelling.SpellChecker.LevenshteinDistance | internal/app/indexer/spellChecker/spellChecker.go:49-80 | the filled table returns the distance when the lengths differ by at most the bound, and always tells exactly whether the distance is within the bound |
| Spelling.SpellChecker.BestReplacement | internal/app/indexer/spellChecker/spellChecker.go:21-47 | the first candidate within the bound, the word itself when there is none |
| Spelling.SpellChecker.CorrectsWithinBound | internal/app/indexer/spellChecker/spellChecker.go:21-47 | such a replacement is the word or a candidate within the bound, and the latter whenever there is one |
| NGrams.ExtractNGrams | internal/repository/chunkRepos.go:70-86 | the windows of n lower-cased runes, each where it first occurs and in that order; none for a short word |
| NGrams.DedupKeeps | internal/repository/chunkRepos.go:79-84 | dropping repeated n-grams leaves each exactly once |
| NGrams.DedupInOrder | internal/repository/chunkRepos.go:53-84 | what is left are exactly the first occurrences, in their order |
| NGrams.EarlierComesFirst | internal/repository/chunkRepos.go:53-59 | of two results the one that occurs first comes first |
| NGrams.AlignmentKeepsWindow | internal/repository/chunkRepos.go:77-85 | along an optimal alignment a run of n matched runes must appear when the word is long for its distance |
| NGrams.CloseWordsShareGram | internal/repository/chunkRepos.go:31-86 | the q-gram lemma: with L - n + 1 > k·n every word within distance k shares an n-gram, in lower case |
| NGrams.BoundIsTight | internal/repository/chunkRepos.go:31-86 | with L - n + 1 = k·n there is a word within distance k that shares no n-gram, for all n and k |
| Keys.PaddedReadsBack | internal/repository/chunkRepos.go:95 | the four-digit chunk number reads back, also beyond four digits |
| Keys.PaddedLength | internal/repository/chunkRepos.go:95 | at least four digits, and exactly four below ten thousand |
| Keys.ChunkKeyReadsBack | internal/repository/chunkRepos.go:39-95 | a chunk key names one n-gram and number, and the prefix of an n-gram meets only its own chunks |
| Keys.HexReadsBack | internal/repository/indexRepos.go:164-169 | decoding the hexadecimal form of an id gives the id back |
| Keys.UnderscoreIsNotHex | internal/repository/indexRepos.go:164-167 | a remainder with an underscore does not decode |
| Keys.WordKeyReadsBack | internal/repository/documentRepos.go:16 | a posting key names one word and one document |
| Keys.ScanMeets | internal/repository/indexRepos.go:156-161 | the prefix scan for a word meets its postings and those of words that continue it with an underscore, no others |
| Keys.RemainderDecodes | internal/repository/indexRepos.go:162-169 | what is left of a met key decodes, to the document, exactly when the stored word is the queried one |
| Store.FileOne | internal/repository/chunkRepos.go:17-25 | filing a word appends it under its n-gram and nowhere else, whether or not the buffer becomes a chunk |
| Store.FileWordAgrees | internal/repository/chunkRepos.go:15-26 | filing a word under its n-grams keeps the agreement of chunks and buffers with the log |
| Store.FileWordsAgrees | internal/repository/chunkRepos.go:14-28 | after any batch of words, chunks in order followed by the buffer are, for each n-gram, the logged words containing it |
| Store.FileWordsFull | internal/repository/chunkRepos.go:19-24 | until a flush every chunk has exactly a hundred words and every buffer fewer |
| Store.FlushAllKeepsFiled | internal/repository/chunkRepos.go:107-114 | flushing files nothing new and loses nothing under any n-gram |
| Store.FlushOneMore | internal/repository/chunkRepos.go:108-113 | one more buffer written out, or skipped when empty, in any order |
| Store.NextChunkStored | internal/repository/chunkRepos.go:92-104 | writing the next numbered chunk keeps the store equal to the chunk lists and overwrites none |
| Store.ScanMeetsChunk | internal/repository/chunkRepos.go:42-52 | every key the scan for an n-gram meets is that of one of its chunks, and leads to that chunk |
| Store.ChunkIsMet | internal/repository/chunkRepos.go:42-52 | every chunk of the n-gram is met by the scan |
| Store.ScannedWords | internal/repository/chunkRepos.go:42-59 | in whatever order the chunks are met, the words found are those of the chunks and no others |
| Store.FlushedChunks | internal/repository/chunkRepos.go:31-114 | the chunks hold only logged words containing the n-gram, and all of them when nothing is buffered |
| Store.FirstPositions | internal/repository/indexRepos.go:125-128 | the first 500 positions of a word, or all of them when there are fewer |
| Store.PutPosting | internal/repository/indexRepos.go:124-143 | a written posting replaces the one of its word and document and no other |
| Store.PostingsStep | internal/repository/indexRepos.go:123-144 | one more word of a document written |
| Store.WrittenReadsBack | internal/repository/indexRepos.go:104-185 | a document's words read back with the recorded count and the first 500 recorded positions, and every other document of the word as before |
| Store.OthersStay | internal/repository/indexRepos.go:104-152 | postings of other documents and of words that were not recorded stay |
| Store.StaleWords | internal/repository/indexRepos.go:104-152 | a document taken in again is found under none but its recorded words if and only if it had no posting for another word |
| Repository.IndexRepository.constructor | internal/repository/indexRepos.go:26-39 | an empty store agrees with an empty log |
| Repository.IndexRepository.FlushChunk | internal/repository/chunkRepos.go:88-105 | the counter goes up by one, the words become the n-gram's next chunk, and no other kind of key is touched |
| Repository.IndexRepository.BufferWord | internal/repository/chunkRepos.go:17-25 | the new state of chunks and buffers after one word under one n-gram |
| Repository.IndexRepository.IndexWord | internal/repository/chunkRepos.go:16-26 | one word filed under each of its n-grams |
| Repository.IndexRepository.IndexNGrams | internal/repository/chunkRepos.go:14-28 | the words enter the log, the agreement of store, counters, buffers and log is kept, and only chunk keys are touched |
| Repository.IndexRepository.FlushAll | internal/repository/chunkRepos.go:107-114 | every non-empty buffer becomes a chunk, in any order, and the buffers are empty |
| Repository.IndexRepository.ScanGram | internal/repository/chunkRepos.go:39-52 | the words of the n-gram's chunks, chunk after chunk in their own order, each chunk once, in whatever order the scan meets them |
| Repository.IndexRepository.AppendNew | internal/repository/chunkRepos.go:53-59 | words seen before are left out, first occurrences kept |
| Repository.IndexRepository.GetWordsByNGram | internal/repository/chunkRepos.go:31-68 | the scans for the argument's n-grams, in the order of the n-grams, one after the other, of which exactly the first occurrences are kept, in their order |
| Repository.IndexRepository.EarlierGramFirst | internal/repository/chunkRepos.go:38-59 | candidates found under an earlier n-gram of the word come before those found only under later ones |
| Repository.IndexRepository.FindsFiled | internal/repository/chunkRepos.go:31-68 | such a lookup returns, without repetitions, exactly the words in chunks of the argument's n-grams |
| Repository.IndexRepository.LookupMatchesLog | internal/repository/chunkRepos.go:31-114 | a lookup finds only indexed words that share an n-gram, and after a flush all of them |
| Repository.IndexRepository.SaveDocument | internal/repository/documentRepos.go:58-72 | the document record is stored under its own key, and neither chunks nor postings are disturbed |
| Repository.RecordStays | internal/repository/documentRepos.go:58-72 | the record stays through the writing of chunks and postings, and so do those of all other documents |
| Repository.DocumentKeyReadsBack | internal/repository/documentRepos.go:58-72 | a document key names one document |
| Repository.IndexRepository.ListEntries | internal/repository/indexRepos.go:113-116 | every word of the map listed exactly once, in any order |
| Repository.IndexRepository.WriteBatch | internal/repository/indexRepos.go:120-146 | after each batch the postings are the old ones plus those of the entries so far |
| Repository.IndexRepository.PutEntry | internal/repository/indexRepos.go:124-143 | one posting is set |
| Repository.IndexRepository.IndexDocumentWords | internal/repository/indexRepos.go:104-152 | the document's postings are added or replaced, whatever the map order and the batches, all others stay, and only posting keys are touched |
| Repository.IndexRepository.PostingScanStep | internal/repository/indexRepos.go:160-176 | every key met by the scan belongs to a posting of the word or of a word shadowing it |
| Repository.IndexRepository.GetDocumentsByWord | internal/repository/indexRepos.go:154-185 | fails exactly when a stored word continues the queried one with an underscore, otherwise returns exactly the documents with a posting for it, each with the count and positions last written |
| Store.AddressShadows | internal/repository/indexRepos.go:156-169 | an input for the failing lookup: a stored address with an underscore shadows "john" |
| Positions.Record | internal/app/indexer/wordHandling.go:36-38 | count and positions of one more lemma |
| Positions.OccurrencesExact | internal/app/indexer/wordHandling.go:14-41 | a word's positions strictly increase and are exactly its places, with the passage type |
| Positions.PositionsPartition | internal/app/indexer/wordHandling.go:14-41 | every position below the word count belongs to exactly one word, once |
| Positions.CountsAddUp | internal/app/indexer/wordHandling.go:32-41 | the counts of all words, in any order, add up to the word count |
| Indexer.TextIndexer.CollectPassage | internal/app/indexer/wordHandling.go:32-39 | numbers and long lemmas are skipped without using up a position |
| Indexer.CountedFrom | internal/app/indexer/wordHandling.go:32-39 | exactly the lemmas that are no numbers and take at most 64 bytes are counted, in order |
| Indexer.DocumentIsPassages | internal/app/indexer/wordHandling.go:22-41 | a document's words are those of its passages one after the other, and so are its counted lemmas |
| Indexer.WordOfDocument | internal/app/indexer/wordHandling.go:22-47 | every word of a passage that is no stop word is handed to the n-gram index |
| Indexer.OtherTokenOfDocument | internal/app/indexer/wordHandling.go:32-39 | every alphanumeric token and address of at most 64 bytes is counted as it stands |
| Indexer.TextIndexer.CollectDocument | internal/app/indexer/wordHandling.go:14-41 | over all passages every counted lemma is recorded at its place, and the word count is the number of recorded lemmas |
| Indexer.TextIndexer.CollectedUsable | internal/app/indexer/wordHandling.go:23-47 | the words of a document are usable as replacements |
| Indexer.TextIndexer.HandleDocumentWords | internal/app/indexer/wordHandling.go:13-57 | the words enter the n-gram log, the postings of the recorded words are added or replaced with counts and positions, all other postings stay, also older ones of the same document; the document's record holds the word count, and the records of other documents stay |
| Indexer.DocumentWordsUsable | internal/app/indexer/wordHandling.go:23-31 | every word handed to the n-gram index is lower-case letters and no stop word |
| Indexer.DocumentWordsFiled | internal/app/indexer/wordHandling.go:22-40 | every word of a document has one of its stems among the counted lemmas, unless that is longer than 64 bytes |
| Indexer.StoredPositionsSearchable | internal/app/searcher/preprocessingFeatures.go:51-63 | the stored count is how often the word stands in the document, and the stored positions are its first 500 places, sorted, as the binary search needs |
| Indexer.CorrectionFindsWord | internal/app/indexer/wordHandling.go:75-80 | end to end: the replacement is the word or an indexed word within the bound, and the latter whenever such a word exists, the buffers are flushed and L - n + 1 > maxTypo·n |
| Indexer.TextIndexer.ReplacementUsable | internal/app/indexer/wordHandling.go:76-82 | a replacement is a usable word again |
| Indexer.TextIndexer.Correct | internal/app/indexer/wordHandling.go:76-86 | the replacement re-tokenizes to one word lemma with a non-empty stem, so taking the first is safe |
| Indexer.TextIndexer.HandleTextQuery | internal/app/indexer/wordHandling.go:59-103 | one answer per lemma: its documents, or those of a stem of the correction of its own original word when it is a word without documents and the index guard holds; an error is "empty tokens" for a query without lemmas, otherwise one of the query's own lookups meets a shadowing word, and an answer means none did |
| Indexer.TextIndexer.FailsOnlyForLookups | internal/app/indexer/wordHandling.go:64-94 | a query with lemmas none of whose possible lookups is shadowed is answered |
| Indexer.TextIndexer.OnlyEmptyFails | internal/app/indexer/wordHandling.go:64-94 | as long as no stored word contains an underscore, only a query without lemmas fails |
| Indexer.EveryWordEligible | internal/app/indexer/wordHandling.go:75 | the index guard lets every word be corrected exactly when no other lemma precedes a word lemma |
| Indexer.AnswerDocuments | internal/app/indexer/wordHandling.go:70-100 | the documents in an answer are exactly those with a posting for its token, with that posting |
| Indexer.AnswerAsItIs | internal/app/indexer/wordHandling.go:70-100 | a lemma is looked up as it is if it is no word lemma, has a posting, or its index is not below the number of words |
| Indexer.AnswerCorrected | internal/app/indexer/wordHandling.go:75-94 | otherwise the token is a stem of its word or of an indexed word within the bound, and of the latter if there is one, the buffers are flushed and L - n + 1 > maxTypo·n |
| Indexer.HeloIsCorrected | internal/app/indexer/wordHandling.go:75-94 | an input for it: with "hello" indexed the query "helo" is answered for a stem of an indexed word one edit away |
| Indexer.WordAfterNumber | internal/app/indexer/wordHandling.go:63-75 | a usable word after a number: two lemmas, one word, so the word's lemma has an index the guard rejects |
| Indexer.NotCorrected | internal/app/indexer/wordHandling.go:75 | an input for it: in "7 helo" the answer is for "helo" itself, whatever is indexed |
| Indexer.HeloCanBeCorrected | internal/app/indexer/wordHandling.go:76-80 | although with "hello" indexed every replacement of "helo" is an indexed word one edit away |
| Indexer.IndexedWordFound | internal/app/indexer/wordHandling.go:13-57 | an indexed word with only one stem has documents under it |
| Indexer.QueryFindsWord | internal/app/indexer/wordHandling.go:70-100 | a query finds documents for each of its indexed words that has only one stem, and does not correct it |
| Indexer.CorrectionFindsDocuments | internal/app/indexer/wordHandling.go:76-94 | so does a correction whose possible replacements are indexed and have only one stem |
| Indexer.TwoStemsMayMiss | internal/app/indexer/wordHandling.go:22-39 | a word with two stems: a document of it may be filed under the one while a query looks up the other and finds nothing |
| LruCache.LRUCache.constructor | internal/app/scraper/lruCache/lruCache.go:18-29 | two linked sentinels and an empty map |
| LruCache.Unlink | internal/app/scraper/lruCache/lruCache.go:68-69 | taking a node out leaves a chain linked in both directions |
| LruCache.Link | internal/app/scraper/lruCache/lruCache.go:74-78 | putting a node behind the head leaves a chain linked in both directions |
| LruCache.MappedKeys | internal/app/scraper/lruCache/lruCache.go:5-16 | the keys of the list are distinct, are the map's keys, and the map is as large as the list is long |
| LruCache.LRUCache.Remove | internal/app/scraper/lruCache/lruCache.go:66-70 | the node leaves map and list, its entry leaves the recency sequence |
| LruCache.LRUCache.Insert | internal/app/scraper/lruCache/lruCache.go:72-79 | the node enters map and list, its entry comes first |
| LruCache.LRUCache.Get | internal/app/scraper/lruCache/lruCache.go:38-49 | returns the value or nil; the entries after a hit are the one found, then those before it, then those after it, and after a miss the same as before |
| LruCache.LRUCache.Evict | internal/app/scraper/lruCache/lruCache.go:59-61 | the node before the tail is the least recently used entry, and only it goes |
| LruCache.LRUCache.Put | internal/app/scraper/lruCache/lruCache.go:51-64 | the key comes first, its own older entry goes and no other; for a new key a full cache loses exactly its last entry |
| CacheTraces.SmallerIsIncluded | internal/app/scraper/lruCache/lruCache.go:38-79 | on every trace the smaller cache's recency list is a subsequence of the larger one's, and equal to it until the smaller is full |
| CacheTraces.HitsAreKept | internal/app/scraper/lruCache/lruCache.go:38-49 | every hit of the smaller cache is a hit of the larger with the same value |
| CacheTraces.RunIsBounded | internal/app/scraper/lruCache/lruCache.go:51-64 | on every trace keys are distinct and the size is at most the capacity |
| CacheTraces.OverwriteEvictsNothing | internal/app/scraper/lruCache/lruCache.go:55-63 | overwriting a key keeps all other entries in order |
| CacheTraces.EvictsLeastRecent | internal/app/scraper/lruCache/lruCache.go:59-61 | a new key costs at most the last entry, and only in a full cache |
| CacheTraces.UsedKeyStays | internal/app/scraper/lruCache/lruCache.go:38-64 | a key just looked up or stored is still there, with its value unless it was stored anew, after operations on fewer other keys than the capacity, on every trace |
| CacheTraces.StoresPushOut | internal/app/scraper/lruCache/lruCache.go:51-64 | a key not used while as many other keys as the capacity were stored is gone, on every trace |
| CacheTraces.StaysWhileFewer | internal/app/scraper/lruCache/lruCache.go:51-64 | while only other keys are stored, a key just used stays if and only if they are fewer than the capacity |
| CacheTraces.Replay | internal/app/scraper/lruCache/lruCache.go:18-79 | a trace replayed on a new cache leaves the recency sequence of the trace, and every lookup returned what it returns there |
| Proximity.FirstAfter | internal/app/searcher/preprocessingFeatures.go:51-63 | the binary search splits the sorted list at the target |
| Proximity.EarliestStep | internal/app/searcher/preprocessingFeatures.go:69-80 | taking the first later position keeps the chain's end minimal among all chains from the same start |
| Proximity.NoLongerChain | internal/app/searcher/preprocessingFeatures.go:75-78 | when there is no later position, no chain goes on from this start |
| Proximity.GetMinQueryDistInDoc | internal/app/searcher/preprocessingFeatures.go:48-88 | the minimum of last minus first over all increasing choices of one position for each of the query words, the largest integer exactly when there is none, also on the early return; without query words zero, or the largest integer if the first list is empty |
| UrlScanner.BuildShift | internal/app/searcher/preprocessingFeatures.go:137-140 | the shift of every rune, from its last place in bytes |
| UrlScanner.ShiftExact | internal/app/searcher/preprocessingFeatures.go:137-140 | in a word of one-byte runes the shift is the distance of the rune's last place from the end, or one; in a word of runes of k bytes the place counts k times; never more than the distance |
| UrlScanner.ShiftOfOther | internal/app/searcher/preprocessingFeatures.go:145-150 | a rune that is not in the word shifts by the whole word |
| UrlScanner.MatchBack | internal/app/searcher/preprocessingFeatures.go:152-157 | how far the comparison runs back and what is added afterwards |
| UrlScanner.Scan | internal/app/searcher/preprocessingFeatures.go:135-166 | the loops terminate and report what the scanning function reports |
| UrlScanner.ReportedOccurs | internal/app/searcher/preprocessingFeatures.go:144-165 | a reported word occurs in the text |
| UrlScanner.ShiftIsSafe | internal/app/searcher/preprocessingFeatures.go:145-150 | moving on after a mismatch of the last rune steps over no occurrence |
| UrlScanner.OccurrenceIsReported | internal/app/searcher/preprocessingFeatures.go:144-165 | a word whose last rune is found nowhere earlier in it is reported when it occurs |
| UrlScanner.SteppedOver | internal/app/searcher/preprocessingFeatures.go:161-164 | for any other word, a text in which it occurs and is not reported |
| UrlScanner.ExactForAllTexts | internal/app/searcher/preprocessingFeatures.go:130-170 | reported exactly when it occurs, in all texts, if and only if the last rune occurs nowhere earlier |
| UrlScanner.BoyerMoorAlgorithm | internal/app/searcher/preprocessingFeatures.go:130-170 | whether any query word is reported, and one plus the runes of all reported words |
| UrlScanner.FoundRunesSplit | internal/app/searcher/preprocessingFeatures.go:133-160 | every query word adds its own runes if it is reported, and nothing otherwise |
| Cosine.CauchySchwarz | internal/app/searcher/preprocessingFeatures.go:21-25 | the square of the dot product is at most the product of the magnitudes, equal exactly for proportional vectors |
| Cosine.QuotientBound | internal/app/searcher/preprocessingFeatures.go:31 | the quotient lies in [-1, 1] and reaches an end exactly when the squares agree |
| Cosine.Accumulate | internal/app/searcher/preprocessingFeatures.go:17-25 | the three sums |
| Cosine.DotSplit | internal/app/searcher/preprocessingFeatures.go:21-25 | the sums add up part by part, and for one component are the product |
| Cosine.CalcCosineSimilarity | internal/app/searcher/preprocessingFeatures.go:12-32 | in [-1, 1], zero for unequal lengths or a zero vector, and 1 or -1 exactly for proportional vectors |
| CrawlMachine.StepMass | pkg/workerPool/workerPool.go:59-89 | what a step adds to or takes from any weighing of queue, stacks and Run |
| CrawlMachine.CountedKept | pkg/workerPool/workerPool.go:60-72 | the counter equals queued tasks plus unfinished ones plus pending submits, never goes below zero, and no send meets a closed channel |
| CrawlMachine.ConservedKept | pkg/workerPool/workerPool.go:59-89 | every submitted task is in exactly one place or completed exactly once |
| CrawlMachine.OrderedKept | internal/app/scraper/scraper.go:86-107 | the channels are closed only after Wait has returned, with the counter at zero from then on |
| CrawlMachine.BoundedKept | internal/app/scraper/scraper.go:112-114 | no task is deeper than the limit |
| CrawlMachine.WithinBudgetKept | internal/app/scraper/scraper.go:177-197 | tasks submitted and still to come stay within the tree of pages |
| CrawlMachine.MeasureDrops | internal/app/scraper/scraper.go:86-198 | every step uses up a bound on the steps left |
| CrawlMachine.Progress | pkg/workerPool/workerPool.go:75-99 | some step is possible as long as Run has not returned |
| CrawlMachine.EveryRun | internal/app/scraper/scraper.go:86-198 | all invariants hold in every reachable state, and no run is longer than the initial bound |
| CrawlMachine.QuietOnceWaited | internal/app/scraper/scraper.go:104-106 | once Wait has returned nothing is queued, running or being submitted, and no run panics |
| CrawlMachine.MaximalRun | pkg/workerPool/workerPool.go:59-99 | a run that cannot go on has returned from Run, its workers have left, and every submitted task was completed exactly once |
| CrawlMachine.SubmittedBound | README.md:449 | at most B times the sum of L^k for k from 0 to the depth limit tasks are ever submitted |
| CrawlMachine.SingleFetch | internal/app/scraper/scraper.go:129-152 | no page is fetched twice and none known from an earlier run is fetched |
| CrawlMachine.DepthNeverChanges | internal/app/scraper/scraper.go:129 | the depth recorded for a page is written once |
| CrawlCoverage.TracedKept | internal/app/scraper/scraper.go:177-197 | every task anywhere, and every page looked up, is at the end of a path of as many links as its depth |
| CrawlCoverage.BankKeptStep | internal/app/scraper/scraper.go:128-152 | pages known from an earlier run are not fetched, and their stored links stay as they were |
| CrawlCoverage.DueChange | internal/app/scraper/scraper.go:112-198 | a step leads away from a page only by looking it up, or by leaving it out of the links read because it is recorded at no greater depth |
| CrawlCoverage.CompleteKept | internal/app/scraper/scraper.go:128-197 | start pages, and the links of every page at the depth it was first looked up, are looked up or still on their way |
| CrawlCoverage.PathKnown | internal/app/scraper/scraper.go:86-198 | when Run returns, the end of a path is known if no page before it was first looked up at the last depth, also with early reloads and links left out |
| CrawlExactness.Shorten | internal/app/scraper/htmlHandling.go:155-161 | a path without its loops is a simple path, no longer and to the same page |
| CrawlExactness.FirstDepths | internal/app/scraper/scraper.go:128-156 | in every interleaving a page has a simple path of at least as many links as its recorded depth; exactly as many if paths are unambiguous |
| CrawlExactness.NothingReloaded | internal/app/scraper/scraper.go:129-150 | with unambiguous paths no page is ever loaded again |
| CrawlExactness.UnambiguousIsExact | internal/app/scraper/scraper.go:86-198 | with unambiguous paths exactly the pages that fewer links than the depth limit lead to have been fetched when Run returns, in every interleaving |
| CrawlExactness.CrawlIsExact | internal/app/scraper/scraper.go:86-198 | the same if no page that lies higher is at the end of a path of as many links as lead to the last depth and of a simple path at least so long, early reloads included |
| CrawlExactness.ReachablePagesKnown | internal/app/scraper/scraper.go:86-198 | also with pages from earlier runs: the end of a path, however long, is known when Run returns if the links of every page before it are handed on early enough at whatever depth it is looked up |
| CrawlExactness.SmoothProgress | pkg/workerPool/workerPool.go:75-99 | an undisturbed crawl can always go on until Run has returned |
| CrawlRaces.Lead | internal/app/scraper/scraper.go:177-197 | with a worker for every task, the pages of a path can be fetched first, each at its place, while all other tasks wait |
| CrawlRaces.ForkReloads | internal/app/scraper/scraper.go:129-142 | where two simple paths of different lengths come together, a run looks the page up again while it is still being fetched and its links are nowhere |
| CrawlRaces.ReloadsIff | internal/app/scraper/scraper.go:129-150 | over all numbers of workers and all undisturbed interleavings, no page is ever loaded again if and only if all simple paths to a page below the limit have the same length; otherwise some run reloads a page too early |
| CrawlLosses.ClearRun | internal/app/scraper/scraper.go:128-197 | as long as one page has not been read, only pages are recorded that a path leads to without it |
| CrawlLosses.PageMissed | internal/app/scraper/scraper.go:86-198 | with enough workers a run misses a page, however high it lies, if every path to it leads through a page that ends a simple path of exactly as many links as lead to the last depth |
| CrawlLosses.MissesOneLinkAway | internal/app/scraper/scraper.go:128-142 | an input for it: three pages, depth limit two, and "v" one link below a start page is never fetched |
| Tokenizer.GrowRun | internal/app/indexer/textHandling/tokenizer.go:161-176 | the type kept while a run grows is the type of its content |
| Tokenizer.RunKind | internal/app/indexer/textHandling/tokenizer.go:68-82 | a run is a word exactly if all its runes are letters, a number if all are digits, alphanumeric if both kinds occur, white space and symbols likewise |
| Tokenizer.Continues | internal/app/indexer/textHandling/tokenizer.go:161-172 | the type of the run decides exactly whether the next rune has its class |
| Tokenizer.FragmentTokenize | internal/app/indexer/textHandling/tokenizer.go:144-204 | the lower-cased fragment cut into its runs |
| Tokenizer.RunsAreMaximal | internal/app/indexer/textHandling/tokenizer.go:153-201 | runs spell the text, are of one class, are typed by content and cannot be longer |
| Tokenizer.RunsAreUnique | internal/app/indexer/textHandling/tokenizer.go:153-201 | there is no other way to cut a text like that |
| Tokenizer.SortOrdered | internal/app/indexer/textHandling/tokenizer.go:106-114 | the sort orders the matches and keeps them all |
| Tokenizer.SortStable | internal/app/indexer/textHandling/tokenizer.go:106-114 | matches that compare as equal keep their order |
| Tokenizer.SelectMatches | internal/app/indexer/textHandling/tokenizer.go:116-123 | the loop keeps the matches of the greedy selection |
| Tokenizer.SelectionIsMaximal | internal/app/indexer/textHandling/tokenizer.go:116-123 | selected spans are ordered and disjoint, and a match left out starts inside a selected one |
| Tokenizer.SelectedIsPreferred | internal/app/indexer/textHandling/tokenizer.go:106-123 | of matches that start together the highest priority, then the shortest, is kept |
| Tokenizer.CollectMatches | internal/app/indexer/textHandling/tokenizer.go:85-104 | one match for every stretch that every rule finds, with the rule's kind and priority, rule after rule and in the order found |
| Tokenizer.EverySpanListed | internal/app/indexer/textHandling/tokenizer.go:88-104 | the number of matches is that of all stretches found, and stretch j of rule i has its match at the number of stretches of the rules before plus j |
| Tokenizer.EntityTokenize | internal/app/indexer/textHandling/tokenizer.go:84-142 | entities as they are and the runs of the text between them |
| Tokenizer.EntitiesAreTokens | internal/app/indexer/textHandling/tokenizer.go:126-141 | every selected entity is a token with its kind and its text, in order, and the tokens between two of them are the maximal runs of the lower-cased text there |
| Tokenizer.NothingIsLost | internal/app/indexer/textHandling/tokenizer.go:84-142 | the tokens spell the input, rune by rune, lower-cased outside the selected entities |
| Tokenizer.WordsAreProper | internal/app/indexer/textHandling/tokenizer.go:84-204 | a word token is lower-case letters only |
| Tokenizer.WordRetokenizes | internal/app/indexer/wordHandling.go:82 | such a word tokenizes to itself alone |
| Stemmer.Measure | internal/app/indexer/textHandling/stemmer.go:127-145 | the number of places where a vowel is followed by something else |
| Stemmer.ByteLengthSplit | internal/app/indexer/textHandling/stemmer.go:170-172 | the bytes of a text are those of its runes |
| Stemmer.ApplyStep | internal/app/indexer/textHandling/stemmer.go:181-186 | for every order, an applicable rule is used, or none applies and the word stays |
| Stemmer.StepByParts | internal/app/indexer/textHandling/stemmer.go:174-207 | a step takes a word apart into a rest that measures more than the minimum and the suffix of a rule, and replaces the suffix; it leaves alone exactly the words that no rule takes apart |
| Stemmer.Stem | internal/app/indexer/textHandling/stemmer.go:165-210 | stop words, short words, then the five steps in turn |
| Stemmer.StemShape | internal/app/indexer/textHandling/stemmer.go:165-210 | for every order the stem is empty exactly for stop words, not longer than the word, and keeps its first letter |
| Stemmer.StemExists | internal/app/indexer/textHandling/stemmer.go:165-210 | every word has a stem, whatever the rules |
| Stemmer.EnglishValid | internal/app/indexer/textHandling/stemmer.go:47-121 | no rule of the program lengthens a word, so the general results hold for its rules |
| Stemmer.StemTokens | internal/app/indexer/textHandling/stemmer.go:149-160 | the words and lemmas of a list of tokens, in order, under some order of the rules |
| Stemmer.TokenizeAndStem | internal/app/indexer/textHandling/stemmer.go:147-163 | the words and lemmas of a text under some order of the rules |
| Stemmer.StemmingFrom | internal/app/indexer/textHandling/stemmer.go:147-163 | the words are, in order, exactly the word tokens that are no stop words; the lemmas come, in order, from exactly these and the alphanumeric tokens, numbers, e-mail and web addresses, the former as a stem, the latter as they are; white space, symbols, unknown runes and IP addresses give none |
| Stemmer.TextFrom | internal/app/indexer/textHandling/stemmer.go:147-163 | the same for every text |
| Stemmer.TextInStep | internal/app/indexer/wordHandling.go:63-99 | the k-th word lemma is a non-empty stem of the k-th word, for every text and order |
| Stemmer.ContentWordRestems | internal/app/indexer/wordHandling.go:82-86 | a usable word gives exactly one lemma, a non-empty stem of it |
| StemOrder.FirstStepDetermined | internal/app/indexer/textHandling/stemmer.go:174-179 | the first step is independent of the order exactly for words not ending in "ss", "ies" or "sses" |
| StemOrder.SecondStepDetermined | internal/app/indexer/textHandling/stemmer.go:181-186 | the next one exactly when "eed" may not be replaced |
| StemOrder.ThirdStepDetermined | internal/app/indexer/textHandling/stemmer.go:188-193 | the one with twenty suffixes exactly when neither "ational" nor "ization" may be replaced |
| StemOrder.FourthStepDetermined | internal/app/indexer/textHandling/stemmer.go:195-200 | the one after it always |
| StemOrder.LastStepDetermined | internal/app/indexer/textHandling/stemmer.go:202-207 | the last one exactly when "ment" may not be taken off |
| StemOrder.Diverges | internal/app/indexer/textHandling/stemmer.go:174-207 | when a step has two outcomes, so have the steps from there to the end: outcomes never meet again |
| StemOrder.OneStem | internal/app/indexer/textHandling/stemmer.go:165-210 | a stem is the only stem of its word, over all orders, if and only if on the run that gave it the word did not end in "ss", "ies" or "sses" and none of "eed", "ational", "ization", "ment" could be replaced at its step |
| StemOrder.TwoStems | internal/app/indexer/textHandling/stemmer.go:174-186 | two words with two stems, one by the first step and one by the second |
| StemThresholds.TooShort | internal/app/indexer/textHandling/stemmer.go:165-210 | "string", "nation" and "typical" are their own only stems: too little precedes "ing", "ation" and "ion", "ical" and "al" |
| StemThresholds.JustEnough | internal/app/indexer/textHandling/stemmer.go:165-210 | "threes", "jumped", "feudalism", "cupful" and "adoption" lose their endings: just enough precedes them |

## Left out

- HTTP, robots rules, site maps, JSON and gob encoding, contexts and timers: a task may leave or fail wherever these may end it.
- Cancellation in the pool (the ticker and the clean-up that adjusts the counter outside the protocol) and the waiting for rate limits.
- Which links the cache evicts: a page read but not yet stored may or may not be found in it.
- CrawlExactness.CrawlIsExact: the condition is sufficient. It is necessary where one page lies on all paths (CrawlLosses.PageMissed); in between, several pages must be late in the same run, which depends on the order of all first lookups and has no simpler form.
- A queue of capacity zero and a pool without workers; the configuration excludes both (configs/config.go:18-19).
- The goroutines of the pool as Go code: they are steps of one machine, with a submit's counting, handing over and a task's return as separate steps.
- Byte order of keys: scans meet keys in an arbitrary order, so the order of an n-gram's chunks among the candidates is not fixed.
- The link text, visited addresses, page ranks and content hashes in the store; the size limit of one posting, which 500 positions never reach.
- Two n-gram lengths in one store.
- Token offsets, the vectorizer, BM25, the Euclidean distance, feature assembly and the final exchange of results: they would only add easy members.
- Rounding of floating point: the similarity is over the reals.
- Overflow of machine integers: positions are taken to be below the largest integer, as word counts are.
- Reading a document record back: nothing modelled does.
