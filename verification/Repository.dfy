/** The index repository: n-gram chunks and word postings over one key-value store. */
module Repository {
  import opened EditDistance
  import opened Keys
  import opened NGrams
  import opened Store

  const ITER_SIZE := 500

  datatype Result<+T> = Ok(value: T) | Err(message: string)

  function RawBytes(id: DocId): string {
    seq(32, i requires 0 <= i < 32 => id[i] as char)
  }

  function DocumentKey(id: DocId): string {
    "doc:" + RawBytes(id)
  }

  /** A document key names one document. */
  lemma DocumentKeyReadsBack(a: DocId, b: DocId)
    requires DocumentKey(a) == DocumentKey(b)
    ensures a == b
  {
    assert DocumentKey(a)[4..] == RawBytes(a) && DocumentKey(b)[4..] == RawBytes(b);
    forall i | 0 <= i < 32
      ensures a[i] == b[i]
    {
      assert RawBytes(a)[i] == RawBytes(b)[i];
    }
  }

  /** The records of the documents: one has been written, the others are as before. */
  ghost predicate RecordWritten(db: Db, db': Db, id: DocId, wordCount: nat) {
    && DocumentKey(id) in db' && db'[DocumentKey(id)] == Document(wordCount)
    && forall d :: d != id ==>
         && (DocumentKey(d) in db' <==> DocumentKey(d) in db)
         && (DocumentKey(d) in db ==> db'[DocumentKey(d)] == db[DocumentKey(d)])
  }

  /** Neither chunks nor postings touch the record of a document. */
  lemma RecordStays(db: Db, id: DocId, wordCount: nat, db1: Db, db2: Db)
    requires SameOutside(db[DocumentKey(id) := Document(wordCount)], db1, "ng:") && SameOutside(db1, db2, "ri:")
    ensures RecordWritten(db, db2, id, wordCount)
  {
    forall d
      ensures !("ng:" <= DocumentKey(d)) && !("ri:" <= DocumentKey(d))
      ensures d != id ==> DocumentKey(d) != DocumentKey(id)
    {
      assert DocumentKey(d)[0] == 'd';
      if DocumentKey(d) == DocumentKey(id) {
        DocumentKeyReadsBack(d, id);
      }
    }
  }

  /** The key of a chunk, counting from zero. */
  function NthKey(ng: string, i: nat): string {
    ChunkKey(ng, i + 1)
  }

  lemma NthKeyReadsBack(ng: string, i: nat, j: nat)
    requires NthKey(ng, i) == NthKey(ng, j)
    ensures i == j
  {
    ChunkKeyReadsBack(ng, ng, j + 1);
  }

  function Elements(entries: seq<string>, n: nat): (ws: set<string>)
    requires n <= |entries|
  {
    set w | w in entries[..n]
  }

  lemma ElementsGrow(entries: seq<string>, n: nat)
    requires n < |entries|
    ensures Elements(entries, n + 1) == Elements(entries, n) + {entries[n]}
    ensures entries[n] in Elements(entries, |entries|)
    ensures Elements(entries, n) <= Elements(entries, n + 1) <= Elements(entries, |entries|)
  {
    assert entries[..n + 1] == entries[..n] + [entries[n]];
    assert entries[..|entries|] == entries;
    assert forall w <- entries[..n + 1] :: w in entries;
  }

  class IndexRepository {
    var db: Db
    var wordBuffer: map<string, seq<string>>
    var counts: map<string, nat>

    /** Lower-casing of one rune. */
    const lower: char -> char
    /** The n that every caller passes: one configured value for the whole run. */
    ghost const gramSize: nat
    /** The chunks written so far, by n-gram. */
    ghost var chunks: map<string, seq<seq<string>>>
    /** Every word passed to IndexNGrams, in order. */
    ghost var log: seq<string>
    /** What was last written for every word and document. */
    ghost var postings: Postings

    constructor (lower: char -> char, ghost gramSize: nat)
      ensures Valid() && this.lower == lower && this.gramSize == gramSize
      ensures log == [] && postings == map[] && wordBuffer == map[] && fresh(this)
    {
      db, wordBuffer, counts := map[], map[], map[];
      this.lower := lower;
      this.gramSize := gramSize;
      chunks, log, postings := map[], [], map[];
    }

    ghost function Grams(): GramState
      reads this
    {
      GramState(chunks, wordBuffer)
    }

    ghost predicate Stored()
      reads this
    {
      Holds(db, counts, Grams(), postings, gramSize)
    }

    ghost predicate Valid()
      reads this
    {
      Stored() && Grams().Agrees(lower, log, gramSize)
    }

    method FlushChunk(ng: string, buffer: seq<string>)
      requires Stored() && |ng| == gramSize && 1 <= |buffer| <= CHUNK_SIZE
      modifies this`db, this`counts, this`chunks
      ensures Stored() && SameOutside(old(db), db, "ng:")
      ensures Grams() == old(Grams()).Flush(ng, buffer)
    {
      hide SameOutside;
      ghost var db0, counts0, s0 := db, counts, Grams();
      var chunkID := Count(counts, ng) + 1;
      counts := counts[ng := chunkID];
      var key := ChunkKey(ng, chunkID);
      ChunkWrittenOutside(db, ng, chunkID, Chunk(buffer));
      db := db[key := Chunk(buffer)];
      chunks := s0.Flush(ng, buffer).chunks;
      FlushHolds(db0, counts0, s0, postings, gramSize, ng, buffer, db, counts, Grams());
    }

    /** Files one word under one n-gram. */
    method BufferWord(ng: string, word: string)
      requires Stored() && |ng| == gramSize
      modifies this`db, this`counts, this`chunks, this`wordBuffer
      ensures Stored() && SameOutside(old(db), db, "ng:")
      ensures Grams() == old(Grams()).File(ng, word)
    {
      ghost var s0 := Grams();
      var buf := At(wordBuffer, ng);
      buf := buf + [word];
      if |buf| >= CHUNK_SIZE {
        FlushChunk(ng, buf);
        buf := [];
      }
      ghost var s := Grams();
      BufferBounded(s, gramSize, ng, buf);
      wordBuffer := wordBuffer[ng := buf];
      assert Grams() == s0.File(ng, word);
      BuffersHold(db, counts, s, postings, gramSize, Grams());
    }

    /** Files one word under each of its n-grams. */
    method IndexWord(word: string, n: nat)
      requires Stored() && n == gramSize
      modifies this`db, this`counts, this`chunks, this`wordBuffer
      ensures Stored() && SameOutside(old(db), db, "ng:")
      ensures Grams() == old(Grams()).FileAll(GramsOf(lower, word, n), word)
    {
      hide Holds, SameOutside, GramsOf, Firsts;
      SameOutsideAlso(db, db, db, "ng:");
      var grams := ExtractNGrams(lower, word, n);
      for j := 0 to |grams|
        invariant Stored() && SameOutside(old(db), db, "ng:")
        invariant Grams() == old(Grams()).FileAll(grams[..j], word)
      {
        GramLength(lower, word, n, j);
        assert grams[..j + 1][..j] == grams[..j];
        ghost var before := db;
        BufferWord(grams[j], word);
        SameOutsideAlso(old(db), before, db, "ng:");
      }
      assert grams[..|grams|] == grams;
    }

    method IndexNGrams(words: seq<string>, n: nat)
      requires Valid() && n == gramSize
      modifies this`db, this`counts, this`chunks, this`wordBuffer, this`log
      ensures Valid()
      ensures log == old(log) + words && SameOutside(old(db), db, "ng:")
      ensures Grams() == old(Grams()).FileWords(lower, words, n)
    {
      hide Holds, SameOutside;
      SameOutsideAlso(db, db, db, "ng:");
      ghost var s := Grams();
      FileWordsAgrees(s, lower, log, words, n);
      log := log + words;
      for i := 0 to |words|
        invariant Stored() && log == old(log) + words && SameOutside(old(db), db, "ng:")
        invariant Grams() == s.FileWords(lower, words[..i], n)
      {
        assert words[..i + 1][..i] == words[..i];
        ghost var before := db;
        IndexWord(words[i], n);
        SameOutsideAlso(old(db), before, db, "ng:");
      }
      assert words[..|words|] == words;
    }

    /** Writes every non-empty buffer out, in whatever order the map is walked. */
    method FlushAll()
      requires Valid()
      modifies this`db, this`counts, this`chunks, this`wordBuffer
      ensures Valid() && wordBuffer == map[] && SameOutside(old(db), db, "ng:")
      ensures Grams() == old(Grams()).FlushAll()
    {
      hide Holds, SameOutside;
      SameOutsideAlso(db, db, db, "ng:");
      ghost var s := Grams();
      ghost var done: set<string> := {};
      assert s.FlushSome({}).chunks == s.chunks;
      var rest := wordBuffer.Keys;
      while rest != {}
        invariant Stored() && wordBuffer == s.buffers && SameOutside(old(db), db, "ng:")
        invariant done + rest == s.buffers.Keys && done !! rest
        invariant Grams() == s.FlushSome(done)
      {
        var ng :| ng in rest;
        var buf := wordBuffer[ng];
        FlushOneMore(s, done, ng);
        if |buf| != 0 {
          BufferFits(ng);
          ghost var before := db;
          FlushChunk(ng, buf);
          SameOutsideAlso(old(db), before, db, "ng:");
        }
        done, rest := done + {ng}, rest - {ng};
      }
      assert done == s.buffers.Keys;
      ghost var t := Grams();
      wordBuffer := map[];
      BuffersDropped(t);
      FlushAllAgrees(s, lower, log, gramSize);
    }

    lemma BufferFits(ng: string)
      requires Stored() && ng in wordBuffer
      ensures |ng| == gramSize && |wordBuffer[ng]| < CHUNK_SIZE
    {
    }

    lemma BuffersDropped(t: GramState)
      requires Holds(db, counts, t, postings, gramSize) && t.chunks == chunks && wordBuffer == map[]
      ensures Stored()
    {
      BuffersHold(db, counts, t, postings, gramSize, Grams());
    }

    lemma ScanMeetsNumber(ng: string, k: string) returns (id: nat)
      requires Stored() && |ng| == gramSize && k in db && GramPrefix(ng) <= k
      ensures id < |At(chunks, ng)| && k == NthKey(ng, id) && db[k] == Chunk(At(chunks, ng)[id])
    {
      hide ChunksStored, PostingsStored, GramPrefix, ChunkKey;
      id := ScanMeetsChunk(db, chunks, gramSize, ng, k);
      id := id - 1;
    }

    lemma NumberIsMet(ng: string, id: nat)
      requires Stored() && id < |At(chunks, ng)|
      ensures NthKey(ng, id) in db && GramPrefix(ng) <= NthKey(ng, id)
    {
      hide ChunksStored, PostingsStored, GramPrefix, ChunkKey;
      ChunkIsMet(db, chunks, gramSize, ng, id + 1);
    }

    /** The chunks, by number, behind the keys met so far. */
    ghost predicate Met(ng: string, keys: set<string>, order: seq<nat>)
      reads this
    {
      && Distinct(order) && Numbers(order, |At(chunks, ng)|)
      && (forall i <- order :: NthKey(ng, i) in keys)
      && (forall i: nat :: i < |At(chunks, ng)| && NthKey(ng, i) in keys ==> i in order)
    }

    lemma MeetsOneMore(ng: string, keys: set<string>, order: seq<nat>, id: nat)
      requires Met(ng, keys, order) && id < |At(chunks, ng)| && NthKey(ng, id) !in keys
      ensures Met(ng, keys + {NthKey(ng, id)}, order + [id])
    {
      hide NthKey;
      var keys', order' := keys + {NthKey(ng, id)}, order + [id];
      assert id !in order;
      forall i: nat | i < |At(chunks, ng)| && NthKey(ng, i) in keys'
        ensures i in order'
      {
        if NthKey(ng, i) == NthKey(ng, id) {
          NthKeyReadsBack(ng, i, id);
        }
      }
    }

    lemma AllMet(ng: string, keys: set<string>, order: seq<nat>)
      requires Stored() && Met(ng, keys, order) && forall k :: k in db && GramPrefix(ng) <= k ==> k in keys
      ensures Scanned(At(chunks, ng), Picked(At(chunks, ng), order))
    {
      hide Holds, GramPrefix, NthKey;
      forall i | 0 <= i < |At(chunks, ng)|
        ensures i in order
      {
        NumberIsMet(ng, i);
      }
    }

    /** The words of all chunks of an n-gram, chunk after chunk, in whatever order the scan meets them. */
    method ScanGram(ng: string) returns (words: seq<string>)
      requires Stored() && |ng| == gramSize
      ensures Scanned(At(chunks, ng), words)
    {
      hide Holds, GramPrefix, NthKey, Scanned, Picked;
      var prefix := GramPrefix(ng);
      var met := set k | k in db && prefix <= k;
      var rest := met;
      words := [];
      ghost var order: seq<nat> := [];
      NothingPicked(At(chunks, ng));
      while rest != {}
        invariant rest <= met
        invariant Met(ng, met - rest, order)
        invariant words == Picked(At(chunks, ng), order)
      {
        var k :| k in rest;
        ghost var id := ScanMeetsNumber(ng, k);
        MeetsOneMore(ng, met - rest, order, id);
        PickedOneMore(At(chunks, ng), order, id);
        words := words + db[k].words;
        order := order + [id];
        assert met - (rest - {k}) == met - rest + {k};
        rest := rest - {k};
      }
      AllMet(ng, met - rest, order);
    }

    /** The words filed in some chunk of one of the n-grams. */
    ghost predicate FoundIn(grams: seq<string>, w: string)
      reads this
    {
      exists i :: 0 <= i < |grams| && w in Flatten(At(chunks, grams[i]))
    }

    /** Appends the words not met before. */
    method AppendNew(ghost seen: seq<string>, result: seq<string>, alreadyInc: set<string>, words: seq<string>)
      returns (result': seq<string>, alreadyInc': set<string>)
      requires result == Dedup(seen) && alreadyInc == set w | w in result
      ensures result' == Dedup(seen + words) && alreadyInc' == set w | w in result'
    {
      result', alreadyInc' := result, alreadyInc;
      assert seen + words[..0] == seen;
      for i := 0 to |words|
        invariant result' == Dedup(seen + words[..i]) && alreadyInc' == set w | w in result'
      {
        assert (seen + words[..i + 1])[..|seen| + i] == seen + words[..i];
        if words[i] !in alreadyInc' {
          alreadyInc' := alreadyInc' + {words[i]};
          result' := result' + [words[i]];
        }
      }
      assert words[..|words|] == words;
    }

    /** One scan for each of the n-grams, one after the other. */
    ghost predicate ScansOf(grams: seq<string>, scans: seq<seq<string>>)
      reads this
    {
      |scans| == |grams| && forall j :: 0 <= j < |grams| ==> Scanned(At(chunks, grams[j]), scans[j])
    }

    lemma {:induction false} ScansFind(grams: seq<string>, scans: seq<seq<string>>, w: string)
      requires ScansOf(grams, scans)
      ensures w in Flatten(scans) <==> FoundIn(grams, w)
    {
      hide Scanned;
      if w in Flatten(scans) {
        var j := FindChunk(scans, w);
        ScannedWords(At(chunks, grams[j]), scans[j], w);
      }
      if FoundIn(grams, w) {
        var j :| 0 <= j < |grams| && w in Flatten(At(chunks, grams[j]));
        ScannedWords(At(chunks, grams[j]), scans[j], w);
        InFlatten(scans, j, w);
      }
    }

    lemma ScansOneMore(grams: seq<string>, j: nat, scans: seq<seq<string>>, words: seq<string>)
      requires j < |grams| && ScansOf(grams[..j], scans) && Scanned(At(chunks, grams[j]), words)
      ensures ScansOf(grams[..j + 1], scans + [words])
      ensures Flatten(scans + [words]) == Flatten(scans) + words
    {
      hide Scanned, Flatten;
      FlattenOne(scans, words);
    }

    /** What the lookup of a word may return: the words of the scans for its n-grams, one scan after the
        other, first occurrences only. */
    ghost predicate MayFind(word: string, result: seq<string>)
      reads this
    {
      exists scans :: ScansOf(GramsOf(lower, word, gramSize), scans) && result == Dedup(Flatten(scans))
    }

    /** Candidates under an earlier n-gram of the word come first. */
    lemma EarlierGramFirst(word: string, result: seq<string>, j: nat, a: nat, b: nat)
      requires MayFind(word, result) && j <= |GramsOf(lower, word, gramSize)| && a < |result| && b < |result|
      requires FoundIn(GramsOf(lower, word, gramSize)[..j], result[a])
      requires !FoundIn(GramsOf(lower, word, gramSize)[..j], result[b])
      ensures a < b
    {
      hide Scanned, Flatten, FoundIn, Firsts;
      var grams := GramsOf(lower, word, gramSize);
      var scans :| ScansOf(grams, scans) && result == Dedup(Flatten(scans));
      assert scans == scans[..j] + scans[j..];
      FlattenSplit(scans[..j], scans[j..]);
      var n := |Flatten(scans[..j])|;
      assert Flatten(scans)[..n] == Flatten(scans[..j]);
      ScansFind(grams[..j], scans[..j], result[a]);
      ScansFind(grams[..j], scans[..j], result[b]);
      DedupFirsts(Flatten(scans));
      EarlierComesFirst(Flatten(scans), result, n, a, b);
    }

    /** A lookup finds the words of the chunks of the word's n-grams, each once. */
    lemma FindsFiled(word: string, result: seq<string>)
      requires MayFind(word, result)
      ensures Distinct(result)
      ensures forall w :: w in result <==> FoundIn(GramsOf(lower, word, gramSize), w)
    {
      hide ScansOf, Flatten, FoundIn;
      var scans :| ScansOf(GramsOf(lower, word, gramSize), scans) && result == Dedup(Flatten(scans));
      DedupKeeps(Flatten(scans));
      forall w
        ensures w in result <==> FoundIn(GramsOf(lower, word, gramSize), w)
      {
        ScansFind(GramsOf(lower, word, gramSize), scans, w);
      }
    }

    /** Looks up the words that share an n-gram with the argument. */
    method GetWordsByNGram(word: string, n: nat) returns (result: seq<string>)
      requires Valid() && n == gramSize
      ensures MayFind(word, result)
      ensures exists scans ::
                ScansOf(GramsOf(lower, word, gramSize), scans) && Firsts(Flatten(scans), result)
    {
      hide Holds, Scanned, ScansOf, Dedup, Flatten, Firsts;
      var grams := ExtractNGrams(lower, word, n);
      result := [];
      var alreadyInc: set<string> := {};
      ghost var scans: seq<seq<string>> := [];
      NoScans(grams);
      for j := 0 to |grams|
        invariant result == Dedup(Flatten(scans)) && alreadyInc == set w | w in result
        invariant ScansOf(grams[..j], scans)
      {
        GramLength(lower, word, n, j);
        var words := ScanGram(grams[j]);
        ScansOneMore(grams, j, scans, words);
        result, alreadyInc := AppendNew(Flatten(scans), result, alreadyInc, words);
        scans := scans + [words];
      }
      assert grams[..|grams|] == grams;
      DedupFirsts(Flatten(scans));
    }

    lemma NoScans(grams: seq<string>)
      ensures ScansOf(grams[..0], []) && Dedup(Flatten<string>([])) == []
    {
    }

    /** What a lookup finds has been indexed and shares an n-gram; when nothing is left in the
        buffers it finds all such words. */
    lemma LookupMatchesLog(word: string, w: string)
      requires Valid()
      ensures FoundIn(GramsOf(lower, word, gramSize), w) ==> w in log && SharesGram(lower, word, w, gramSize)
      ensures wordBuffer == map[] && w in log && SharesGram(lower, word, w, gramSize)
              ==> FoundIn(GramsOf(lower, word, gramSize), w)
    {
      hide Holds, GramsOf, GramState.Filed, GramState.Agrees;
      var grams := GramsOf(lower, word, gramSize);
      if FoundIn(grams, w) {
        var i :| 0 <= i < |grams| && w in Flatten(At(chunks, grams[i]));
        FlushedChunks(Grams(), lower, log, gramSize, grams[i], w);
        assert grams[i] in grams;
      }
      if wordBuffer == map[] && w in log && SharesGram(lower, word, w, gramSize) {
        var g :| g in grams && g in GramsOf(lower, w, gramSize);
        FlushedChunks(Grams(), lower, log, gramSize, g, w);
        var i :| 0 <= i < |grams| && grams[i] == g;
      }
    }

    /** Stores the document record itself. */
    method SaveDocument(docID: DocId, wordCount: nat)
      requires Valid()
      modifies this`db
      ensures Valid()
      ensures db == old(db)[DocumentKey(docID) := Document(wordCount)]
    {
      hide Holds;
      var key := DocumentKey(docID);
      assert key[0] == 'd';
      OtherWriteHolds(db, counts, Grams(), postings, gramSize, key, Document(wordCount));
      db := db[key := Document(wordCount)];
    }

    /** The words of a map, in whatever order the map is walked. */
    static method ListEntries(sequence: map<string, nat>) returns (entries: seq<string>)
      ensures Elements(entries, |entries|) == sequence.Keys && Distinct(entries)
    {
      entries := [];
      var rest := sequence.Keys;
      while rest != {}
        invariant rest <= sequence.Keys && Distinct(entries)
        invariant Elements(entries, |entries|) == sequence.Keys - rest
      {
        var w :| w in rest;
        assert (entries + [w])[..|entries|] == entries == entries[..|entries|];
        ElementsGrow(entries + [w], |entries|);
        entries := entries + [w];
        rest := rest - {w};
      }
    }

    /** One transaction: the entries from `from` up to `to`. */
    method WriteBatch(docID: DocId, entries: seq<string>, from: nat, to: nat,
                      sequence: map<string, nat>, pos: map<string, seq<Position>>, ghost base: Postings)
      requires Valid() && from <= to <= |entries| && Elements(entries, |entries|) == sequence.Keys
      requires Elements(entries, from) <= sequence.Keys
      requires postings == base + PostingsOf(docID, Elements(entries, from), sequence, pos)
      modifies this`db, this`postings
      ensures Valid() && Elements(entries, to) <= sequence.Keys && SameOutside(old(db), db, "ri:")
      ensures postings == base + PostingsOf(docID, Elements(entries, to), sequence, pos)
    {
      hide *;
      SameOutsideAlso(db, db, db, "ri:");
      for j := from to to
        invariant Valid() && Elements(entries, j) <= sequence.Keys && SameOutside(old(db), db, "ri:")
        invariant postings == base + PostingsOf(docID, Elements(entries, j), sequence, pos)
      {
        var word := entries[j];
        ElementsGrow(entries, j);
        ghost var before := db;
        PutEntry(docID, word, EntryOf(sequence, pos, word));
        SameOutsideAlso(old(db), before, db, "ri:");
        PostingsStep(docID, Elements(entries, j), sequence, pos, base, word);
      }
    }

    /** Writes one posting per word, in batches. */
    method IndexDocumentWords(docID: DocId, sequence: map<string, nat>, pos: map<string, seq<Position>>)
      requires Valid()
      modifies this`db, this`postings
      ensures Valid() && SameOutside(old(db), db, "ri:")
      ensures postings == old(postings) + PostingsOf(docID, sequence.Keys, sequence, pos)
    {
      hide Holds, SameOutside;
      SameOutsideAlso(db, db, db, "ri:");
      var entries := ListEntries(sequence);
      var i := 0;
      while i < |entries|
        invariant Valid() && 0 <= i && SameOutside(old(db), db, "ri:")
        invariant Elements(entries, Min(i, |entries|)) <= sequence.Keys
        invariant postings == old(postings) + PostingsOf(docID, Elements(entries, Min(i, |entries|)), sequence, pos)
        decreases |entries| - i
      {
        ghost var before := db;
        WriteBatch(docID, entries, i, Min(|entries|, i + ITER_SIZE), sequence, pos, old(postings));
        SameOutsideAlso(old(db), before, db, "ri:");
        i := i + ITER_SIZE;
      }
    }

    method PutEntry(docID: DocId, word: string, wcp: WordCountAndPositions)
      requires Valid()
      modifies this`db, this`postings
      ensures Valid() && postings == old(postings)[(word, docID) := wcp] && SameOutside(old(db), db, "ri:")
    {
      hide Holds;
      ghost var db0, postings0 := db, postings;
      var key := WordKey(word, docID);
      ScanMeets(word, word, docID);
      db := db[key := Posting(wcp)];
      postings := postings[(word, docID) := wcp];
      PostingHolds(db0, counts, Grams(), postings0, gramSize, word, docID, wcp, db, postings);
    }

    lemma PostingScanStep(word: string, k: string) returns (w: string, d: DocId)
      requires Stored() && k in db && WordPrefix(word) <= k
      ensures (w, d) in postings && k == WordKey(w, d) && db[k] == Posting(postings[(w, d)])
      ensures Unhex(k[|WordPrefix(word)|..]) == if w == word then Some(d) else None
      ensures w == word || Shadows(w, word)
    {
      assert "ri:" == WordPrefix(word)[..3] == k[..3];
      w, d :| (w, d) in postings && k == WordKey(w, d);
      ScanMeets(word, w, d);
      RemainderDecodes(word, w, d);
    }

    lemma PostingIsMet(word: string, w: string, d: DocId)
      requires Stored() && (w, d) in postings && (w == word || Shadows(w, word))
      ensures WordKey(w, d) in db && WordPrefix(word) <= WordKey(w, d)
    {
      ScanMeets(word, w, d);
    }

    /** Reads the postings of a word back by a prefix scan. A key left by a word that continues the
        queried one with an underscore does not decode, and the lookup fails. */
    method GetDocumentsByWord(word: string) returns (r: Result<map<DocId, WordCountAndPositions>>)
      requires Valid()
      ensures r.Err? <==> Shadowed(postings, word)
      ensures r.Ok? ==>
                && (forall d :: d in r.value <==> (word, d) in postings)
                && (forall d :: d in r.value ==> r.value[d] == postings[(word, d)])
      ensures r.Ok? ==> r.value == DocumentsOf(postings, word)
    {
      hide Holds, WordPrefix, WordKey;
      var revertWordIndex: map<DocId, WordCountAndPositions> := map[];
      var wprefix := WordPrefix(word);
      var met := set k | k in db && wprefix <= k;
      var rest := met;
      while rest != {}
        invariant rest <= met
        invariant forall d :: d in revertWordIndex ==>
                    (word, d) in postings && revertWordIndex[d] == postings[(word, d)]
        invariant forall w, d :: (w, d) in postings && WordKey(w, d) in met - rest ==> w == word && d in revertWordIndex
      {
        var k :| k in rest;
        ghost var w, d := PostingScanStep(word, k);
        forall w', d' | (w', d') in postings && WordKey(w', d') == k
          ensures w' == w && d' == d
        {
          WordKeyReadsBack(w', d', w, d);
        }
        var keyPart := k[|wprefix|..];
        var decoded := Unhex(keyPart);
        if decoded == None {
          return Err("encoding/hex: invalid byte");
        }
        var id := ToId(decoded.value);
        assert id == d;
        revertWordIndex := revertWordIndex[id := db[k].entry];
        rest := rest - {k};
      }
      forall w, d | (w, d) in postings && (w == word || Shadows(w, word))
        ensures w == word && d in revertWordIndex
      {
        PostingIsMet(word, w, d);
        assert WordKey(w, d) in met - rest;
      }
      assert revertWordIndex == DocumentsOf(postings, word);
      assert !Shadows(word, word);
      return Ok(revertWordIndex);
    }
  }
}
