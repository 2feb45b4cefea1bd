/** What the key-value store holds for the index, and how a single write changes it. */
module Store {
  import opened EditDistance
  import opened Keys
  import opened NGrams

  /** A token's place in its document and the kind of passage it came from. */
  datatype Position = Position(i: nat, kind: char)

  datatype WordCountAndPositions = WordCountAndPositions(count: nat, positions: seq<Position>)

  /** A stored value, already decoded. */
  datatype Value =
    | Chunk(words: seq<string>)
    | Posting(entry: WordCountAndPositions)
    | Document(wordCount: nat)

  type Db = map<string, Value>

  /** The two stores differ at most in keys with this prefix. */
  ghost predicate SameOutside(db: Db, db': Db, prefix: string) {
    forall k :: !(prefix <= k) ==> (k in db' <==> k in db) && (k in db ==> db'[k] == db[k])
  }

  lemma SameOutsideAlso(a: Db, b: Db, c: Db, prefix: string)
    ensures SameOutside(a, a, prefix)
    ensures SameOutside(a, b, prefix) && SameOutside(b, c, prefix) ==> SameOutside(a, c, prefix)
  {
  }

  type Postings = map<(string, DocId), WordCountAndPositions>

  // ----- chunks

  function At<T>(m: map<string, seq<T>>, ng: string): seq<T> {
    if ng in m then m[ng] else []
  }

  function Count(counts: map<string, nat>, ng: string): nat {
    if ng in counts then counts[ng] else 0
  }

  /** For every n-gram, the flushed chunks in order and the words still buffered. */
  datatype GramState = GramState(chunks: map<string, seq<seq<string>>>, buffers: map<string, seq<string>>) {

    /** Everything filed under an n-gram: the flushed chunks in order, then the buffer. */
    function Filed(ng: string): seq<string> {
      Flatten(At(chunks, ng)) + At(buffers, ng)
    }

    function Flush(ng: string, words: seq<string>): GramState {
      GramState(chunks[ng := At(chunks, ng) + [words]], buffers)
    }

    /** Files one word under one n-gram; a full buffer becomes the next chunk. */
    function File(ng: string, word: string): GramState {
      var buf := At(buffers, ng) + [word];
      if |buf| >= CHUNK_SIZE then Flush(ng, buf).(buffers := buffers[ng := []])
      else this.(buffers := buffers[ng := buf])
    }

    function FileAll(grams: seq<string>, word: string): GramState {
      if grams == [] then this
      else FileAll(grams[..|grams| - 1], word).File(grams[|grams| - 1], word)
    }

    /** Files every word under each of its n-grams. */
    function FileWords(lower: char -> char, words: seq<string>, n: nat): GramState {
      if words == [] then this
      else
        var w := words[|words| - 1];
        FileWords(lower, words[..|words| - 1], n).FileAll(GramsOf(lower, w, n), w)
    }

    /** The non-empty buffers of some n-grams written out as chunks. */
    function FlushSome(done: set<string>): GramState {
      GramState(map ng | ng in chunks.Keys + done * buffers.Keys && (ng in chunks || buffers[ng] != []) ::
                  if ng in done && At(buffers, ng) != [] then At(chunks, ng) + [buffers[ng]] else At(chunks, ng),
                buffers)
    }

    /** Everything written out, nothing left in memory. */
    function FlushAll(): GramState {
      FlushSome(buffers.Keys).(buffers := map[])
    }

    /** Only grams of the configured length occur, chunks are non-empty, buffers are not full. */
    ghost predicate Bounded(n: nat) {
      && (forall ng :: ng in chunks ==> |ng| == n && forall c :: c in chunks[ng] ==> 1 <= |c| <= CHUNK_SIZE)
      && (forall ng :: ng in buffers ==> |ng| == n && |buffers[ng]| < CHUNK_SIZE)
    }

    /** Every n-gram files exactly the words of the log that contain it, in log order. */
    ghost predicate Agrees(lower: char -> char, log: seq<string>, n: nat) {
      forall ng :: Filed(ng) == Entries(lower, log, ng, n)
    }
  }

  const CHUNK_SIZE := 100

  function Flatten<T>(chunks: seq<seq<T>>): seq<T> {
    if chunks == [] then [] else Flatten(chunks[..|chunks| - 1]) + chunks[|chunks| - 1]
  }

  lemma FlattenOne<T>(chunks: seq<seq<T>>, c: seq<T>)
    ensures Flatten(chunks + [c]) == Flatten(chunks) + c
  {
    assert (chunks + [c])[..|chunks|] == chunks;
  }

  /** The sequence of indexed words that contain an n-gram, straight from the log of all words. */
  function Entries(lower: char -> char, log: seq<string>, ng: string, n: nat): seq<string> {
    if log == [] then []
    else
      var w, before := log[|log| - 1], Entries(lower, log[..|log| - 1], ng, n);
      if ng in GramsOf(lower, w, n) then before + [w] else before
  }

  lemma FileElsewhere(s: GramState, ng: string, word: string, g: string)
    requires g != ng
    ensures s.File(ng, word).Filed(g) == s.Filed(g)
  {
    hide Flatten;
  }

  lemma FileFillsBuffer(s: GramState, ng: string, word: string)
    requires |At(s.buffers, ng)| + 1 >= CHUNK_SIZE
    ensures s.File(ng, word).Filed(ng) == s.Filed(ng) + [word]
  {
    hide Flatten;
    FlattenOne(At(s.chunks, ng), At(s.buffers, ng) + [word]);
    assert At(s.File(ng, word).buffers, ng) == [];
  }

  lemma FileLeavesRoom(s: GramState, ng: string, word: string)
    requires |At(s.buffers, ng)| + 1 < CHUNK_SIZE
    ensures s.File(ng, word).Filed(ng) == s.Filed(ng) + [word]
  {
    hide Flatten;
  }

  lemma FileOne(s: GramState, ng: string, word: string, g: string)
    ensures s.File(ng, word).Filed(g) == if g == ng then s.Filed(g) + [word] else s.Filed(g)
  {
    hide GramState.File, GramState.Filed;
    if g != ng {
      FileElsewhere(s, ng, word, g);
    } else if |At(s.buffers, ng)| + 1 >= CHUNK_SIZE {
      FileFillsBuffer(s, ng, word);
    } else {
      FileLeavesRoom(s, ng, word);
    }
  }

  lemma {:induction false} FileSeveral(s: GramState, grams: seq<string>, word: string, g: string)
    requires Distinct(grams)
    ensures s.FileAll(grams, word).Filed(g) == if g in grams then s.Filed(g) + [word] else s.Filed(g)
    decreases |grams|
  {
    if grams != [] {
      var front, last := grams[..|grams| - 1], grams[|grams| - 1];
      assert g in grams <==> g in front || g == last by { assert grams == front + [last]; }
      assert last !in front;
      FileSeveral(s, front, word, g);
      FileOne(s.FileAll(front, word), last, word, g);
    }
  }

  /** Filing a word under each of its n-grams keeps the agreement with the log. */
  lemma FileWordAgrees(s: GramState, lower: char -> char, log: seq<string>, word: string, n: nat)
    requires s.Agrees(lower, log, n)
    ensures s.FileAll(GramsOf(lower, word, n), word).Agrees(lower, log + [word], n)
  {
    var s' := s.FileAll(GramsOf(lower, word, n), word);
    forall ng
      ensures s'.Filed(ng) == Entries(lower, log + [word], ng, n)
    {
      DedupKeeps(Windows(Map(lower, word), n));
      FileSeveral(s, GramsOf(lower, word, n), word, ng);
      assert (log + [word])[..|log|] == log;
    }
  }

  /** Until the index is flushed, chunks hold exactly a hundred words and buffers fewer. */
  ghost predicate FullChunks(s: GramState) {
    && (forall ng :: ng in s.chunks ==> forall c :: c in s.chunks[ng] ==> |c| == CHUNK_SIZE)
    && (forall ng :: ng in s.buffers ==> |s.buffers[ng]| < CHUNK_SIZE)
  }

  lemma FileFull(s: GramState, ng: string, word: string)
    requires FullChunks(s)
    ensures FullChunks(s.File(ng, word))
  {
  }

  lemma {:induction false} FileAllFull(s: GramState, grams: seq<string>, word: string)
    requires FullChunks(s)
    ensures FullChunks(s.FileAll(grams, word))
    decreases |grams|
  {
    if grams != [] {
      FileAllFull(s, grams[..|grams| - 1], word);
      FileFull(s.FileAll(grams[..|grams| - 1], word), grams[|grams| - 1], word);
    }
  }

  lemma {:induction false} FileWordsFull(s: GramState, lower: char -> char, words: seq<string>, n: nat)
    requires FullChunks(s)
    ensures FullChunks(s.FileWords(lower, words, n))
    decreases |words|
  {
    if words != [] {
      var front, w := words[..|words| - 1], words[|words| - 1];
      FileWordsFull(s, lower, front, n);
      FileAllFull(s.FileWords(lower, front, n), GramsOf(lower, w, n), w);
    }
  }

  lemma {:induction false} FileWordsAgrees(s: GramState, lower: char -> char, log: seq<string>, words: seq<string>,
                                           n: nat)
    requires s.Agrees(lower, log, n)
    ensures s.FileWords(lower, words, n).Agrees(lower, log + words, n)
    decreases |words|
  {
    if words == [] {
      assert log + words == log;
    } else {
      var front, w := words[..|words| - 1], words[|words| - 1];
      FileWordsAgrees(s, lower, log, front, n);
      FileWordAgrees(s.FileWords(lower, front, n), lower, log + front, w, n);
      assert log + words == (log + front) + [w];
    }
  }

  lemma FlushOneMore(s: GramState, done: set<string>, ng: string)
    requires ng in s.buffers && ng !in done
    ensures s.FlushSome(done + {ng}) ==
            if s.buffers[ng] == [] then s.FlushSome(done) else s.FlushSome(done).Flush(ng, s.buffers[ng])
  {
    var t, u := s.FlushSome(done), s.FlushSome(done + {ng});
    assert forall g :: g in u.chunks <==> g in t.chunks || (g == ng && s.buffers[ng] != []);
    assert At(t.chunks, ng) == At(s.chunks, ng);
    if s.buffers[ng] == [] {
      assert u.chunks == t.chunks;
    } else {
      assert u.chunks == t.chunks[ng := At(t.chunks, ng) + [s.buffers[ng]]];
    }
  }

  /** Writing the buffers out files nothing new and loses nothing, under any n-gram. */
  lemma FlushAllKeepsFiled(s: GramState, ng: string)
    ensures s.FlushAll().Filed(ng) == s.Filed(ng) == Flatten(At(s.FlushAll().chunks, ng))
  {
    var s', buf := s.FlushAll(), At(s.buffers, ng);
    assert At(s'.buffers, ng) == [];
    if buf == [] {
      assert At(s'.chunks, ng) == At(s.chunks, ng);
    } else {
      assert At(s'.chunks, ng) == At(s.chunks, ng) + [buf];
      FlattenOne(At(s.chunks, ng), buf);
    }
  }

  lemma FlushAllAgrees(s: GramState, lower: char -> char, log: seq<string>, n: nat)
    requires s.Agrees(lower, log, n)
    ensures s.FlushAll().Agrees(lower, log, n)
  {
    forall ng
      ensures s.FlushAll().Filed(ng) == Entries(lower, log, ng, n)
    {
      FlushAllKeepsFiled(s, ng);
    }
  }

  /** Once nothing is buffered, the chunks of an n-gram hold exactly the indexed words containing it. */
  lemma FlushedChunks(s: GramState, lower: char -> char, log: seq<string>, n: nat, g: string, w: string)
    requires s.Agrees(lower, log, n)
    ensures w in Flatten(At(s.chunks, g)) ==> w in log && g in GramsOf(lower, w, n)
    ensures s.buffers == map[] && w in log && g in GramsOf(lower, w, n) ==> w in Flatten(At(s.chunks, g))
  {
    assert s.Filed(g) == Entries(lower, log, g, n);
    InEntries(lower, log, g, n, w);
  }

  /** If the n-gram has a chunk of this number, it is stored under its key. */
  ghost predicate ChunkAt(db: Db, chunks: map<string, seq<seq<string>>>, n: nat, ng: string, id: nat) {
    1 <= id <= |At(chunks, ng)| ==>
      && |ng| == n
      && ChunkKey(ng, id) in db
      && db[ChunkKey(ng, id)] == Chunk(At(chunks, ng)[id - 1])
  }

  ghost predicate NamesChunk(k: string, chunks: map<string, seq<seq<string>>>, n: nat) {
    exists ng, id: nat :: |ng| == n && 1 <= id <= |At(chunks, ng)| && k == ChunkKey(ng, id)
  }

  /** The chunk keys of the store are those of the chunk lists, numbered from 1. */
  ghost predicate ChunksStored(db: Db, chunks: map<string, seq<seq<string>>>, n: nat) {
    && (forall ng, id: nat :: ChunkAt(db, chunks, n, ng, id))
    && (forall k :: k in db && "ng:" <= k ==> NamesChunk(k, chunks, n))
  }

  lemma NextChunkStored(db: Db, s: GramState, n: nat, ng: string, words: seq<string>)
    requires ChunksStored(db, s.chunks, n) && |ng| == n
    ensures ChunksStored(db[ChunkKey(ng, |At(s.chunks, ng)| + 1) := Chunk(words)], s.Flush(ng, words).chunks, n)
  {
    var id, chunks' := |At(s.chunks, ng)| + 1, s.Flush(ng, words).chunks;
    var k := ChunkKey(ng, id);
    var db' := db[k := Chunk(words)];
    forall g, i: nat
      ensures ChunkAt(db', chunks', n, g, i)
    {
      assert ChunkAt(db, s.chunks, n, g, i);
      if |g| == n {
        ChunkKeyReadsBack(g, ng, id);
      }
    }
    forall k' | k' in db' && "ng:" <= k'
      ensures NamesChunk(k', chunks', n)
    {
      if k' == k {
        assert 1 <= id <= |At(chunks', ng)| && k' == ChunkKey(ng, id);
      } else {
        assert NamesChunk(k', s.chunks, n);
        var g, i: nat :| |g| == n && 1 <= i <= |At(s.chunks, g)| && k' == ChunkKey(g, i);
        assert 1 <= i <= |At(chunks', g)|;
      }
    }
  }

  lemma OtherWriteKeepsChunks(db: Db, chunks: map<string, seq<seq<string>>>, n: nat, k: string, v: Value)
    requires ChunksStored(db, chunks, n) && !("ng:" <= k)
    ensures ChunksStored(db[k := v], chunks, n)
  {
    var db' := db[k := v];
    forall g, i: nat
      ensures ChunkAt(db', chunks, n, g, i)
    {
      assert ChunkAt(db, chunks, n, g, i);
      ChunkKeyReadsBack(g, g, i);
    }
  }

  /** What the scan for an n-gram meets: exactly the chunks of that n-gram. */
  lemma ScanMeetsChunk(db: Db, chunks: map<string, seq<seq<string>>>, n: nat, g: string, k: string) returns (id: nat)
    requires ChunksStored(db, chunks, n) && |g| == n
    requires k in db && GramPrefix(g) <= k
    ensures 1 <= id <= |At(chunks, g)| && k == ChunkKey(g, id) && db[k] == Chunk(At(chunks, g)[id - 1])
  {
    assert "ng:" == GramPrefix(g)[..3] == k[..3];
    assert NamesChunk(k, chunks, n);
    var ng, i: nat :| |ng| == n && 1 <= i <= |At(chunks, ng)| && k == ChunkKey(ng, i);
    ChunkKeyReadsBack(g, ng, i);
    assert ChunkAt(db, chunks, n, g, i);
    id := i;
  }

  /** Every chunk of an n-gram is met. */
  lemma ChunkIsMet(db: Db, chunks: map<string, seq<seq<string>>>, n: nat, g: string, id: nat)
    requires ChunksStored(db, chunks, n) && 1 <= id <= |At(chunks, g)|
    ensures ChunkKey(g, id) in db && GramPrefix(g) <= ChunkKey(g, id)
  {
    assert ChunkAt(db, chunks, n, g, id);
    ChunkKeyReadsBack(g, g, id);
  }

  predicate Numbers(order: seq<nat>, n: nat) {
    forall j :: 0 <= j < |order| ==> order[j] < n
  }

  /** The words of some chunks, one chunk after the other. */
  function Picked(chunks: seq<seq<string>>, order: seq<nat>): seq<string>
    requires Numbers(order, |chunks|)
  {
    if order == [] then []
    else Picked(chunks, order[..|order| - 1]) + chunks[order[|order| - 1]]
  }

  lemma NothingPicked(chunks: seq<seq<string>>)
    ensures Picked(chunks, []) == []
  {
  }

  lemma PickedOneMore(chunks: seq<seq<string>>, order: seq<nat>, i: nat)
    requires i < |chunks| && Numbers(order, |chunks|)
    ensures Picked(chunks, order + [i]) == Picked(chunks, order) + chunks[i]
  {
    assert (order + [i])[..|order|] == order;
  }

  /** The words of all chunks, each chunk once, in some order. */
  ghost predicate Scanned(chunks: seq<seq<string>>, words: seq<string>) {
    exists order: seq<nat> ::
      && Distinct(order) && Numbers(order, |chunks|) && (forall i :: 0 <= i < |chunks| ==> i in order)
      && words == Picked(chunks, order)
  }

  lemma {:induction false} InPicked(chunks: seq<seq<string>>, order: seq<nat>, w: string)
    requires Numbers(order, |chunks|)
    ensures w in Picked(chunks, order) <==> exists j :: 0 <= j < |order| && w in chunks[order[j]]
  {
    if order != [] {
      var front, last := order[..|order| - 1], order[|order| - 1];
      assert order == front + [last];
      assert forall j :: 0 <= j < |front| ==> front[j] == order[j];
      InPicked(chunks, front, w);
    }
  }

  lemma FlattenNone<T>()
    ensures Flatten<T>([]) == []
  {
  }

  lemma {:induction false} FlattenSplit<T>(a: seq<seq<T>>, b: seq<seq<T>>)
    ensures Flatten(a + b) == Flatten(a) + Flatten(b)
    decreases |b|
  {
    hide Flatten;
    if b == [] {
      FlattenNone<T>();
      assert a + b == a;
    } else {
      var n := |b| - 1;
      FlattenSplit(a, b[..n]);
      FlattenOne(b[..n], b[n]);
      FlattenOne(a + b[..n], b[n]);
      assert b == b[..n] + [b[n]];
      assert a + b == (a + b[..n]) + [b[n]];
    }
  }

  /** A scan finds the words of the chunks and no others. */
  lemma ScannedWords(chunks: seq<seq<string>>, words: seq<string>, w: string)
    requires Scanned(chunks, words)
    ensures w in words <==> w in Flatten(chunks)
  {
    var order: seq<nat> :|
      && Distinct(order) && Numbers(order, |chunks|) && (forall i :: 0 <= i < |chunks| ==> i in order)
      && words == Picked(chunks, order);
    InPicked(chunks, order, w);
    if w in words {
      var j :| 0 <= j < |order| && w in chunks[order[j]];
      InFlatten(chunks, order[j], w);
    }
    if w in Flatten(chunks) {
      var i := FindChunk(chunks, w);
      assert i in order;
      var j :| 0 <= j < |order| && order[j] == i;
    }
  }

  lemma {:induction false} InFlatten<T>(chunks: seq<seq<T>>, i: nat, w: T)
    requires i < |chunks| && w in chunks[i]
    ensures w in Flatten(chunks)
  {
    if i < |chunks| - 1 {
      InFlatten(chunks[..|chunks| - 1], i, w);
    }
  }

  lemma {:induction false} FindChunk(chunks: seq<seq<string>>, w: string) returns (i: nat)
    requires w in Flatten(chunks)
    ensures i < |chunks| && w in chunks[i]
  {
    i := |chunks| - 1;
    if w !in chunks[i] {
      i := FindChunk(chunks[..i], w);
    }
  }

  lemma {:induction false} InEntries(lower: char -> char, log: seq<string>, ng: string, n: nat, w: string)
    ensures w in Entries(lower, log, ng, n) <==> w in log && ng in GramsOf(lower, w, n)
  {
    if log != [] {
      var rest, last := log[..|log| - 1], log[|log| - 1];
      InEntries(lower, rest, ng, n, w);
      assert log == rest + [last];
    }
  }

  // ----- postings

  ghost predicate PostingsStored(db: Db, postings: Postings) {
    && (forall w, d :: (w, d) in postings ==> WordKey(w, d) in db && db[WordKey(w, d)] == Posting(postings[(w, d)]))
    && (forall k :: k in db && "ri:" <= k ==> exists w, d :: (w, d) in postings && k == WordKey(w, d))
  }

  lemma PutPosting(db: Db, postings: Postings, w: string, d: DocId, e: WordCountAndPositions)
    requires PostingsStored(db, postings)
    ensures PostingsStored(db[WordKey(w, d) := Posting(e)], postings[(w, d) := e])
  {
    var db', postings' := db[WordKey(w, d) := Posting(e)], postings[(w, d) := e];
    forall w', d' | (w', d') in postings'
      ensures WordKey(w', d') in db' && db'[WordKey(w', d')] == Posting(postings'[(w', d')])
    {
      if WordKey(w', d') == WordKey(w, d) {
        WordKeyReadsBack(w', d', w, d);
      }
    }
    forall k | k in db' && "ri:" <= k
      ensures exists w', d' :: (w', d') in postings' && k == WordKey(w', d')
    {
      if k == WordKey(w, d) {
        assert (w, d) in postings';
      } else {
        var w', d' :| (w', d') in postings && k == WordKey(w', d');
        assert (w', d') in postings';
      }
    }
  }

  lemma OtherWriteKeepsPostings(db: Db, postings: Postings, k: string, v: Value)
    requires PostingsStored(db, postings) && !("ri:" <= k)
    ensures PostingsStored(db[k := v], postings)
  {
    forall w, d | (w, d) in postings
      ensures WordKey(w, d) != k
    {
      ScanMeets(w, w, d);
    }
  }

  /** Writing a chunk leaves the postings alone. */
  lemma ChunkKeepsPostings(db: Db, postings: Postings, ng: string, id: nat, words: seq<string>)
    requires PostingsStored(db, postings)
    ensures PostingsStored(db[ChunkKey(ng, id) := Chunk(words)], postings)
  {
    assert ChunkKey(ng, id)[0] == 'n';
    OtherWriteKeepsPostings(db, postings, ChunkKey(ng, id), Chunk(words));
  }

  /** The store holds the chunks and the postings, and the counters count the chunks. */
  ghost predicate Holds(db: Db, counts: map<string, nat>, s: GramState, postings: Postings, n: nat) {
    && s.Bounded(n)
    && ChunksStored(db, s.chunks, n)
    && PostingsStored(db, postings)
    && CountsMatch(counts, s.chunks)
  }

  ghost predicate CountsMatch(counts: map<string, nat>, chunks: map<string, seq<seq<string>>>) {
    forall ng :: Count(counts, ng) == |At(chunks, ng)|
  }

  lemma FlushCounts(counts: map<string, nat>, s: GramState, ng: string, words: seq<string>)
    requires CountsMatch(counts, s.chunks)
    ensures CountsMatch(counts[ng := Count(counts, ng) + 1], s.Flush(ng, words).chunks)
  {
    var counts' := counts[ng := Count(counts, ng) + 1];
    forall g
      ensures Count(counts', g) == |At(s.Flush(ng, words).chunks, g)|
    {
      assert Count(counts, g) == |At(s.chunks, g)|;
    }
  }

  lemma FlushHolds(db: Db, counts: map<string, nat>, s: GramState, postings: Postings, n: nat,
                   ng: string, words: seq<string>, db': Db, counts': map<string, nat>, s': GramState)
    requires Holds(db, counts, s, postings, n) && |ng| == n && 1 <= |words| <= CHUNK_SIZE
    requires counts' == counts[ng := Count(counts, ng) + 1]
    requires db' == db[ChunkKey(ng, counts'[ng]) := Chunk(words)]
    requires s' == s.Flush(ng, words)
    ensures Holds(db', counts', s', postings, n)
  {
    NextChunkStored(db, s, n, ng, words);
    ChunkKeepsPostings(db, postings, ng, Count(counts, ng) + 1, words);
    FlushBounded(s, n, ng, words);
    FlushCounts(counts, s, ng, words);
    assert Count(counts, ng) == |At(s.chunks, ng)|;
  }

  lemma ChunkWrittenOutside(db: Db, ng: string, id: nat, v: Value)
    ensures SameOutside(db, db[ChunkKey(ng, id) := v], "ng:")
  {
    ChunkKeyReadsBack(ng, ng, id);
  }

  /** Changing the buffers does not touch the store. */
  lemma BuffersHold(db: Db, counts: map<string, nat>, s: GramState, postings: Postings, n: nat, s': GramState)
    requires Holds(db, counts, s, postings, n)
    requires s'.chunks == s.chunks && s'.Bounded(n)
    ensures Holds(db, counts, s', postings, n)
  {
  }

  lemma BufferBounded(s: GramState, n: nat, ng: string, buf: seq<string>)
    requires s.Bounded(n) && |ng| == n && |buf| < CHUNK_SIZE
    ensures s.(buffers := s.buffers[ng := buf]).Bounded(n)
  {
  }

  /** Writing a posting leaves the chunks alone. */
  lemma PostingHolds(db: Db, counts: map<string, nat>, s: GramState, postings: Postings, n: nat,
                     w: string, d: DocId, e: WordCountAndPositions, db': Db, postings': Postings)
    requires Holds(db, counts, s, postings, n)
    requires db' == db[WordKey(w, d) := Posting(e)] && postings' == postings[(w, d) := e]
    ensures Holds(db', counts, s, postings', n)
  {
    PutPosting(db, postings, w, d, e);
    assert WordKey(w, d)[0] == 'r';
    OtherWriteKeepsChunks(db, s.chunks, n, WordKey(w, d), Posting(e));
  }

  /** A write under neither kind of key changes neither the chunks nor the postings. */
  lemma OtherWriteHolds(db: Db, counts: map<string, nat>, s: GramState, postings: Postings, n: nat, k: string, v: Value)
    requires Holds(db, counts, s, postings, n) && !("ng:" <= k) && !("ri:" <= k)
    ensures Holds(db[k := v], counts, s, postings, n)
  {
    OtherWriteKeepsChunks(db, s.chunks, n, k, v);
    OtherWriteKeepsPostings(db, postings, k, v);
  }

  lemma FlushBounded(s: GramState, n: nat, ng: string, words: seq<string>)
    requires s.Bounded(n) && |ng| == n && 1 <= |words| <= CHUNK_SIZE
    ensures s.Flush(ng, words).Bounded(n)
  {
  }

  /** The documents a word was written for. */
  function DocumentsOf(postings: Postings, word: string): map<DocId, WordCountAndPositions> {
    map p | p in postings && p.0 == word :: p.1 := postings[p]
  }

  /** Some stored word continues the queried one with an underscore. */
  ghost predicate Shadowed(postings: Postings, word: string) {
    exists w, d :: (w, d) in postings && Shadows(w, word)
  }

  /** A stored e-mail address with an underscore shadows what stands before it. */
  lemma AddressShadows(postings: Postings, d: DocId)
    requires ("john_doe@mail.org", d) in postings
    ensures Shadowed(postings, "john")
  {
    assert "john_doe@mail.org"[..5] == "john" + "_";
  }

  /** What is stored of a word's positions: at most the first 500. */
  function FirstPositions(pos: map<string, seq<Position>>, w: string): (r: seq<Position>)
    ensures w !in pos ==> r == []
    ensures w in pos ==> r <= pos[w] && |r| == Min(|pos[w]|, 500)
  {
    var ps := if w in pos then pos[w] else [];
    if |ps| > 500 then ps[..500] else ps
  }

  /** What is stored for one word of one document. */
  function EntryOf(freq: map<string, nat>, pos: map<string, seq<Position>>, w: string): WordCountAndPositions
    requires w in freq
  {
    WordCountAndPositions(freq[w], FirstPositions(pos, w))
  }

  /** The postings one document contributes for some of its words. */
  function PostingsOf(id: DocId, ws: set<string>, freq: map<string, nat>, pos: map<string, seq<Position>>): Postings
    requires ws <= freq.Keys
  {
    map w | w in ws :: (w, id) := EntryOf(freq, pos, w)
  }

  lemma PostingsStep(id: DocId, ws: set<string>, freq: map<string, nat>, pos: map<string, seq<Position>>,
                     base: Postings, w: string)
    requires ws <= freq.Keys && w in freq
    ensures (base + PostingsOf(id, ws, freq, pos))[(w, id) := EntryOf(freq, pos, w)]
            == base + PostingsOf(id, ws + {w}, freq, pos)
  {
    assert PostingsOf(id, ws + {w}, freq, pos) == PostingsOf(id, ws, freq, pos)[(w, id) := EntryOf(freq, pos, w)];
  }

  /** Reading back what was written: the document has the count and the first 500 positions recorded for the word,
      and all other documents are found under it as before. */
  lemma WrittenReadsBack(base: Postings, id: DocId, freq: map<string, nat>, pos: map<string, seq<Position>>, w: string)
    requires w in freq
    ensures var docs := DocumentsOf(base + PostingsOf(id, freq.Keys, freq, pos), w);
            && id in docs && docs[id].count == freq[w]
            && docs[id].positions == (if w !in pos then [] else if |pos[w]| > 500 then pos[w][..500] else pos[w])
            && (forall d :: d != id ==> (d in docs <==> (w, d) in base))
            && (forall d :: d != id && d in docs ==> docs[d] == base[(w, d)])
  {
    var after := base + PostingsOf(id, freq.Keys, freq, pos);
    assert forall p :: p in after && p !in base ==> p.1 == id;
    assert (w, id) in PostingsOf(id, freq.Keys, freq, pos);
    assert PostingsOf(id, freq.Keys, freq, pos)[(w, id)] == EntryOf(freq, pos, w);
    if w in pos {
      assert FirstPositions(pos, w) == if |pos[w]| > 500 then pos[w][..500] else pos[w];
    }
  }

  /** Postings of other documents, and of words that are not among the recorded ones, stay. */
  lemma OthersStay(base: Postings, id: DocId, freq: map<string, nat>, pos: map<string, seq<Position>>,
                   w: string, d: DocId)
    requires d != id || w !in freq
    ensures var after := base + PostingsOf(id, freq.Keys, freq, pos);
            ((w, d) in after <==> (w, d) in base) && ((w, d) in base ==> after[(w, d)] == base[(w, d)])
  {
  }

  /** Taking a document in again: it is found under none but its recorded words if and only if it had no posting
      for any other word before. */
  lemma StaleWords(base: Postings, id: DocId, freq: map<string, nat>, pos: map<string, seq<Position>>)
    ensures (forall w :: id in DocumentsOf(base + PostingsOf(id, freq.Keys, freq, pos), w) ==> w in freq)
       <==> (forall w :: (w, id) in base ==> w in freq)
  {
    var after := base + PostingsOf(id, freq.Keys, freq, pos);
    forall w
      ensures id in DocumentsOf(after, w) <==> (w, id) in base || w in freq
    {
      assert id in DocumentsOf(after, w) <==> (w, id) in after;
    }
    if forall w :: id in DocumentsOf(after, w) ==> w in freq {
      forall w | (w, id) in base
        ensures w in freq
      {
        assert id in DocumentsOf(after, w);
      }
    }
  }
}
