/** The indexer: putting a document into the index, and turning a query into index lookups with
    spelling correction. */
module Indexer {
  import opened EditDistance
  import opened Keys
  import opened NGrams
  import opened Positions
  import Proximity
  import opened Repository
  import opened Spelling
  import opened Stemmer
  import opened Store
  import opened Tokenizer

  datatype Passage = Passage(text: string, kind: char)

  /** A stemmed token is counted unless it is a number or longer than 64 bytes. */
  predicate Counts(u: Alphabet, t: Token) {
    t.kind != NUMBER && ByteLength(u, t.value) <= 64
  }

  /** The counted lemmas of one passage. */
  function Counted(u: Alphabet, stems: seq<Token>, kind: char): seq<Lemma> {
    if stems == [] then []
    else
      var t := stems[|stems| - 1];
      Counted(u, stems[..|stems| - 1], kind) + if Counts(u, t) then [(t.value, kind)] else []
  }

  /** The words and counted lemmas of a document, passage after passage, under some order of the
      stemming rules. */
  ghost predicate DocumentStemming(e: EnglishStemmer, passages: seq<Passage>,
                                   words: seq<string>, kept: seq<Lemma>)
    requires RulesValid(e.rules)
    decreases |passages|
  {
    if passages == [] then words == [] && kept == []
    else
      var p := passages[|passages| - 1];
      exists ws, ks, ws', stems ::
        && DocumentStemming(e, passages[..|passages| - 1], ws, ks)
        && Adds(e, p, ws, ks, ws', stems, words, kept)
  }

  /** One passage adds its words and its counted lemmas. */
  ghost predicate Adds(e: EnglishStemmer, p: Passage, ws: seq<string>, ks: seq<Lemma>,
                       ws': seq<string>, stems: seq<Token>, words: seq<string>, kept: seq<Lemma>)
    requires RulesValid(e.rules)
  {
    TextStemming(e, p.text, ws', stems) && words == ws + ws' && kept == ks + Counted(e.u, stems, p.kind)
  }

  lemma DocumentStep(e: EnglishStemmer, passages: seq<Passage>, ws: seq<string>, ks: seq<Lemma>,
                     p: Passage, ws': seq<string>, stems: seq<Token>)
    requires RulesValid(e.rules) && DocumentStemming(e, passages, ws, ks) && TextStemming(e, p.text, ws', stems)
    ensures DocumentStemming(e, passages + [p], ws + ws', ks + Counted(e.u, stems, p.kind))
  {
    hide TextStemming, Counted;
    var more := passages + [p];
    assert more[..|more| - 1] == passages && more[|more| - 1] == p;
    assert DocumentStemming(e, more[..|more| - 1], ws, ks);
    assert Adds(e, more[|more| - 1], ws, ks, ws', stems, ws + ws', ks + Counted(e.u, stems, p.kind));
  }

  lemma NoPassages(e: EnglishStemmer)
    requires RulesValid(e.rules)
    ensures DocumentStemming(e, [], [], [])
  {
  }

  lemma {:induction false} DocumentWordsUsable(e: EnglishStemmer, passages: seq<Passage>,
                                               words: seq<string>, kept: seq<Lemma>)
    requires e.Valid()
    requires DocumentStemming(e, passages, words, kept)
    ensures forall w <- words :: ContentWord(e, w)
    decreases |passages|
  {
    if passages != [] {
      hide TextStemming, ContentWord;
      var p := passages[|passages| - 1];
      var ws, ks, ws', stems :| DocumentStemming(e, passages[..|passages| - 1], ws, ks)
        && Adds(e, p, ws, ks, ws', stems, words, kept);
      DocumentWordsUsable(e, passages[..|passages| - 1], ws, ks);
      TextInStep(e, p.text, ws', stems);
    }
  }

  // ----- what a document is made of

  /** Exactly the lemmas that are no numbers and take at most 64 bytes are counted, in order. */
  lemma {:induction false} CountedFrom(u: Alphabet, stems: seq<Token>, kind: char) returns (at: seq<nat>)
    ensures Ascending(at, |stems|) && |at| == |Counted(u, stems, kind)|
    ensures forall k :: 0 <= k < |at| ==> Counted(u, stems, kind)[k] == (stems[at[k]].value, kind)
    ensures forall i :: 0 <= i < |stems| ==>
              (i in at <==> stems[i].kind != NUMBER && ByteLength(u, stems[i].value) <= 64)
  {
    hide ByteLength;
    if stems == [] {
      at := [];
    } else {
      var n := |stems| - 1;
      at := CountedFrom(u, stems[..n], kind);
      AscendingMore(at, n);
      if Counts(u, stems[n]) {
        at := at + [n];
      }
    }
  }

  /** The words, lemmas and counted lemmas of each passage. */
  ghost predicate PassageByPassage(e: EnglishStemmer, passages: seq<Passage>, ws: seq<seq<string>>,
                                   ss: seq<seq<Token>>, ks: seq<seq<Lemma>>)
    requires RulesValid(e.rules)
  {
    && |ws| == |ss| == |ks| == |passages|
    && forall k :: 0 <= k < |passages| ==>
         TextStemming(e, passages[k].text, ws[k], ss[k]) && ks[k] == Counted(e.u, ss[k], passages[k].kind)
  }

  lemma OneMorePassage(e: EnglishStemmer, passages: seq<Passage>, ws: seq<seq<string>>, ss: seq<seq<Token>>,
                       ks: seq<seq<Lemma>>, p: Passage, w: seq<string>, s: seq<Token>)
    requires RulesValid(e.rules) && PassageByPassage(e, passages, ws, ss, ks) && TextStemming(e, p.text, w, s)
    ensures PassageByPassage(e, passages + [p], ws + [w], ss + [s], ks + [Counted(e.u, s, p.kind)])
    ensures Flatten(ws + [w]) == Flatten(ws) + w
    ensures Flatten(ks + [Counted(e.u, s, p.kind)]) == Flatten(ks) + Counted(e.u, s, p.kind)
  {
    hide TextStemming, Counted, RulesValid, Flatten;
    FlattenOne(ws, w);
    FlattenOne(ks, Counted(e.u, s, p.kind));
  }

  /** A document's words are those of its passages one after the other, and so are its counted lemmas. */
  lemma {:induction false} DocumentIsPassages(e: EnglishStemmer, passages: seq<Passage>, words: seq<string>,
                                              kept: seq<Lemma>)
    returns (ws: seq<seq<string>>, ss: seq<seq<Token>>, ks: seq<seq<Lemma>>)
    requires RulesValid(e.rules) && DocumentStemming(e, passages, words, kept)
    ensures PassageByPassage(e, passages, ws, ss, ks) && words == Flatten(ws) && kept == Flatten(ks)
    decreases |passages|
  {
    if passages == [] {
      ws, ss, ks := [], [], [];
    } else {
      hide TextStemming, Counted, RulesValid, Flatten, PassageByPassage;
      var front, p := passages[..|passages| - 1], passages[|passages| - 1];
      assert passages == front + [p];
      var words0, kept0, w, s :|
        DocumentStemming(e, front, words0, kept0) && Adds(e, p, words0, kept0, w, s, words, kept);
      ws, ss, ks := DocumentIsPassages(e, front, words0, kept0);
      OneMorePassage(e, front, ws, ss, ks, p, w, s);
      ws, ss, ks := ws + [w], ss + [s], ks + [Counted(e.u, s, p.kind)];
    }
  }

  /** Every word of a passage that is no stop word is among the words of the document. */
  lemma WordOfDocument(e: EnglishStemmer, passages: seq<Passage>, words: seq<string>, kept: seq<Lemma>,
                       k: nat, t: Token)
    requires e.Valid() && RulesValid(e.rules) && DocumentStemming(e, passages, words, kept) && k < |passages|
    requires t in EntityTokens(e.u, e.rules, passages[k].text) && t.kind == WORD && !IsStopWord(e, t.value)
    ensures t.value in words
  {
    hide TextStemming, Counted, Flatten, DocumentStemming, IsStopWord, EnglishStemmer.Valid, RulesValid;
    var ws, ss, ks := DocumentIsPassages(e, passages, words, kept);
    var wordAt, at := TextFrom(e, passages[k].text, ws[k], ss[k]);
    NoEmptyWord(e, passages[k].text, t);
    WordAmong(e, EntityTokens(e.u, e.rules, passages[k].text), ws[k], wordAt, t);
    InFlatten(ws, k, t.value);
  }

  lemma NoEmptyWord(e: EnglishStemmer, text: string, t: Token)
    requires e.Valid() && RulesValid(e.rules) && t in EntityTokens(e.u, e.rules, text) && t.kind == WORD
    ensures t.value != ""
  {
    hide EntityTokens, EntitiesSpecial, Shrinking, RulesValid;
    WordsAreProper(e.u, e.rules, text, t);
  }

  lemma WordAmong(e: EnglishStemmer, tokens: seq<Token>, words: seq<string>, at: seq<nat>, t: Token)
    requires WordsFrom(e, tokens, words, at)
    requires t in tokens && t.kind == WORD && t.value != "" && !IsStopWord(e, t.value)
    ensures t.value in words
  {
    hide IsStopWord, Ascending;
    var i :| 0 <= i < |tokens| && tokens[i] == t;
    assert i in at;
    var j :| 0 <= j < |at| && at[j] == i;
    assert words[j] == t.value;
  }

  /** Every alphanumeric token and address of a passage that takes at most 64 bytes is counted as it stands. */
  lemma OtherTokenOfDocument(e: EnglishStemmer, passages: seq<Passage>, words: seq<string>, kept: seq<Lemma>,
                             k: nat, t: Token)
    requires e.Valid() && RulesValid(e.rules) && DocumentStemming(e, passages, words, kept) && k < |passages|
    requires t in EntityTokens(e.u, e.rules, passages[k].text) && ByteLength(e.u, t.value) <= 64
    requires t.kind in {ALPHANUMERIC, EMAIL_ADDR, URL_ADDR}
    ensures (t.value, passages[k].kind) in kept
  {
    hide TextStemming, Counted, Flatten, DocumentStemming, ByteLength, EnglishStemmer.Valid, RulesValid;
    var ws, ss, ks := DocumentIsPassages(e, passages, words, kept);
    var wordAt, at := TextFrom(e, passages[k].text, ws[k], ss[k]);
    var j := OtherAmong(e, EntityTokens(e.u, e.rules, passages[k].text), ss[k], at, t);
    CountedHas(e.u, ss[k], passages[k].kind, j);
    InFlatten(ks, k, (t.value, passages[k].kind));
  }

  lemma OtherAmong(e: EnglishStemmer, tokens: seq<Token>, lemmas: seq<Token>, at: seq<nat>, t: Token) returns (j: nat)
    requires LemmasFrom(e, tokens, lemmas, at)
    requires t in tokens && t.kind in {ALPHANUMERIC, EMAIL_ADDR, URL_ADDR}
    ensures j < |lemmas| && lemmas[j] == t
  {
    hide IsStopWord, Ascending, StemsTo;
    var i :| 0 <= i < |tokens| && tokens[i] == t;
    assert i in at;
    j :| 0 <= j < |at| && at[j] == i;
  }

  // ----- every word of a document is filed under one of its stems

  /** A stem of the word is among the lemmas, unless it is too long to be counted. */
  ghost predicate FiledUnder(e: EnglishStemmer, w: string, lemmas: set<string>) {
    exists r :: StemsTo(e, w, r) && (ByteLength(e.u, r) > 64 || r in lemmas)
  }

  function LemmasOf(kept: seq<Lemma>): set<string> {
    set k | k in kept :: k.0
  }

  lemma FiledInMore(e: EnglishStemmer, w: string, lemmas: set<string>, more: set<string>)
    requires FiledUnder(e, w, lemmas) && lemmas <= more
    ensures FiledUnder(e, w, more)
  {
    hide StemsTo, ByteLength;
    var r :| StemsTo(e, w, r) && (ByteLength(e.u, r) > 64 || r in lemmas);
    assert ByteLength(e.u, r) > 64 || r in more;
  }

  /** The lemma that belongs to word `k`. */
  lemma {:induction false} LemmaOfWord(stems: seq<Token>, n: nat, k: nat) returns (i: nat)
    requires n <= |stems| && k < WordCount(stems, n)
    ensures i < n && stems[i].kind == WORD && WordCount(stems, i) == k
  {
    if stems[n - 1].kind == WORD && WordCount(stems, n - 1) == k {
      i := n - 1;
    } else {
      i := LemmaOfWord(stems, n - 1, k);
    }
  }

  lemma {:induction false} CountedHas(u: Alphabet, stems: seq<Token>, kind: char, i: nat)
    requires i < |stems| && Counts(u, stems[i])
    ensures (stems[i].value, kind) in Counted(u, stems, kind)
    decreases |stems|
  {
    hide ByteLength;
    if i < |stems| - 1 {
      CountedHas(u, stems[..|stems| - 1], kind, i);
    }
  }

  lemma PassageWordsFiled(e: EnglishStemmer, p: Passage, words: seq<string>, stems: seq<Token>, k: nat)
    requires e.Valid() && TextStemming(e, p.text, words, stems) && k < |words|
    ensures FiledUnder(e, words[k], LemmasOf(Counted(e.u, stems, p.kind)))
  {
    hide TextStemming, StemsTo, ContentWord, ByteLength, EnglishStemmer.Valid, Counted;
    TextInStep(e, p.text, words, stems);
    var i := LemmaOfWord(stems, |stems|, k);
    if ByteLength(e.u, stems[i].value) <= 64 {
      CountedHas(e.u, stems, p.kind, i);
      assert (stems[i].value, p.kind).0 in LemmasOf(Counted(e.u, stems, p.kind));
    }
  }

  /** Whatever the order of the stemming rules, every word of a document has a stem among its counted lemmas,
      or one too long to be counted. */
  lemma {:induction false} DocumentWordsFiled(e: EnglishStemmer, passages: seq<Passage>, words: seq<string>,
                                              kept: seq<Lemma>, w: string)
    requires e.Valid() && DocumentStemming(e, passages, words, kept) && w in words
    ensures FiledUnder(e, w, LemmasOf(kept))
    decreases |passages|
  {
    hide TextStemming, FiledUnder, Counted, EnglishStemmer.Valid;
    ValidRules(e);
    var p := passages[|passages| - 1];
    var ws, ks, ws', stems :| DocumentStemming(e, passages[..|passages| - 1], ws, ks)
      && Adds(e, p, ws, ks, ws', stems, words, kept);
    var lemmas := Counted(e.u, stems, p.kind);
    assert LemmasOf(ks) <= LemmasOf(kept) && LemmasOf(lemmas) <= LemmasOf(kept);
    if w in ws {
      DocumentWordsFiled(e, passages[..|passages| - 1], ws, ks, w);
      FiledInMore(e, w, LemmasOf(ks), LemmasOf(kept));
    } else {
      var k :| 0 <= k < |ws'| && ws'[k] == w;
      PassageWordsFiled(e, p, ws', stems, k);
      FiledInMore(e, w, LemmasOf(lemmas), LemmasOf(kept));
    }
  }

  lemma ValidRules(e: EnglishStemmer)
    requires e.Valid()
    ensures RulesValid(e.rules)
  {
  }

  /** The words that have a posting. */
  ghost function Posted(postings: Postings): set<string> {
    set p | p in postings :: p.0
  }

  /** Every logged word has a posting under one of its stems, unless that stem is too long. */
  ghost predicate Findable(e: EnglishStemmer, log: seq<string>, postings: Postings) {
    forall w <- log :: FiledUnder(e, w, Posted(postings))
  }

  lemma StaysFindable(e: EnglishStemmer, log: seq<string>, postings: Postings, words: seq<string>, id: DocId,
                      stem: map<string, nat>, pos: map<string, seq<Position>>, kept: seq<Lemma>)
    requires Findable(e, log, postings) && Recorded(kept, stem, pos)
    requires forall w <- words :: FiledUnder(e, w, LemmasOf(kept))
    ensures Findable(e, log + words, postings + PostingsOf(id, stem.Keys, stem, pos))
  {
    hide FiledUnder, Occurrences;
    var after := postings + PostingsOf(id, stem.Keys, stem, pos);
    assert Posted(postings) <= Posted(after) by { assert forall p :: p in postings ==> p in after; }
    assert LemmasOf(kept) <= Posted(after) by { LemmasPosted(kept, stem, pos, id, postings); }
    forall w <- log + words
      ensures FiledUnder(e, w, Posted(after))
    {
      if w in log {
        FiledInMore(e, w, Posted(postings), Posted(after));
      } else {
        FiledInMore(e, w, LemmasOf(kept), Posted(after));
      }
    }
  }

  lemma LemmasPosted(kept: seq<Lemma>, stem: map<string, nat>, pos: map<string, seq<Position>>, id: DocId,
                     postings: Postings)
    requires Recorded(kept, stem, pos)
    ensures LemmasOf(kept) <= Posted(postings + PostingsOf(id, stem.Keys, stem, pos))
  {
    hide Occurrences;
    forall k <- kept
      ensures k.0 in Posted(postings + PostingsOf(id, stem.Keys, stem, pos))
    {
      assert Occurs(kept, k.0);
      assert (k.0, id) in PostingsOf(id, stem.Keys, stem, pos);
      assert (k.0, id) in postings + PostingsOf(id, stem.Keys, stem, pos);
    }
  }

  /** What is stored for a word of a document: how often it stands there, and its first 500 places, in the order
      the proximity search asks for. */
  lemma StoredPositionsSearchable(kept: seq<Lemma>, stem: map<string, nat>, pos: map<string, seq<Position>>, w: string)
    requires Recorded(kept, stem, pos) && w in stem && |kept| <= Proximity.MAX_INT
    ensures var e := EntryOf(stem, pos, w);
            var arr := seq(|e.positions|, i requires 0 <= i < |e.positions| => e.positions[i].i);
            && Proximity.Sorted(arr) && (forall p <- arr :: 0 <= p < Proximity.MAX_INT)
            && e.count == |Occurrences(kept, w)|
            && e.positions <= Occurrences(kept, w) && |e.positions| == Min(e.count, 500)
  {
    OccurrencesExact(kept, w);
    var e := EntryOf(stem, pos, w);
    assert e.positions <= Occurrences(kept, w);
    forall i | 0 <= i < |e.positions|
      ensures e.positions[i] == Occurrences(kept, w)[i] && e.positions[i].i < |kept|
    {
      assert Occurrences(kept, w)[i] in Occurrences(kept, w);
    }
  }

  /** Some list of candidates that the n-gram lookup of the word may return leads to this replacement. */
  ghost predicate Replaces(repo: IndexRepository, sc: SpellChecker, word: string, replacement: string)
    reads repo
  {
    exists candidates :: repo.MayFind(word, candidates) && sc.Corrects(word, candidates, replacement)
  }

  /** End-to-end correction. The replacement is the query word or an indexed word within the bound;
      once the buffers are written out it is the latter whenever such a word exists and the query word
      is long enough for the n-gram filter. */
  lemma CorrectionFindsWord(repo: IndexRepository, sc: SpellChecker, word: string, replacement: string)
    requires repo.Valid() && repo.gramSize == sc.nGramCount && Replaces(repo, sc, word, replacement)
    ensures replacement == word || (replacement in repo.log && Distance(word, replacement) <= sc.maxTypo)
    ensures repo.wordBuffer == map[] && |word| - sc.nGramCount + 1 > sc.maxTypo * sc.nGramCount
            && (exists w <- repo.log :: Distance(word, w) <= sc.maxTypo)
            ==> replacement in repo.log && Distance(word, replacement) <= sc.maxTypo
  {
    hide Distance, IndexRepository.Valid, IndexRepository.FoundIn, IndexRepository.MayFind, GramsOf;
    var candidates :| repo.MayFind(word, candidates) && sc.Corrects(word, candidates, replacement);
    repo.FindsFiled(word, candidates);
    sc.CorrectsWithinBound(word, candidates, replacement);
    if replacement in candidates {
      repo.LookupMatchesLog(word, replacement);
    }
    if repo.wordBuffer == map[] && |word| - sc.nGramCount + 1 > sc.maxTypo * sc.nGramCount {
      if w :| w in repo.log && Distance(word, w) <= sc.maxTypo {
        CloseWordsShareGram(repo.lower, word, w, sc.nGramCount, sc.maxTypo);
        repo.LookupMatchesLog(word, w);
      }
    }
  }

  /** The handler gets to correct the word of a lemma: it is a word lemma without documents, and the
      comparison of its index with the number of words lets it through. */
  ghost predicate Corrected(repo: IndexRepository, words: seq<string>, stems: seq<Token>, i: nat)
    requires i < |stems|
    reads repo
  {
    DocumentsOf(repo.postings, stems[i].value) == map[] && stems[i].kind == WORD && |words| > i
  }

  /** `token` is a stem of a replacement of the word. */
  ghost predicate CorrectedStem(repo: IndexRepository, sc: SpellChecker, e: EnglishStemmer, word: string, token: string)
    reads repo
  {
    exists r :: Replaces(repo, sc, word, r) && StemsTo(e, r, token)
  }

  /** `token` is a stem of a replacement of the word that belongs to lemma `i`. */
  ghost predicate Replacing(repo: IndexRepository, sc: SpellChecker, e: EnglishStemmer,
                            words: seq<string>, stems: seq<Token>, i: nat, token: string)
    requires i < |stems|
    reads repo
  {
    WordCount(stems, i) < |words| && CorrectedStem(repo, sc, e, words[WordCount(stems, i)], token)
  }

  /** The answer of the query handler for one lemma: the documents of the lemma, or, when the handler
      gets to correct its word, those of a stem of the replacement. No lookup on the way failed. */
  ghost predicate Answers(repo: IndexRepository, sc: SpellChecker, e: EnglishStemmer,
                          words: seq<string>, stems: seq<Token>, i: nat, token: string, docs: Docs)
    requires i < |stems|
    reads repo
  {
    && !Shadowed(repo.postings, stems[i].value) && !Shadowed(repo.postings, token)
    && docs == DocumentsOf(repo.postings, token)
    && if Corrected(repo, words, stems, i) then Replacing(repo, sc, e, words, stems, i, token)
       else token == stems[i].value
  }

  /** What the handler may look up for one lemma. */
  ghost predicate MayLookUp(repo: IndexRepository, sc: SpellChecker, e: EnglishStemmer,
                            words: seq<string>, stems: seq<Token>, i: nat, token: string)
    requires i < |stems|
    reads repo
  {
    || token == stems[i].value
    || (Corrected(repo, words, stems, i) && Replacing(repo, sc, e, words, stems, i, token))
  }

  /** A lookup for one of the lemmas meets a stored word that continues its token with an underscore. */
  ghost predicate LookupFails(repo: IndexRepository, sc: SpellChecker, e: EnglishStemmer,
                              words: seq<string>, stems: seq<Token>, i: nat, token: string)
    reads repo
  {
    i < |stems| && MayLookUp(repo, sc, e, words, stems, i, token) && Shadowed(repo.postings, token)
  }

  type Docs = map<DocId, WordCountAndPositions>

  class TextIndexer {
    const repo: IndexRepository
    const sc: SpellChecker
    const e: EnglishStemmer

    constructor (repo: IndexRepository, sc: SpellChecker, e: EnglishStemmer)
      ensures this.repo == repo && this.sc == sc && this.e == e
      ensures Configured() && repo.Valid() && repo.log == [] ==> Valid()
    {
      this.repo, this.sc, this.e := repo, sc, e;
    }

    ghost predicate Configured()
    {
      && e.Valid()
      && repo.lower == e.u.lower && repo.gramSize == sc.nGramCount
    }

    /** All indexed words are usable as replacements and can be found under one of their stems. */
    ghost predicate Valid()
      reads repo
    {
      && Configured() && repo.Valid() && (forall w <- repo.log :: ContentWord(e, w))
      && Findable(e, repo.log, repo.postings)
    }

    /** Records the counted lemmas of one passage. */
    method CollectPassage(ghost kept: seq<Lemma>, stemmed: seq<Token>, kind: char, i: nat,
                          stem: map<string, nat>, pos: map<string, seq<Position>>)
      returns (i': nat, stem': map<string, nat>, pos': map<string, seq<Position>>)
      requires Recorded(kept, stem, pos) && i == |kept|
      ensures Recorded(kept + Counted(e.u, stemmed, kind), stem', pos')
      ensures i' == |kept + Counted(e.u, stemmed, kind)|
    {
      hide Recorded, ByteLength;
      i', stem', pos' := i, stem, pos;
      assert kept + Counted(e.u, stemmed[..0], kind) == kept;
      for j := 0 to |stemmed|
        invariant Recorded(kept + Counted(e.u, stemmed[..j], kind), stem', pos')
        invariant i' == |kept + Counted(e.u, stemmed[..j], kind)|
      {
        var w := stemmed[j];
        ghost var so := kept + Counted(e.u, stemmed[..j], kind);
        assert stemmed[..j + 1][..j] == stemmed[..j];
        if w.kind == NUMBER || ByteLength(e.u, w.value) > 64 {
          assert kept + Counted(e.u, stemmed[..j + 1], kind) == so;
          continue;
        }
        assert kept + Counted(e.u, stemmed[..j + 1], kind) == so + [(w.value, kind)];
        stem', pos' := Record(so, (w.value, kind), i', stem', pos');
        i' := i' + 1;
      }
      assert stemmed[..|stemmed|] == stemmed;
    }

    /** The words, counts and positions of a document, under some order of the stemming rules: every
        counted lemma is recorded, at its place, and `count` is their number. */
    ghost predicate Collected(passages: seq<Passage>, words: seq<string>, count: nat,
                              stem: map<string, nat>, pos: map<string, seq<Position>>)
      requires Configured()
    {
      exists kept :: DocumentStemming(e, passages, words, kept) && Recorded(kept, stem, pos) && count == |kept|
    }

    /** Goes through the passages of a document. */
    method CollectDocument(passages: seq<Passage>)
      returns (allTokens: seq<string>, i: nat, stem: map<string, nat>, pos: map<string, seq<Position>>)
      requires Configured() && forall p <- passages :: p.kind in "bhq"
      ensures Collected(passages, allTokens, i, stem, pos)
    {
      hide Recorded, TextStemming, DocumentStemming, InStep;
      allTokens, i, stem, pos := [], 0, map[], map[];
      ghost var kept: seq<Lemma> := [];
      NothingRecorded();
      NoPassages(e);
      for k := 0 to |passages|
        invariant DocumentStemming(e, passages[..k], allTokens, kept)
        invariant i == |kept| && Recorded(kept, stem, pos)
      {
        var passage := passages[k];
        var orig, stemmed := TokenizeAndStem(e, passage.text);
        DocumentStep(e, passages[..k], allTokens, kept, passage, orig, stemmed);
        assert passages[..k + 1] == passages[..k] + [passage];
        if |stemmed| == 0 {
          NoStemsNoWords(passage.text, orig, stemmed);
          assert allTokens + orig == allTokens && kept + Counted(e.u, stemmed, passage.kind) == kept;
          continue;
        }
        allTokens := allTokens + orig;
        i, stem, pos := CollectPassage(kept, stemmed, passage.kind, i, stem, pos);
        kept := kept + Counted(e.u, stemmed, passage.kind);
      }
      assert passages[..|passages|] == passages;
    }

    lemma NoStemsNoWords(text: string, words: seq<string>, stems: seq<Token>)
      requires Configured() && TextStemming(e, text, words, stems) && stems == []
      ensures words == []
    {
      TextInStep(e, text, words, stems);
    }

    lemma CollectedUsable(passages: seq<Passage>, words: seq<string>, count: nat,
                          stem: map<string, nat>, pos: map<string, seq<Position>>)
      requires Configured() && Collected(passages, words, count, stem, pos)
      ensures forall w <- words :: ContentWord(e, w)
    {
      hide DocumentStemming, Recorded, ContentWord;
      var kept :| DocumentStemming(e, passages, words, kept) && Recorded(kept, stem, pos) && count == |kept|;
      DocumentWordsUsable(e, passages, words, kept);
    }

    lemma CollectedFindable(docID: DocId, passages: seq<Passage>, words: seq<string>, count: nat,
                            stem: map<string, nat>, pos: map<string, seq<Position>>,
                            log: seq<string>, postings: Postings)
      requires Configured() && Collected(passages, words, count, stem, pos) && Findable(e, log, postings)
      ensures Findable(e, log + words, postings + PostingsOf(docID, stem.Keys, stem, pos))
    {
      hide DocumentStemming, Recorded, FiledUnder, Findable, PostingsOf;
      var kept :| DocumentStemming(e, passages, words, kept) && Recorded(kept, stem, pos) && count == |kept|;
      forall w <- words
        ensures FiledUnder(e, w, LemmasOf(kept))
      {
        DocumentWordsFiled(e, passages, words, kept, w);
      }
      StaysFindable(e, log, postings, words, docID, stem, pos, kept);
    }

    /** The index has taken in a document: its words entered the log of indexed words, and the postings
        of its recorded words were added or replaced. All other postings stayed, also those the document
        had before for words it no longer contains. */
    ghost predicate TakenIn(docID: DocId, passages: seq<Passage>, count: nat, log: seq<string>, log': seq<string>,
                            postings: Postings, postings': Postings)
      requires Configured()
    {
      exists words, stem, pos ::
        && Collected(passages, words, count, stem, pos)
        && log' == log + words
        && postings' == postings + PostingsOf(docID, stem.Keys, stem, pos)
    }

    /** Indexes a document: its words under their n-grams, its lemmas with counts and positions. */
    method HandleDocumentWords(docID: DocId, passages: seq<Passage>) returns (wordCount: nat)
      requires Valid() && forall p <- passages :: p.kind in "bhq"
      modifies repo
      ensures Valid()
      ensures TakenIn(docID, passages, wordCount, old(repo.log), repo.log, old(repo.postings), repo.postings)
      ensures RecordWritten(old(repo.db), repo.db, docID, wordCount)
    {
      hide IndexRepository.Valid, ContentWord, Collected, PostingsOf, Findable, SameOutside, RecordWritten, DocumentKey;
      var allTokens, i, stem, pos := CollectDocument(passages);
      CollectedUsable(passages, allTokens, i, stem, pos);
      CollectedFindable(docID, passages, allTokens, i, stem, pos, repo.log, repo.postings);
      wordCount := i;
      repo.SaveDocument(docID, wordCount);
      repo.IndexNGrams(allTokens, sc.nGramCount);
      ghost var filed := repo.db;
      repo.IndexDocumentWords(docID, stem, pos);
      RecordStays(old(repo.db), docID, wordCount, filed, repo.db);
    }

    lemma NothingRecorded()
      ensures Recorded([], map[], map[])
    {
    }

    /** What the lookup proposes for a usable word, and the word itself, are usable. */
    lemma ReplacementUsable(word: string, candidates: seq<string>, replacement: string)
      requires Valid() && ContentWord(e, word)
      requires repo.MayFind(word, candidates)
      requires sc.Corrects(word, candidates, replacement)
      ensures ContentWord(e, replacement) && Replaces(repo, sc, word, replacement)
    {
      hide ContentWord, IndexRepository.Valid, IndexRepository.FoundIn, IndexRepository.MayFind, GramsOf;
      repo.FindsFiled(word, candidates);
      sc.CorrectsWithinBound(word, candidates, replacement);
      if replacement in candidates {
        repo.LookupMatchesLog(word, replacement);
      }
    }

    /** Looks for a replacement of a word and stems it. */
    method Correct(word: string) returns (stem: seq<Token>)
      requires Valid() && ContentWord(e, word)
      ensures |stem| == 1 && stem[0].kind == WORD && stem[0].value != ""
      ensures CorrectedStem(repo, sc, e, word, stem[0].value)
    {
      hide ContentWord, IndexRepository.Valid, IndexRepository.MayFind, TextStemming, StemsTo, Replaces;
      var conds := repo.GetWordsByNGram(word, sc.nGramCount);
      var replacement := sc.BestReplacement(word, conds);
      ReplacementUsable(word, conds, replacement);
      var ws;
      ws, stem := TokenizeAndStem(e, replacement);
      ContentWordRestems(e, replacement, ws, stem);
    }

    /** The query has been answered, under some order of the stemming rules: one token and one set of
        documents for every lemma of the text, or an error, for an empty query or a failed lookup. */
    ghost predicate Answered(text: string, r: Result<(seq<string>, seq<Docs>)>)
      requires Configured()
      reads repo
    {
      exists words, lemmas :: TextStemming(e, text, words, lemmas) && AnsweredFor(words, lemmas, r)
    }

    /** The answer for these words and lemmas. */
    ghost predicate AnsweredFor(words: seq<string>, lemmas: seq<Token>, r: Result<(seq<string>, seq<Docs>)>)
      reads repo
    {
      match r
      case Ok((tokens, docs)) =>
        && lemmas != [] && |tokens| == |docs| == |lemmas|
        && forall i :: 0 <= i < |lemmas| ==> Answers(repo, sc, e, words, lemmas, i, tokens[i], docs[i])
      case Err(message) =>
        if lemmas == [] then message == "empty tokens"
        else exists i: nat, v :: LookupFails(repo, sc, e, words, lemmas, i, v)
    }

    /** A query fails only if it has no lemmas or one of its lookups fails. */
    lemma FailsOnlyForLookups(text: string, r: Result<(seq<string>, seq<Docs>)>)
      requires Configured() && Answered(text, r)
      requires forall words, lemmas :: TextStemming(e, text, words, lemmas) ==>
                 lemmas != [] && forall i: nat, v :: !LookupFails(repo, sc, e, words, lemmas, i, v)
      ensures r.Ok?
    {
      hide TextStemming, LookupFails;
    }

    /** As long as no stored word contains an underscore, only a query without lemmas fails. */
    lemma OnlyEmptyFails(text: string, r: Result<(seq<string>, seq<Docs>)>)
      requires Configured() && Answered(text, r)
      requires forall w, d :: (w, d) in repo.postings ==> '_' !in w
      ensures r.Ok? || (r == Err("empty tokens") && exists words :: TextStemming(e, text, words, []))
    {
      hide TextStemming, MayLookUp;
      forall v
        ensures !Shadowed(repo.postings, v)
      {
        NotShadowed(repo.postings, v);
      }
    }

    /** Turns a query into lookups, lemma by lemma. A word lemma without documents is replaced by a
        stem of its correction. */
    method HandleTextQuery(text: string) returns (r: Result<(seq<string>, seq<Docs>)>)
      requires Valid()
      ensures Answered(text, r)
    {
      hide Valid, ContentWord, TextStemming, StemsTo, Shadowed, Answers, LookupFails, DocumentsOf, Configured,
        CorrectedStem;
      ValidConfigured();
      var words, stemmed := TokenizeAndStem(e, text);
      ghost var lemmas := stemmed;
      if |stemmed| == 0 {
        return Err("empty tokens");
      }
      WordsInStep(text, words, lemmas);
      var stemmedTokens: seq<string> := [];
      var reverseIndex: seq<Docs> := [];
      var wordp := 0;
      for i := 0 to |stemmed|
        invariant |stemmed| == |lemmas| && stemmed[i..] == lemmas[i..]
        invariant |stemmedTokens| == |reverseIndex| == i && wordp == WordCount(lemmas, i)
        invariant forall k :: 0 <= k < i ==> Answers(repo, sc, e, words, lemmas, k, stemmedTokens[k], reverseIndex[k])
      {
        var lemma' := stemmed[i];
        assert lemma' == stemmed[i..][0] == lemmas[i];
        var found := LookUp(lemma'.value);
        if found.Err? {
          LemmaFails(words, lemmas, i);
          return Err(found.message);
        }
        var documents := found.value;
        if |documents| == 0 && lemma'.kind == WORD && |words| > i {
          var stem := Correct(words[wordp]);
          if stem[0].value == "" {
            // Here the handler would skip the lemma; a replacement is never a stop word.
            assert false;
          }
          stemmed := stemmed[i := stem[0]];
          found := LookUp(stem[0].value);
          CorrectionAnswers(words, lemmas, i, stem[0].value);
          if found.Err? {
            return Err(found.message);
          }
          documents := found.value;
        } else {
          LemmaAnswers(words, lemmas, i);
        }
        stemmedTokens := stemmedTokens + [stemmed[i].value];
        reverseIndex := reverseIndex + [documents];
        if lemma'.kind == WORD {
          wordp := wordp + 1;
        }
      }
      return Ok((stemmedTokens, reverseIndex));
    }

    lemma ValidConfigured()
      requires Valid()
      ensures Configured() && RulesValid(e.rules)
    {
      hide IndexRepository.Valid, ContentWord;
    }

    /** The lookup of one token. */
    method LookUp(token: string) returns (found: Result<Docs>)
      requires Valid()
      ensures found.Err? <==> Shadowed(repo.postings, token)
      ensures found.Ok? ==> found.value == DocumentsOf(repo.postings, token)
    {
      hide ContentWord, IndexRepository.Valid;
      found := repo.GetDocumentsByWord(token);
    }

    /** Every word lemma finds its own original among the words, and that is usable. */
    lemma WordsInStep(text: string, words: seq<string>, lemmas: seq<Token>)
      requires Configured() && TextStemming(e, text, words, lemmas)
      ensures forall i :: 0 <= i < |lemmas| && lemmas[i].kind == WORD ==>
                WordCount(lemmas, i) < |words| && ContentWord(e, words[WordCount(lemmas, i)])
    {
      hide ContentWord, StemsTo, TextStemming;
      TextInStep(e, text, words, lemmas);
    }

    lemma LemmaFails(words: seq<string>, lemmas: seq<Token>, i: nat)
      requires i < |lemmas| && Shadowed(repo.postings, lemmas[i].value)
      ensures LookupFails(repo, sc, e, words, lemmas, i, lemmas[i].value)
    {
    }

    lemma LemmaAnswers(words: seq<string>, lemmas: seq<Token>, i: nat)
      requires i < |lemmas| && !Shadowed(repo.postings, lemmas[i].value)
      requires !(DocumentsOf(repo.postings, lemmas[i].value) == map[] && lemmas[i].kind == WORD && |words| > i)
      ensures Answers(repo, sc, e, words, lemmas, i, lemmas[i].value, DocumentsOf(repo.postings, lemmas[i].value))
    {
      hide Shadowed, DocumentsOf;
    }

    lemma CorrectionAnswers(words: seq<string>, lemmas: seq<Token>, i: nat, token: string)
      requires i < |lemmas| && !Shadowed(repo.postings, lemmas[i].value)
      requires DocumentsOf(repo.postings, lemmas[i].value) == map[] && lemmas[i].kind == WORD && |words| > i
      requires WordCount(lemmas, i) < |words| && CorrectedStem(repo, sc, e, words[WordCount(lemmas, i)], token)
      ensures if Shadowed(repo.postings, token) then LookupFails(repo, sc, e, words, lemmas, i, token)
              else Answers(repo, sc, e, words, lemmas, i, token, DocumentsOf(repo.postings, token))
    {
      hide Shadowed, DocumentsOf, CorrectedStem;
    }
  }

  lemma NotShadowed(postings: Postings, v: string)
    requires forall w, d :: (w, d) in postings ==> '_' !in w
    ensures !Shadowed(postings, v)
  {
    forall w, d | (w, d) in postings
      ensures !Shadows(w, v)
    {
      assert |v| < |w| ==> w[|v|] != '_';
    }
  }

  /** The handler looks at a word only if its lemma stands among the first so many lemmas as there are
      words. That covers every word of the query exactly when no other lemma precedes a word lemma. */
  lemma EveryWordEligible(words: seq<string>, stems: seq<Token>)
    requires |words| == WordCount(stems, |stems|)
    ensures (forall i :: 0 <= i < |stems| && stems[i].kind == WORD ==> i < |words|)
       <==> (forall i, j :: 0 <= i < j < |stems| && stems[j].kind == WORD ==> stems[i].kind == WORD)
  {
    if forall i, j :: 0 <= i < j < |stems| && stems[j].kind == WORD ==> stems[i].kind == WORD {
      forall i | 0 <= i < |stems| && stems[i].kind == WORD
        ensures i < |words|
      {
        AllWordsBefore(stems, i);
        WordCountGrows(stems, i + 1, |stems|);
      }
    } else {
      var i, j :| 0 <= i < j < |stems| && stems[j].kind == WORD && stems[i].kind != WORD;
      var last := LastWord(stems, j);
      MissingOne(stems, i, last);
      NoWordsAfter(stems, last);
      assert last >= |words|;
    }
  }

  lemma {:induction false} AllWordsBefore(stems: seq<Token>, n: nat)
    requires n < |stems| && forall i :: 0 <= i < n ==> stems[i].kind == WORD
    ensures WordCount(stems, n) == n
  {
    if n > 0 {
      AllWordsBefore(stems, n - 1);
    }
  }

  lemma {:induction false} MissingOne(stems: seq<Token>, i: nat, n: nat)
    requires i < n <= |stems| && stems[i].kind != WORD
    ensures WordCount(stems, n) < n
  {
    if i < n - 1 {
      MissingOne(stems, i, n - 1);
    }
  }

  lemma LastWord(stems: seq<Token>, j: nat) returns (last: nat)
    requires j < |stems| && stems[j].kind == WORD
    ensures j <= last < |stems| && stems[last].kind == WORD
    ensures forall k :: last < k < |stems| ==> stems[k].kind != WORD
    decreases |stems| - j
  {
    last := j;
    if k :| j < k < |stems| && stems[k].kind == WORD {
      last := LastWord(stems, k);
    }
  }

  lemma NoWordsAfter(stems: seq<Token>, last: nat)
    requires last < |stems| && stems[last].kind == WORD
    requires forall k :: last < k < |stems| ==> stems[k].kind != WORD
    ensures WordCount(stems, |stems|) == WordCount(stems, last) + 1
  {
    NoneBetween(stems, last + 1, |stems|);
  }

  lemma {:induction false} NoneBetween(stems: seq<Token>, m: nat, n: nat)
    requires m <= n <= |stems| && forall k :: m <= k < n ==> stems[k].kind != WORD
    ensures WordCount(stems, n) == WordCount(stems, m)
  {
    if m < n {
      NoneBetween(stems, m, n - 1);
    }
  }

  // ----- a word that is not corrected

  /** A seven and a space are what they look like, and no rule finds an entity in this text. */
  ghost predicate PlainText(e: EnglishStemmer, text: string) {
    && e.u.isDigit('7') && !e.u.isLetter('7') && e.u.lower('7') == '7'
    && e.u.isSpace(' ') && !e.u.isLetter(' ') && !e.u.isDigit(' ') && e.u.lower(' ') == ' '
    && forall rule <- e.rules :: rule.find(text) == []
  }

  lemma {:induction false} NoMatches(rules: seq<Rule>, text: string)
    requires forall rule <- rules :: rule.find(text) == []
    ensures AllMatches(rules, text) == []
  {
    if rules != [] {
      NoMatches(rules[..|rules| - 1], text);
      assert rules[|rules| - 1] in rules;
    }
  }

  lemma RunsAfterNumber(u: Alphabet, w: string)
    requires u.isDigit('7') && !u.isLetter('7') && u.isSpace(' ') && !u.isLetter(' ') && !u.isDigit(' ')
    requires ProperWord(u, w)
    ensures u.Runs("7 " + w) == [Token(NUMBER, "7"), Token(WHITESPACE, " "), Token(WORD, w)]
  {
    hide *;
    var rest := " " + w;
    SpaceAndWord(u, w);
    SingleRune(u, '7');
    NumberAndSpace(u, w);
    assert "7 " + w == "7" + rest;
    FirstRun(u, "7", rest);
  }

  lemma SpaceAndWord(u: Alphabet, w: string)
    requires u.isDigit('7') && !u.isLetter('7') && u.isSpace(' ') && !u.isLetter(' ') && !u.isDigit(' ')
    requires ProperWord(u, w)
    ensures u.Runs(" " + w) == [Token(WHITESPACE, " "), Token(WORD, w)]
  {
    hide *;
    WordRun(u, w);
    SingleRune(u, ' ');
    NumberAndSpace(u, w);
    assert w + "" == w;
    FirstRun(u, w, "");
    FirstRun(u, " ", w);
  }

  lemma NumberAndSpace(u: Alphabet, w: string)
    requires u.isDigit('7') && !u.isLetter('7') && u.isSpace(' ') && !u.isLetter(' ') && !u.isDigit(' ')
    requires ProperWord(u, w)
    ensures u.RuneType('7') == NUMBER && u.RuneType(' ') == WHITESPACE
    ensures u.Class('7') != u.Class(' ') && u.Class(' ') != u.Class(w[0])
  {
  }

  lemma WordRun(u: Alphabet, w: string)
    requires ProperWord(u, w)
    ensures u.Uniform(w) && u.TypeOf(w) == WORD
  {
  }

  lemma TokensAfterNumber(e: EnglishStemmer, w: string)
    requires e.Valid() && ProperWord(e.u, w) && PlainText(e, "7 " + w)
    ensures EntityTokens(e.u, e.rules, "7 " + w) == [Token(NUMBER, "7"), Token(WHITESPACE, " "), Token(WORD, w)]
  {
    hide Alphabet.Runs;
    var text := "7 " + w;
    NoMatches(e.rules, text);
    assert Map(e.u.lower, text[0..]) == text;
    RunsAfterNumber(e.u, w);
  }

  /** A number before a word gives two lemmas and one word. */
  lemma WordAfterNumber(e: EnglishStemmer, w: string, words: seq<string>, lemmas: seq<Token>)
    requires e.Valid() && ContentWord(e, w) && PlainText(e, "7 " + w)
    requires TextStemming(e, "7 " + w, words, lemmas)
    ensures words == [w] && |lemmas| == 2 && lemmas[0] == Token(NUMBER, "7")
    ensures lemmas[1].kind == WORD && StemsTo(e, w, lemmas[1].value)
  {
    hide StemsTo, Stemming, ContentWord, EnglishStemmer.Valid, PlainText;
    IsProper(e, w);
    TokensAfterNumber(e, w);
    var seven, space, word := Token(NUMBER, "7"), Token(WHITESPACE, " "), Token(WORD, w);
    assert [seven, space] + [word] == [seven, space, word] && [seven] + [space] == [seven, space];
    var r, ws, ss := WordLast(e, [seven, space], w, words, lemmas);
    SpaceLast(e, [seven], " ", ws, ss);
    OnlySeven(e, ws, ss);
  }

  lemma IsProper(e: EnglishStemmer, w: string)
    requires e.Valid() && ContentWord(e, w)
    ensures ProperWord(e.u, w) && RulesValid(e.rules)
  {
  }

  lemma WordLast(e: EnglishStemmer, tokens: seq<Token>, w: string, words: seq<string>, stems: seq<Token>)
    returns (r: string, ws: seq<string>, ss: seq<Token>)
    requires e.Valid() && ContentWord(e, w) && Stemming(e, tokens + [Token(WORD, w)], words, stems)
    ensures words == ws + [w] && stems == ss + [Token(WORD, r)] && StemsTo(e, w, r) && Stemming(e, tokens, ws, ss)
  {
    hide StemsTo, Stemming, EnglishStemmer.Valid;
    assert (tokens + [Token(WORD, w)])[..|tokens|] == tokens;
    var ws', ss';
    ws, ss, ws', ss' := StemmingLast(e, tokens + [Token(WORD, w)], words, stems);
    r :| StemsTo(e, w, r) && if r == "" then ws' == [] && ss' == [] else ws' == [w] && ss' == [Token(WORD, r)];
    NotEmpty(e, w, r);
  }

  lemma SpaceLast(e: EnglishStemmer, tokens: seq<Token>, space: string, words: seq<string>, stems: seq<Token>)
    requires Stemming(e, tokens + [Token(WHITESPACE, space)], words, stems)
    ensures Stemming(e, tokens, words, stems)
  {
    hide Stemming;
    assert (tokens + [Token(WHITESPACE, space)])[..|tokens|] == tokens;
    var ws, ss, ws', ss' := StemmingLast(e, tokens + [Token(WHITESPACE, space)], words, stems);
    assert words == ws && stems == ss;
  }

  lemma OnlySeven(e: EnglishStemmer, words: seq<string>, stems: seq<Token>)
    requires Stemming(e, [Token(NUMBER, "7")], words, stems)
    ensures words == [] && stems == [Token(NUMBER, "7")]
  {
    hide Stemming;
    var ws, ss, ws', ss' := StemmingLast(e, [Token(NUMBER, "7")], words, stems);
    OnlyNothing(e, ws, ss);
  }

  lemma NotEmpty(e: EnglishStemmer, w: string, r: string)
    requires e.Valid() && ContentWord(e, w) && StemsTo(e, w, r)
    ensures r != ""
  {
    hide StemsTo;
    StemShape(e, w, r);
  }

  /** In the query "7 helo" the word is never corrected, whatever is indexed: the answer is for a stem of
      "helo" itself. */
  lemma NotCorrected(x: TextIndexer, tokens: seq<string>, docs: seq<Docs>)
    requires x.Configured() && ContentWord(x.e, "helo") && PlainText(x.e, "7 helo")
    requires x.Answered("7 helo", Ok((tokens, docs)))
    ensures |tokens| == 2 && tokens[0] == "7" && StemsTo(x.e, "helo", tokens[1])
  {
    hide TextStemming, StemsTo, PlainText, ContentWord, Shadowed, DocumentsOf, Replacing;
    assert "7 " + "helo" == "7 helo";
    var words, lemmas :| TextStemming(x.e, "7 helo", words, lemmas) && x.AnsweredFor(words, lemmas, Ok((tokens, docs)));
    WordAfterNumber(x.e, "helo", words, lemmas);
    assert Answers(x.repo, x.sc, x.e, words, lemmas, 0, tokens[0], docs[0]);
    assert Answers(x.repo, x.sc, x.e, words, lemmas, 1, tokens[1], docs[1]);
  }

  // ----- what an answer says

  /** The documents are those with a posting for the token. */
  lemma AnswerDocuments(x: TextIndexer, words: seq<string>, lemmas: seq<Token>, tokens: seq<string>,
                        docs: seq<Docs>, i: nat)
    requires x.AnsweredFor(words, lemmas, Ok((tokens, docs))) && i < |lemmas|
    ensures forall d :: d in docs[i] <==> (tokens[i], d) in x.repo.postings
    ensures forall d :: d in docs[i] ==> docs[i][d] == x.repo.postings[(tokens[i], d)]
  {
    hide Shadowed, Replacing;
    assert Answers(x.repo, x.sc, x.e, words, lemmas, i, tokens[i], docs[i]);
  }

  /** A lemma is looked up as it is if it is no word lemma, has a posting, or stands too far back among the lemmas. */
  lemma AnswerAsItIs(x: TextIndexer, words: seq<string>, lemmas: seq<Token>, tokens: seq<string>, docs: seq<Docs>,
                     i: nat)
    requires x.AnsweredFor(words, lemmas, Ok((tokens, docs))) && i < |lemmas|
    requires lemmas[i].kind != WORD || |words| <= i || exists d :: (lemmas[i].value, d) in x.repo.postings
    ensures tokens[i] == lemmas[i].value
  {
    hide Shadowed, Replacing;
    assert Answers(x.repo, x.sc, x.e, words, lemmas, i, tokens[i], docs[i]);
    if d :| (lemmas[i].value, d) in x.repo.postings {
      assert d in DocumentsOf(x.repo.postings, lemmas[i].value);
    }
  }

  /** Otherwise its word is corrected: the token is a stem of the word itself or of an indexed word within the bound,
      and of the latter if there is one, the buffers are written out and the word is long enough. */
  lemma AnswerCorrected(x: TextIndexer, words: seq<string>, lemmas: seq<Token>, tokens: seq<string>, docs: seq<Docs>,
                        i: nat) returns (v: string)
    requires x.Valid() && x.AnsweredFor(words, lemmas, Ok((tokens, docs))) && i < |lemmas|
    requires lemmas[i].kind == WORD && i < |words| && forall d :: (lemmas[i].value, d) !in x.repo.postings
    ensures WordCount(lemmas, i) < |words| && StemsTo(x.e, v, tokens[i])
    ensures var w := words[WordCount(lemmas, i)];
            && (v == w || (v in x.repo.log && Distance(w, v) <= x.sc.maxTypo))
            && (x.repo.wordBuffer == map[] && |w| - x.sc.nGramCount + 1 > x.sc.maxTypo * x.sc.nGramCount
                && (exists near <- x.repo.log :: Distance(w, near) <= x.sc.maxTypo)
                ==> v in x.repo.log && Distance(w, v) <= x.sc.maxTypo)
  {
    hide Shadowed, Replaces, StemsTo, Distance, ContentWord, Findable, IndexRepository.Valid, EnglishStemmer.Valid;
    assert Answers(x.repo, x.sc, x.e, words, lemmas, i, tokens[i], docs[i]);
    assert DocumentsOf(x.repo.postings, lemmas[i].value) == map[];
    var w := words[WordCount(lemmas, i)];
    v :| Replaces(x.repo, x.sc, w, v) && StemsTo(x.e, v, tokens[i]);
    CorrectionFindsWord(x.repo, x.sc, w, v);
  }

  /** "helo" alone is corrected: if no stem of it has a posting, "hello" is indexed and the buffers are written out,
      the answer is for a stem of an indexed word one edit away. */
  lemma HeloIsCorrected(x: TextIndexer, tokens: seq<string>, docs: seq<Docs>) returns (v: string)
    requires x.Valid() && x.sc.nGramCount == 2 && x.sc.maxTypo == 1 && ContentWord(x.e, "helo")
    requires x.repo.wordBuffer == map[] && "hello" in x.repo.log
    requires forall r, d :: StemsTo(x.e, "helo", r) ==> (r, d) !in x.repo.postings
    requires x.Answered("helo", Ok((tokens, docs)))
    ensures |tokens| == 1 && StemsTo(x.e, v, tokens[0]) && v in x.repo.log && Distance("helo", v) <= 1
  {
    hide TextStemming, StemsTo, ContentWord, Findable, IndexRepository.Valid, EnglishStemmer.Valid, Answers, Distance;
    ValidRules(x.e);
    var words, lemmas :| TextStemming(x.e, "helo", words, lemmas) && x.AnsweredFor(words, lemmas, Ok((tokens, docs)));
    OneWordText(x.e, "helo", words, lemmas);
    OneTypo();
    v := AnswerCorrected(x, words, lemmas, tokens, docs, 0);
  }

  /** A usable word as a text: the word itself and one lemma. */
  lemma OneWordText(e: EnglishStemmer, w: string, words: seq<string>, lemmas: seq<Token>)
    requires e.Valid() && ContentWord(e, w) && TextStemming(e, w, words, lemmas)
    ensures words == [w] && |lemmas| == 1 && lemmas[0].kind == WORD && StemsTo(e, w, lemmas[0].value)
  {
    hide StemsTo, Stemming, EnglishStemmer.Valid;
    IsProper(e, w);
    ValidSpecial(e);
    WordRetokenizes(e.u, e.rules, w);
    assert [] + [Token(WORD, w)] == [Token(WORD, w)];
    var r, ws, ss := WordLast(e, [], w, words, lemmas);
    OnlyNothing(e, ws, ss);
  }

  lemma ValidSpecial(e: EnglishStemmer)
    requires e.Valid()
    ensures EntitiesSpecial(e.u, e.rules)
  {
  }

  // ----- an indexed word is found

  /** The word has this stem in every order of the rules, and it is short enough to be counted. */
  ghost predicate OnlyStem(e: EnglishStemmer, w: string, r: string) {
    StemsTo(e, w, r) && (forall r' :: StemsTo(e, w, r') ==> r' == r) && ByteLength(e.u, r) <= 64
  }

  /** A lookup of an indexed word under its only stem finds a document. */
  lemma IndexedWordFound(x: TextIndexer, w: string, r: string)
    requires x.Valid() && w in x.repo.log && OnlyStem(x.e, w, r)
    ensures DocumentsOf(x.repo.postings, r) != map[]
  {
    hide StemsTo, ByteLength, IndexRepository.Valid, ContentWord, EnglishStemmer.Valid;
    var postings := x.repo.postings;
    assert FiledUnder(x.e, w, Posted(postings));
    assert r in Posted(postings);
    var p :| p in postings && p.0 == r;
    assert p.1 in DocumentsOf(postings, r);
  }

  /** A query finds a document for each of its words that has been indexed and has only one stem, whatever
      the order of the rules was then and is now. */
  lemma QueryFindsWord(x: TextIndexer, words: seq<string>, lemmas: seq<Token>, i: nat, r: string,
                       token: string, docs: Docs)
    requires x.Valid() && InStep(x.e, words, lemmas) && i < |lemmas| && lemmas[i].kind == WORD
    requires WordCount(lemmas, i) < |words| && words[WordCount(lemmas, i)] in x.repo.log
    requires OnlyStem(x.e, words[WordCount(lemmas, i)], r)
    requires Answers(x.repo, x.sc, x.e, words, lemmas, i, token, docs)
    ensures token == r && docs != map[]
  {
    hide StemsTo, ByteLength, TextIndexer.Valid, ContentWord, Shadowed, DocumentsOf, Replacing;
    IndexedWordFound(x, words[WordCount(lemmas, i)], r);
  }

  /** So does a correction, if what it may lead to is indexed and has only one stem. */
  lemma CorrectionFindsDocuments(x: TextIndexer, word: string, token: string)
    requires x.Valid() && CorrectedStem(x.repo, x.sc, x.e, word, token)
    requires forall w :: Replaces(x.repo, x.sc, word, w) ==> w in x.repo.log && exists r :: OnlyStem(x.e, w, r)
    ensures DocumentsOf(x.repo.postings, token) != map[]
  {
    hide StemsTo, ByteLength, TextIndexer.Valid, Replaces, DocumentsOf;
    var w :| Replaces(x.repo, x.sc, word, w) && StemsTo(x.e, w, token);
    var r :| OnlyStem(x.e, w, r);
    IndexedWordFound(x, w, r);
  }

  lemma OneWordStems(e: EnglishStemmer, w: string, r: string)
    requires e.Valid() && ContentWord(e, w) && StemsTo(e, w, r)
    ensures RulesValid(e.rules) && TextStemming(e, w, [w], [Token(WORD, r)])
  {
    hide StemsTo, Stemming;
    NotEmpty(e, w, r);
    WordRetokenizes(e.u, e.rules, w);
    NoTokens(e);
    assert Contributes(e, Token(WORD, w), [w], [Token(WORD, r)]);
    StemmingStep(e, [], [], [], Token(WORD, w), [w], [Token(WORD, r)]);
    assert [] + [Token(WORD, w)] == [Token(WORD, w)] && [] + [w] == [w] && [] + [Token(WORD, r)] == [Token(WORD, r)];
  }

  lemma OneWordDocument(e: EnglishStemmer, w: string, r: string)
    requires e.Valid() && ContentWord(e, w) && StemsTo(e, w, r) && ByteLength(e.u, r) <= 64
    ensures RulesValid(e.rules) && DocumentStemming(e, [Passage(w, 'b')], [w], [(r, 'b')])
  {
    hide StemsTo, TextStemming, ContentWord, ByteLength, EnglishStemmer.Valid, DocumentStemming;
    OneWordStems(e, w, r);
    NoPassages(e);
    var p, t := Passage(w, 'b'), Token(WORD, r);
    assert [t][..0] == [] && Counted(e.u, [t], 'b') == [(r, 'b')];
    DocumentStep(e, [], [], [], p, [w], [t]);
    assert [] + [p] == [p] && [] + [w] == [w] && [] + [(r, 'b')] == [(r, 'b')];
  }

  lemma NothingElsewhere(filed: string, other: string, id: DocId,
                         stem: map<string, nat>, pos: map<string, seq<Position>>)
    requires filed != other && Recorded([(filed, 'b')], stem, pos)
    ensures DocumentsOf(PostingsOf(id, stem.Keys, stem, pos), other) == map[]
  {
    hide Occurrences;
    assert !Occurs([(filed, 'b')], other);
  }

  /** A word with two stems need not be found: a document of this one word may be filed under the one, and a query
      of the word look up the other, for which there is nothing. */
  lemma TwoStemsMayMiss(e: EnglishStemmer, w: string, filed: string, lookedUp: string, id: DocId,
                        stem: map<string, nat>, pos: map<string, seq<Position>>)
    requires e.Valid() && ContentWord(e, w) && filed != lookedUp && ByteLength(e.u, filed) <= 64
    requires StemsTo(e, w, filed) && StemsTo(e, w, lookedUp) && Recorded([(filed, 'b')], stem, pos)
    ensures RulesValid(e.rules) && DocumentStemming(e, [Passage(w, 'b')], [w], [(filed, 'b')])
    ensures TextStemming(e, w, [w], [Token(WORD, lookedUp)])
    ensures DocumentsOf(PostingsOf(id, stem.Keys, stem, pos), lookedUp) == map[]
  {
    hide *;
    OneWordDocument(e, w, filed);
    OneWordStems(e, w, lookedUp);
    NothingElsewhere(filed, lookedUp, id, stem, pos);
  }

  /** For "helo" a correction is there to be had: with n-grams of two runes and one typo allowed, once "hello" is
      indexed and the buffers are written out, every replacement is an indexed word one edit away. */
  lemma HeloCanBeCorrected(repo: IndexRepository, sc: SpellChecker, replacement: string)
    requires repo.Valid() && repo.gramSize == sc.nGramCount == 2 && sc.maxTypo == 1
    requires repo.wordBuffer == map[] && "hello" in repo.log && Replaces(repo, sc, "helo", replacement)
    ensures replacement in repo.log && Distance("helo", replacement) <= 1
  {
    hide Distance, IndexRepository.Valid, Replaces;
    OneTypo();
    CorrectionFindsWord(repo, sc, "helo", replacement);
  }

  lemma OneTypo()
    ensures Distance("helo", "hello") <= 1
  {
    hide Distance;
    var insert := EditDistance.Insert(3, 'l');
    assert insert.Apply("helo") == "hello";
    TransformsAfter("helo", insert, [], "hello");
    NoShorterScript("helo", [insert] + [], "hello");
  }
}
