/** The suffix stemmer. Its rules are kept in maps, so the order in which they are tried is
    arbitrary: a word has a set of possible stems. */
module Stemmer {
  import opened EditDistance
  import opened Tokenizer

  /** The stemmer's rule maps, its stop words and its tokenizer. */
  datatype EnglishStemmer = EnglishStemmer(
    step1a: map<string, string>, step1b: map<string, string>, step2: map<string, string>,
    step3: map<string, string>, step4: map<string, string>, stopWords: set<string>,
    u: Alphabet, rules: seq<Rule>)
  {
    /** No rule lengthens a word; entities and rune classes are as the tokenizer expects them. */
    ghost predicate Valid() {
      && Shrinking(step1a) && Shrinking(step1b) && Shrinking(step2) && Shrinking(step3) && Shrinking(step4)
      && u.Valid() && RulesValid(rules) && EntitiesSpecial(u, rules)
    }
  }

  ghost predicate Shrinking(rules: map<string, string>) {
    forall s :: s in rules ==> |rules[s]| <= |s|
  }

  predicate IsStopWord(e: EnglishStemmer, word: string) {
    Map(e.u.lower, word) in e.stopWords
  }

  function ByteLength(u: Alphabet, w: string): nat {
    if w == [] then 0 else ByteLength(u, w[..|w| - 1]) + u.width(w[|w| - 1])
  }

  /** The bytes of a text are those of its runes. */
  lemma {:induction false} ByteLengthSplit(u: Alphabet, a: string, b: string)
    ensures ByteLength(u, a + b) == ByteLength(u, a) + ByteLength(u, b)
    ensures |b| == 1 ==> ByteLength(u, b) == u.width(b[0])
    decreases |b|
  {
    if b == [] {
      assert a + b == a;
    } else {
      var n := |b| - 1;
      assert (a + b)[..|a| + n] == a + b[..n];
      ByteLengthSplit(u, a, b[..n]);
    }
  }

  // ----- the measure

  predicate IsVowel(c: char) {
    c in "aeiou"
  }

  /** At `i` a vowel is followed by something else. */
  predicate VowelEndsAt(w: string, i: nat) {
    0 < i < |w| && IsVowel(w[i - 1]) && !IsVowel(w[i])
  }

  function VowelEnds(w: string, n: nat): set<nat>
    requires n <= |w|
  {
    set i: nat | i < n && VowelEndsAt(w, i)
  }

  function MeasureOf(w: string): nat {
    |VowelEnds(w, |w|)|
  }

  method Measure(word: string) returns (m: nat)
    ensures m == MeasureOf(word)
  {
    m := 0;
    var hasVowel := false;
    assert VowelEnds(word, 0) == {};
    for i := 0 to |word|
      invariant m == |VowelEnds(word, i)|
      invariant hasVowel == (i > 0 && IsVowel(word[i - 1]))
    {
      if IsVowel(word[i]) {
        hasVowel := true;
        assert VowelEnds(word, i + 1) == VowelEnds(word, i);
      } else if hasVowel {
        m := m + 1;
        hasVowel := false;
        assert VowelEnds(word, i + 1) == VowelEnds(word, i) + {i};
      } else {
        assert VowelEnds(word, i + 1) == VowelEnds(word, i);
      }
    }
  }

  // ----- one step

  /** A proper suffix. */
  predicate HasSuffix(word: string, suffix: string) {
    |word| > |suffix| && word[|word| - |suffix|..] == suffix
  }

  function TrimSuffix(word: string, suffix: string): string {
    if |word| >= |suffix| && word[|word| - |suffix|..] == suffix then word[..|word| - |suffix|] else word
  }

  /** The rule for `suffix` may fire: what precedes it measures more than `min`. */
  predicate Applies(word: string, suffix: string, min: int) {
    HasSuffix(word, suffix) && MeasureOf(TrimSuffix(word, suffix)) > min
  }

  /** `w'` can come out of a step: some rule that applies has been used, or none applies. */
  ghost predicate StepTo(rules: map<string, string>, min: int, w: string, w': string) {
    || (exists s :: s in rules && Applies(w, s, min) && w' == TrimSuffix(w, s) + rules[s])
    || (w' == w && forall s :: s in rules ==> !Applies(w, s, min))
  }

  /** The word is `x`, which is not empty and measures more than `min`, and then the suffix. */
  predicate Parts(w: string, x: string, s: string, min: int) {
    x != "" && w == x + s && MeasureOf(x) > min
  }

  lemma AppliesByParts(w: string, s: string, min: int)
    ensures Applies(w, s, min) <==> exists x :: Parts(w, x, s, min)
    ensures forall x :: Parts(w, x, s, min) ==> x == TrimSuffix(w, s)
  {
    hide MeasureOf;
    forall x
      ensures Parts(w, x, s, min) <==> Applies(w, s, min) && x == TrimSuffix(w, s)
    {
      if Parts(w, x, s, min) {
        assert w[|x|..] == s && w[..|x|] == x;
      }
      if HasSuffix(w, s) {
        assert w == w[..|w| - |s|] + s;
      }
    }
    assert Applies(w, s, min) ==> Parts(w, TrimSuffix(w, s), s, min);
  }

  /** A step takes a word apart into a rest that measures enough and the suffix of a rule, and puts the rule's
      replacement in its place. It leaves alone exactly the words that no rule takes apart. */
  lemma StepByParts(rules: map<string, string>, min: int, w: string, w': string)
    ensures StepTo(rules, min, w, w') <==>
            || (exists x, s :: s in rules && Parts(w, x, s, min) && w' == x + rules[s])
            || (w' == w && !exists x, s :: s in rules && Parts(w, x, s, min))
  {
    hide Applies, Parts, TrimSuffix;
    forall s
      ensures Applies(w, s, min) <==> exists x :: Parts(w, x, s, min)
      ensures forall x :: Parts(w, x, s, min) ==> x == TrimSuffix(w, s)
    {
      AppliesByParts(w, s, min);
    }
  }

  /** Tries the rules in whatever order the map yields them; the first that applies is used. */
  method ApplyStep(rules: map<string, string>, min: int, word: string) returns (r: string)
    requires min >= -1
    ensures StepTo(rules, min, word, r)
  {
    var rest := rules.Keys;
    while rest != {}
      invariant rest <= rules.Keys
      invariant forall s :: s in rules && s !in rest ==> !Applies(word, s, min)
    {
      var suffix :| suffix in rest;
      if HasSuffix(word, suffix) {
        var m := Measure(TrimSuffix(word, suffix));
        if m > min {
          return TrimSuffix(word, suffix) + rules[suffix];
        }
      }
      rest := rest - {suffix};
    }
    return word;
  }

  // ----- stems

  /** The first step needs no measure; the others need a positive one, the last one more than one. */
  ghost predicate StepsTo(e: EnglishStemmer, w: string, w1: string, w2: string, w3: string, w4: string, r: string) {
    && StepTo(e.step1a, -1, w, w1)
    && StepTo(e.step1b, 0, w1, w2)
    && StepTo(e.step2, 0, w2, w3)
    && StepTo(e.step3, 0, w3, w4)
    && StepTo(e.step4, 1, w4, r)
  }

  /** `r` is a stem of `w` under some order of the rules. */
  ghost predicate StemsTo(e: EnglishStemmer, w: string, r: string) {
    if IsStopWord(e, w) then r == ""
    else if ByteLength(e.u, w) <= 2 then r == w
    else exists w1, w2, w3, w4 :: StepsTo(e, w, w1, w2, w3, w4, r)
  }

  method Stem(e: EnglishStemmer, word: string) returns (r: string)
    ensures StemsTo(e, word, r)
  {
    hide StepTo;
    if IsStopWord(e, word) {
      return "";
    }
    if ByteLength(e.u, word) <= 2 {
      return word;
    }
    var w1 := ApplyStep(e.step1a, -1, word);
    var w2 := ApplyStep(e.step1b, 0, w1);
    var w3 := ApplyStep(e.step2, 0, w2);
    var w4 := ApplyStep(e.step3, 0, w3);
    r := ApplyStep(e.step4, 1, w4);
    assert StepsTo(e, word, w1, w2, w3, w4, r);
  }

  lemma StepKeepsStart(rules: map<string, string>, min: int, w: string, w': string)
    requires Shrinking(rules) && StepTo(rules, min, w, w') && w != ""
    ensures w' != "" && |w'| <= |w| && w'[0] == w[0]
  {
  }

  /** For every order of the rules: the stem is empty exactly for stop words, never longer than the
      word, and keeps its first letter. */
  lemma StemShape(e: EnglishStemmer, w: string, r: string)
    requires e.Valid() && StemsTo(e, w, r) && w != ""
    ensures r == "" <==> IsStopWord(e, w)
    ensures |r| <= |w|
    ensures r != "" ==> r[0] == w[0]
  {
    hide StepTo, Shrinking;
    if !IsStopWord(e, w) && ByteLength(e.u, w) > 2 {
      var w1, w2, w3, w4 :| StepsTo(e, w, w1, w2, w3, w4, r);
      StepKeepsStart(e.step1a, -1, w, w1);
      StepKeepsStart(e.step1b, 0, w1, w2);
      StepKeepsStart(e.step2, 0, w2, w3);
      StepKeepsStart(e.step3, 0, w3, w4);
      StepKeepsStart(e.step4, 1, w4, r);
    }
  }

  /** Every word has a stem. */
  lemma StemExists(e: EnglishStemmer, w: string) returns (r: string)
    ensures StemsTo(e, w, r)
  {
    hide StepTo;
    if IsStopWord(e, w) {
      r := "";
    } else if ByteLength(e.u, w) <= 2 {
      r := w;
    } else {
      var w1 := StepExists(e.step1a, -1, w);
      var w2 := StepExists(e.step1b, 0, w1);
      var w3 := StepExists(e.step2, 0, w2);
      var w4 := StepExists(e.step3, 0, w3);
      r := StepExists(e.step4, 1, w4);
      assert StepsTo(e, w, w1, w2, w3, w4, r);
    }
  }

  lemma StepExists(rules: map<string, string>, min: int, w: string) returns (w': string)
    ensures StepTo(rules, min, w, w')
  {
    if s :| s in rules && Applies(w, s, min) {
      w' := TrimSuffix(w, s) + rules[s];
    } else {
      w' := w;
    }
  }

  // ----- a whole text

  /** The token types that are kept as they are. */
  predicate Kept(kind: TokenType) {
    kind == ALPHANUMERIC || kind == NUMBER || kind == EMAIL_ADDR || kind == URL_ADDR
  }

  /** What one token contributes: nothing, itself, or a word and one of its stems. */
  ghost predicate Contributes(e: EnglishStemmer, t: Token, words: seq<string>, stems: seq<Token>) {
    if t.kind == WORD && t.value != "" then
      exists r :: StemsTo(e, t.value, r) &&
        if r == "" then words == [] && stems == [] else words == [t.value] && stems == [Token(WORD, r)]
    else words == [] && stems == if Kept(t.kind) then [t] else []
  }

  /** The words and lemmas of a list of tokens, in order, under some order of the stemming rules. */
  ghost predicate Stemming(e: EnglishStemmer, tokens: seq<Token>, words: seq<string>, stems: seq<Token>)
    decreases |tokens|
  {
    if tokens == [] then words == [] && stems == []
    else
      exists i: nat, j: nat ::
        && i <= |words| && j <= |stems|
        && Stemming(e, tokens[..|tokens| - 1], words[..i], stems[..j])
        && Contributes(e, tokens[|tokens| - 1], words[i..], stems[j..])
  }

  lemma StemmingStep(e: EnglishStemmer, tokens: seq<Token>, words: seq<string>, stems: seq<Token>,
                     t: Token, ws: seq<string>, ss: seq<Token>)
    requires Stemming(e, tokens, words, stems) && Contributes(e, t, ws, ss)
    ensures Stemming(e, tokens + [t], words + ws, stems + ss)
  {
    hide Contributes;
    assert (tokens + [t])[..|tokens|] == tokens;
    assert (words + ws)[..|words|] == words && (words + ws)[|words|..] == ws;
    assert (stems + ss)[..|stems|] == stems && (stems + ss)[|stems|..] == ss;
  }

  method StemTokens(e: EnglishStemmer, tokens: seq<Token>) returns (wordTokens: seq<string>, stemmedTokens: seq<Token>)
    ensures Stemming(e, tokens, wordTokens, stemmedTokens)
  {
    hide StemsTo, Stemming;
    wordTokens, stemmedTokens := [], [];
    NoTokens(e);
    for i := 0 to |tokens|
      invariant Stemming(e, tokens[..i], wordTokens, stemmedTokens)
    {
      var t := tokens[i];
      ghost var ws: seq<string>, ss: seq<Token> := [], [];
      ghost var words, stems := wordTokens, stemmedTokens;
      if t.kind == WORD && |t.value| > 0 {
        var stemmed := Stem(e, t.value);
        if stemmed != "" {
          wordTokens := wordTokens + [t.value];
          stemmedTokens := stemmedTokens + [Token(WORD, stemmed)];
          ws, ss := [t.value], [Token(WORD, stemmed)];
        }
      } else if Kept(t.kind) {
        stemmedTokens := stemmedTokens + [t];
        ss := [t];
      }
      assert wordTokens == words + ws && stemmedTokens == stems + ss;
      assert tokens[..i + 1] == tokens[..i] + [t];
      StemmingStep(e, tokens[..i], words, stems, t, ws, ss);
    }
    assert tokens[..|tokens|] == tokens;
  }

  lemma NoTokens(e: EnglishStemmer)
    ensures Stemming(e, [], [], [])
  {
  }

  /** What TokenizeAndStem may return for a text. */
  ghost predicate TextStemming(e: EnglishStemmer, text: string, words: seq<string>, stems: seq<Token>)
    requires RulesValid(e.rules)
  {
    Stemming(e, EntityTokens(e.u, e.rules, text), words, stems)
  }

  method TokenizeAndStem(e: EnglishStemmer, text: string)
    returns (wordTokens: seq<string>, stemmedTokens: seq<Token>)
    requires RulesValid(e.rules)
    ensures TextStemming(e, text, wordTokens, stemmedTokens)
  {
    var tokens := EntityTokenize(e.u, e.rules, text);
    wordTokens, stemmedTokens := StemTokens(e, tokens);
  }

  // ----- which tokens become words and lemmas

  /** The places in `at` go up and are those of a sequence of length `n`. */
  ghost predicate Ascending(at: seq<nat>, n: nat) {
    (forall k :: 0 <= k < |at| ==> at[k] < n) && forall j, k :: 0 <= j < k < |at| ==> at[j] < at[k]
  }

  /** The words are, in order, exactly the word tokens that are no stop words. */
  ghost predicate WordsFrom(e: EnglishStemmer, tokens: seq<Token>, words: seq<string>, at: seq<nat>) {
    && Ascending(at, |tokens|) && |at| == |words|
    && (forall k :: 0 <= k < |words| ==> words[k] == tokens[at[k]].value)
    && forall i :: 0 <= i < |tokens| ==>
         (i in at <==> tokens[i].kind == WORD && tokens[i].value != "" && !IsStopWord(e, tokens[i].value))
  }

  /** A lemma is a stem of a word token, or a token of another kind as it is. */
  ghost predicate LemmaOf(e: EnglishStemmer, t: Token, lemma': Token) {
    if t.kind == WORD then lemma'.kind == WORD && StemsTo(e, t.value, lemma'.value) else lemma' == t
  }

  /** The lemmas come, in order, from exactly the word tokens that are no stop words, and the alphanumeric ones,
      numbers, e-mail addresses and web addresses. White space, symbols, unknown runes and IP addresses give none. */
  ghost predicate LemmasFrom(e: EnglishStemmer, tokens: seq<Token>, lemmas: seq<Token>, at: seq<nat>) {
    && Ascending(at, |tokens|) && |at| == |lemmas|
    && (forall k :: 0 <= k < |lemmas| ==> LemmaOf(e, tokens[at[k]], lemmas[k]))
    && forall i :: 0 <= i < |tokens| ==>
         (i in at <==>
            match tokens[i].kind
            case WORD => tokens[i].value != "" && !IsStopWord(e, tokens[i].value)
            case ALPHANUMERIC | NUMBER | EMAIL_ADDR | URL_ADDR => true
            case WHITESPACE | SYMBOL | UNKNOWN | IP_V4_ADDR => false)
  }

  lemma Contributed(e: EnglishStemmer, t: Token, words: seq<string>, stems: seq<Token>)
    requires e.Valid() && Contributes(e, t, words, stems)
    ensures words == if t.kind == WORD && t.value != "" && !IsStopWord(e, t.value) then [t.value] else []
    ensures |stems| <= 1 && (stems != [] ==> LemmaOf(e, t, stems[0]))
    ensures stems != [] <==>
            match t.kind
            case WORD => t.value != "" && !IsStopWord(e, t.value)
            case ALPHANUMERIC | NUMBER | EMAIL_ADDR | URL_ADDR => true
            case WHITESPACE | SYMBOL | UNKNOWN | IP_V4_ADDR => false
  {
    hide StemsTo, IsStopWord;
    if t.kind == WORD && t.value != "" {
      var r :| StemsTo(e, t.value, r) &&
               if r == "" then words == [] && stems == [] else words == [t.value] && stems == [Token(WORD, r)];
      StemShape(e, t.value, r);
    }
  }

  lemma AscendingMore(at: seq<nat>, n: nat)
    requires Ascending(at, n)
    ensures Ascending(at, n + 1) && Ascending(at + [n], n + 1) && n !in at
  {
  }

  lemma WordsMore(e: EnglishStemmer, front: seq<Token>, t: Token, words: seq<string>, at: seq<nat>, ws: seq<string>)
    requires WordsFrom(e, front, words, at)
    requires ws == if t.kind == WORD && t.value != "" && !IsStopWord(e, t.value) then [t.value] else []
    ensures WordsFrom(e, front + [t], words + ws, if ws == [] then at else at + [|front|])
  {
    hide IsStopWord, Ascending;
    AscendingMore(at, |front|);
    assert forall k :: 0 <= k < |at| ==> at[k] < |front| by { Below(at, |front|); }
  }

  lemma Below(at: seq<nat>, n: nat)
    requires Ascending(at, n)
    ensures forall k :: 0 <= k < |at| ==> at[k] < n
  {
  }

  lemma LemmasMore(e: EnglishStemmer, front: seq<Token>, t: Token, lemmas: seq<Token>, at: seq<nat>, ss: seq<Token>)
    requires LemmasFrom(e, front, lemmas, at)
    requires |ss| <= 1 && (ss != [] ==> LemmaOf(e, t, ss[0]))
    requires ss != [] <==>
             match t.kind
             case WORD => t.value != "" && !IsStopWord(e, t.value)
             case ALPHANUMERIC | NUMBER | EMAIL_ADDR | URL_ADDR => true
             case WHITESPACE | SYMBOL | UNKNOWN | IP_V4_ADDR => false
    ensures LemmasFrom(e, front + [t], lemmas + ss, if ss == [] then at else at + [|front|])
  {
    hide IsStopWord, Ascending, LemmaOf;
    AscendingMore(at, |front|);
    assert forall k :: 0 <= k < |at| ==> at[k] < |front| by { Below(at, |front|); }
  }

  lemma FromMore(e: EnglishStemmer, front: seq<Token>, t: Token, words: seq<string>, lemmas: seq<Token>,
                 wordAt: seq<nat>, at: seq<nat>, ws: seq<string>, ss: seq<Token>)
    returns (wordAt': seq<nat>, at': seq<nat>)
    requires e.Valid() && Contributes(e, t, ws, ss)
    requires WordsFrom(e, front, words, wordAt) && LemmasFrom(e, front, lemmas, at)
    ensures WordsFrom(e, front + [t], words + ws, wordAt') && LemmasFrom(e, front + [t], lemmas + ss, at')
  {
    hide *;
    Contributed(e, t, ws, ss);
    WordsMore(e, front, t, words, wordAt, ws);
    LemmasMore(e, front, t, lemmas, at, ss);
    wordAt' := if ws == [] then wordAt else wordAt + [|front|];
    at' := if ss == [] then at else at + [|front|];
  }

  lemma FromNothing(e: EnglishStemmer, words: seq<string>, lemmas: seq<Token>)
    requires Stemming(e, [], words, lemmas)
    ensures WordsFrom(e, [], words, []) && LemmasFrom(e, [], lemmas, [])
  {
  }

  lemma {:induction false} StemmingFrom(e: EnglishStemmer, tokens: seq<Token>, words: seq<string>, lemmas: seq<Token>)
    returns (wordAt: seq<nat>, at: seq<nat>)
    requires e.Valid() && Stemming(e, tokens, words, lemmas)
    ensures WordsFrom(e, tokens, words, wordAt) && LemmasFrom(e, tokens, lemmas, at)
    decreases |tokens|
  {
    hide *;
    if tokens == [] {
      FromNothing(e, words, lemmas);
      wordAt, at := [], [];
    } else {
      var front, t := tokens[..|tokens| - 1], tokens[|tokens| - 1];
      assert tokens == front + [t];
      var ws, ss, ws', ss' := StemmingLast(e, tokens, words, lemmas);
      wordAt, at := StemmingFrom(e, front, ws, ss);
      wordAt, at := FromMore(e, front, t, ws, ss, wordAt, at, ws', ss');
    }
  }

  /** For every text and order of the rules: which of its tokens become words and which become lemmas. */
  lemma TextFrom(e: EnglishStemmer, text: string, words: seq<string>, lemmas: seq<Token>)
    returns (wordAt: seq<nat>, at: seq<nat>)
    requires e.Valid() && TextStemming(e, text, words, lemmas)
    ensures WordsFrom(e, EntityTokens(e.u, e.rules, text), words, wordAt)
    ensures LemmasFrom(e, EntityTokens(e.u, e.rules, text), lemmas, at)
  {
    hide Stemming, WordsFrom, LemmasFrom;
    wordAt, at := StemmingFrom(e, EntityTokens(e.u, e.rules, text), words, lemmas);
  }

  // ----- words and lemmas stay in step

  /** The number of word lemmas among the first `n`. */
  function WordCount(stems: seq<Token>, n: nat): (k: nat)
    requires n <= |stems|
    ensures k <= n
  {
    if n == 0 then 0 else WordCount(stems, n - 1) + if stems[n - 1].kind == WORD then 1 else 0
  }

  lemma {:induction false} WordCountGrows(stems: seq<Token>, m: nat, n: nat)
    requires m <= n <= |stems|
    ensures WordCount(stems, m) <= WordCount(stems, n)
  {
    if m < n {
      WordCountGrows(stems, m, n - 1);
    }
  }

  lemma {:induction false} WordCountPrefix(a: seq<Token>, b: seq<Token>, n: nat)
    requires n <= |a| <= |b| && b[..|a|] == a
    ensures WordCount(a, n) == WordCount(b, n)
  {
    if n > 0 {
      assert b[..|a|][n - 1] == b[n - 1];
      WordCountPrefix(a, b, n - 1);
    }
  }

  /** A usable query word: proper and no stop word. */
  ghost predicate ContentWord(e: EnglishStemmer, w: string) {
    ProperWord(e.u, w) && !IsStopWord(e, w)
  }

  /** The k-th word lemma is a non-empty stem of the k-th word, there are as many of the one as of
      the other, and every word is usable. */
  ghost predicate InStep(e: EnglishStemmer, words: seq<string>, stems: seq<Token>) {
    && WordCount(stems, |stems|) == |words|
    && (forall i :: 0 <= i < |stems| && stems[i].kind == WORD ==>
          && WordCount(stems, i) < |words|
          && stems[i].value != ""
          && StemsTo(e, words[WordCount(stems, i)], stems[i].value))
    && (forall w :: w in words ==> ContentWord(e, w))
  }

  lemma InStepAppend(e: EnglishStemmer, words: seq<string>, stems: seq<Token>, w: string, r: string)
    requires InStep(e, words, stems) && ContentWord(e, w) && StemsTo(e, w, r) && r != ""
    ensures InStep(e, words + [w], stems + [Token(WORD, r)])
  {
    hide ContentWord, StemsTo;
    var stems' := stems + [Token(WORD, r)];
    forall i | 0 <= i <= |stems|
      ensures WordCount(stems', i) == WordCount(stems, i)
    {
      WordCountPrefix(stems, stems', i);
    }
  }

  lemma InStepKept(e: EnglishStemmer, words: seq<string>, stems: seq<Token>, t: Token)
    requires InStep(e, words, stems) && t.kind != WORD
    ensures InStep(e, words, stems + [t])
  {
    hide ContentWord, StemsTo;
    var stems' := stems + [t];
    forall i | 0 <= i <= |stems|
      ensures WordCount(stems', i) == WordCount(stems, i)
    {
      WordCountPrefix(stems, stems', i);
    }
  }

  lemma ContributionInStep(e: EnglishStemmer, words: seq<string>, stems: seq<Token>,
                           t: Token, ws: seq<string>, ss: seq<Token>)
    requires e.Valid() && InStep(e, words, stems) && Contributes(e, t, ws, ss)
    requires t.kind == WORD ==> ProperWord(e.u, t.value)
    ensures InStep(e, words + ws, stems + ss)
  {
    hide ProperWord, StemsTo, InStep;
    if ws != [] {
      var r :| StemsTo(e, t.value, r) && ws == [t.value] && ss == [Token(WORD, r)];
      assert r != "";
      StemShape(e, t.value, r);
      InStepAppend(e, words, stems, t.value, r);
    } else if ss != [] {
      assert words + ws == words && ss == [t];
      InStepKept(e, words, stems, t);
    } else {
      assert words + ws == words && stems + ss == stems;
    }
  }

  /** Takes the last token's contribution off. */
  lemma StemmingLast(e: EnglishStemmer, tokens: seq<Token>, words: seq<string>, stems: seq<Token>)
    returns (ws: seq<string>, ss: seq<Token>, ws': seq<string>, ss': seq<Token>)
    requires Stemming(e, tokens, words, stems) && tokens != []
    ensures words == ws + ws' && stems == ss + ss'
    ensures Stemming(e, tokens[..|tokens| - 1], ws, ss) && Contributes(e, tokens[|tokens| - 1], ws', ss')
  {
    hide Contributes;
    var i: nat, j: nat :| i <= |words| && j <= |stems|
                          && Stemming(e, tokens[..|tokens| - 1], words[..i], stems[..j])
                          && Contributes(e, tokens[|tokens| - 1], words[i..], stems[j..]);
    ws, ss, ws', ss' := words[..i], stems[..j], words[i..], stems[j..];
  }

  lemma {:induction false} StemmingInStep(e: EnglishStemmer, tokens: seq<Token>, words: seq<string>, stems: seq<Token>)
    requires e.Valid() && Stemming(e, tokens, words, stems)
    requires forall t <- tokens :: t.kind == WORD ==> ProperWord(e.u, t.value)
    ensures InStep(e, words, stems)
    decreases |tokens|
  {
    if tokens == [] {
      NothingInStep(e);
    } else {
      hide ProperWord, InStep, Contributes, Stemming;
      var front := tokens[..|tokens| - 1];
      var ws, ss, ws', ss' := StemmingLast(e, tokens, words, stems);
      assert forall t <- front :: t in tokens;
      StemmingInStep(e, front, ws, ss);
      assert tokens[|tokens| - 1] in tokens;
      ContributionInStep(e, ws, ss, tokens[|tokens| - 1], ws', ss');
    }
  }

  lemma NothingInStep(e: EnglishStemmer)
    ensures InStep(e, [], [])
  {
  }

  /** Whatever the text and the order of the rules, words and lemmas are in step. */
  lemma TextInStep(e: EnglishStemmer, text: string, words: seq<string>, stems: seq<Token>)
    requires e.Valid()
    requires TextStemming(e, text, words, stems)
    ensures InStep(e, words, stems)
  {
    forall t <- EntityTokens(e.u, e.rules, text)
      ensures t.kind == WORD ==> ProperWord(e.u, t.value)
    {
      if t.kind == WORD {
        WordsAreProper(e.u, e.rules, text, t);
      }
    }
    StemmingInStep(e, EntityTokens(e.u, e.rules, text), words, stems);
  }

  /** A usable word put in for another re-tokenizes to itself alone, with a non-empty stem. */
  lemma ContentWordRestems(e: EnglishStemmer, w: string, words: seq<string>, stems: seq<Token>)
    requires e.Valid() && ContentWord(e, w)
    requires TextStemming(e, w, words, stems)
    ensures |stems| == 1 && stems[0].kind == WORD && stems[0].value != "" && StemsTo(e, w, stems[0].value)
  {
    hide StemsTo, Stemming;
    WordRetokenizes(e.u, e.rules, w);
    var ws, ss, ws', ss' := StemmingLast(e, [Token(WORD, w)], words, stems);
    OnlyNothing(e, ws, ss);
    assert words == ws' && stems == ss';
    var r :| StemsTo(e, w, r) &&
             if r == "" then words == [] && stems == [] else words == [w] && stems == [Token(WORD, r)];
    StemShape(e, w, r);
  }

  lemma OnlyNothing(e: EnglishStemmer, words: seq<string>, stems: seq<Token>)
    requires Stemming(e, [], words, stems)
    ensures words == [] && stems == []
  {
  }

  // ----- the rules of the program

  const STEP1A := map["sses" := "ss", "ies" := "i", "ss" := "ss", "s" := ""]
  const STEP1B := map["eed" := "ee", "ed" := "", "ing" := ""]
  const STEP2 := map[
    "ational" := "ate", "tional" := "tion", "enci" := "ence", "anci" := "ance", "izer" := "ize",
    "abli" := "able", "alli" := "al", "entli" := "ent", "eli" := "e", "ousli" := "ous",
    "ization" := "ize", "ation" := "ate", "ator" := "ate", "alism" := "al", "iveness" := "ive",
    "fulness" := "ful", "ousness" := "ous", "aliti" := "al", "iviti" := "ive", "biliti" := "ble"]
  const STEP3 := map[
    "icate" := "ic", "ative" := "", "alize" := "al", "iciti" := "ic", "ical" := "ic", "ful" := "", "ness" := ""]
  const STEP4 := map[
    "al" := "", "ance" := "", "ence" := "", "er" := "", "ic" := "", "able" := "", "ible" := "",
    "ant" := "", "ement" := "", "ment" := "", "ent" := "", "ion" := "", "ou" := "", "ism" := "",
    "ate" := "", "iti" := "", "ous" := "", "ive" := "", "ize" := ""]

  const STOP_WORDS: set<string> := SHORT_STOPS + QUESTION_STOPS + OTHER_STOPS

  const SHORT_STOPS: set<string> := {
    "a", "an", "and", "are", "as", "at", "be", "by", "for", "from",
    "has", "he", "in", "is", "it", "its", "of", "on", "that", "the"}

  const QUESTION_STOPS: set<string> := {
    "to", "was", "were", "will", "with", "this", "but", "they",
    "have", "had", "what", "when", "where", "who", "which", "why"}

  const OTHER_STOPS: set<string> := {
    "how", "all", "any", "both", "each", "few", "more", "most",
    "other", "some", "such", "no", "nor", "not", "only", "own",
    "same", "so", "than", "too", "very"}

  /** The stemmer of the program, for given rune classes and regular expressions. */
  function English(u: Alphabet, rules: seq<Rule>): EnglishStemmer {
    EnglishStemmer(STEP1A, STEP1B, STEP2, STEP3, STEP4, STOP_WORDS, u, rules)
  }

  lemma Shrinks1A()
    ensures Shrinking(STEP1A)
  {
  }

  lemma Shrinks1B()
    ensures Shrinking(STEP1B)
  {
  }

  lemma Shrinks2()
    ensures Shrinking(STEP2)
  {
  }

  lemma Shrinks3()
    ensures Shrinking(STEP3)
  {
  }

  lemma Shrinks4()
    ensures Shrinking(STEP4)
  {
  }

  lemma RulesShrink()
    ensures Shrinking(STEP1A) && Shrinking(STEP1B) && Shrinking(STEP2) && Shrinking(STEP3) && Shrinking(STEP4)
  {
    hide Shrinking;
    Shrinks1A();
    Shrinks1B();
    Shrinks2();
    Shrinks3();
    Shrinks4();
  }

  lemma EnglishValid(u: Alphabet, rules: seq<Rule>)
    requires u.Valid() && RulesValid(rules) && EntitiesSpecial(u, rules)
    ensures English(u, rules).Valid()
  {
    hide Shrinking, RulesValid, EntitiesSpecial;
    RulesShrink();
  }
}
