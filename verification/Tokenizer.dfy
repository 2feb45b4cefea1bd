/** Splitting text into tokens: entities found by rules, and maximal runs of runes in between. */
module Tokenizer {
  import opened EditDistance

  datatype TokenType =
    | WORD | NUMBER | WHITESPACE | SYMBOL | ALPHANUMERIC | UNKNOWN | EMAIL_ADDR | URL_ADDR | IP_V4_ADDR

  datatype Token = Token(kind: TokenType, value: string)

  /** What the language's library knows about runes. */
  datatype Alphabet = Alphabet(isLetter: char -> bool, isDigit: char -> bool, isSpace: char -> bool,
                               isPunctOrSymbol: char -> bool, lower: char -> char, width: char -> nat) {
    ghost predicate Valid() {
      && (forall c :: lower(lower(c)) == lower(c))
      && (forall c :: width(c) >= 1)
    }

    function RuneType(r: char): TokenType {
      if isLetter(r) then WORD
      else if isDigit(r) then NUMBER
      else if isSpace(r) then WHITESPACE
      else if isPunctOrSymbol(r) then SYMBOL
      else UNKNOWN
    }

    /** Letters and digits stay together in a run. */
    function Class(r: char): TokenType {
      if RuneType(r) == WORD || RuneType(r) == NUMBER then ALPHANUMERIC else RuneType(r)
    }

    predicate Uniform(s: string) {
      forall i, j :: 0 <= i < |s| && 0 <= j < |s| ==> Class(s[i]) == Class(s[j])
    }

    /** The type of a run, by its content. */
    function TypeOf(s: string): TokenType {
      if s == [] then UNKNOWN
      else if forall i :: 0 <= i < |s| ==> RuneType(s[i]) == RuneType(s[0]) then RuneType(s[0])
      else Class(s[0])
    }

    /** The length of the longest uniform prefix. */
    function RunLength(s: string): (n: nat)
      ensures n <= |s| && (s != [] ==> n >= 1)
    {
      if |s| <= 1 then |s|
      else if Class(s[0]) == Class(s[1]) then 1 + RunLength(s[1..])
      else 1
    }

    /** A text cut into its maximal uniform runs. */
    function Runs(s: string): seq<Token> {
      if s == [] then []
      else
        var n := RunLength(s);
        [Token(TypeOf(s[..n]), s[..n])] + Runs(s[n..])
    }
  }

  /** The text of a list of tokens. */
  function Concat(tokens: seq<Token>): string {
    if tokens == [] then [] else tokens[0].value + Concat(tokens[1..])
  }

  lemma {:induction false} ConcatSplit(a: seq<Token>, b: seq<Token>)
    ensures Concat(a + b) == Concat(a) + Concat(b)
  {
    if a == [] {
      assert a + b == b;
    } else {
      assert (a + b)[1..] == a[1..] + b;
      ConcatSplit(a[1..], b);
    }
  }

  // ----- runs

  lemma {:induction false} RunEnds(u: Alphabet, run: string, rest: string)
    requires run != [] && u.Uniform(run) && (rest == [] || u.Class(run[0]) != u.Class(rest[0]))
    ensures u.RunLength(run + rest) == |run|
  {
    var s := run + rest;
    if |run| > 1 {
      assert s[1..] == run[1..] + rest;
      assert u.Class(s[0]) == u.Class(s[1]);
      RunEnds(u, run[1..], rest);
    }
  }

  /** A finished run is the first token. */
  lemma FirstRun(u: Alphabet, run: string, rest: string)
    requires run != [] && u.Uniform(run) && (rest == [] || u.Class(run[0]) != u.Class(rest[0]))
    ensures u.Runs(run + rest) == [Token(u.TypeOf(run), run)] + u.Runs(rest)
  {
    RunEnds(u, run, rest);
    assert (run + rest)[..|run|] == run && (run + rest)[|run|..] == rest;
  }

  /** One more rune of the same class: the run stays uniform and its type follows the content. */
  lemma GrowRun(u: Alphabet, run: string, r: char)
    requires run != [] && u.Uniform(run) && u.Class(run[0]) == u.Class(r)
    ensures u.Uniform(run + [r])
    ensures u.TypeOf(run + [r]) == if u.TypeOf(run) == u.RuneType(r) then u.TypeOf(run) else ALPHANUMERIC
  {
    var more := run + [r];
    assert forall i :: 0 <= i < |run| ==> more[i] == run[i];
    if u.TypeOf(run) == u.RuneType(r) {
      assert u.RuneType(run[0]) == u.RuneType(r) by {
        if exists i :: 0 <= i < |run| && u.RuneType(run[i]) != u.RuneType(run[0]) {
          assert u.TypeOf(run) == u.Class(run[0]);
        }
      }
    } else {
      assert more[|run|] == r;
    }
  }

  /** The type of the run so far decides whether the next rune belongs to it. */
  lemma Continues(u: Alphabet, run: string, r: char)
    requires run != [] && u.Uniform(run)
    ensures var t, rt := u.TypeOf(run), u.RuneType(r);
            (|| rt == t
             || (t == WORD && rt == NUMBER) || (t == NUMBER && rt == WORD)
             || (t == ALPHANUMERIC && (rt == WORD || rt == NUMBER)))
            <==> u.Class(run[0]) == u.Class(r)
  {
  }

  lemma SingleRune(u: Alphabet, r: char)
    ensures u.Uniform([r]) && u.TypeOf([r]) == u.RuneType(r)
    ensures u.Uniform("") && u.TypeOf("") == UNKNOWN && u.Runs("") == []
  {
  }

  /** The type of a token says what its runes are. */
  lemma RunKind(u: Alphabet, s: string)
    requires s != [] && u.Uniform(s)
    ensures u.TypeOf(s) == WORD <==> forall c <- s :: u.isLetter(c)
    ensures u.TypeOf(s) == NUMBER <==> forall c <- s :: !u.isLetter(c) && u.isDigit(c)
    ensures u.TypeOf(s) == ALPHANUMERIC <==>
            (forall c <- s :: u.isLetter(c) || u.isDigit(c))
            && (exists c <- s :: u.isLetter(c)) && (exists c <- s :: !u.isLetter(c))
    ensures u.TypeOf(s) == WHITESPACE <==> forall c <- s :: !u.isLetter(c) && !u.isDigit(c) && u.isSpace(c)
    ensures u.TypeOf(s) == SYMBOL <==>
            forall c <- s :: !u.isLetter(c) && !u.isDigit(c) && !u.isSpace(c) && u.isPunctOrSymbol(c)
  {
    assert s[0] in s;
    assert forall i :: 0 <= i < |s| ==> s[i] in s && u.Class(s[i]) == u.Class(s[0]);
    if i :| 0 <= i < |s| && u.RuneType(s[i]) != u.RuneType(s[0]) {
      assert s[i] in s;
    }
  }

  lemma MoveOver(buffer: string, runes: string, i: nat)
    requires i < |runes|
    ensures buffer + runes[i..] == (buffer + [runes[i]]) + runes[i + 1..]
    ensures runes[i..] == [runes[i]] + runes[i + 1..]
    ensures buffer == [] ==> buffer + runes[i..] == runes[i..]
  {
  }

  /** Closing a run: it becomes a token. */
  lemma CloseRun(u: Alphabet, tokens: seq<Token>, run: string, rest: string)
    requires run != [] && u.Uniform(run) && (rest == [] || u.Class(run[0]) != u.Class(rest[0]))
    ensures tokens + u.Runs(run + rest) == (tokens + [Token(u.TypeOf(run), run)]) + u.Runs(rest)
  {
    FirstRun(u, run, rest);
  }

  method FragmentTokenize(u: Alphabet, textFragment: string) returns (tokens: seq<Token>)
    ensures tokens == u.Runs(Map(u.lower, textFragment))
  {
    hide *;
    SingleRune(u, ' ');
    tokens := [];
    var buffer := "";
    var currentType := UNKNOWN;
    var runes := Map(u.lower, textFragment);
    assert buffer + runes[0..] == runes;
    for i := 0 to |runes|
      invariant buffer == [] <==> i == 0
      invariant u.Uniform(buffer) && currentType == u.TypeOf(buffer)
      invariant tokens + u.Runs(buffer + runes[i..]) == u.Runs(runes)
    {
      var r := runes[i];
      var rType := u.RuneType(r);
      MoveOver(buffer, runes, i);
      SingleRune(u, r);
      if |buffer| == 0 {
        buffer := [r];
        currentType := rType;
      } else {
        var shouldCombineNow := (currentType == WORD && rType == NUMBER) || (currentType == NUMBER && rType == WORD);
        var isContinuingAlphanumeric := currentType == ALPHANUMERIC && (rType == WORD || rType == NUMBER);
        Continues(u, buffer, r);
        if rType == currentType || shouldCombineNow || isContinuingAlphanumeric {
          GrowRun(u, buffer, r);
          buffer := buffer + [r];
          if shouldCombineNow {
            currentType := ALPHANUMERIC;
          }
        } else {
          CloseRun(u, tokens, buffer, runes[i..]);
          tokens := tokens + [Token(currentType, buffer)];
          buffer := [r];
          currentType := rType;
        }
      }
    }
    assert buffer + runes[|runes|..] == buffer;
    if |buffer| > 0 {
      CloseRun(u, tokens, buffer, "");
      assert buffer + "" == buffer;
      tokens := tokens + [Token(currentType, buffer)];
    }
  }

  /** Each token is a non-empty run of one class, typed by its content, and no run could be longer. */
  ghost predicate MaximalRuns(u: Alphabet, tokens: seq<Token>) {
    && (forall i :: 0 <= i < |tokens| ==>
          tokens[i].value != [] && u.Uniform(tokens[i].value) && tokens[i].kind == u.TypeOf(tokens[i].value))
    && (forall i :: 0 < i < |tokens| && tokens[i - 1].value != [] && tokens[i].value != [] ==>
          u.Class(tokens[i - 1].value[0]) != u.Class(tokens[i].value[0]))
  }

  lemma {:induction false} RunIsUniform(u: Alphabet, s: string)
    requires s != []
    ensures u.Uniform(s[..u.RunLength(s)])
    ensures u.RunLength(s) < |s| ==> u.Class(s[0]) != u.Class(s[u.RunLength(s)])
  {
    var n := u.RunLength(s);
    if |s| > 1 && u.Class(s[0]) == u.Class(s[1]) {
      RunIsUniform(u, s[1..]);
      assert s[..n] == [s[0]] + s[1..][..n - 1];
    }
  }

  lemma {:induction false} RunsSpell(u: Alphabet, s: string)
    ensures Concat(u.Runs(s)) == s
    decreases |s|
  {
    if s != [] {
      var n := u.RunLength(s);
      RunsSpell(u, s[n..]);
      assert s == s[..n] + s[n..];
    }
  }

  lemma MaximalCons(u: Alphabet, run: string, tokens: seq<Token>)
    requires run != [] && u.Uniform(run) && MaximalRuns(u, tokens)
    requires tokens != [] && tokens[0].value != [] ==> u.Class(run[0]) != u.Class(tokens[0].value[0])
    ensures MaximalRuns(u, [Token(u.TypeOf(run), run)] + tokens)
  {
    hide Alphabet.Uniform, Alphabet.TypeOf, Alphabet.Class;
  }

  /** Cutting into runs loses nothing, and the runs are maximal. */
  lemma {:induction false} RunsAreMaximal(u: Alphabet, s: string)
    ensures Concat(u.Runs(s)) == s
    ensures MaximalRuns(u, u.Runs(s))
    ensures s != [] ==> u.Runs(s) != [] && u.Runs(s)[0].value != [] && u.Runs(s)[0].value[0] == s[0]
    decreases |s|
  {
    RunsSpell(u, s);
    if s != [] {
      hide Concat, MaximalRuns, Alphabet.Uniform, Alphabet.TypeOf;
      var n := u.RunLength(s);
      RunIsUniform(u, s);
      RunsAreMaximal(u, s[n..]);
      MaximalCons(u, s[..n], u.Runs(s[n..]));
    } else {
      assert u.Runs(s) == [];
    }
  }

  lemma MaximalTail(u: Alphabet, tokens: seq<Token>)
    requires MaximalRuns(u, tokens) && tokens != []
    ensures MaximalRuns(u, tokens[1..])
    ensures var run := tokens[0].value; run != [] && u.Uniform(run) && tokens[0] == Token(u.TypeOf(run), run)
    ensures |tokens| > 1 ==> tokens[1].value != [] && u.Class(tokens[0].value[0]) != u.Class(tokens[1].value[0])
  {
    hide Alphabet.Uniform, Alphabet.TypeOf, Alphabet.Class;
    assert forall i :: 0 <= i < |tokens| - 1 ==> tokens[1..][i] == tokens[i + 1];
    assert tokens[0].value != [] && tokens[0].kind == u.TypeOf(tokens[0].value);
    if |tokens| > 1 {
      assert tokens[1].value != [];
      assert tokens[1 - 1].value != [];
    }
  }

  /** There is only one way to cut a text into maximal runs. */
  lemma {:induction false} RunsAreUnique(u: Alphabet, tokens: seq<Token>)
    requires MaximalRuns(u, tokens)
    ensures tokens == u.Runs(Concat(tokens))
    decreases |tokens|
  {
    hide MaximalRuns, Alphabet.Uniform, Alphabet.TypeOf, Alphabet.Class;
    if tokens != [] {
      var rest := tokens[1..];
      MaximalTail(u, tokens);
      RunsAreUnique(u, rest);
      if rest != [] {
        assert Concat(rest) != [] && Concat(rest)[0] == tokens[1].value[0];
      }
      FirstRun(u, tokens[0].value, Concat(rest));
    }
  }

  // ----- entities

  /** A stretch of the input found by a rule, with the type and priority of the rule. */
  datatype Match = Match(start: nat, end: nat, kind: TokenType, priority: int)

  /** A rule: where its regular expression matches in a text. */
  datatype Rule = Rule(find: string -> seq<(nat, nat)>, kind: TokenType, priority: int)

  ghost predicate InText(ms: seq<Match>, n: nat) {
    forall i :: 0 <= i < |ms| ==> ms[i].start <= ms[i].end <= n
  }

  /** Matches lie inside the text. */
  ghost predicate RulesValid(rules: seq<Rule>) {
    forall rule <- rules :: forall input :: forall m <- rule.find(input) :: m.0 <= m.1 <= |input|
  }

  function MatchesOf(rule: Rule, spans: seq<(nat, nat)>): seq<Match> {
    if spans == [] then []
    else
      var m := spans[|spans| - 1];
      MatchesOf(rule, spans[..|spans| - 1]) + [Match(m.0, m.1, rule.kind, rule.priority)]
  }

  function AllMatches(rules: seq<Rule>, input: string): seq<Match> {
    if rules == [] then []
    else
      var rule := rules[|rules| - 1];
      AllMatches(rules[..|rules| - 1], input) + MatchesOf(rule, rule.find(input))
  }

  /** The number of stretches the first `n` rules find. */
  function SpanCount(rules: seq<Rule>, input: string, n: nat): nat
    requires n <= |rules|
  {
    if n == 0 then 0 else SpanCount(rules, input, n - 1) + |rules[n - 1].find(input)|
  }

  /** One match for every stretch a rule finds, with the rule's kind and priority: rule after rule, and for each in
      the order found. */
  ghost predicate ListsEverySpan(rules: seq<Rule>, input: string, all: seq<Match>) {
    && |all| == SpanCount(rules, input, |rules|)
    && forall i, j :: 0 <= i < |rules| && 0 <= j < |rules[i].find(input)| ==>
         var at, span := SpanCount(rules, input, i) + j, rules[i].find(input)[j];
         at < |all| && all[at] == Match(span.0, span.1, rules[i].kind, rules[i].priority)
  }

  lemma {:induction false} MatchAt(rule: Rule, spans: seq<(nat, nat)>)
    ensures |MatchesOf(rule, spans)| == |spans|
    ensures forall j :: 0 <= j < |spans| ==>
              MatchesOf(rule, spans)[j] == Match(spans[j].0, spans[j].1, rule.kind, rule.priority)
  {
    if spans != [] {
      MatchAt(rule, spans[..|spans| - 1]);
    }
  }

  lemma {:induction false} SameSpanCount(rules: seq<Rule>, input: string, n: nat)
    requires n < |rules|
    ensures SpanCount(rules[..|rules| - 1], input, n) == SpanCount(rules, input, n)
  {
    if n > 0 {
      SameSpanCount(rules, input, n - 1);
    }
  }

  lemma {:induction false} MatchCount(rules: seq<Rule>, input: string)
    ensures |AllMatches(rules, input)| == SpanCount(rules, input, |rules|)
  {
    if rules != [] {
      var n := |rules| - 1;
      MatchCount(rules[..n], input);
      MatchAt(rules[n], rules[n].find(input));
      SameSpanCount(rules, input, n);
    }
  }

  lemma {:induction false} SpanListed(rules: seq<Rule>, input: string, i: nat, j: nat)
    requires i < |rules| && j < |rules[i].find(input)|
    ensures var at, span := SpanCount(rules, input, i) + j, rules[i].find(input)[j];
            at < |AllMatches(rules, input)|
            && AllMatches(rules, input)[at] == Match(span.0, span.1, rules[i].kind, rules[i].priority)
  {
    var n := |rules| - 1;
    SameSpanCount(rules, input, i);
    MatchCount(rules[..n], input);
    if i < n {
      SpanListed(rules[..n], input, i, j);
    } else {
      MatchAt(rules[n], rules[n].find(input));
    }
  }

  /** Every stretch that a rule finds becomes a match. */
  lemma EverySpanListed(rules: seq<Rule>, input: string)
    ensures ListsEverySpan(rules, input, AllMatches(rules, input))
  {
    hide AllMatches, SpanCount;
    MatchCount(rules, input);
    forall i, j | 0 <= i < |rules| && 0 <= j < |rules[i].find(input)|
      ensures var at, span := SpanCount(rules, input, i) + j, rules[i].find(input)[j];
              at < |AllMatches(rules, input)|
              && AllMatches(rules, input)[at] == Match(span.0, span.1, rules[i].kind, rules[i].priority)
    {
      SpanListed(rules, input, i, j);
    }
  }

  /** The order of the sort: earlier start, then higher priority, then shorter. */
  predicate Less(a: Match, b: Match) {
    if a.start != b.start then a.start < b.start
    else if a.priority != b.priority then a.priority > b.priority
    else a.start - a.end > b.start - b.end
  }

  function Insert(sorted: seq<Match>, m: Match): seq<Match> {
    if sorted == [] then [m]
    else
      var last := sorted[|sorted| - 1];
      if Less(m, last) then Insert(sorted[..|sorted| - 1], m) + [last] else sorted + [m]
  }

  /** The stable sort. */
  function StableSort(ms: seq<Match>): seq<Match> {
    if ms == [] then [] else Insert(StableSort(ms[..|ms| - 1]), ms[|ms| - 1])
  }

  ghost predicate Ordered(ms: seq<Match>) {
    forall i, j :: 0 <= i < j < |ms| ==> !Less(ms[j], ms[i])
  }

  lemma {:induction false} InsertMembers(sorted: seq<Match>, m: Match)
    ensures multiset(Insert(sorted, m)) == multiset(sorted) + multiset{m}
  {
    if sorted != [] {
      var front, last := sorted[..|sorted| - 1], sorted[|sorted| - 1];
      assert sorted == front + [last];
      InsertMembers(front, m);
    }
  }

  lemma OrderedAppend(ms: seq<Match>, last: Match)
    requires Ordered(ms) && forall x <- ms :: !Less(last, x)
    ensures Ordered(ms + [last])
  {
  }

  lemma LessAsymmetric(a: Match, b: Match)
    requires Less(a, b)
    ensures !Less(b, a)
  {
  }

  lemma {:induction false} InsertOrdered(sorted: seq<Match>, m: Match)
    requires Ordered(sorted)
    ensures Ordered(Insert(sorted, m))
  {
    if sorted == [] {
      assert Insert(sorted, m) == [m];
    } else {
      var front, last := sorted[..|sorted| - 1], sorted[|sorted| - 1];
      if Less(m, last) {
        InsertOrdered(front, m);
        InsertMembers(front, m);
        LessAsymmetric(m, last);
        var more := Insert(front, m);
        forall x <- more
          ensures !Less(last, x)
        {
          assert x in multiset(more);
          assert x == m || x in front;
        }
        OrderedAppend(more, last);
      } else {
        forall x <- sorted
          ensures !Less(m, x)
        {
          NotLessTransitive(m, last, x);
        }
        OrderedAppend(sorted, m);
      }
    }
  }

  lemma NotLessTransitive(a: Match, b: Match, c: Match)
    ensures !Less(a, b) && (b == c || !Less(b, c)) ==> !Less(a, c)
  {
  }

  lemma {:induction false} SortOrdered(ms: seq<Match>)
    ensures Ordered(StableSort(ms)) && multiset(StableSort(ms)) == multiset(ms)
  {
    if ms != [] {
      SortOrdered(ms[..|ms| - 1]);
      InsertOrdered(StableSort(ms[..|ms| - 1]), ms[|ms| - 1]);
      InsertMembers(StableSort(ms[..|ms| - 1]), ms[|ms| - 1]);
      assert ms == ms[..|ms| - 1] + [ms[|ms| - 1]];
    }
  }

  /** The matches that neither precede nor follow a given one in the order. */
  function Ties(ms: seq<Match>, x: Match): seq<Match> {
    if ms == [] then []
    else
      var m := ms[|ms| - 1];
      Ties(ms[..|ms| - 1], x) + if Less(m, x) || Less(x, m) then [] else [m]
  }

  lemma {:induction false} InsertStable(sorted: seq<Match>, m: Match, x: Match)
    ensures Ties(Insert(sorted, m), x) == Ties(sorted + [m], x)
  {
    assert (sorted + [m])[..|sorted|] == sorted;
    if sorted == [] {
      assert sorted + [m] == [m];
    } else {
      var front, last := sorted[..|sorted| - 1], sorted[|sorted| - 1];
      if Less(m, last) {
        InsertStable(front, m, x);
        assert (front + [m])[..|front|] == front;
        assert (Insert(front, m) + [last])[..|Insert(front, m)|] == Insert(front, m);
      }
    }
  }

  /** The sort keeps the order of matches that compare as equal. */
  lemma {:induction false} SortStable(ms: seq<Match>, x: Match)
    ensures Ties(StableSort(ms), x) == Ties(ms, x)
  {
    if ms != [] {
      var front, last := ms[..|ms| - 1], ms[|ms| - 1];
      SortStable(front, x);
      InsertStable(StableSort(front), last, x);
      assert (StableSort(front) + [last])[..|StableSort(front)|] == StableSort(front);
    }
  }

  /** Walks the sorted matches and keeps each one that starts no earlier than the last kept one ended. */
  function Select(ms: seq<Match>, last: int): seq<Match> {
    if ms == [] then []
    else if ms[0].start >= last then [ms[0]] + Select(ms[1..], ms[0].end)
    else Select(ms[1..], last)
  }

  /** The matches follow each other without overlap between `pos` and `n`. */
  ghost predicate InOrder(sel: seq<Match>, pos: int, n: nat) {
    if sel == [] then pos <= n
    else pos <= sel[0].start <= sel[0].end <= n && InOrder(sel[1..], sel[0].end, n)
  }

  predicate Covered(sel: seq<Match>, i: int) {
    exists k :: 0 <= k < |sel| && sel[k].start <= i < sel[k].end
  }

  /** Selected spans are ordered and disjoint. */
  lemma {:induction false} SelectedInOrder(ms: seq<Match>, last: int, n: nat)
    requires InText(ms, n) && last <= n
    ensures InOrder(Select(ms, last), last, n)
    decreases |ms|
  {
    if ms != [] {
      assert forall i :: 0 <= i < |ms[1..]| ==> ms[1..][i] == ms[i + 1];
      if ms[0].start >= last {
        SelectedInOrder(ms[1..], ms[0].end, n);
        assert Select(ms, last)[1..] == Select(ms[1..], ms[0].end);
      } else {
        SelectedInOrder(ms[1..], last, n);
      }
    }
  }

  lemma {:induction false} SelectedFrom(ms: seq<Match>, last: int, m: Match)
    requires m in Select(ms, last)
    ensures m in ms
    decreases |ms|
  {
    if ms[0].start >= last {
      if m != ms[0] {
        SelectedFrom(ms[1..], ms[0].end, m);
      }
    } else {
      SelectedFrom(ms[1..], last, m);
    }
  }

  /** Every match left out starts inside a kept one, or before the point where keeping began. */
  lemma {:induction false} SelectedIsMaximal(ms: seq<Match>, last: int, m: Match)
    requires Ordered(ms) && m in ms && m !in Select(ms, last)
    ensures m.start < last || Covered(Select(ms, last), m.start)
    decreases |ms|
  {
    assert Ordered(ms[1..]);
    var first := ms[0];
    assert forall i :: 0 <= i < |ms[1..]| ==> ms[1..][i] == ms[i + 1];
    if first.start >= last {
      var rest := Select(ms[1..], first.end);
      var sel := Select(ms, last);
      assert sel == [first] + rest;
      assert m in ms[1..];
      SelectedIsMaximal(ms[1..], first.end, m);
      assert !Less(m, first);
      if m.start < first.end {
        assert sel[0].start <= m.start < sel[0].end;
      } else {
        var k :| 0 <= k < |rest| && rest[k].start <= m.start < rest[k].end;
        assert sel[k + 1] == rest[k];
      }
    } else if m != first {
      SelectedIsMaximal(ms[1..], last, m);
    }
  }

  /** Of matches that start together the one that comes first in the order is kept: the highest
      priority, then the shortest. */
  lemma {:induction false} SelectedIsPreferred(ms: seq<Match>, last: int, kept: Match, m: Match)
    requires Ordered(ms) && forall x <- ms :: x.start < x.end
    requires kept in Select(ms, last) && m in ms && m.start == kept.start
    ensures m.priority < kept.priority || (m.priority == kept.priority && m.end >= kept.end)
    ensures kept.start >= last
    decreases |ms|
  {
    var first, rest := ms[0], ms[1..];
    assert Ordered(rest);
    assert forall i :: 0 <= i < |rest| ==> rest[i] == ms[i + 1];
    if first.start >= last {
      if kept != first {
        assert kept in Select(rest, first.end);
        SelectedFrom(rest, first.end, kept);
        SelectedIsPreferred(rest, first.end, kept, kept);
        assert m != first;
        SelectedIsPreferred(rest, first.end, kept, m);
      }
    } else {
      SelectedFrom(rest, last, kept);
      SelectedIsPreferred(rest, last, kept, kept);
      SelectedIsPreferred(rest, last, kept, m);
    }
  }

  // ----- the whole text

  /** Entities as they are, the text between them lower-cased and cut into runs. */
  function Assemble(u: Alphabet, input: string, sel: seq<Match>, pos: nat): seq<Token>
    requires pos <= |input| && InOrder(sel, pos, |input|)
  {
    if sel == [] then u.Runs(Map(u.lower, input[pos..]))
    else
      var m := sel[0];
      u.Runs(Map(u.lower, input[pos..m.start])) + [Token(m.kind, input[m.start..m.end])]
      + Assemble(u, input, sel[1..], m.end)
  }

  function Selected(rules: seq<Rule>, input: string): seq<Match> {
    Select(StableSort(AllMatches(rules, input)), -1)
  }

  lemma {:induction false} MatchesInText(rules: seq<Rule>, input: string)
    requires RulesValid(rules)
    ensures InText(AllMatches(rules, input), |input|)
  {
    if rules != [] {
      MatchesInText(rules[..|rules| - 1], input);
      var rule := rules[|rules| - 1];
      assert rule in rules;
      SpansInText(rule, rule.find(input), |input|);
    }
  }

  lemma {:induction false} SpansInText(rule: Rule, spans: seq<(nat, nat)>, n: nat)
    requires forall m <- spans :: m.0 <= m.1 <= n
    ensures InText(MatchesOf(rule, spans), n)
  {
    if spans != [] {
      SpansInText(rule, spans[..|spans| - 1], n);
      assert spans[|spans| - 1] in spans;
    }
  }

  lemma SelectionInOrder(rules: seq<Rule>, input: string)
    requires RulesValid(rules)
    ensures InOrder(Selected(rules, input), 0, |input|)
  {
    var ms := StableSort(AllMatches(rules, input));
    MatchesInText(rules, input);
    SortOrdered(AllMatches(rules, input));
    forall i | 0 <= i < |ms|
      ensures ms[i].start <= ms[i].end <= |input|
    {
      assert ms[i] in multiset(ms);
      assert ms[i] in AllMatches(rules, input);
    }
    SelectedInOrder(ms, -1, |input|);
  }

  function EntityTokens(u: Alphabet, rules: seq<Rule>, input: string): seq<Token>
    requires RulesValid(rules)
  {
    SelectionInOrder(rules, input);
    Assemble(u, input, Selected(rules, input), 0)
  }

  /** The tokens of a text around its entities: entity `k` is token `at[k]`, and the tokens before it, back to the
      entity before, are the maximal runs of the lower-cased text in between. */
  ghost predicate Interleaved(u: Alphabet, input: string, sel: seq<Match>, pos: nat, tokens: seq<Token>,
                              at: seq<nat>) {
    && |at| == |sel|
    && (forall k :: 0 <= k < |sel| ==> EntityAt(input, sel[k], tokens, at[k]))
    && (forall k :: 0 <= k <= |sel| ==> RunsBetween(u, input, sel, pos, tokens, at, k))
  }

  predicate EntityAt(input: string, m: Match, tokens: seq<Token>, i: nat) {
    m.start <= m.end <= |input| && i < |tokens| && tokens[i] == Token(m.kind, input[m.start..m.end])
  }

  ghost predicate RunsBetween(u: Alphabet, input: string, sel: seq<Match>, pos: nat, tokens: seq<Token>,
                              at: seq<nat>, k: nat)
    requires k <= |sel| == |at|
  {
    var from, to := if k == 0 then 0 else at[k - 1] + 1, if k == |at| then |tokens| else at[k];
    var start, end := if k == 0 then pos else sel[k - 1].end, if k == |sel| then |input| else sel[k].start;
    && from <= to <= |tokens| && start <= end <= |input|
    && MaximalRuns(u, tokens[from..to]) && Concat(tokens[from..to]) == Map(u.lower, input[start..end])
  }

  /** The places of the entities, when there are `gap` tokens before the first. */
  function Shifted(gap: nat, at: seq<nat>): (r: seq<nat>)
    ensures |r| == |at| + 1 && r[0] == gap && forall k :: 0 <= k < |at| ==> r[k + 1] == at[k] + gap + 1
  {
    [gap] + seq(|at|, k requires 0 <= k < |at| => at[k] + gap + 1)
  }

  lemma EntityMoved(input: string, m: Match, runs: seq<Token>, entity: Token, rest: seq<Token>, i: nat)
    requires EntityAt(input, m, rest, i)
    ensures EntityAt(input, m, runs + [entity] + rest, i + |runs| + 1)
  {
  }

  lemma FirstEntity(input: string, m: Match, runs: seq<Token>, rest: seq<Token>)
    requires m.start <= m.end <= |input|
    ensures EntityAt(input, m, runs + [Token(m.kind, input[m.start..m.end])] + rest, |runs|)
  {
  }

  lemma FirstRunsBetween(u: Alphabet, input: string, sel: seq<Match>, pos: nat, runs: seq<Token>, entity: Token,
                         rest: seq<Token>, at: seq<nat>)
    requires |sel| == |at| + 1 && pos <= sel[0].start <= |input|
    requires runs == u.Runs(Map(u.lower, input[pos..sel[0].start]))
    ensures RunsBetween(u, input, sel, pos, runs + [entity] + rest, Shifted(|runs|, at), 0)
  {
    hide MaximalRuns, Concat, Alphabet.Runs;
    RunsAreMaximal(u, Map(u.lower, input[pos..sel[0].start]));
    assert (runs + [entity] + rest)[0..|runs|] == runs;
  }

  lemma NextRunsBetween(u: Alphabet, input: string, sel: seq<Match>, pos: nat, runs: seq<Token>, entity: Token,
                        rest: seq<Token>, at: seq<nat>, k: nat)
    requires 0 < k <= |sel| == |at| + 1
    requires RunsBetween(u, input, sel[1..], sel[0].end, rest, at, k - 1)
    ensures RunsBetween(u, input, sel, pos, runs + [entity] + rest, Shifted(|runs|, at), k)
  {
    hide MaximalRuns, Concat;
    var tokens, shift := runs + [entity] + rest, |runs| + 1;
    var from, to := if k == 1 then 0 else at[k - 2] + 1, if k == |sel| then |rest| else at[k - 1];
    assert tokens[from + shift..to + shift] == rest[from..to];
  }

  lemma InterleavedMore(u: Alphabet, input: string, sel: seq<Match>, pos: nat, runs: seq<Token>, rest: seq<Token>,
                        at: seq<nat>)
    requires sel != [] && pos <= sel[0].start <= sel[0].end <= |input|
    requires runs == u.Runs(Map(u.lower, input[pos..sel[0].start]))
    requires Interleaved(u, input, sel[1..], sel[0].end, rest, at)
    ensures Interleaved(u, input, sel, pos, runs + [Token(sel[0].kind, input[sel[0].start..sel[0].end])] + rest,
                        Shifted(|runs|, at))
  {
    hide RunsBetween, EntityAt;
    var entity, at' := Token(sel[0].kind, input[sel[0].start..sel[0].end]), Shifted(|runs|, at);
    var tokens := runs + [entity] + rest;
    forall k | 0 <= k < |sel|
      ensures EntityAt(input, sel[k], tokens, at'[k])
    {
      if k == 0 {
        FirstEntity(input, sel[0], runs, rest);
      } else {
        assert sel[1..][k - 1] == sel[k];
        EntityMoved(input, sel[k], runs, entity, rest, at[k - 1]);
      }
    }
    FirstRunsBetween(u, input, sel, pos, runs, entity, rest, at);
    forall k | 0 < k <= |sel|
      ensures RunsBetween(u, input, sel, pos, tokens, at', k)
    {
      NextRunsBetween(u, input, sel, pos, runs, entity, rest, at, k);
    }
  }

  lemma {:induction false} AssembledParts(u: Alphabet, input: string, sel: seq<Match>, pos: nat) returns (at: seq<nat>)
    requires pos <= |input| && InOrder(sel, pos, |input|)
    ensures Interleaved(u, input, sel, pos, Assemble(u, input, sel, pos), at)
    decreases |sel|
  {
    hide MaximalRuns, Concat, Alphabet.Runs;
    if sel == [] {
      at := [];
      var tokens := Assemble(u, input, [], pos);
      RunsAreMaximal(u, Map(u.lower, input[pos..]));
      assert tokens[0..|tokens|] == tokens && input[pos..|input|] == input[pos..];
    } else {
      var m := sel[0];
      var rest := AssembledParts(u, input, sel[1..], m.end);
      InterleavedMore(u, input, sel, pos, u.Runs(Map(u.lower, input[pos..m.start])),
                      Assemble(u, input, sel[1..], m.end), rest);
      at := Shifted(|u.Runs(Map(u.lower, input[pos..m.start]))|, rest);
    }
  }

  /** Every selected entity is a token with its kind and its text as it stands, and between two of them are the
      maximal runs of the text there. */
  lemma EntitiesAreTokens(u: Alphabet, rules: seq<Rule>, input: string) returns (at: seq<nat>)
    requires RulesValid(rules)
    ensures Interleaved(u, input, Selected(rules, input), 0, EntityTokens(u, rules, input), at)
  {
    hide Selected, Assemble, Interleaved, InOrder;
    SelectionInOrder(rules, input);
    at := AssembledParts(u, input, Selected(rules, input), 0);
  }

  lemma AssembledStep(u: Alphabet, input: string, sel: seq<Match>, pos: nat)
    requires pos <= |input| && InOrder(sel, pos, |input|) && sel != []
    ensures Concat(Assemble(u, input, sel, pos)) ==
            (Map(u.lower, input[pos..sel[0].start]) + input[sel[0].start..sel[0].end])
            + Concat(Assemble(u, input, sel[1..], sel[0].end))
  {
    hide Alphabet.Runs;
    var m, rest := sel[0], sel[1..];
    var gap := Map(u.lower, input[pos..m.start]);
    var entity := Token(m.kind, input[m.start..m.end]);
    RunsSpell(u, gap);
    ConcatSplit(u.Runs(gap) + [entity], Assemble(u, input, rest, m.end));
    ConcatSplit(u.Runs(gap), [entity]);
    assert Concat([entity]) == entity.value;
  }

  lemma {:induction false} AssembledLength(u: Alphabet, input: string, sel: seq<Match>, pos: nat)
    requires pos <= |input| && InOrder(sel, pos, |input|)
    ensures |Concat(Assemble(u, input, sel, pos))| == |input| - pos
    decreases |sel|
  {
    if sel == [] {
      RunsSpell(u, Map(u.lower, input[pos..]));
    } else {
      AssembledLength(u, input, sel[1..], sel[0].end);
      AssembledStep(u, input, sel, pos);
    }
  }

  lemma JoinedAt(lower: char -> char, input: string, pos: nat, start: nat, end: nat, tail: string, i: nat)
    requires pos <= start <= end <= |input| && pos <= i < |input| && |tail| == |input| - end
    ensures var t := (Map(lower, input[pos..start]) + input[start..end]) + tail;
            && |t| == |input| - pos
            && t[i - pos] == if i < start then lower(input[i]) else if i < end then input[i] else tail[i - end]
  {
    var gap, entity := input[pos..start], input[start..end];
    if i < start {
      assert gap[i - pos] == input[i];
    } else if i < end {
      assert entity[i - start] == input[i];
    }
  }

  /** Where a rune of the assembled text comes from: the gap, the first entity, or what follows. */
  lemma AssembledAt(u: Alphabet, input: string, sel: seq<Match>, pos: nat, i: nat)
    requires pos <= i < |input| && InOrder(sel, pos, |input|) && sel != []
    ensures |Concat(Assemble(u, input, sel, pos))| == |input| - pos
    ensures |Concat(Assemble(u, input, sel[1..], sel[0].end))| == |input| - sel[0].end
    ensures Concat(Assemble(u, input, sel, pos))[i - pos] ==
            if i < sel[0].start then u.lower(input[i])
            else if i < sel[0].end then input[i]
            else Concat(Assemble(u, input, sel[1..], sel[0].end))[i - sel[0].end]
  {
    hide Assemble, Concat;
    AssembledLength(u, input, sel[1..], sel[0].end);
    AssembledStep(u, input, sel, pos);
    JoinedAt(u.lower, input, pos, sel[0].start, sel[0].end, Concat(Assemble(u, input, sel[1..], sel[0].end)), i);
  }

  lemma AssembledEnd(u: Alphabet, input: string, pos: nat, i: nat)
    requires pos <= i < |input|
    ensures |Concat(Assemble(u, input, [], pos))| == |input| - pos
    ensures Concat(Assemble(u, input, [], pos))[i - pos] == u.lower(input[i]) && !Covered([], i)
  {
    hide Alphabet.Runs, Concat;
    RunsSpell(u, Map(u.lower, input[pos..]));
    assert input[pos..][i - pos] == input[i];
  }

  lemma {:induction false} AssembledRune(u: Alphabet, input: string, sel: seq<Match>, pos: nat, i: nat)
    requires pos <= i < |input| && InOrder(sel, pos, |input|)
    ensures |Concat(Assemble(u, input, sel, pos))| == |input| - pos
    ensures Concat(Assemble(u, input, sel, pos))[i - pos] == if Covered(sel, i) then input[i] else u.lower(input[i])
    decreases |sel|
  {
    hide Assemble, Concat, Covered;
    if sel == [] {
      AssembledEnd(u, input, pos, i);
    } else {
      AssembledAt(u, input, sel, pos, i);
      CoveredStep(sel, i);
      if i < sel[0].end {
        NotCoveredBefore(sel[1..], sel[0].end, |input|, i);
      } else {
        AssembledRune(u, input, sel[1..], sel[0].end, i);
      }
    }
  }

  lemma CoveredStep(sel: seq<Match>, i: int)
    requires sel != []
    ensures Covered(sel, i) <==> sel[0].start <= i < sel[0].end || Covered(sel[1..], i)
  {
    if k :| 0 <= k < |sel[1..]| && sel[1..][k].start <= i < sel[1..][k].end {
      assert sel[k + 1] == sel[1..][k];
    }
    if k :| 0 <= k < |sel| && sel[k].start <= i < sel[k].end {
      assert k == 0 || sel[1..][k - 1] == sel[k];
    }
  }

  lemma {:induction false} NotCoveredBefore(sel: seq<Match>, pos: int, n: nat, i: int)
    requires InOrder(sel, pos, n) && i < pos
    ensures !Covered(sel, i)
    decreases |sel|
  {
    if sel != [] {
      CoveredStep(sel, i);
      NotCoveredBefore(sel[1..], sel[0].end, n, i);
    }
  }

  /** Tokenizing loses nothing: the tokens spell the input, lower-cased outside the entities. */
  lemma NothingIsLost(u: Alphabet, rules: seq<Rule>, input: string)
    requires RulesValid(rules)
    ensures var t, sel := Concat(EntityTokens(u, rules, input)), Selected(rules, input);
            && |t| == |input|
            && forall i :: 0 <= i < |input| ==> t[i] == if Covered(sel, i) then input[i] else u.lower(input[i])
  {
    hide Selected, Assemble, Concat, Covered;
    SelectionInOrder(rules, input);
    AssembledLength(u, input, Selected(rules, input), 0);
    forall i | 0 <= i < |input|
      ensures Concat(EntityTokens(u, rules, input))[i] ==
              if Covered(Selected(rules, input), i) then input[i] else u.lower(input[i])
    {
      AssembledRune(u, input, Selected(rules, input), 0, i);
    }
  }

  /** Selected spans are ordered, disjoint and maximal: a match left out starts inside a selected one. */
  lemma SelectionIsMaximal(rules: seq<Rule>, input: string, m: Match)
    requires RulesValid(rules) && m in AllMatches(rules, input)
    ensures InOrder(Selected(rules, input), 0, |input|)
    ensures m in Selected(rules, input) || Covered(Selected(rules, input), m.start)
  {
    var ms := AllMatches(rules, input);
    SelectionInOrder(rules, input);
    SortOrdered(ms);
    assert m in multiset(StableSort(ms));
    if m !in Selected(rules, input) {
      SelectedIsMaximal(StableSort(ms), -1, m);
    }
  }

  method CollectMatches(rules: seq<Rule>, input: string) returns (all: seq<Match>)
    ensures all == AllMatches(rules, input)
    ensures ListsEverySpan(rules, input, all)
  {
    hide ListsEverySpan;
    EverySpanListed(rules, input);
    all := [];
    for i := 0 to |rules|
      invariant all == AllMatches(rules[..i], input)
    {
      var rule := rules[i];
      assert rules[..i + 1][..i] == rules[..i];
      var spans := rule.find(input);
      for j := 0 to |spans|
        invariant all == AllMatches(rules[..i], input) + MatchesOf(rule, spans[..j])
      {
        assert spans[..j + 1][..j] == spans[..j];
        all := all + [Match(spans[j].0, spans[j].1, rule.kind, rule.priority)];
      }
      assert spans[..|spans|] == spans;
    }
    assert rules[..|rules|] == rules;
  }

  method SelectMatches(sorted: seq<Match>) returns (selected: seq<Match>)
    ensures selected == Select(sorted, -1)
  {
    selected := [];
    var lastSelectedPos: int := -1;
    assert sorted[0..] == sorted;
    for i := 0 to |sorted|
      invariant selected + Select(sorted[i..], lastSelectedPos) == Select(sorted, -1)
    {
      var pt := sorted[i];
      assert sorted[i..][0] == pt && sorted[i..][1..] == sorted[i + 1..];
      if pt.start >= lastSelectedPos {
        var rest := Select(sorted[i + 1..], pt.end);
        assert selected + ([pt] + rest) == (selected + [pt]) + rest;
        selected := selected + [pt];
        lastSelectedPos := pt.end;
      }
    }
  }

  /** One step along the selected spans: the gap, the entity, the rest. */
  lemma AssembleNext(u: Alphabet, input: string, sel: seq<Match>, i: nat, pos: nat, before: seq<Token>)
    requires i < |sel| && pos <= |input| && InOrder(sel[i..], pos, |input|)
    ensures var m := sel[i];
            && pos <= m.start <= m.end <= |input| && InOrder(sel[i + 1..], m.end, |input|)
            && before + Assemble(u, input, sel[i..], pos) ==
               (before + u.Runs(Map(u.lower, input[pos..m.start])) + [Token(m.kind, input[m.start..m.end])])
               + Assemble(u, input, sel[i + 1..], m.end)
  {
    hide Alphabet.Runs;
    assert sel[i..][1..] == sel[i + 1..];
  }

  /** The tokens of the text between two entities; none if there is no text. */
  method TokenizeGap(u: Alphabet, input: string, from: nat, to: nat) returns (tokens: seq<Token>)
    requires from <= to <= |input|
    ensures tokens == u.Runs(Map(u.lower, input[from..to]))
  {
    tokens := [];
    if to > from {
      tokens := FragmentTokenize(u, input[from..to]);
    }
  }

  method EntityTokenize(u: Alphabet, rules: seq<Rule>, input: string) returns (finalTokens: seq<Token>)
    requires RulesValid(rules)
    ensures finalTokens == EntityTokens(u, rules, input)
  {
    hide Alphabet.Runs, InOrder, Assemble;
    var all := CollectMatches(rules, input);
    var selected := SelectMatches(StableSort(all));
    SelectionInOrder(rules, input);
    finalTokens := [];
    var currentTextPos: nat := 0;
    assert selected[0..] == selected;
    for i := 0 to |selected|
      invariant currentTextPos <= |input| && InOrder(selected[i..], currentTextPos, |input|)
      invariant finalTokens + Assemble(u, input, selected[i..], currentTextPos) == EntityTokens(u, rules, input)
    {
      var entity := selected[i];
      AssembleNext(u, input, selected, i, currentTextPos, finalTokens);
      var stdTokens := TokenizeGap(u, input, currentTextPos, entity.start);
      finalTokens := finalTokens + stdTokens;
      finalTokens := finalTokens + [Token(entity.kind, input[entity.start..entity.end])];
      currentTextPos := entity.end;
    }
    AssembleLast(u, input, selected, currentTextPos);
    var stdTokens := TokenizeGap(u, input, currentTextPos, |input|);
    finalTokens := finalTokens + stdTokens;
  }

  lemma AssembleLast(u: Alphabet, input: string, sel: seq<Match>, pos: nat)
    requires pos <= |input|
    ensures InOrder(sel[|sel|..], pos, |input|)
    ensures Assemble(u, input, sel[|sel|..], pos) == u.Runs(Map(u.lower, input[pos..|input|]))
  {
    assert input[pos..|input|] == input[pos..];
  }

  // ----- words

  /** A word as the tokenizer produces it: lower-case letters only. */
  ghost predicate ProperWord(u: Alphabet, w: string) {
    w != [] && forall i :: 0 <= i < |w| ==> u.isLetter(w[i]) && u.lower(w[i]) == w[i]
  }

  /** What the three regular expressions have in common: an entity contains a rune that is no
      letter, and its type is one of the three entity types. */
  ghost predicate EntitiesSpecial(u: Alphabet, rules: seq<Rule>) {
    forall rule <- rules ::
      && rule.kind in {EMAIL_ADDR, URL_ADDR, IP_V4_ADDR}
      && forall input :: forall m <- rule.find(input) ::
           m.0 <= m.1 <= |input| && exists i :: m.0 <= i < m.1 && !u.isLetter(input[i])
  }

  lemma {:induction false} NoEntityInWord(u: Alphabet, rules: seq<Rule>, w: string)
    requires EntitiesSpecial(u, rules) && ProperWord(u, w)
    ensures AllMatches(rules, w) == []
  {
    if rules != [] {
      var rule := rules[|rules| - 1];
      assert rule in rules;
      NoEntityInWord(u, rules[..|rules| - 1], w);
      if rule.find(w) != [] {
        var m := rule.find(w)[0];
        assert m in rule.find(w);
      }
    }
  }

  /** A word tokenizes to itself. */
  lemma WordRetokenizes(u: Alphabet, rules: seq<Rule>, w: string)
    requires RulesValid(rules) && EntitiesSpecial(u, rules) && ProperWord(u, w)
    ensures EntityTokens(u, rules, w) == [Token(WORD, w)]
  {
    NoEntityInWord(u, rules, w);
    assert Map(u.lower, w[0..]) == w;
    assert u.Uniform(w) && u.TypeOf(w) == WORD;
    assert w + "" == w;
    FirstRun(u, w, "");
  }

  lemma WordRunIsLetters(u: Alphabet, s: string)
    requires s != [] && u.TypeOf(s) == WORD
    ensures forall i :: 0 <= i < |s| ==> u.isLetter(s[i])
  {
    assert forall i :: 0 <= i < |s| ==> u.RuneType(s[i]) == u.RuneType(s[0]);
  }

  lemma {:induction false} RunIsTyped(u: Alphabet, s: string, t: Token)
    requires t in u.Runs(s)
    ensures t.value != [] && t.kind == u.TypeOf(t.value)
    ensures forall c <- t.value :: c in s
    decreases |s|
  {
    hide Alphabet.TypeOf;
    var n := u.RunLength(s);
    if t != u.Runs(s)[0] {
      RunIsTyped(u, s[n..], t);
    }
  }

  /** A word token is a proper word. */
  lemma RunWordIsProper(u: Alphabet, s: string, t: Token)
    requires u.Valid() && t in u.Runs(Map(u.lower, s)) && t.kind == WORD
    ensures ProperWord(u, t.value)
  {
    hide Alphabet.Runs, Alphabet.TypeOf;
    RunIsTyped(u, Map(u.lower, s), t);
    WordRunIsLetters(u, t.value);
    forall i | 0 <= i < |t.value|
      ensures u.lower(t.value[i]) == t.value[i]
    {
      assert t.value[i] in Map(u.lower, s);
    }
  }

  lemma {:induction false} AssembledWordsAreProper(u: Alphabet, input: string, sel: seq<Match>, pos: nat, t: Token)
    requires u.Valid() && pos <= |input| && InOrder(sel, pos, |input|)
    requires forall m <- sel :: m.kind != WORD
    requires t in Assemble(u, input, sel, pos) && t.kind == WORD
    ensures ProperWord(u, t.value)
    decreases |sel|
  {
    if sel == [] {
      RunWordIsProper(u, input[pos..], t);
    } else if t in u.Runs(Map(u.lower, input[pos..sel[0].start])) {
      RunWordIsProper(u, input[pos..sel[0].start], t);
    } else {
      AssembledWordsAreProper(u, input, sel[1..], sel[0].end, t);
    }
  }

  lemma {:induction false} MatchKinds(u: Alphabet, rules: seq<Rule>, input: string, m: Match)
    requires EntitiesSpecial(u, rules) && m in AllMatches(rules, input)
    ensures m.kind != WORD
  {
    var front, rule := rules[..|rules| - 1], rules[|rules| - 1];
    assert rule in rules;
    if m in AllMatches(front, input) {
      MatchKinds(u, front, input, m);
    } else {
      MatchKind(rule, rule.find(input), m);
    }
  }

  lemma {:induction false} MatchKind(rule: Rule, spans: seq<(nat, nat)>, m: Match)
    requires m in MatchesOf(rule, spans)
    ensures m.kind == rule.kind
  {
    if m in MatchesOf(rule, spans[..|spans| - 1]) {
      MatchKind(rule, spans[..|spans| - 1], m);
    }
  }

  lemma WordsAreProper(u: Alphabet, rules: seq<Rule>, input: string, t: Token)
    requires u.Valid() && RulesValid(rules) && EntitiesSpecial(u, rules)
    requires t in EntityTokens(u, rules, input) && t.kind == WORD
    ensures ProperWord(u, t.value)
  {
    var sel := Selected(rules, input);
    SelectionInOrder(rules, input);
    SortOrdered(AllMatches(rules, input));
    forall m <- sel
      ensures m.kind != WORD
    {
      SelectedFrom(StableSort(AllMatches(rules, input)), -1, m);
      assert m in multiset(AllMatches(rules, input));
      MatchKinds(u, rules, input, m);
    }
    AssembledWordsAreProper(u, input, sel, 0, t);
  }
}
