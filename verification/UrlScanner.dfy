/** The scanner that looks for query words in a document's address. */
module UrlScanner {

  function Max(x: int, y: int): int {
    if x >= y then x else y
  }

  /** The byte offset of rune `i`, given the encoded width of every rune. */
  function ByteOffset(width: char -> nat, w: string, i: nat): nat
    requires i <= |w|
  {
    if i == 0 then 0 else ByteOffset(width, w, i - 1) + width(w[i - 1])
  }

  /** Every rune takes at least one byte. */
  ghost predicate Encodes(width: char -> nat) {
    forall c :: width(c) >= 1
  }

  lemma {:induction false} OffsetAtLeastIndex(width: char -> nat, w: string, i: nat)
    requires Encodes(width) && i <= |w|
    ensures ByteOffset(width, w, i) >= i
  {
    if i > 0 {
      OffsetAtLeastIndex(width, w, i - 1);
    }
  }

  /** The last place of a rune among the first `n`, or -1. */
  function LastPlace(w: string, c: char, n: nat): (p: int)
    requires n <= |w|
    ensures -1 <= p < n && (p >= 0 ==> w[p] == c)
    ensures forall i :: p < i < n ==> w[i] != c
  {
    if n == 0 then -1 else if w[n - 1] == c then n - 1 else LastPlace(w, c, n - 1)
  }

  /** How far a window moves on when its last rune is `c` and does not match. The place of a rune is
      taken in bytes, as the loop over the word counts it, the word's length in runes. */
  function Shift(width: char -> nat, w: string, c: char): (n: nat)
    ensures |w| >= 1 ==> n >= 1
  {
    var p := LastPlace(w, c, |w|);
    if p == -1 then |w| else ShiftAt(width, w, p)
  }

  function ShiftAt(width: char -> nat, w: string, p: nat): nat
    requires p < |w|
  {
    Max(1, |w| - ByteOffset(width, w, p) - 1)
  }

  lemma {:induction false} EvenOffset(width: char -> nat, w: string, k: nat, i: nat)
    requires i <= |w| && forall r <- w :: width(r) == k
    ensures ByteOffset(width, w, i) == i * k
  {
    if i > 0 {
      EvenOffset(width, w, k, i - 1);
      assert w[i - 1] in w;
    }
  }

  lemma LastPlaceIs(w: string, p: nat)
    requires p < |w| && w[p] !in w[p + 1..]
    ensures LastPlace(w, w[p], |w|) == p
  {
    var last := LastPlace(w, w[p], |w|);
    assert forall i :: p < i < |w| ==> w[i] == w[p + 1..][i - p - 1];
  }

  /** The shift of a rune with its last place at `p`: no more than its distance from the end and no less than one; in
      a word of one-byte runes exactly this distance, or one for the last rune. In a word of runes of `k` bytes its
      place counts `k` times. */
  lemma ShiftExact(width: char -> nat, w: string, p: nat, k: nat)
    requires Encodes(width) && p < |w| && w[p] !in w[p + 1..]
    ensures 1 <= Shift(width, w, w[p]) <= if p == |w| - 1 then 1 else |w| - 1 - p
    ensures (forall r <- w :: width(r) == 1) ==> Shift(width, w, w[p]) == if p == |w| - 1 then 1 else |w| - 1 - p
    ensures (forall r <- w :: width(r) == k) ==>
              Shift(width, w, w[p]) == if |w| - 1 - p * k >= 1 then |w| - 1 - p * k else 1
  {
    hide Shift, LastPlace, ByteOffset;
    LastPlaceIs(w, p);
    ShiftOfPlace(width, w, w[p]);
    OffsetAtLeastIndex(width, w, p);
    if forall r <- w :: width(r) == k {
      EvenOffset(width, w, k, p);
    }
    if forall r <- w :: width(r) == 1 {
      EvenOffset(width, w, 1, p);
    }
  }

  lemma ShiftOfPlace(width: char -> nat, w: string, c: char)
    ensures Shift(width, w, c) ==
            var p := LastPlace(w, c, |w|);
            if p == -1 then |w| else ShiftAt(width, w, p)
  {
  }

  /** A rune that is not in the word: a whole word. */
  lemma ShiftOfOther(width: char -> nat, w: string, c: char)
    requires c !in w
    ensures Shift(width, w, c) == |w|
  {
  }

  /** How many runes agree, from the end of the word and from `strp` backwards, starting at rune `i`. */
  function Agreeing(url: string, w: string, strp: nat, i: nat): (k: nat)
    requires i < |w| && i <= strp < |url|
    ensures k <= i + 1
    decreases i
  {
    if w[i] != url[strp] then 0
    else if i == 0 then 1
    else 1 + Agreeing(url, w, strp - 1, i - 1)
  }

  /** What the scan reports when the window ends at `strp`. */
  predicate ReportsFrom(width: char -> nat, url: string, w: string, strp: nat)
    requires |w| >= 1 && strp >= |w| - 1
    decreases |url| - strp
  {
    var l := |w|;
    if strp >= |url| then false
    else if w[l - 1] != url[strp] then ReportsFrom(width, url, w, strp + Shift(width, w, url[strp]))
    else Agreeing(url, w, strp, l - 1) == l || ReportsFrom(width, url, w, strp + l)
  }

  predicate Reports(width: char -> nat, url: string, w: string)
    requires |w| >= 1
  {
    ReportsFrom(width, url, w, |w| - 1)
  }

  /** The word occurs with its last rune at `e`. */
  predicate EndsAt(url: string, w: string, e: int) {
    |w| - 1 <= e < |url| && url[e + 1 - |w|..e + 1] == w
  }

  ghost predicate Occurs(url: string, w: string) {
    exists e :: EndsAt(url, w, e)
  }

  // ----- the loops

  method BuildShift(width: char -> nat, word: string) returns (shift: map<char, nat>)
    ensures forall c :: if c in shift then shift[c] == Shift(width, word, c) else Shift(width, word, c) == |word|
  {
    var l := |word|;
    shift := map[];
    var offset := 0;
    for i := 0 to l
      invariant offset == ByteOffset(width, word, i)
      invariant forall c :: c in shift <==> LastPlace(word, c, i) >= 0
      invariant forall c :: c in shift ==> shift[c] == ShiftAt(width, word, LastPlace(word, c, i))
    {
      assert Max(1, l - offset - 1) == ShiftAt(width, word, i);
      hide ShiftAt;
      shift := shift[word[i] := Max(1, l - offset - 1)];
      offset := offset + width(word[i]);
    }
  }

  /** Compares backwards from the end of the word; `tmp` counts on from the word's length, so that
      adding it to where the comparison stopped skips one whole word. */
  method MatchBack(url: string, word: string, start: nat) returns (strp: int, sstrp: int, tmp: nat)
    requires 1 <= |word| <= start + 1 && start < |url|
    ensures var k := Agreeing(url, word, start, |word| - 1);
            strp == start - k && sstrp == |word| - 1 - k && tmp == |word| + k
  {
    var l := |word|;
    strp, sstrp, tmp := start, l - 1, l;
    while sstrp >= 0 && word[sstrp] == url[strp]
      invariant -1 <= sstrp < l && start - strp == l - 1 - sstrp == tmp - l
      invariant sstrp >= 0 ==> Agreeing(url, word, start, l - 1) == start - strp + Agreeing(url, word, strp, sstrp)
      invariant sstrp == -1 ==> Agreeing(url, word, start, l - 1) == start - strp
    {
      tmp := tmp + 1;
      sstrp := sstrp - 1;
      strp := strp - 1;
    }
  }

  /** One move of the window. */
  lemma WindowMoves(width: char -> nat, url: string, w: string, strp: nat)
    requires |w| >= 1 && |w| - 1 <= strp < |url|
    ensures var l := |w|;
            ReportsFrom(width, url, w, strp) ==
            if w[l - 1] != url[strp] then ReportsFrom(width, url, w, strp + Shift(width, w, url[strp]))
            else Agreeing(url, w, strp, l - 1) == l || ReportsFrom(width, url, w, strp + l)
  {
  }

  method Scan(width: char -> nat, url: string, word: string) returns (found: bool)
    requires |word| >= 1
    ensures found == Reports(width, url, word)
  {
    hide ReportsFrom, Shift, Agreeing;
    var ul, l := |url|, |word|;
    var shift := BuildShift(width, word);
    var strp, sstrp := l - 1, l - 1;
    while strp < ul
      invariant sstrp == l - 1 <= strp
      invariant Reports(width, url, word) == ReportsFrom(width, url, word, strp)
      decreases ul - strp
    {
      WindowMoves(width, url, word, strp);
      if word[sstrp] != url[strp] {
        if url[strp] in shift {
          strp := strp + shift[url[strp]];
        } else {
          strp := strp + l;
        }
      } else {
        var tmp;
        strp, sstrp, tmp := MatchBack(url, word, strp);
        if sstrp == -1 {
          return true;
        } else {
          strp := strp + tmp;
          sstrp := l - 1;
        }
      }
    }
    NothingBeyondEnd(width, url, word, strp);
    return false;
  }

  lemma NothingBeyondEnd(width: char -> nat, url: string, w: string, strp: nat)
    requires |w| >= 1 && strp >= |w| - 1 && strp >= |url|
    ensures !ReportsFrom(width, url, w, strp)
  {
  }

  /** The runes of all words found, counted once per query word. */
  function FoundRunes(width: char -> nat, url: string, words: seq<string>): nat
    requires forall w <- words :: |w| >= 1
  {
    if words == [] then 0
    else
      var w := words[|words| - 1];
      FoundRunes(width, url, words[..|words| - 1]) + if Reports(width, url, w) then |w| else 0
  }

  /** Every query word adds its own runes, if it is reported. */
  lemma {:induction false} FoundRunesSplit(width: char -> nat, url: string, a: seq<string>, b: seq<string>)
    requires (forall w <- a :: |w| >= 1) && (forall w <- b :: |w| >= 1)
    ensures FoundRunes(width, url, a + b) == FoundRunes(width, url, a) + FoundRunes(width, url, b)
    ensures |b| == 1 ==> FoundRunes(width, url, b) == if Reports(width, url, b[0]) then |b[0]| else 0
    decreases |b|
  {
    if b == [] {
      assert a + b == a;
    } else {
      var n := |b| - 1;
      assert a + b == (a + b[..n]) + [b[n]] && (a + b)[..|a| + n] == a + b[..n];
      FoundRunesSplit(width, url, a, b[..n]);
    }
  }

  /** Whether any word is found, and the number whose logarithm becomes the feature. */
  method BoyerMoorAlgorithm(width: char -> nat, url: string, queryWords: seq<string>) returns (any: bool, inUrl: nat)
    requires forall w <- queryWords :: |w| >= 1
    ensures any <==> exists w <- queryWords :: Reports(width, url, w)
    ensures inUrl == 1 + FoundRunes(width, url, queryWords)
  {
    var wordInUrl := 0;
    for i := 0 to |queryWords|
      invariant wordInUrl == FoundRunes(width, url, queryWords[..i])
      invariant wordInUrl > 0 <==> exists w <- queryWords[..i] :: Reports(width, url, w)
    {
      var word := queryWords[i];
      assert queryWords[..i + 1] == queryWords[..i] + [word];
      var found := Scan(width, url, word);
      if found {
        wordInUrl := wordInUrl + |word|;
      }
    }
    assert queryWords[..|queryWords|] == queryWords;
    return wordInUrl > 0, 1 + wordInUrl;
  }

  // ----- what the scan is worth

  lemma {:induction false} FullAgreement(url: string, w: string, strp: nat, i: nat)
    requires i < |w| && i <= strp < |url|
    ensures Agreeing(url, w, strp, i) == i + 1 <==> url[strp - i..strp + 1] == w[..i + 1]
    decreases i
  {
    assert url[strp - i..strp + 1][i] == url[strp] && w[..i + 1][i] == w[i];
    if w[i] == url[strp] && i > 0 {
      FullAgreement(url, w, strp - 1, i - 1);
      assert url[strp - i..strp + 1] == url[strp - i..strp] + [url[strp]];
      assert w[..i + 1] == w[..i] + [w[i]];
    }
  }

  lemma WindowMatches(url: string, w: string, strp: nat)
    requires 1 <= |w| <= strp + 1 && strp < |url|
    ensures Agreeing(url, w, strp, |w| - 1) == |w| <==> EndsAt(url, w, strp)
  {
    FullAgreement(url, w, strp, |w| - 1);
    assert w[..|w|] == w;
  }

  /** A reported word occurs. */
  lemma {:induction false} ReportedOccurs(width: char -> nat, url: string, w: string, strp: nat)
    requires |w| >= 1 && strp >= |w| - 1 && ReportsFrom(width, url, w, strp)
    ensures Occurs(url, w)
    decreases |url| - strp
  {
    var l := |w|;
    if w[l - 1] != url[strp] {
      ReportedOccurs(width, url, w, strp + Shift(width, w, url[strp]));
    } else if Agreeing(url, w, strp, l - 1) == l {
      WindowMatches(url, w, strp);
    } else {
      ReportedOccurs(width, url, w, strp + l);
    }
  }

  lemma RuneOf(url: string, w: string, e: int, x: nat)
    requires EndsAt(url, w, e) && e + 1 - |w| <= x <= e
    ensures url[x] == w[x - (e + 1 - |w|)]
  {
    assert url[e + 1 - |w|..e + 1][x - (e + 1 - |w|)] == url[x];
  }

  /** Moving on after a mismatch of the last rune steps over no occurrence. */
  lemma ShiftIsSafe(width: char -> nat, url: string, w: string, strp: nat, e: int)
    requires Encodes(width) && |w| >= 1 && |w| - 1 <= strp < |url| && w[|w| - 1] != url[strp]
    requires EndsAt(url, w, e) && e >= strp
    ensures e >= strp + Shift(width, w, url[strp])
  {
    var c, l := url[strp], |w|;
    if e - l < strp {
      RuneOf(url, w, e, strp);
      var p := LastPlace(w, c, l);
      OffsetAtLeastIndex(width, w, p);
    }
  }

  ghost predicate LastRuneIsNew(w: string) {
    w != [] && w[|w| - 1] !in w[..|w| - 1]
  }

  lemma NoOverlap(url: string, w: string, strp: nat, e: int)
    requires LastRuneIsNew(w) && strp < |url| && url[strp] == w[|w| - 1]
    requires EndsAt(url, w, e) && e >= strp
    ensures e == strp || e >= strp + |w|
  {
    if strp < e < strp + |w| {
      var i := strp - (e + 1 - |w|);
      assert w[..|w| - 1][i] == w[i];
      RuneOf(url, w, e, strp);
    }
  }

  /** When the last rune is found nowhere earlier in the word, skipping a word is safe as well. */
  lemma {:induction false} OccurrenceIsReported(width: char -> nat, url: string, w: string, strp: nat, e: int)
    requires Encodes(width) && LastRuneIsNew(w) && strp >= |w| - 1
    requires EndsAt(url, w, e) && e >= strp
    ensures ReportsFrom(width, url, w, strp)
    decreases |url| - strp
  {
    var l := |w|;
    if w[l - 1] != url[strp] {
      ShiftIsSafe(width, url, w, strp, e);
      OccurrenceIsReported(width, url, w, strp + Shift(width, w, url[strp]), e);
    } else if Agreeing(url, w, strp, l - 1) != l {
      WindowMatches(url, w, strp);
      NoOverlap(url, w, strp, e);
      OccurrenceIsReported(width, url, w, strp + l, e);
    }
  }

  /** A window whose last rune matches but whose first does not, in a text too short for a second
      window: nothing is reported. */
  lemma OneWindowOnly(width: char -> nat, url: string, w: string)
    requires 1 <= |w| <= |url| < 2 * |w|
    requires url[|w| - 1] == w[|w| - 1] && url[0] != w[0]
    ensures !Reports(width, url, w)
  {
    WindowMatches(url, w, |w| - 1);
    assert url[0..|w|][0] != w[0];
    assert !ReportsFrom(width, url, w, |w| - 1 + |w|);
  }

  /** The text in which a word is stepped over: its last rune stands at `j` as well, and the text
      puts that rune under the first window. */
  lemma SteppedOver(width: char -> nat, w: string, j: nat) returns (url: string)
    requires j < |w| - 1 && w[j] == w[|w| - 1]
    ensures Occurs(url, w) && !Reports(width, url, w)
  {
    var l := |w|;
    var other := if w[0] == 'x' then 'y' else 'x';
    var lead := seq(l - 1 - j, _ => other);
    url := lead + w;
    assert url[l - 1 - j..2 * l - 1 - j] == w;
    assert EndsAt(url, w, 2 * l - 2 - j);
    OneWindowOnly(width, url, w);
  }

  /** A word is reported exactly when it occurs, in every text, if and only if its last rune
      is found nowhere earlier in it. */
  lemma ExactForAllTexts(width: char -> nat, w: string)
    requires Encodes(width) && |w| >= 1
    ensures (forall url :: Reports(width, url, w) <==> Occurs(url, w)) <==> LastRuneIsNew(w)
  {
    if LastRuneIsNew(w) {
      forall url
        ensures Reports(width, url, w) <==> Occurs(url, w)
      {
        if Reports(width, url, w) {
          ReportedOccurs(width, url, w, |w| - 1);
        }
        if e :| EndsAt(url, w, e) {
          OccurrenceIsReported(width, url, w, |w| - 1, e);
        }
      }
    } else {
      var j :| 0 <= j < |w| - 1 && w[..|w| - 1][j] == w[|w| - 1];
      var url := SteppedOver(width, w, j);
    }
  }
}
