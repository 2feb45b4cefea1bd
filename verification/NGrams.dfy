/** The n-grams of a word, and the counting argument behind n-gram filtering. */
module NGrams {
  import opened EditDistance

  /** Keeps the first occurrence of every element. */
  function Dedup<T(==)>(s: seq<T>): seq<T> {
    if s == [] then []
    else
      var d, x := Dedup(s[..|s| - 1]), s[|s| - 1];
      if x in d then d else d + [x]
  }

  ghost predicate Distinct<T>(s: seq<T>) {
    forall i, j :: 0 <= i < j < |s| ==> s[i] != s[j]
  }

  lemma {:induction false} DedupKeeps<T>(s: seq<T>)
    ensures Distinct(Dedup(s))
    ensures multiset(Dedup(s)) <= multiset(s)
    ensures forall x <- s :: x in Dedup(s)
    ensures forall x <- Dedup(s) :: x in s
  {
    if s != [] {
      DedupKeeps(s[..|s| - 1]);
      assert s == s[..|s| - 1] + [s[|s| - 1]];
    }
  }

  /** `r` has, in their order, the elements of `s` that are not there earlier; `at` says where they stand. */
  ghost predicate FirstsAt<T>(s: seq<T>, r: seq<T>, at: seq<nat>) {
    && |at| == |r|
    && (forall k :: 0 <= k < |r| ==> at[k] < |s| && r[k] == s[at[k]])
    && (forall j, k :: 0 <= j < k < |at| ==> at[j] < at[k])
    && (forall i :: 0 <= i < |s| ==> (i in at <==> s[i] !in s[..i]))
  }

  ghost predicate Firsts<T>(s: seq<T>, r: seq<T>) {
    exists at :: FirstsAt(s, r, at)
  }

  /** One more element: it counts if it has not been there. */
  lemma FirstsMore<T>(s: seq<T>, r: seq<T>, at: seq<nat>, x: T)
    requires FirstsAt(s, r, at)
    ensures if x in s then FirstsAt(s + [x], r, at) else FirstsAt(s + [x], r + [x], at + [|s|])
  {
    assert forall i :: 0 <= i <= |s| ==> (s + [x])[..i] == s[..i];
    assert s[..|s|] == s;
    assert forall i :: i in at ==> i < |s|;
  }

  /** The results keep the order of the first occurrences. */
  lemma {:induction false} DedupInOrder<T>(s: seq<T>) returns (at: seq<nat>)
    ensures FirstsAt(s, Dedup(s), at)
  {
    if s == [] {
      at := [];
    } else {
      hide FirstsAt;
      var front, x := s[..|s| - 1], s[|s| - 1];
      assert s == front + [x];
      DedupKeeps(front);
      at := DedupInOrder(front);
      FirstsMore(front, Dedup(front), at, x);
      at := if x in front then at else at + [|front|];
    }
  }

  lemma DedupFirsts<T>(s: seq<T>)
    ensures Firsts(s, Dedup(s))
  {
    hide Dedup, FirstsAt;
    var at := DedupInOrder(s);
  }

  lemma PlaceBefore<T>(s: seq<T>, r: seq<T>, at: seq<nat>, a: nat, i: nat)
    requires FirstsAt(s, r, at) && i <= |s| && a < |r|
    ensures at[a] < i <==> r[a] in s[..i]
  {
    var p := at[a];
    assert p in at && r[a] == s[p] && s[p] !in s[..p];
    if p < i {
      assert s[..i][p] == r[a];
    } else {
      assert s[..i] == s[..p][..i];
    }
  }

  lemma PlacesAscend<T>(s: seq<T>, r: seq<T>, at: seq<nat>, a: nat, b: nat)
    requires FirstsAt(s, r, at) && a < |r| && b < |r| && at[a] < at[b]
    ensures a < b
  {
  }

  /** Of two results the one that occurs first comes first. */
  lemma EarlierComesFirst<T>(s: seq<T>, r: seq<T>, i: nat, a: nat, b: nat)
    requires Firsts(s, r) && i <= |s| && a < |r| && b < |r|
    requires r[a] in s[..i] && r[b] !in s[..i]
    ensures a < b
  {
    var at :| FirstsAt(s, r, at);
    assert |at| == |r|;
    hide FirstsAt;
    PlaceBefore(s, r, at, a, i);
    PlaceBefore(s, r, at, b, i);
    PlacesAscend(s, r, at, a, b);
  }

  /** All windows of `n` runes, from left to right. */
  function Windows(w: string, n: nat): seq<string> {
    if |w| < n then [] else seq(|w| - n + 1, i requires 0 <= i <= |w| - n => w[i..i + n])
  }

  /** The n-grams under which the index files a word. */
  function GramsOf(lower: char -> char, word: string, n: nat): seq<string> {
    Dedup(Windows(Map(lower, word), n))
  }

  lemma GramLength(lower: char -> char, word: string, n: nat, j: nat)
    requires j < |GramsOf(lower, word, n)|
    ensures |GramsOf(lower, word, n)[j]| == n
  {
    var ws := Windows(Map(lower, word), n);
    DedupKeeps(ws);
    assert GramsOf(lower, word, n)[j] in ws;
  }

  method ExtractNGrams(lower: char -> char, word: string, n: nat) returns (out: seq<string>)
    ensures out == GramsOf(lower, word, n)
    ensures Firsts(Windows(Map(lower, word), n), out)
  {
    var runes := Map(lower, word);
    out := [];
    var alIn: set<string> := {};
    var ws := Windows(runes, n);
    DedupFirsts(ws);
    hide Firsts;
    if |runes| < n {
      return;
    }
    for i := 0 to |runes| - n + 1
      invariant out == Dedup(ws[..i])
      invariant alIn == set g | g in out
    {
      var ng := runes[i..i + n];
      assert ws[..i + 1][..i] == ws[..i] && ws[i] == ng;
      if ng !in alIn {
        alIn := alIn + {ng};
        out := out + [ng];
      }
    }
    assert ws[..|ws|] == ws;
  }

  ghost predicate SharesGram(lower: char -> char, a: string, b: string, n: nat) {
    exists g :: g in GramsOf(lower, a, n) && g in GramsOf(lower, b, n)
  }

  /** The windows that `k` edits can destroy. */
  function Destroyed(k: nat, n: nat): nat {
    if k == 0 then 0 else Destroyed(k - 1, n) + n
  }

  lemma {:induction false} DestroyedIsProduct(k: nat, n: nat)
    ensures Destroyed(k, n) == k * n
  {
    if k > 0 {
      DestroyedIsProduct(k - 1, n);
      assert k * n == (k - 1) * n + n;
    }
  }

  lemma {:induction false} DestroyedGrows(k: nat, n: nat)
    requires n > 0
    ensures Destroyed(k, n) >= k
  {
    if k > 0 {
      DestroyedGrows(k - 1, n);
    }
  }

  /** The `r` runes of `a` from `i` on are those of `b` from `j` on. */
  ghost predicate Agree(a: string, i: nat, b: string, j: nat, r: nat) {
    && i + r <= |a| && j + r <= |b|
    && forall l :: i <= l < i + r ==> a[l] == b[l - i + j]
  }

  lemma AgreeOneMore(a: string, i: nat, b: string, j: nat, r: nat)
    requires i > 0 && j > 0 && Agree(a, i, b, j, r) && i <= |a| && j <= |b| && a[i - 1] == b[j - 1]
    ensures Agree(a, i - 1, b, j - 1, r + 1)
  {
  }

  lemma FarFromEmpty(a: string, n: nat, i: nat, b: string, r: nat, k: nat)
    requires i <= |a| && Cell(a, i, b, 0) <= k && r < n
    ensures i + r <= Destroyed(k, n) + n - 1
  {
    AtLeastLengthDifference(a[..i], b[..0]);
    DestroyedGrows(k, n);
  }

  /** Walks an optimal alignment from the right. `r` runes to the right of the
      prefixes of length `i` and `j` are known to agree; an edit resets the run
      of agreeing runes and costs one unit of distance. Returns where a common
      window starts in either word. */
  lemma {:induction false} AlignmentKeepsWindow(a: string, b: string, n: nat, i: nat, j: nat, r: nat, k: nat)
    returns (p: nat, s: nat)
    requires r <= n && Agree(a, i, b, j, r)
    requires Cell(a, i, b, j) <= k
    requires i + r > Destroyed(k, n) + n - 1
    ensures Agree(a, p, b, s, n)
    decreases i + j
  {
    hide Cell;
    if r == n {
      p, s := i, j;
    } else if j == 0 {
      FarFromEmpty(a, n, i, b, r, k);
      assert false;
    } else {
      PrefixStep(a, b, i, j);
      if a[i - 1] == b[j - 1] {
        AgreeOneMore(a, i, b, j, r);
        p, s := AlignmentKeepsWindow(a, b, n, i - 1, j - 1, r + 1, k);
      } else if Cell(a, i, b, j) == 1 + Cell(a, i, b, j - 1) {
        p, s := AlignmentKeepsWindow(a, b, n, i, j - 1, 0, k - 1);
      } else if Cell(a, i, b, j) == 1 + Cell(a, i - 1, b, j) {
        p, s := AlignmentKeepsWindow(a, b, n, i - 1, j, 0, k - 1);
      } else {
        p, s := AlignmentKeepsWindow(a, b, n, i - 1, j - 1, 0, k - 1);
      }
    }
  }

  lemma InGramsOf(lower: char -> char, w: string, n: nat, g: string)
    ensures g in GramsOf(lower, w, n) <==> g in Windows(Map(lower, w), n)
  {
    DedupKeeps(Windows(Map(lower, w), n));
  }

  lemma CloseWordsAlign(lower: char -> char, q: string, w: string, n: nat, k: nat)
    returns (i: nat, j: nat)
    requires |q| > Destroyed(k, n) + n - 1
    requires Distance(q, w) <= k
    ensures Agree(Map(lower, q), i, Map(lower, w), j, n)
  {
    var a, b := Map(lower, q), Map(lower, w);
    assert Cell(a, |a|, b, |b|) <= k by {
      MapContracts(lower, q, w);
      assert a[..|a|] == a && b[..|b|] == b;
    }
    i, j := AlignmentKeepsWindow(a, b, n, |a|, |b|, 0, k);
  }

  lemma WindowShared(lower: char -> char, q: string, w: string, n: nat, i: nat, j: nat)
    requires Agree(Map(lower, q), i, Map(lower, w), j, n)
    ensures SharesGram(lower, q, w, n)
  {
    var a, b := Map(lower, q), Map(lower, w);
    var g := a[i..i + n];
    assert g == b[j..j + n];
    assert Windows(a, n)[i] == g == Windows(b, n)[j];
    InGramsOf(lower, q, n, g);
    InGramsOf(lower, w, n, g);
  }

  /** The q-gram lemma: k edits destroy at most k*n windows of n runes. */
  lemma CloseWordsShareGram(lower: char -> char, q: string, w: string, n: nat, k: nat)
    requires |q| - n + 1 > k * n
    requires Distance(q, w) <= k
    ensures SharesGram(lower, q, w, n)
  {
    hide Distance, SharesGram, Agree, Destroyed;
    DestroyedIsProduct(k, n);
    var i, j := CloseWordsAlign(lower, q, w, n, k);
    WindowShared(lower, q, w, n, i, j);
  }

  function Repeat(c: char, n: nat): (s: string)
    ensures |s| == n && forall i :: 0 <= i < n ==> s[i] == c
  {
    seq(n, _ => c)
  }

  /** 'b' after every n-1 runes of 'a', k times. */
  function Spoiled(k: nat, n: nat): string
    requires n >= 1
  {
    if k == 0 then Repeat('a', n - 1) else Spoiled(k - 1, n) + ['b'] + Repeat('a', n - 1)
  }

  lemma {:induction false} CommonTail(a: string, b: string, t: string)
    ensures Distance(a + t, b + t) == Distance(a, b)
    decreases |t|
  {
    if t == [] {
      assert a + t == a && b + t == b;
    } else {
      assert Front(a + t) == a + Front(t) && Front(b + t) == b + Front(t);
      CommonTail(a, b, Front(t));
    }
  }

  lemma ReplaceAtEnd(a: string, c: char, b: string, d: char)
    ensures Distance(a + [c], b + [d]) <= 1 + Distance(a, b)
  {
    hide Distance;
    LastRunes(a, c, b, d);
  }

  lemma {:induction false} SpoiledIsClose(k: nat, n: nat)
    requires n >= 1
    ensures Distance(Repeat('a', Destroyed(k, n) + n - 1), Spoiled(k, n)) <= k
  {
    hide Distance;
    var t := Repeat('a', n - 1);
    var q := Repeat('a', Destroyed(k, n) + n - 1);
    if k == 0 {
      DistanceToSelf(t);
      assert q == t;
    } else {
      SpoiledIsClose(k - 1, n);
      var q', s' := Repeat('a', Destroyed(k - 1, n) + n - 1), Spoiled(k - 1, n);
      assert q == (q' + ['a']) + t;
      CommonTail(q' + ['a'], s' + ['b'], t);
      ReplaceAtEnd(q', 'a', s', 'b');
    }
  }

  lemma {:induction false} SpoiledHasNoCleanWindow(k: nat, n: nat, i: nat)
    requires n >= 1 && i + n <= |Spoiled(k, n)|
    ensures 'b' in Spoiled(k, n)[i..i + n]
    decreases k
  {
    if k > 0 {
      var s', s := Spoiled(k - 1, n), Spoiled(k, n);
      if i + n <= |s'| {
        SpoiledHasNoCleanWindow(k - 1, n, i);
        assert s[i..i + n] == s'[i..i + n];
      } else {
        assert s[i..i + n][|s'| - i] == 'b';
      }
    }
  }

  lemma SpoiledSharesNoWindow(k: nat, n: nat, q: string, g: string)
    requires n >= 1 && q == Repeat('a', |q|)
    ensures !(g in Windows(q, n) && g in Windows(Spoiled(k, n), n))
  {
    var ws, vs := Windows(q, n), Windows(Spoiled(k, n), n);
    if i, j :| 0 <= i < |ws| && 0 <= j < |vs| && ws[i] == g == vs[j] {
      assert g == q[i..i + n] && g == Spoiled(k, n)[j..j + n];
      assert 'b' !in q[i..i + n];
      SpoiledHasNoCleanWindow(k, n, j);
    }
  }

  /** The bound is the best possible: one rune less, and for every `n` and `k`
      there is a word at distance at most `k` that shares no n-gram. */
  lemma BoundIsTight(lower: char -> char, n: nat, k: nat) returns (q: string, w: string)
    requires n >= 1 && lower('a') == 'a' && lower('b') == 'b'
    ensures |q| - n + 1 == k * n
    ensures Distance(q, w) <= k
    ensures !SharesGram(lower, q, w, n)
  {
    q, w := Repeat('a', Destroyed(k, n) + n - 1), Spoiled(k, n);
    DestroyedIsProduct(k, n);
    SpoiledIsClose(k, n);
    SpoiledRunes(k, n);
    assert Map(lower, q) == q;
    assert Map(lower, w) == w;
    if g :| g in GramsOf(lower, q, n) && g in GramsOf(lower, w, n) {
      InGramsOf(lower, q, n, g);
      InGramsOf(lower, w, n, g);
      SpoiledSharesNoWindow(k, n, q, g);
    }
  }

  lemma {:induction false} SpoiledRunes(k: nat, n: nat)
    requires n >= 1
    ensures forall i :: 0 <= i < |Spoiled(k, n)| ==> Spoiled(k, n)[i] in "ab"
  {
    if k > 0 {
      SpoiledRunes(k - 1, n);
    }
  }
}
