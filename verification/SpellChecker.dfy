/** The spelling corrector: which candidate replaces a query word. */
module Spelling {
  import opened EditDistance

  /** A candidate with the distance recorded for it. */
  datatype Scored = Scored(s: string, score: nat)

  datatype SpellChecker = SpellChecker(maxTypo: nat, nGramCount: nat) {

    /** The table of distances between prefixes. Words whose lengths differ by more
        than the bound get a value above the bound without filling the table. */
    method LevenshteinDistance(word1: string, word2: string) returns (d: nat)
      ensures -(maxTypo as int) <= |word1| - |word2| <= maxTypo ==> d == Distance(word1, word2)
      ensures d <= maxTypo <==> Distance(word1, word2) <= maxTypo
    {
      var w1, w2 := |word1|, |word2|;
      if w1 - w2 > maxTypo || w2 - w1 > maxTypo {
        AtLeastLengthDifference(word1, word2);
        return maxTypo + 1;
      }
      var dp := new nat[w1 + 1, w2 + 1]((_, _) => 0);
      for i := 1 to w1 + 1
        invariant forall k :: 0 <= k < i ==> dp[k, 0] == k
        invariant forall k, l :: 0 <= k <= w1 && 0 < l <= w2 ==> dp[k, l] == 0
      {
        dp[i, 0] := i;
      }
      for j := 1 to w2 + 1
        invariant forall k :: 0 <= k <= w1 ==> dp[k, 0] == k
        invariant forall l :: 0 <= l < j ==> dp[0, l] == l
      {
        dp[0, j] := j;
      }
      for i := 1 to w1 + 1
        invariant forall l :: 0 <= l <= w2 ==> dp[0, l] == l
        invariant forall k :: 0 <= k <= w1 ==> dp[k, 0] == k
        invariant forall k, l :: 0 <= k < i && 0 <= l <= w2 ==> dp[k, l] == Cell(word1, k, word2, l)
      {
        for j := 1 to w2 + 1
          invariant forall l :: 0 <= l <= w2 ==> dp[0, l] == l
          invariant forall k :: 0 <= k <= w1 ==> dp[k, 0] == k
          invariant forall k, l :: 0 <= k < i && 0 <= l <= w2 ==> dp[k, l] == Cell(word1, k, word2, l)
          invariant forall l :: 0 <= l < j ==> dp[i, l] == Cell(word1, i, word2, l)
        {
          PrefixStep(word1, word2, i, j);
          if word1[i - 1] == word2[j - 1] {
            dp[i, j] := dp[i - 1, j - 1];
          } else {
            var insert, delete, replace := dp[i - 1, j], dp[i, j - 1], dp[i - 1, j - 1];
            dp[i, j] := Min(Min(delete, insert), replace) + 1;
          }
        }
      }
      assert word1[..w1] == word1 && word2[..w2] == word2;
      return dp[w1, w2];
    }

    /** The first candidate within the bound; the word itself when there is none. */
    ghost predicate Corrects(s1: string, candidates: seq<string>, r: string) {
      && ((forall c <- candidates :: Distance(s1, c) > maxTypo) ==> r == s1)
      && (forall i :: 0 <= i < |candidates| && Distance(s1, candidates[i]) <= maxTypo
            && (forall j :: 0 <= j < i ==> Distance(s1, candidates[j]) > maxTypo)
            ==> r == candidates[i])
    }

    /** If any candidate is within the bound, one of them is the first. */
    lemma {:induction false} FirstClose(s1: string, candidates: seq<string>, n: nat) returns (i: nat)
      requires n <= |candidates| && exists c <- candidates[..n] :: Distance(s1, c) <= maxTypo
      ensures i < n && Distance(s1, candidates[i]) <= maxTypo
      ensures forall j :: 0 <= j < i ==> Distance(s1, candidates[j]) > maxTypo
    {
      hide Distance;
      if exists c <- candidates[..n - 1] :: Distance(s1, c) <= maxTypo {
        i := FirstClose(s1, candidates, n - 1);
      } else {
        i := n - 1;
        assert forall j :: 0 <= j < i ==> candidates[j] == candidates[..n - 1][j];
      }
    }

    /** What a caller may rely on: the word itself or a candidate within the bound,
        and the latter whenever there is one. */
    lemma CorrectsWithinBound(s1: string, candidates: seq<string>, r: string)
      requires Corrects(s1, candidates, r)
      ensures r == s1 || (r in candidates && Distance(s1, r) <= maxTypo)
      ensures (exists c <- candidates :: Distance(s1, c) <= maxTypo) ==> r in candidates && Distance(s1, r) <= maxTypo
    {
      hide Distance;
      if exists c <- candidates :: Distance(s1, c) <= maxTypo {
        assert candidates[..|candidates|] == candidates;
        var i := FirstClose(s1, candidates, |candidates|);
      }
    }

    /** Goes through the candidates in order. */
    method BestReplacement(s1: string, candidates: seq<string>) returns (r: string)
      ensures Corrects(s1, candidates, r)
    {
      if |candidates| == 0 {
        return s1;
      }
      var st: seq<Scored> := [];
      for i := 0 to |candidates|
        invariant forall j :: 0 <= j < i ==> Distance(s1, candidates[j]) > maxTypo
        invariant i > 0 ==> st != []
        invariant forall k :: 0 <= k < |st| ==> st[k].score > maxTypo
      {
        var candidate := candidates[i];
        var distance := LevenshteinDistance(s1, candidate);
        if distance <= maxTypo {
          return candidate;
        }
        if |st| == 0 || distance <= st[|st| - 1].score {
          st := st + [Scored(candidate, distance)];
        }
      }
      var top := st[|st| - 1];
      return if top.score > maxTypo then s1 else top.s;
    }
  }
}
