/** The proximity feature: the narrowest stretch of a document that contains the query words in order. */
module Proximity {
  import opened EditDistance

  const MAX_INT := 0x7FFF_FFFF_FFFF_FFFF

  predicate Sorted(arr: seq<int>) {
    forall i, j :: 0 <= i < j < |arr| ==> arr[i] <= arr[j]
  }

  /** One position of each of the words `from` and up to `to`, each after the one before. */
  ghost predicate IsChain(positions: seq<seq<int>>, m: nat, c: seq<int>) {
    && |c| == m <= |positions|
    && (forall j :: 0 <= j < m ==> c[j] in positions[j])
    && (forall j :: 1 <= j < m ==> c[j - 1] < c[j])
  }

  function Span(c: seq<int>): int
    requires c != []
  {
    c[|c| - 1] - c[0]
  }

  /** Binary search: the number of positions not after the target. */
  method FirstAfter(arr: seq<int>, target: int) returns (l: nat)
    requires Sorted(arr)
    ensures l <= |arr|
    ensures forall i :: 0 <= i < l ==> arr[i] <= target
    ensures forall i :: l <= i < |arr| ==> arr[i] > target
  {
    l := 0;
    var r := |arr|;
    while l < r
      invariant 0 <= l <= r <= |arr|
      invariant forall i :: 0 <= i < l ==> arr[i] <= target
      invariant forall i :: r <= i < |arr| ==> arr[i] > target
    {
      var m := (l + r) / 2;
      if arr[m] <= target {
        l := m + 1;
      } else {
        r := m;
      }
    }
  }

  /** Following the earliest next position from a start gives the chain from that start that ends first. */
  ghost predicate Earliest(positions: seq<seq<int>>, m: nat, start: int, c: seq<int>) {
    && IsChain(positions, m, c) && m >= 1 && c[0] == start
    && forall d :: IsChain(positions, m, d) && d[0] == start ==> c[m - 1] <= d[m - 1]
  }

  lemma EarliestStep(positions: seq<seq<int>>, m: nat, start: int, c: seq<int>, next: int)
    requires m < |positions| && Earliest(positions, m, start, c)
    requires next in positions[m] && c[m - 1] < next
    requires forall p <- positions[m] :: p > c[m - 1] ==> next <= p
    ensures Earliest(positions, m + 1, start, c + [next])
  {
    forall d | IsChain(positions, m + 1, d) && d[0] == start
      ensures next <= d[m]
    {
      assert IsChain(positions, m, d[..m]);
    }
  }

  lemma NoLongerChain(positions: seq<seq<int>>, m: nat, start: int, c: seq<int>, n: nat, d: seq<int>)
    requires m < n && m < |positions| && Earliest(positions, m, start, c)
    requires forall p <- positions[m] :: p <= c[m - 1]
    requires IsChain(positions, n, d)
    ensures d[0] != start
  {
    assert d[m - 1] < d[m] && d[m] in positions[m];
    assert IsChain(positions, m, d[..m]);
  }

  lemma SpanBounded(positions: seq<seq<int>>, m: nat, c: seq<int>)
    requires m >= 1 && IsChain(positions, m, c)
    requires forall arr <- positions :: forall p <- arr :: 0 <= p < MAX_INT
    ensures Span(c) < MAX_INT && c[0] in positions[0]
  {
    assert c[0] in positions[0] && c[m - 1] in positions[m - 1];
    assert positions[0] in positions && positions[m - 1] in positions;
  }

  /** The least span over all chains of one position for each query word; MAX_INT when there is none. */
  method GetMinQueryDistInDoc(positions: seq<seq<int>>, lenQuery: int) returns (minDensity: int)
    requires |positions| >= 1 && lenQuery <= |positions|
    requires forall arr <- positions :: Sorted(arr)
    requires forall arr <- positions :: forall p <- arr :: 0 <= p < MAX_INT
    ensures lenQuery >= 1 ==> forall c :: IsChain(positions, lenQuery, c) ==> minDensity <= Span(c) < MAX_INT
    ensures lenQuery >= 1 && minDensity < MAX_INT ==>
              exists c :: IsChain(positions, lenQuery, c) && Span(c) == minDensity
    ensures lenQuery < 1 ==> minDensity == if positions[0] == [] then MAX_INT else 0
    ensures minDensity <= MAX_INT
  {
    ghost var m: nat := if lenQuery < 1 then 1 else lenQuery;
    minDensity := MAX_INT;
    for s := 0 to |positions[0]|
      invariant minDensity <= MAX_INT
      invariant forall c :: IsChain(positions, m, c) && c[0] in positions[0][..s] ==> minDensity <= Span(c)
      invariant minDensity < MAX_INT ==> exists c :: IsChain(positions, m, c) && Span(c) == minDensity
      invariant lenQuery < 1 ==> minDensity == if s == 0 then MAX_INT else 0
    {
      var cur := positions[0][s];
      var last := cur;
      var valid := true;
      ghost var c := [cur];
      var j := 1;
      while j < lenQuery
        invariant 1 <= j <= m
        invariant valid && Earliest(positions, j, cur, c) && last == c[j - 1] >= cur
      {
        var arr := positions[j];
        if |arr| == 0 {
          forall d
            ensures !IsChain(positions, m, d)
          {
            if |d| == m {
              var p := d[j];
              assert p !in positions[j];
            }
          }
          return;
        }
        var position := FirstAfter(arr, last);
        if position >= |arr| {
          forall d | IsChain(positions, m, d)
            ensures d[0] != cur
          {
            NoLongerChain(positions, j, cur, c, m, d);
          }
          valid := false;
          break;
        }
        EarliestStep(positions, j, cur, c, arr[position]);
        c := c + [arr[position]];
        last := arr[position];
        j := j + 1;
      }
      assert positions[0][..s + 1] == positions[0][..s] + [cur];
      if !valid || last - cur < 0 {
        continue;
      }
      assert Span(c) == last - cur;
      minDensity := Min(minDensity, last - cur);
    }
    forall d | IsChain(positions, m, d)
      ensures minDensity <= Span(d) < MAX_INT
    {
      SpanBounded(positions, m, d);
      assert positions[0][..|positions[0]|] == positions[0];
    }
  }
}
