/** The edit distance computed by the spelling corrector, and what it means:
    the length of the shortest script of single-rune insertions, deletions
    and replacements. */
module EditDistance {

  /** One edit, at any position of the word it is applied to. */
  datatype Edit = Insert(at: nat, c: char) | Delete(at: nat) | Replace(at: nat, c: char) {
    predicate Applicable(w: string) {
      if Insert? then at <= |w| else at < |w|
    }

    function Apply(w: string): string
      requires Applicable(w)
    {
      match this
      case Insert(i, c) => w[..i] + [c] + w[i..]
      case Delete(i) => w[..i] + w[i + 1..]
      case Replace(i, c) => w[..i] + [c] + w[i + 1..]
    }
  }

  /** Applying the edits of `script` one after the other turns `a` into `b`. */
  predicate Transforms(a: string, script: seq<Edit>, b: string)
    decreases |script|
  {
    if script == [] then a == b
    else script[0].Applicable(a) && Transforms(script[0].Apply(a), script[1..], b)
  }

  function Min(x: int, y: int): int {
    if x <= y then x else y
  }

  function Front(s: string): string
    requires s != []
  {
    s[..|s| - 1]
  }

  function Last(s: string): char
    requires s != []
  {
    s[|s| - 1]
  }

  /** The recurrence of the table. The equal-rune case looks at the diagonal only. */
  function Distance(a: string, b: string): nat
    decreases |a| + |b|
  {
    if a == [] then |b|
    else if b == [] then |a|
    else if Last(a) == Last(b) then Distance(Front(a), Front(b))
    else 1 + Min(Min(Distance(a, Front(b)), Distance(Front(a), b)), Distance(Front(a), Front(b)))
  }

  /** The distance of two prefixes: one cell of the table. */
  function Cell(a: string, i: nat, b: string, j: nat): nat
    requires i <= |a| && j <= |b|
  {
    Distance(a[..i], b[..j])
  }

  /** The recurrence, read on the cells. */
  lemma PrefixStep(a: string, b: string, i: nat, j: nat)
    requires 0 < i <= |a| && 0 < j <= |b|
    ensures Cell(a, i, b, j) ==
            if a[i - 1] == b[j - 1] then Cell(a, i - 1, b, j - 1)
            else 1 + Min(Min(Cell(a, i, b, j - 1), Cell(a, i - 1, b, j)), Cell(a, i - 1, b, j - 1))
  {
    assert Front(a[..i]) == a[..i - 1] && Front(b[..j]) == b[..j - 1];
  }

  lemma {:induction false} Symmetric(a: string, b: string)
    ensures Distance(a, b) == Distance(b, a)
    decreases |a| + |b|
  {
    if a != [] && b != [] {
      Symmetric(Front(a), Front(b));
      Symmetric(a, Front(b));
      Symmetric(Front(a), b);
    }
  }

  lemma EmptyWord(a: string)
    ensures Distance(a, "") == |a| == Distance("", a)
  {
  }

  /** The recurrence for two words with their last runes split off. */
  lemma LastRunes(x: string, c: char, y: string, d: char)
    ensures Distance(x + [c], y + [d]) ==
            if c == d then Distance(x, y)
            else 1 + Min(Min(Distance(x + [c], y), Distance(x, y + [d])), Distance(x, y))
  {
    assert Front(x + [c]) == x && Front(y + [d]) == y;
  }

  /** Lengthening one word by one rune moves the distance by at most one. */
  lemma {:induction false} AppendMovesByOne(x: string, c: char, b: string)
    ensures Distance(x, b) - 1 <= Distance(x + [c], b) <= Distance(x, b) + 1
    decreases |x| + |b|
  {
    var xc := x + [c];
    assert Front(xc) == x && Last(xc) == c;
    if b != [] {
      var y, d := Front(b), Last(b);
      assert b == y + [d];
      // The same statement with the roles of the words exchanged.
      AppendMovesByOne(y, d, x);
      Symmetric(x, y);
      Symmetric(x, b);
      if c != d {
        AppendMovesByOne(x, c, y);
      }
    }
  }

  lemma {:induction false} ReplaceLastMovesByOne(x: string, c: char, e: char, b: string)
    ensures Distance(x + [c], b) <= 1 + Distance(x + [e], b)
    decreases |b|
  {
    var xc, xe := x + [c], x + [e];
    assert Front(xc) == x && Last(xc) == c && Front(xe) == x && Last(xe) == e;
    if b != [] {
      var y, d := Front(b), Last(b);
      assert b == y + [d];
      AppendMovesByOne(x, c, b);
      if d != e {
        ReplaceLastMovesByOne(x, c, e, y);
        AppendMovesByOne(y, d, xc);
        Symmetric(xc, y);
        Symmetric(xc, b);
      }
    }
  }

  lemma EditAtEndMovesByOne(a: string, e: Edit, b: string)
    requires e.Applicable(a) && (e.at == |a| || (e.at == |a| - 1 && !e.Insert?))
    ensures Distance(a, b) <= 1 + Distance(e.Apply(a), b)
  {
    hide Distance;
    var a' := e.Apply(a);
    if e.at == |a| {
      assert a' == a + [e.c];
      AppendMovesByOne(a, e.c, b);
    } else {
      assert a == Front(a) + [Last(a)];
      if e.Delete? {
        assert a' == Front(a);
        AppendMovesByOne(Front(a), Last(a), b);
      } else {
        assert a' == Front(a) + [e.c];
        ReplaceLastMovesByOne(Front(a), Last(a), e.c, b);
      }
    }
  }

  /** An edit before the last rune is an edit of what precedes it. */
  lemma EditBeforeLast(x: string, c: char, e: Edit)
    requires e.Applicable(x)
    ensures e.Applicable(x + [c]) && e.Apply(x + [c]) == e.Apply(x) + [c]
  {
    var i, w := e.at, x + [c];
    assert w[..i] == x[..i] && w[i..] == x[i..] + [c];
    if !e.Insert? {
      assert w[i + 1..] == x[i + 1..] + [c];
    }
  }

  /** A single edit lowers the distance to any word by at most one. */
  lemma {:induction false} EditLowersByOne(a: string, e: Edit, b: string)
    requires e.Applicable(a)
    ensures Distance(a, b) <= 1 + Distance(e.Apply(a), b)
    decreases |a| + |b|
  {
    hide Distance, Edit.Apply;
    if e.at == |a| || (e.at == |a| - 1 && !e.Insert?) {
      EditAtEndMovesByOne(a, e, b);
    } else {
      var x, c := Front(a), Last(a);
      assert a == x + [c];
      EditBeforeLast(x, c, e);
      if b == [] {
        EmptyWord(a);
        EmptyWord(e.Apply(a));
        EditedLength(a, e);
      } else {
        var y, d := Front(b), Last(b);
        assert b == y + [d];
        EditLowersByOne(x, e, y);
        EditLowersByOne(x, e, b);
        EditLowersByOne(a, e, y);
        LastRunes(x, c, y, d);
        LastRunes(e.Apply(x), c, y, d);
      }
    }
  }

  lemma EditedLength(a: string, e: Edit)
    requires e.Applicable(a)
    ensures |a| - 1 <= |e.Apply(a)| <= |a| + 1
  {
  }

  /** Every edit is undone by an edit. */
  lemma Undone(a: string, e: Edit) returns (e': Edit)
    requires e.Applicable(a)
    ensures e'.Applicable(e.Apply(a)) && e'.Apply(e.Apply(a)) == a
  {
    e' := match e
      case Insert(i, _) => Delete(i)
      case Delete(i) => Insert(i, a[i])
      case Replace(i, _) => Replace(i, a[i]);
  }

  /** A single edit moves the distance to any word by at most one, up or down. */
  lemma EditMovesByOne(a: string, e: Edit, b: string)
    requires e.Applicable(a)
    ensures Distance(a, b) - 1 <= Distance(e.Apply(a), b) <= Distance(a, b) + 1
  {
    hide Distance, Edit.Apply;
    EditLowersByOne(a, e, b);
    var e' := Undone(a, e);
    EditLowersByOne(e.Apply(a), e', b);
  }

  lemma {:induction false} DistanceToSelf(a: string)
    ensures Distance(a, a) == 0
  {
    if a != [] {
      DistanceToSelf(Front(a));
    }
  }

  /** No script is shorter than the distance. */
  lemma {:induction false} NoShorterScript(a: string, script: seq<Edit>, b: string)
    requires Transforms(a, script, b)
    ensures Distance(a, b) <= |script|
    decreases |script|
  {
    if script == [] {
      DistanceToSelf(a);
    } else {
      NoShorterScript(script[0].Apply(a), script[1..], b);
      EditMovesByOne(a, script[0], b);
    }
  }

  /** A script can be carried out in front of a common last rune. */
  lemma {:induction false} TransformsBefore(a: string, script: seq<Edit>, b: string, c: char)
    requires Transforms(a, script, b)
    ensures Transforms(a + [c], script, b + [c])
    decreases |script|
  {
    if script != [] {
      hide Edit.Apply;
      var e := script[0];
      EditBeforeLast(a, c, e);
      TransformsBefore(e.Apply(a), script[1..], b, c);
    }
  }

  /** Carrying out one edit first. */
  lemma TransformsAfter(a: string, e: Edit, script: seq<Edit>, b: string)
    requires e.Applicable(a) && Transforms(e.Apply(a), script, b)
    ensures Transforms(a, [e] + script, b)
  {
    assert ([e] + script)[1..] == script;
  }

  lemma InsertLast(a: string, rest: seq<Edit>, y: string, d: char)
    requires Transforms(a, rest, y)
    ensures Transforms(a, [Insert(|a|, d)] + rest, y + [d])
  {
    TransformsBefore(a, rest, y, d);
    assert Insert(|a|, d).Apply(a) == a + [d];
    TransformsAfter(a, Insert(|a|, d), rest, y + [d]);
  }

  lemma DeleteLast(x: string, c: char, rest: seq<Edit>, b: string)
    requires Transforms(x, rest, b)
    ensures Transforms(x + [c], [Delete(|x|)] + rest, b)
  {
    assert Delete(|x|).Apply(x + [c]) == x;
    TransformsAfter(x + [c], Delete(|x|), rest, b);
  }

  lemma ReplaceLast(x: string, c: char, rest: seq<Edit>, y: string, d: char)
    requires Transforms(x, rest, y)
    ensures Transforms(x + [c], [Replace(|x|, d)] + rest, y + [d])
  {
    TransformsBefore(x, rest, y, d);
    assert Replace(|x|, d).Apply(x + [c]) == x + [d];
    TransformsAfter(x + [c], Replace(|x|, d), rest, y + [d]);
  }

  /** The distance is attained: the script whose length is the distance. */
  lemma {:induction false} ShortestScript(a: string, b: string) returns (script: seq<Edit>)
    ensures Transforms(a, script, b)
    ensures |script| == Distance(a, b)
    decreases |a| + |b|
  {
    hide Distance, Transforms;
    if a == [] && b == [] {
      script := [];
      NothingToDo(a);
    } else if a == [] || b == [] {
      EmptyWord(if a == [] then b else a);
      if a == [] {
        EmptyWord(Front(b));
        var rest := ShortestScript(a, Front(b));
        assert b == Front(b) + [Last(b)];
        InsertLast(a, rest, Front(b), Last(b));
        script := [Insert(0, Last(b))] + rest;
      } else {
        EmptyWord(Front(a));
        var rest := ShortestScript(Front(a), b);
        assert a == Front(a) + [Last(a)];
        DeleteLast(Front(a), Last(a), rest, b);
        script := [Delete(|a| - 1)] + rest;
      }
    } else {
      var x, c, y, d := Front(a), Last(a), Front(b), Last(b);
      assert a == x + [c] && b == y + [d];
      LastRunes(x, c, y, d);
      if c == d {
        script := ShortestScript(x, y);
        TransformsBefore(x, script, y, d);
      } else if Distance(a, b) == 1 + Distance(a, y) {
        var rest := ShortestScript(a, y);
        InsertLast(a, rest, y, d);
        script := [Insert(|a|, d)] + rest;
      } else if Distance(a, b) == 1 + Distance(x, b) {
        var rest := ShortestScript(x, b);
        DeleteLast(x, c, rest, b);
        script := [Delete(|x|)] + rest;
      } else {
        var rest := ShortestScript(x, y);
        ReplaceLast(x, c, rest, y, d);
        script := [Replace(|x|, d)] + rest;
      }
    }
  }

  lemma NothingToDo(a: string)
    ensures Transforms(a, [], a) && Distance(a, a) == 0
  {
    DistanceToSelf(a);
  }

  /** The distance is at most `k` exactly when some script of at most `k` edits exists. */
  lemma WithinIffScript(a: string, b: string, k: nat)
    ensures Distance(a, b) <= k <==> exists script :: |script| <= k && Transforms(a, script, b)
  {
    if Distance(a, b) <= k {
      var script := ShortestScript(a, b);
    }
    forall script | |script| <= k && Transforms(a, script, b)
      ensures Distance(a, b) <= k
    {
      NoShorterScript(a, script, b);
    }
  }

  /** The distance is at least the difference of the lengths: the cut-off is safe. */
  lemma {:induction false} AtLeastLengthDifference(a: string, b: string)
    ensures |a| - |b| <= Distance(a, b) && |b| - |a| <= Distance(a, b)
    decreases |a| + |b|
  {
    if a != [] && b != [] {
      AtLeastLengthDifference(Front(a), Front(b));
      AtLeastLengthDifference(a, Front(b));
      AtLeastLengthDifference(Front(a), b);
    }
  }

  /** Each rune replaced by its image. */
  function Map(f: char -> char, s: string): (r: string)
    ensures |r| == |s| && forall i :: 0 <= i < |s| ==> r[i] == f(s[i])
  {
    seq(|s|, i requires 0 <= i < |s| => f(s[i]))
  }

  lemma MapLast(f: char -> char, x: string, c: char)
    ensures Map(f, x + [c]) == Map(f, x) + [f(c)]
  {
  }

  /** The diagonal is no worse than the three neighbours. */
  lemma DiagonalIsLeast(x: string, c: char, y: string, d: char)
    ensures Distance(x, y) <= 1 + Distance(x + [c], y) && Distance(x, y) <= 1 + Distance(x, y + [d])
  {
    hide Distance;
    AppendMovesByOne(x, c, y);
    AppendMovesByOne(y, d, x);
    Symmetric(x, y);
    Symmetric(x, y + [d]);
  }

  /** Mapping runes (lower-casing) never moves two words apart. */
  lemma {:induction false} MapContracts(f: char -> char, a: string, b: string)
    ensures Distance(Map(f, a), Map(f, b)) <= Distance(a, b)
    decreases |a| + |b|
  {
    hide Distance, Map;
    if a == [] || b == [] {
      EmptyWord(if a == [] then b else a);
      EmptyWord(Map(f, if a == [] then b else a));
      assert Map(f, if a == [] then a else b) == [];
    } else {
      var x, c, y, d := Front(a), Last(a), Front(b), Last(b);
      assert a == x + [c] && b == y + [d];
      MapLast(f, x, c);
      MapLast(f, y, d);
      MapContracts(f, x, y);
      MapContracts(f, a, y);
      MapContracts(f, x, b);
      LastRunes(x, c, y, d);
      LastRunes(Map(f, x), f(c), Map(f, y), f(d));
      DiagonalIsLeast(Map(f, x), f(c), Map(f, y), f(d));
    }
  }
}
