/** The positions of a document's lemmas: how they are recorded, and that none is lost. */
module Positions {
  import opened Store

  /** A kept lemma and the type of the passage it stands in. */
  type Lemma = (string, char)

  /** The positions at which a word stands. */
  function Occurrences(kept: seq<Lemma>, w: string): seq<Position> {
    if kept == [] then []
    else
      var n := |kept| - 1;
      Occurrences(kept[..n], w) + if kept[n].0 == w then [Position(n, kept[n].1)] else []
  }

  predicate Occurs(kept: seq<Lemma>, w: string) {
    exists i :: 0 <= i < |kept| && kept[i].0 == w
  }

  /** The two maps record every kept lemma so far. */
  ghost predicate Recorded(kept: seq<Lemma>, stem: map<string, nat>, pos: map<string, seq<Position>>) {
    && (forall w :: w in stem <==> Occurs(kept, w))
    && (forall w :: w in pos <==> Occurs(kept, w))
    && (forall w :: w in stem ==> stem[w] == |Occurrences(kept, w)|)
    && (forall w :: w in pos ==> pos[w] == Occurrences(kept, w))
  }

  lemma OccurrencesStep(kept: seq<Lemma>, k: Lemma, w: string)
    ensures Occurrences(kept + [k], w) ==
            if k.0 == w then Occurrences(kept, w) + [Position(|kept|, k.1)] else Occurrences(kept, w)
    ensures Occurs(kept + [k], w) <==> k.0 == w || Occurs(kept, w)
  {
    assert (kept + [k])[..|kept|] == kept;
    if Occurs(kept, w) {
      var i :| 0 <= i < |kept| && kept[i].0 == w;
      assert (kept + [k])[i].0 == w;
    }
    if k.0 == w {
      assert (kept + [k])[|kept|].0 == w;
    }
  }

  lemma {:induction false} AbsentHasNone(kept: seq<Lemma>, w: string)
    requires !Occurs(kept, w)
    ensures Occurrences(kept, w) == []
  {
    if kept != [] {
      var front := kept[..|kept| - 1];
      assert forall i :: 0 <= i < |front| ==> front[i] == kept[i];
      AbsentHasNone(front, w);
    }
  }

  /** Records one more lemma. */
  method Record(ghost kept: seq<Lemma>, k: Lemma, i: nat, stem: map<string, nat>, pos: map<string, seq<Position>>)
    returns (stem': map<string, nat>, pos': map<string, seq<Position>>)
    requires Recorded(kept, stem, pos) && i == |kept|
    ensures Recorded(kept + [k], stem', pos')
  {
    hide Occurrences, Occurs;
    var w := k.0;
    stem' := stem[w := (if w in stem then stem[w] else 0) + 1];
    pos' := pos[w := (if w in pos then pos[w] else []) + [Position(i, k.1)]];
    if !Occurs(kept, w) {
      AbsentHasNone(kept, w);
    }
    forall v
      ensures Occurrences(kept + [k], v) ==
              if w == v then Occurrences(kept, v) + [Position(i, k.1)] else Occurrences(kept, v)
      ensures Occurs(kept + [k], v) <==> w == v || Occurs(kept, v)
    {
      OccurrencesStep(kept, k, v);
    }
  }

  ghost predicate Increasing(ps: seq<Position>) {
    forall i, j :: 0 <= i < j < |ps| ==> ps[i].i < ps[j].i
  }

  /** The positions of a word strictly increase and are exactly the places where it stands, each with
      the type of its passage. This is the order the proximity search relies on. */
  lemma {:induction false} OccurrencesExact(kept: seq<Lemma>, w: string)
    ensures Increasing(Occurrences(kept, w))
    ensures forall p :: p in Occurrences(kept, w) <==> p.i < |kept| && kept[p.i] == (w, p.kind)
  {
    if kept != [] {
      hide Occurrences;
      var front, last := kept[..|kept| - 1], kept[|kept| - 1];
      assert kept == front + [last];
      OccurrencesExact(front, w);
      OccurrencesStep(front, last, w);
      OneMorePlace(front, last, w, Occurrences(front, w));
    }
  }

  /** The places of a word, exactly and in order. */
  ghost predicate Places(kept: seq<Lemma>, w: string, ps: seq<Position>) {
    Increasing(ps) && forall p :: p in ps <==> p.i < |kept| && kept[p.i] == (w, p.kind)
  }

  lemma OneMorePlace(kept: seq<Lemma>, k: Lemma, w: string, ps: seq<Position>)
    requires Places(kept, w, ps)
    ensures Places(kept + [k], w, if k.0 == w then ps + [Position(|kept|, k.1)] else ps)
  {
    var last := Position(|kept|, k.1);
    var ps' := if k.0 == w then ps + [last] else ps;
    forall i, j | 0 <= i < j < |ps'|
      ensures ps'[i].i < ps'[j].i
    {
      assert ps[i] in ps;
    }
    forall p
      ensures p in ps' <==> p.i < |kept| + 1 && (kept + [k])[p.i] == (w, p.kind)
    {
      assert p in ps' <==> p in ps || (k.0 == w && p == last);
    }
  }

  /** Every position belongs to exactly one word, and there to one entry. */
  lemma PositionsPartition(kept: seq<Lemma>, i: nat, w: string)
    requires i < |kept|
    ensures (exists p :: p in Occurrences(kept, w) && p.i == i) <==> w == kept[i].0
    ensures var ps := Occurrences(kept, w);
            forall j, k :: 0 <= j < k < |ps| ==> ps[j].i != ps[k].i
  {
    OccurrencesExact(kept, w);
    if w == kept[i].0 {
      assert Position(i, kept[i].1) in Occurrences(kept, w);
    }
  }

  /** The counts of a list of words, added up. */
  function CountSum(kept: seq<Lemma>, ws: seq<string>): nat {
    if ws == [] then 0 else CountSum(kept, ws[..|ws| - 1]) + |Occurrences(kept, ws[|ws| - 1])|
  }

  lemma {:induction false} CountSumStep(kept: seq<Lemma>, k: Lemma, ws: seq<string>)
    requires forall i, j :: 0 <= i < j < |ws| ==> ws[i] != ws[j]
    ensures CountSum(kept + [k], ws) == CountSum(kept, ws) + if k.0 in ws then 1 else 0
    decreases |ws|
  {
    if ws != [] {
      var front, last := ws[..|ws| - 1], ws[|ws| - 1];
      CountSumStep(kept, k, front);
      OccurrencesStep(kept, k, last);
      assert ws == front + [last];
      assert last !in front;
    }
  }

  lemma {:induction false} CountSumEmpty(ws: seq<string>)
    ensures CountSum([], ws) == 0
  {
    if ws != [] {
      CountSumEmpty(ws[..|ws| - 1]);
    }
  }

  /** Listing every word once, in any order, the counts add up to the document's word count. */
  lemma {:induction false} CountsAddUp(kept: seq<Lemma>, ws: seq<string>)
    requires forall i, j :: 0 <= i < j < |ws| ==> ws[i] != ws[j]
    requires forall i :: 0 <= i < |kept| ==> kept[i].0 in ws
    ensures CountSum(kept, ws) == |kept|
    decreases |kept|
  {
    if kept == [] {
      CountSumEmpty(ws);
    } else {
      var front, last := kept[..|kept| - 1], kept[|kept| - 1];
      assert kept == front + [last];
      CountsAddUp(front, ws);
      CountSumStep(front, last, ws);
    }
  }
}
