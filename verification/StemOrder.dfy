/** What the order in which the program walks its rule maps does to a stem: exactly which steps have one
    outcome, and exactly which words have one stem. */
module StemOrder {
  import opened EditDistance
  import opened Stemmer
  import opened Tokenizer

  /** The outcome of a step does not depend on the order of its rules. */
  ghost predicate Determined(rules: map<string, string>, min: int, w: string) {
    forall a, b :: StepTo(rules, min, w, a) && StepTo(rules, min, w, b) ==> a == b
  }

  // ----- suffixes and measures

  lemma LongerMeasures(x: string, y: string)
    ensures MeasureOf(x) <= MeasureOf(x + y)
  {
    var w := x + y;
    var a, b := VowelEnds(x, |x|), VowelEnds(w, |w|);
    assert forall i :: 0 <= i < |x| ==> w[i] == x[i];
    assert b == a + (b - a);
  }

  /** A vowel and a consonant more. */
  lemma VowelEndMeasures(x: string, v: char, c: char)
    requires IsVowel(v) && !IsVowel(c)
    ensures MeasureOf(x) + 1 <= MeasureOf(x + [v, c])
  {
    var w := x + [v, c];
    var a, b := VowelEnds(x, |x|), VowelEnds(w, |w|);
    assert forall i :: 0 <= i < |x| ==> w[i] == x[i];
    assert VowelEndsAt(w, |x| + 1);
    assert b == a + {|x| + 1} + (b - a - {|x| + 1});
  }

  /** Two suffixes of a word agree from the end on. */
  lemma SameEnd(w: string, s: string, t: string, i: nat)
    requires HasSuffix(w, s) && HasSuffix(w, t) && i < |s| && i < |t|
    ensures s[|s| - 1 - i] == t[|t| - 1 - i]
  {
    assert w[|w| - |s|..][|s| - 1 - i] == w[|w| - 1 - i];
    assert w[|w| - |t|..][|t| - 1 - i] == w[|w| - 1 - i];
  }

  /** When a rule may fire, so may a rule for a suffix of its suffix. */
  lemma ShorterApplies(w: string, t: string, s: string, min: int)
    requires Applies(w, t, min) && HasSuffix(t, s)
    ensures Applies(w, s, min)
    ensures TrimSuffix(w, s) == TrimSuffix(w, t) + TrimSuffix(t, s)
  {
    var x := TrimSuffix(w, t);
    assert w == x + t && t == TrimSuffix(t, s) + s;
    assert w[|w| - |s|..] == s;
    assert TrimSuffix(w, s) == x + TrimSuffix(t, s);
    LongerMeasures(x, TrimSuffix(t, s));
  }

  // ----- when a step has one outcome

  lemma Uses(rules: map<string, string>, min: int, w: string, s: string)
    requires s in rules && Applies(w, s, min)
    ensures StepTo(rules, min, w, TrimSuffix(w, s) + rules[s])
  {
  }

  /** Two rules that may both fire, with results of different lengths. */
  lemma TwoOutcomes(rules: map<string, string>, min: int, w: string, s: string, t: string)
    requires s in rules && t in rules && Applies(w, s, min) && Applies(w, t, min)
    requires |rules[s]| - |s| != |rules[t]| - |t|
    ensures !Determined(rules, min, w)
  {
    hide StepTo;
    Uses(rules, min, w, s);
    Uses(rules, min, w, t);
    assert |TrimSuffix(w, s) + rules[s]| != |TrimSuffix(w, t) + rules[t]|;
  }

  /** No two rules may both fire. */
  ghost predicate Alone(rules: map<string, string>, min: int, w: string) {
    forall s, t :: s in rules && t in rules && Applies(w, s, min) && Applies(w, t, min) && |s| <= |t| ==> s == t
  }

  lemma AloneIsDetermined(rules: map<string, string>, min: int, w: string)
    requires Alone(rules, min, w)
    ensures Determined(rules, min, w)
  {
    hide Applies;
    if s :| s in rules && Applies(w, s, min) {
      forall a | StepTo(rules, min, w, a)
        ensures a == TrimSuffix(w, s) + rules[s]
      {
        var t :| t in rules && Applies(w, t, min) && a == TrimSuffix(w, t) + rules[t];
        assert s == t by { assert |s| <= |t| || |t| <= |s|; }
      }
    }
  }

  lemma SameLength(w: string, s: string, t: string)
    requires HasSuffix(w, s) && HasSuffix(w, t) && |s| == |t|
    ensures s == t
  {
  }

  lemma Nested1A(w: string, s: string, t: string)
    requires s in STEP1A && t in STEP1A && HasSuffix(w, s) && HasSuffix(w, t) && |s| <= |t|
    ensures s == t || t in {"ss", "ies", "sses"}
  {
  }

  lemma Nested1B(w: string, s: string, t: string)
    requires s in STEP1B && t in STEP1B && HasSuffix(w, s) && HasSuffix(w, t) && |s| <= |t|
    ensures s == t || t == "eed"
  {
    hide HasSuffix;
    SameEnd(w, s, t, 0);
  }

  lemma Nested2(w: string, s: string, t: string, min: int)
    requires s in STEP2 && t in STEP2 && Applies(w, s, min) && Applies(w, t, min) && |s| <= |t|
    ensures s == t || t in {"ational", "ization"}
  {
    hide STEP2;
    if |s| == |t| {
      SameLength(w, s, t);
    } else {
      Inside2(w, s, t);
    }
  }

  lemma Inside2(w: string, s: string, t: string)
    requires s in STEP2 && t in STEP2 && HasSuffix(w, s) && HasSuffix(w, t) && |s| < |t|
    ensures t in {"ational", "ization"}
  {
    hide HasSuffix;
    SameEnd(w, s, t, 0);
    SameEnd(w, s, t, 1);
    SameEnd(w, s, t, 2);
    if |s| > 3 {
      SameEnd(w, s, t, 3);
    }
    if |s| > 4 {
      SameEnd(w, s, t, 4);
    }
  }

  lemma Nested3(w: string, s: string, t: string)
    requires s in STEP3 && t in STEP3 && HasSuffix(w, s) && HasSuffix(w, t) && |s| <= |t|
    ensures s == t
  {
    hide HasSuffix;
    SameEnd(w, s, t, 0);
    SameEnd(w, s, t, 1);
    SameEnd(w, s, t, 2);
    if |s| > 3 {
      SameEnd(w, s, t, 3);
    }
  }

  lemma Nested4(w: string, s: string, t: string, min: int)
    requires s in STEP4 && t in STEP4 && Applies(w, s, min) && Applies(w, t, min) && |s| <= |t|
    ensures s == t || Applies(w, "ment", min)
  {
    hide STEP4;
    if |s| == |t| {
      SameLength(w, s, t);
    } else {
      Inside4(w, s, t);
      if t == "ement" {
        MentEnds();
        ShorterApplies(w, "ement", "ment", min);
      }
    }
  }

  lemma Inside4(w: string, s: string, t: string)
    requires s in STEP4 && t in STEP4 && HasSuffix(w, s) && HasSuffix(w, t) && |s| < |t|
    ensures t in {"ement", "ment"}
  {
    hide HasSuffix;
    SameEnd(w, s, t, 0);
    SameEnd(w, s, t, 1);
    if |s| > 2 {
      SameEnd(w, s, t, 2);
    }
  }

  lemma EndsInS(t: string)
    requires t in {"ss", "ies", "sses"}
    ensures HasSuffix(t, "s")
    ensures t in STEP1A && STEP1A[t] == (if t == "ies" then "i" else "ss")
    ensures "s" in STEP1A && STEP1A["s"] == ""
  {
  }

  lemma PluralOverlaps(w: string, t: string)
    requires t in {"ss", "ies", "sses"} && HasSuffix(w, t)
    ensures !Determined(STEP1A, -1, w)
  {
    hide HasSuffix, TrimSuffix, Determined, STEP1A;
    EndsInS(t);
    ShorterApplies(w, t, "s", -1);
    TwoOutcomes(STEP1A, -1, w, t, "s");
  }

  /** The first step gives the same result in every order exactly for words that do not end,
      properly, in "ss", "ies" or "sses". */
  lemma FirstStepDetermined(w: string)
    ensures Determined(STEP1A, -1, w) <==> !HasSuffix(w, "ss") && !HasSuffix(w, "ies") && !HasSuffix(w, "sses")
  {
    hide StepTo, HasSuffix, Determined, STEP1A;
    if t :| t in {"ss", "ies", "sses"} && HasSuffix(w, t) {
      PluralOverlaps(w, t);
    } else {
      forall s, t | s in STEP1A && t in STEP1A && Applies(w, s, -1) && Applies(w, t, -1) && |s| <= |t|
        ensures s == t
      {
        Nested1A(w, s, t);
      }
      AloneIsDetermined(STEP1A, -1, w);
    }
  }

  /** The step for "eed", "ed" and "ing" is determined exactly when "eed" may not be replaced. */
  lemma SecondStepDetermined(w: string)
    ensures Determined(STEP1B, 0, w) <==> !Applies(w, "eed", 0)
  {
    hide StepTo, HasSuffix, Determined;
    if Applies(w, "eed", 0) {
      assert HasSuffix("eed", "ed") by { EedEnds(); }
      ShorterApplies(w, "eed", "ed", 0);
      TwoOutcomes(STEP1B, 0, w, "eed", "ed");
    } else {
      forall s, t | s in STEP1B && t in STEP1B && Applies(w, s, 0) && Applies(w, t, 0) && |s| <= |t|
        ensures s == t
      {
        Nested1B(w, s, t);
      }
      AloneIsDetermined(STEP1B, 0, w);
    }
  }

  lemma EedEnds()
    ensures HasSuffix("eed", "ed") && TrimSuffix("eed", "ed") == "e"
  {
  }

  lemma AtionRules()
    ensures forall s :: s in {"ational", "tional", "ization", "ation"} ==> s in STEP2
    ensures |STEP2["ational"]| == |STEP2["ization"]| == |STEP2["ation"]| == 3 && |STEP2["tional"]| == 4
  {
  }

  lemma AtionOverlaps(w: string, t: string, s: string)
    requires (t == "ational" && s == "tional") || (t == "ization" && s == "ation")
    requires Applies(w, t, 0)
    ensures !Determined(STEP2, 0, w)
  {
    hide Applies, Determined, HasSuffix, TrimSuffix, STEP2;
    AtionEnds();
    AtionRules();
    ShorterApplies(w, t, s, 0);
    TwoOutcomes(STEP2, 0, w, t, s);
  }

  /** The long second step is determined exactly when neither "ational" nor "ization" may be replaced. */
  lemma ThirdStepDetermined(w: string)
    ensures Determined(STEP2, 0, w) <==> !Applies(w, "ational", 0) && !Applies(w, "ization", 0)
  {
    hide StepTo, Applies, Determined, STEP2;
    if Applies(w, "ational", 0) {
      AtionOverlaps(w, "ational", "tional");
    } else if Applies(w, "ization", 0) {
      AtionOverlaps(w, "ization", "ation");
    } else {
      forall s, t | s in STEP2 && t in STEP2 && Applies(w, s, 0) && Applies(w, t, 0) && |s| <= |t|
        ensures s == t
      {
        Nested2(w, s, t, 0);
      }
      AloneIsDetermined(STEP2, 0, w);
    }
  }

  lemma AtionEnds()
    ensures HasSuffix("ational", "tional") && TrimSuffix("ational", "tional") == "a"
    ensures HasSuffix("ization", "ation") && TrimSuffix("ization", "ation") == "iz"
  {
  }

  /** The third step is always determined. */
  lemma FourthStepDetermined(w: string)
    ensures Determined(STEP3, 0, w)
  {
    hide StepTo, HasSuffix, Determined;
    forall s, t | s in STEP3 && t in STEP3 && Applies(w, s, 0) && Applies(w, t, 0) && |s| <= |t|
      ensures s == t
    {
      Nested3(w, s, t);
    }
    AloneIsDetermined(STEP3, 0, w);
  }

  lemma MentOverlaps(w: string)
    requires Applies(w, "ment", 1)
    ensures !Determined(STEP4, 1, w)
  {
    hide Applies, Determined;
    MentEnds();
    ShorterApplies(w, "ment", "ent", 1);
    TwoOutcomes(STEP4, 1, w, "ment", "ent");
  }

  /** The last step is determined exactly when "ment" may not be taken off. */
  lemma LastStepDetermined(w: string)
    ensures Determined(STEP4, 1, w) <==> !Applies(w, "ment", 1)
  {
    hide StepTo, Applies, Determined, STEP4;
    if Applies(w, "ment", 1) {
      MentOverlaps(w);
    } else {
      forall s, t | s in STEP4 && t in STEP4 && Applies(w, s, 1) && Applies(w, t, 1) && |s| <= |t|
        ensures s == t
      {
        Nested4(w, s, t, 1);
      }
      AloneIsDetermined(STEP4, 1, w);
    }
  }

  lemma MentEnds()
    ensures HasSuffix("ment", "ent") && HasSuffix("ement", "ment") && TrimSuffix("ment", "ent") == "m"
  {
  }

  // ----- the steps one after the other

  function RulesOf(i: nat): map<string, string>
    requires i < 5
  {
    match i
    case 0 => STEP1A
    case 1 => STEP1B
    case 2 => STEP2
    case 3 => STEP3
    case _ => STEP4
  }

  function MinOf(i: nat): int
    requires i < 5
  {
    match i
    case 0 => -1
    case 4 => 1
    case _ => 0
  }

  ghost predicate Step(i: nat, w: string, w': string)
    requires i < 5
  {
    StepTo(RulesOf(i), MinOf(i), w, w')
  }

  /** The steps from number `i` on may turn `w` into `r`. */
  ghost predicate RunTo(i: nat, w: string, r: string)
    requires i <= 5
    decreases 5 - i
  {
    if i == 5 then r == w else exists w' :: Step(i, w, w') && RunTo(i + 1, w', r)
  }

  lemma {:induction false} RunExists(i: nat, w: string) returns (r: string)
    requires i <= 5
    ensures RunTo(i, w, r)
    decreases 5 - i
  {
    hide Step;
    if i == 5 {
      r := w;
    } else {
      var w' := StepOutcome(i, w);
      r := RunExists(i + 1, w');
    }
  }

  lemma StepFirst(i: nat, w: string, w': string, r: string)
    requires i < 5 && Step(i, w, w') && RunTo(i + 1, w', r)
    ensures RunTo(i, w, r)
  {
    hide Step;
  }

  lemma StepOutcome(i: nat, w: string) returns (w': string)
    requires i < 5
    ensures Step(i, w, w')
  {
    w' := StepExists(RulesOf(i), MinOf(i), w);
  }

  lemma StepShrinks(i: nat, w: string, w': string)
    requires i < 5 && Step(i, w, w')
    ensures |w'| <= |w|
  {
    hide StepTo, Shrinking;
    RulesShrink();
    if w == "" {
      EmptyStays(RulesOf(i), MinOf(i), w');
    } else {
      StepKeepsStart(RulesOf(i), MinOf(i), w, w');
    }
  }

  lemma EmptyStays(rules: map<string, string>, min: int, w': string)
    requires StepTo(rules, min, "", w')
    ensures w' == ""
  {
  }

  lemma {:induction false} RunShrinks(i: nat, w: string, r: string)
    requires i <= 5 && RunTo(i, w, r)
    ensures |r| <= |w|
    decreases 5 - i
  {
    hide Step;
    if i < 5 {
      var w' :| Step(i, w, w') && RunTo(i + 1, w', r);
      StepShrinks(i, w, w');
      RunShrinks(i + 1, w', r);
    }
  }

  // ----- how suffixes end

  /** Endings that no rule after the first step looks for. */
  predicate Bare(c: char, d: char) {
    || (d == 'e' && (c == 'i' || c == 's' || c == 'e' || c == 'r'))
    || (c == 'e' && d == 's')
    || (c == 'n' && d == 'i')
  }

  /** The suffix has two runes or more and no bare ending. */
  predicate Ends(s: string) {
    |s| >= 2 && !Bare(s[|s| - 2], s[|s| - 1])
  }

  /** A suffix in "ss" ends in "ess" and loses four runes. */
  predicate EssEnds(rules: map<string, string>, s: string)
    requires s in rules
  {
    |s| >= 2 && (s[|s| - 2] == 's' && s[|s| - 1] == 's' ==> |s| >= 3 && s[|s| - 3] == 'e' && |rules[s]| + 4 <= |s|)
  }

  predicate Short(c: char, d: char) {
    d == 'e' && (c == 't' || c == 'z')
  }

  /** A suffix in "te" or "ze" loses three runes. */
  predicate ShortEnds(rules: map<string, string>, s: string)
    requires s in rules
  {
    |s| >= 2 && (Short(s[|s| - 2], s[|s| - 1]) ==> |rules[s]| + 3 <= |s|)
  }

  lemma Ends1B(s: string)
    requires s in STEP1B
    ensures Ends(s)
  {
  }

  lemma Ends2(s: string)
    requires s in STEP2
    ensures Ends(s)
  {
  }

  lemma Ends3(s: string)
    requires s in STEP3
    ensures Ends(s)
  {
  }

  lemma Ends4(s: string)
    requires s in STEP4
    ensures Ends(s)
  {
  }

  lemma EssEnds1B(s: string)
    requires s in STEP1B
    ensures EssEnds(STEP1B, s)
  {
  }

  lemma EssEnds2(s: string)
    requires s in STEP2
    ensures EssEnds(STEP2, s)
  {
  }

  lemma EssEnds3(s: string)
    requires s in STEP3
    ensures EssEnds(STEP3, s)
  {
  }

  lemma EssEnds4(s: string)
    requires s in STEP4
    ensures EssEnds(STEP4, s)
  {
  }

  lemma ShortEnds3(s: string)
    requires s in STEP3
    ensures ShortEnds(STEP3, s)
  {
  }

  lemma ShortEnds4(s: string)
    requires s in STEP4
    ensures ShortEnds(STEP4, s)
  {
  }

  lemma EndsOf(i: nat, s: string)
    requires 1 <= i < 5 && s in RulesOf(i)
    ensures Ends(s) && EssEnds(RulesOf(i), s) && (i >= 3 ==> ShortEnds(RulesOf(i), s))
  {
    hide Ends, EssEnds, ShortEnds, STEP1B, STEP2, STEP3, STEP4;
    if i == 1 {
      Ends1B(s);
      EssEnds1B(s);
    } else if i == 2 {
      Ends2(s);
      EssEnds2(s);
    } else if i == 3 {
      Ends3(s);
      EssEnds3(s);
      ShortEnds3(s);
    } else {
      Ends4(s);
      EssEnds4(s);
      ShortEnds4(s);
    }
  }

  lemma SuffixEnds(w: string, s: string)
    requires HasSuffix(w, s) && |s| >= 2
    ensures |w| >= 2 && w[|w| - 1] == s[|s| - 1] && w[|w| - 2] == s[|s| - 2]
    ensures |s| >= 3 ==> |w| >= 3 && w[|w| - 3] == s[|s| - 3]
  {
    var tail := w[|w| - |s|..];
    assert tail[|s| - 1] == w[|w| - 1] && tail[|s| - 2] == w[|w| - 2];
    if |s| >= 3 {
      assert tail[|s| - 3] == w[|w| - 3];
    }
  }

  lemma BareStep(i: nat, w: string, w': string)
    requires 1 <= i < 5 && |w| >= 2 && Bare(w[|w| - 2], w[|w| - 1]) && Step(i, w, w')
    ensures w' == w
  {
    hide RulesOf, HasSuffix, Bare;
    if s :| s in RulesOf(i) && Applies(w, s, MinOf(i)) {
      EndsOf(i, s);
      SuffixEnds(w, s);
    }
  }

  /** Words with a bare ending stay as they are. */
  lemma {:induction false} BareStays(i: nat, w: string, r: string)
    requires 1 <= i <= 5 && |w| >= 2 && Bare(w[|w| - 2], w[|w| - 1]) && RunTo(i, w, r)
    ensures r == w
    decreases 5 - i
  {
    hide Step, Bare;
    if i < 5 {
      var w' :| Step(i, w, w') && RunTo(i + 1, w', r);
      BareStep(i, w, w');
      BareStays(i + 1, w, r);
    }
  }

  lemma EssStep(i: nat, w: string, w': string)
    requires 1 <= i < 5 && |w| >= 2 && w[|w| - 2] == 's' == w[|w| - 1] && Step(i, w, w')
    ensures w' == w || (|w| >= 3 && w[|w| - 3] == 'e' && |w'| + 4 <= |w|)
  {
    hide RulesOf, HasSuffix, Bare;
    if s :| s in RulesOf(i) && Applies(w, s, MinOf(i)) && w' == TrimSuffix(w, s) + RulesOf(i)[s] {
      EndsOf(i, s);
      SuffixEnds(w, s);
      Trimmed(w, s);
    }
  }

  lemma Trimmed(w: string, s: string)
    requires HasSuffix(w, s)
    ensures |TrimSuffix(w, s)| == |w| - |s|
  {
  }

  /** A word in "ss" stays, or it ends in "ess" and loses at least four runes. */
  lemma {:induction false} EssDrops(i: nat, w: string, r: string)
    requires 1 <= i <= 5 && |w| >= 2 && w[|w| - 2] == 's' == w[|w| - 1] && RunTo(i, w, r)
    ensures r == w || (|w| >= 3 && w[|w| - 3] == 'e' && |r| + 4 <= |w|)
    decreases 5 - i
  {
    hide Step;
    if i < 5 {
      var w' :| Step(i, w, w') && RunTo(i + 1, w', r);
      EssStep(i, w, w');
      RunShrinks(i + 1, w', r);
      if w' == w {
        EssDrops(i + 1, w, r);
      }
    }
  }

  lemma ShortStep(i: nat, w: string, w': string)
    requires 3 <= i < 5 && |w| >= 2 && Short(w[|w| - 2], w[|w| - 1]) && Step(i, w, w')
    ensures w' == w || |w'| + 3 <= |w|
  {
    hide RulesOf, HasSuffix, Short;
    if s :| s in RulesOf(i) && Applies(w, s, MinOf(i)) && w' == TrimSuffix(w, s) + RulesOf(i)[s] {
      EndsOf(i, s);
      SuffixEnds(w, s);
      Trimmed(w, s);
    }
  }

  /** In the last two steps a word in "te" or "ze" stays or loses at least three runes. */
  lemma {:induction false} ShortDrops(i: nat, w: string, r: string)
    requires 3 <= i <= 5 && |w| >= 2 && Short(w[|w| - 2], w[|w| - 1]) && RunTo(i, w, r)
    ensures r == w || |r| + 3 <= |w|
    decreases 5 - i
  {
    hide Step;
    if i < 5 {
      var w' :| Step(i, w, w') && RunTo(i + 1, w', r);
      ShortStep(i, w, w');
      RunShrinks(i + 1, w', r);
      if w' == w {
        ShortDrops(i + 1, w, r);
      }
    }
  }

  // ----- two outcomes of a step never meet again

  /** A word with a bare ending stays longer than anything a shorter word becomes. */
  lemma BareDiverges(i: nat, a: string, b: string, r: string, r': string)
    requires 1 <= i <= 5 && |a| < |b| && |b| >= 2 && Bare(b[|b| - 2], b[|b| - 1])
    requires RunTo(i, a, r) && RunTo(i, b, r')
    ensures r != r'
  {
    RunShrinks(i, a, r);
    BareStays(i, b, r');
  }

  /** A word in "ss" and the word without the last rune. */
  lemma EssDiverges(a: string, b: string, r: string, r': string)
    requires |a| >= 2 && a[|a| - 2] == 's' == a[|a| - 1] && b == a[..|a| - 1]
    requires RunTo(1, a, r) && RunTo(1, b, r')
    ensures r != r'
  {
    hide RunTo;
    EssDrops(1, a, r);
    RunShrinks(1, b, r');
    if r != a {
      BareStays(1, b, r');
    }
  }

  lemma PluralShapes(w: string, t: string)
    requires t in {"ss", "ies", "sses"} && HasSuffix(w, t)
    ensures |w| >= 3 && TrimSuffix(w, "s") == w[..|w| - 1]
    ensures t == "ss" ==> TrimSuffix(w, t) + "ss" == w && w[|w| - 2] == 's' == w[|w| - 1]
    ensures t == "ies" ==> |TrimSuffix(w, t) + "i"| < |w| - 1 && Bare(w[|w| - 3], w[|w| - 2])
    ensures t == "sses" ==> |TrimSuffix(w, t) + "ss"| < |w| - 1 && Bare(w[|w| - 3], w[|w| - 2])
  {
    assert w == w[..|w| - |t|] + t;
    assert w[|w| - 1..] == "s";
  }

  lemma PluralForms(w: string, t: string)
    requires t in {"ss", "ies", "sses"} && HasSuffix(w, t)
    ensures var a, b := TrimSuffix(w, t) + STEP1A[t], TrimSuffix(w, "s") + STEP1A["s"];
            && Step(0, w, a) && Step(0, w, b)
            && |w| >= 3 && b == w[..|w| - 1]
            && (if t == "ss" then a == w && w[|w| - 2] == 's' == w[|w| - 1]
                else |a| < |b| && Bare(b[|b| - 2], b[|b| - 1]))
  {
    hide StepTo, STEP1A, HasSuffix, TrimSuffix, Bare;
    EndsInS(t);
    ShorterApplies(w, t, "s", -1);
    Uses(STEP1A, -1, w, t);
    Uses(STEP1A, -1, w, "s");
    PluralShapes(w, t);
  }

  lemma PluralDiverges(w: string, t: string) returns (r: string, r': string)
    requires t in {"ss", "ies", "sses"} && HasSuffix(w, t)
    ensures RunTo(0, w, r) && RunTo(0, w, r') && r != r'
  {
    hide Step, HasSuffix, TrimSuffix, STEP1A, Bare, RunTo;
    EndsInS(t);
    PluralForms(w, t);
    var a, b := TrimSuffix(w, t) + STEP1A[t], TrimSuffix(w, "s") + STEP1A["s"];
    r := RunExists(1, a);
    r' := RunExists(1, b);
    StepFirst(0, w, a, r);
    StepFirst(0, w, b, r');
    if t == "ss" {
      EssDiverges(a, b, r, r');
    } else {
      BareDiverges(1, a, b, r, r');
    }
  }

  lemma EedForms(w: string)
    requires Applies(w, "eed", 0)
    ensures var a, b := TrimSuffix(w, "eed") + "ee", TrimSuffix(w, "ed");
            && Step(1, w, a) && Step(1, w, b)
            && |b| < |a| && |a| >= 2 && Bare(a[|a| - 2], a[|a| - 1])
  {
    hide StepTo, Applies;
    EedEnds();
    ShorterApplies(w, "eed", "ed", 0);
    Uses(STEP1B, 0, w, "eed");
    Uses(STEP1B, 0, w, "ed");
    assert TrimSuffix(w, "ed") + "" == TrimSuffix(w, "ed");
  }

  lemma EedDiverges(w: string) returns (r: string, r': string)
    requires Applies(w, "eed", 0)
    ensures RunTo(1, w, r) && RunTo(1, w, r') && r != r'
  {
    hide Step, Applies, TrimSuffix, Bare, RunTo;
    EedForms(w);
    var a, b := TrimSuffix(w, "eed") + "ee", TrimSuffix(w, "ed");
    r := RunExists(2, a);
    r' := RunExists(2, b);
    StepFirst(1, w, a, r);
    StepFirst(1, w, b, r');
    BareDiverges(2, b, a, r', r);
  }

  lemma OnlyKept(rules: map<string, string>, min: int, w: string, w': string)
    requires StepTo(rules, min, w, w') && forall s :: s in rules ==> !HasSuffix(w, s)
    ensures w' == w
  {
  }

  lemma OnlyRule(rules: map<string, string>, min: int, w: string, s: string, w': string)
    requires StepTo(rules, min, w, w') && s in rules && Applies(w, s, min)
    requires forall t :: t in rules && HasSuffix(w, t) ==> t == s
    ensures w' == TrimSuffix(w, s) + rules[s]
  {
  }

  /** In the last two steps only one rule fits, and it fires. */
  lemma OneRuleLeft(w: string, s: string, r: string)
    requires RunTo(3, w, r)
    requires forall t :: t in STEP3 ==> !HasSuffix(w, t)
    requires s in STEP4 && Applies(w, s, 1) && forall t :: t in STEP4 && HasSuffix(w, t) ==> t == s
    ensures r == TrimSuffix(w, s) + STEP4[s]
  {
    hide STEP3, STEP4, StepTo, Applies;
    var w' :| Step(3, w, w') && RunTo(4, w', r);
    OnlyKept(STEP3, 0, w, w');
    var w'' :| Step(4, w, w'') && RunTo(5, w'', r);
    OnlyRule(STEP4, 1, w, s, w'');
  }

  lemma NotIn3(w: string, t: string)
    requires (HasSuffix(w, "ation") || HasSuffix(w, "izate")) && t in STEP3
    ensures !HasSuffix(w, t)
  {
    if HasSuffix(w, t) {
      var end := if HasSuffix(w, "ation") then "ation" else "izate";
      hide HasSuffix;
      SameEnd(w, end, t, 0);
      SameEnd(w, end, t, 1);
      if |t| >= 4 {
        SameEnd(w, end, t, 3);
      }
    }
  }

  lemma OnlyIn4(w: string, end: string, s: string, t: string)
    requires (end == "ation" && s == "ion") || (end == "izate" && s == "ate")
    requires HasSuffix(w, end) && t in STEP4 && HasSuffix(w, t)
    ensures t == s
  {
    hide HasSuffix;
    SameEnd(w, end, t, 0);
    SameEnd(w, end, t, 1);
  }

  /** What "ational" and "ization" become when the shorter rule is used: two runes survive. */
  lemma ShorterRuleLeaves(x: string, end: string, s: string, r: string)
    requires (end == "ation" && s == "ion") || (end == "izate" && s == "ate")
    requires MeasureOf(x) > 0 && RunTo(3, x + end, r)
    ensures |r| == |x| + 2
  {
    hide RunTo, MeasureOf;
    var w := x + end;
    MeasureOfNothing(x);
    EndOf(x, end, s);
    VowelEndMeasures(x, end[0], end[1]);
    forall t | t in STEP3
      ensures !HasSuffix(w, t)
    {
      NotIn3(w, t);
    }
    forall t | t in STEP4 && HasSuffix(w, t)
      ensures t == s
    {
      OnlyIn4(w, end, s, t);
    }
    OneRuleLeft(w, s, r);
  }

  lemma MeasureOfNothing(x: string)
    requires MeasureOf(x) > 0
    ensures x != ""
  {
    assert VowelEnds("", 0) == {};
  }

  lemma EndOf(x: string, end: string, s: string)
    requires (end == "ation" && s == "ion") || (end == "izate" && s == "ate")
    requires x != ""
    ensures IsVowel(end[0]) && !IsVowel(end[1])
    ensures HasSuffix(x + end, end) && HasSuffix(x + end, s) && TrimSuffix(x + end, s) == x + [end[0], end[1]]
    ensures s in STEP4 && STEP4[s] == ""
  {
    var w := x + end;
    assert w[|w| - |end|..] == end;
    assert w[|w| - |s|..] == s;
  }

  lemma AtionForms(w: string, t: string, s: string)
    requires (t == "ational" && s == "tional") || (t == "ization" && s == "ation")
    requires Applies(w, t, 0)
    ensures var x := TrimSuffix(w, t);
            && MeasureOf(x) > 0
            && Step(2, w, x + if t == "ational" then "ate" else "ize")
            && Step(2, w, x + if t == "ational" then "ation" else "izate")
  {
    hide StepTo, HasSuffix, MeasureOf, TrimSuffix;
    AtionEnds();
    ShorterApplies(w, t, s, 0);
    Uses(STEP2, 0, w, t);
    Uses(STEP2, 0, w, s);
    var x := TrimSuffix(w, t);
    if t == "ational" {
      assert TrimSuffix(w, s) + STEP2[s] == x + "ation";
    } else {
      assert TrimSuffix(w, s) + STEP2[s] == x + "izate";
    }
  }

  lemma AtionDiverges(w: string, t: string, s: string) returns (r: string, r': string)
    requires (t == "ational" && s == "tional") || (t == "ization" && s == "ation")
    requires Applies(w, t, 0)
    ensures RunTo(2, w, r) && RunTo(2, w, r') && r != r'
  {
    hide Step, Applies, TrimSuffix, MeasureOf, RunTo;
    AtionForms(w, t, s);
    var x := TrimSuffix(w, t);
    var a, end := x + (if t == "ational" then "ate" else "ize"), if t == "ational" then "ation" else "izate";
    r := RunExists(3, a);
    r' := RunExists(3, x + end);
    StepFirst(2, w, a, r);
    StepFirst(2, w, x + end, r');
    ShortDrops(3, a, r);
    ShorterRuleLeaves(x, end, if t == "ational" then "ion" else "ate", r');
  }

  lemma MentDiverges(w: string) returns (r: string, r': string)
    requires Applies(w, "ment", 1)
    ensures RunTo(4, w, r) && RunTo(4, w, r') && r != r'
  {
    hide Determined, Applies, StepTo;
    MentOverlaps(w);
    r, r' := Apart(STEP4, 1, w);
    assert Step(4, w, r) && RunTo(5, r, r) && Step(4, w, r') && RunTo(5, r', r');
  }

  lemma Apart(rules: map<string, string>, min: int, w: string) returns (a: string, b: string)
    requires !Determined(rules, min, w)
    ensures StepTo(rules, min, w, a) && StepTo(rules, min, w, b) && a != b
  {
    a, b :| StepTo(rules, min, w, a) && StepTo(rules, min, w, b) && a != b;
  }

  // ----- which words have one stem

  /** Step `i` has one outcome for this word. */
  predicate Clear(i: nat, w: string) {
    match i
    case 0 => !HasSuffix(w, "ss") && !HasSuffix(w, "ies") && !HasSuffix(w, "sses")
    case 1 => !Applies(w, "eed", 0)
    case 2 => !Applies(w, "ational", 0) && !Applies(w, "ization", 0)
    case 4 => !Applies(w, "ment", 1)
    case _ => true
  }

  lemma ClearIsDetermined(i: nat, w: string)
    requires i < 5
    ensures Determined(RulesOf(i), MinOf(i), w) <==> Clear(i, w)
  {
    hide Determined, Applies, HasSuffix;
    match i
    case 0 => FirstStepDetermined(w);
    case 1 => SecondStepDetermined(w);
    case 2 => ThirdStepDetermined(w);
    case 3 => FourthStepDetermined(w);
    case _ => LastStepDetermined(w);
  }

  /** When a step has more than one outcome, so have the steps from there on. */
  lemma Diverges(i: nat, w: string) returns (r: string, r': string)
    requires i < 5 && !Clear(i, w)
    ensures RunTo(i, w, r) && RunTo(i, w, r') && r != r'
  {
    hide RunTo, Applies, HasSuffix;
    if i == 0 {
      var t :| t in {"ss", "ies", "sses"} && HasSuffix(w, t);
      r, r' := PluralDiverges(w, t);
    } else if i == 1 {
      r, r' := EedDiverges(w);
    } else if i == 2 {
      if Applies(w, "ational", 0) {
        r, r' := AtionDiverges(w, "ational", "tional");
      } else {
        r, r' := AtionDiverges(w, "ization", "ation");
      }
    } else {
      r, r' := MentDiverges(w);
    }
  }

  ghost predicate OneResult(i: nat, w: string)
    requires i <= 5
  {
    forall r, r' :: RunTo(i, w, r) && RunTo(i, w, r') ==> r == r'
  }

  lemma ClearIsOne(i: nat, w: string, w': string)
    requires i < 5 && Clear(i, w) && Step(i, w, w')
    ensures forall w'' :: Step(i, w, w'') ==> w'' == w'
  {
    hide StepTo, Clear;
    ClearIsDetermined(i, w);
  }

  lemma RunThrough(i: nat, w: string, w': string, r: string)
    requires i < 5 && Clear(i, w) && Step(i, w, w')
    ensures RunTo(i, w, r) <==> RunTo(i + 1, w', r)
  {
    hide Step, Clear;
    ClearIsOne(i, w, w');
  }

  /** One step: it must have one outcome, and so must the steps after it. */
  lemma OneMoreStep(i: nat, w: string, w': string)
    requires i < 5 && Step(i, w, w')
    ensures OneResult(i, w) <==> Clear(i, w) && OneResult(i + 1, w')
  {
    hide Step, Clear, RunTo;
    if Clear(i, w) {
      var j := i + 1;
      forall r
        ensures RunTo(i, w, r) <==> RunTo(j, w', r)
      {
        RunThrough(i, w, w', r);
      }
    } else {
      var r, r' := Diverges(i, w);
    }
  }

  lemma Chain(u: Alphabet, rules: seq<Rule>, w: string, w1: string, w2: string, w3: string, w4: string, r: string)
    ensures StepsTo(English(u, rules), w, w1, w2, w3, w4, r) <==>
            Step(0, w, w1) && Step(1, w1, w2) && Step(2, w2, w3) && Step(3, w3, w4) && Step(4, w4, r)
  {
    hide StepTo;
  }

  lemma ChainRuns(w: string, w1: string, w2: string, w3: string, w4: string, r: string)
    requires Step(0, w, w1) && Step(1, w1, w2) && Step(2, w2, w3) && Step(3, w3, w4) && Step(4, w4, r)
    ensures RunTo(0, w, r)
  {
    hide Step;
    assert RunTo(5, r, r);
    assert RunTo(4, w4, r);
    assert RunTo(3, w3, r);
    assert RunTo(2, w2, r);
    assert RunTo(1, w1, r);
  }

  lemma RunChain(w: string, r: string) returns (w1: string, w2: string, w3: string, w4: string)
    requires RunTo(0, w, r)
    ensures Step(0, w, w1) && Step(1, w1, w2) && Step(2, w2, w3) && Step(3, w3, w4) && Step(4, w4, r)
  {
    hide Step;
    w1 :| Step(0, w, w1) && RunTo(1, w1, r);
    w2 :| Step(1, w1, w2) && RunTo(2, w2, r);
    w3 :| Step(2, w2, w3) && RunTo(3, w3, r);
    w4 :| Step(3, w3, w4) && RunTo(4, w4, r);
    var w5 :| Step(4, w4, w5) && RunTo(5, w5, r);
  }

  lemma StemIsRun(u: Alphabet, rules: seq<Rule>, w: string, r: string)
    requires !IsStopWord(English(u, rules), w) && ByteLength(u, w) > 2
    ensures StemsTo(English(u, rules), w, r) <==> RunTo(0, w, r)
  {
    hide StepsTo, Step, RunTo;
    if RunTo(0, w, r) {
      var w1, w2, w3, w4 := RunChain(w, r);
      Chain(u, rules, w, w1, w2, w3, w4, r);
    }
    if StemsTo(English(u, rules), w, r) {
      var w1, w2, w3, w4 :| StepsTo(English(u, rules), w, w1, w2, w3, w4, r);
      Chain(u, rules, w, w1, w2, w3, w4, r);
      ChainRuns(w, w1, w2, w3, w4, r);
    }
  }

  lemma OnlyResult(u: Alphabet, rules: seq<Rule>, w: string, r: string)
    requires !IsStopWord(English(u, rules), w) && ByteLength(u, w) > 2 && RunTo(0, w, r)
    ensures (forall r' :: StemsTo(English(u, rules), w, r') ==> r' == r) <==> OneResult(0, w)
  {
    hide StemsTo, RunTo;
    forall r'
      ensures StemsTo(English(u, rules), w, r') <==> RunTo(0, w, r')
    {
      StemIsRun(u, rules, w, r');
    }
  }

  /** Whether a word has one stem can be read off any run of the stemmer on it: the stem is the only one
      exactly if the word did not end in "ss", "ies" or "sses", and none of "eed", "ational", "ization"
      and "ment" could be replaced at its step. */
  lemma OneStem(u: Alphabet, rules: seq<Rule>, w: string, w1: string, w2: string, w3: string, w4: string, r: string)
    requires !IsStopWord(English(u, rules), w) && ByteLength(u, w) > 2
    requires StepsTo(English(u, rules), w, w1, w2, w3, w4, r)
    ensures (forall r' :: StemsTo(English(u, rules), w, r') ==> r' == r) <==>
            && !HasSuffix(w, "ss") && !HasSuffix(w, "ies") && !HasSuffix(w, "sses")
            && !Applies(w1, "eed", 0)
            && !Applies(w2, "ational", 0) && !Applies(w2, "ization", 0)
            && !Applies(w4, "ment", 1)
  {
    hide StemsTo, StepsTo, OneResult, RunTo, Step, Applies, HasSuffix, English, IsStopWord, ByteLength;
    Chain(u, rules, w, w1, w2, w3, w4, r);
    ChainRuns(w, w1, w2, w3, w4, r);
    OnlyResult(u, rules, w, r);
    OneMoreStep(0, w, w1);
    OneMoreStep(1, w1, w2);
    OneMoreStep(2, w2, w3);
    OneMoreStep(3, w3, w4);
    OneMoreStep(4, w4, r);
    NothingMore(r);
  }

  lemma NothingMore(r: string)
    ensures OneResult(5, r)
  {
  }

  // ----- two words with two stems

  lemma BareRuns(i: nat, w: string)
    requires 1 <= i <= 5 && |w| >= 2 && Bare(w[|w| - 2], w[|w| - 1])
    ensures RunTo(i, w, w)
  {
    hide RunTo;
    var r := RunExists(i, w);
    BareStays(i, w, r);
  }

  lemma RunsOfPonies()
    ensures RunTo(0, "ponies", "poni") && RunTo(0, "ponies", "ponie")
  {
    hide Step, HasSuffix, TrimSuffix, STEP1A;
    EndsInS("ies");
    PoniesTrimmed();
    PluralForms("ponies", "ies");
    assert "pon" + "i" == "poni" && "ponie" + "" == "ponie";
    BareRuns(1, "poni");
    BareRuns(1, "ponie");
  }

  lemma PoniesTrimmed()
    ensures HasSuffix("ponies", "ies") && TrimSuffix("ponies", "ies") == "pon" && TrimSuffix("ponies", "s") == "ponie"
  {
    var w := "ponies";
    assert w[3..] == "ies" && w[..3] == "pon" && w[5..] == "s" && w[..5] == "ponie";
  }

  lemma AgreedApplies()
    ensures Applies("agreed", "eed", 0) && TrimSuffix("agreed", "eed") == "agr" && TrimSuffix("agreed", "ed") == "agre"
  {
    var w := "agreed";
    assert w[3..] == "eed" && w[..3] == "agr" && w[4..] == "ed" && w[..4] == "agre";
    VowelEndMeasures("", 'a', 'g');
    LongerMeasures("" + ['a', 'g'], "r");
    assert "" + ['a', 'g'] + "r" == "agr";
  }

  lemma AgreedKept()
    ensures Step(0, "agreed", "agreed")
  {
    hide StepTo;
    forall s | s in STEP1A
      ensures !HasSuffix("agreed", s)
    {
      assert |s| < 6 ==> "agreed"[6 - |s|..][|s| - 1] == 'd';
    }
    var w' := StepOutcome(0, "agreed");
    OnlyKept(STEP1A, -1, "agreed", w');
  }

  lemma RunsOfAgreed()
    ensures RunTo(0, "agreed", "agree") && RunTo(0, "agreed", "agre")
  {
    hide StepTo, Applies, TrimSuffix;
    AgreedKept();
    AgreedApplies();
    EedForms("agreed");
    assert "agr" + "ee" == "agree";
    BareRuns(2, "agree");
    BareRuns(2, "agre");
    assert RunTo(1, "agreed", "agree") && RunTo(1, "agreed", "agre");
  }

  /** Words of six runes or more go through the rules. */
  lemma LongWord(u: Alphabet, rules: seq<Rule>, w: string)
    requires u.Valid() && |w| >= 6
    ensures !IsStopWord(English(u, rules), w) && ByteLength(u, w) > 2
  {
    hide STOP_WORDS;
    if IsStopWord(English(u, rules), w) {
      StopWordIsShort(Map(u.lower, w));
    }
    AtLeastOneByte(u, w);
  }

  lemma StopWordIsShort(s: string)
    requires s in STOP_WORDS
    ensures |s| <= 5
  {
    hide SHORT_STOPS, QUESTION_STOPS, OTHER_STOPS;
    ShortStops(s);
    QuestionStops(s);
    OtherStops(s);
  }

  lemma ShortStops(s: string)
    ensures s in SHORT_STOPS ==> |s| <= 5
  {
  }

  lemma QuestionStops(s: string)
    ensures s in QUESTION_STOPS ==> |s| <= 5
  {
  }

  lemma OtherStops(s: string)
    ensures s in OTHER_STOPS ==> |s| <= 5
  {
  }

  lemma {:induction false} AtLeastOneByte(u: Alphabet, w: string)
    requires u.Valid()
    ensures ByteLength(u, w) >= |w|
  {
    if w != [] {
      AtLeastOneByte(u, w[..|w| - 1]);
    }
  }

  /** The same word can be stemmed in two ways: "ponies" becomes "poni" or "ponie" in the first step,
      "agreed" becomes "agree" or "agre" in the second. */
  lemma TwoStems(u: Alphabet, rules: seq<Rule>)
    requires u.Valid()
    ensures StemsTo(English(u, rules), "ponies", "poni") && StemsTo(English(u, rules), "ponies", "ponie")
    ensures StemsTo(English(u, rules), "agreed", "agree") && StemsTo(English(u, rules), "agreed", "agre")
  {
    hide StemsTo, RunTo, English, IsStopWord, ByteLength, Alphabet.Valid;
    RunsOfPonies();
    RunsOfAgreed();
    LongWord(u, rules, "ponies");
    LongWord(u, rules, "agreed");
    StemIsRun(u, rules, "ponies", "poni");
    StemIsRun(u, rules, "ponies", "ponie");
    StemIsRun(u, rules, "agreed", "agree");
    StemIsRun(u, rules, "agreed", "agre");
  }
}
