/** How much has to precede a suffix: words that the steps leave alone because too little does, and words that
    they just shorten. */
module StemThresholds {
  import opened Stemmer
  import opened StemOrder
  import opened Tokenizer

  // ----- which rules can meet a word

  /** The runes in which the suffixes of a step end. */
  function Endings(i: nat): string
    requires i < 5
  {
    match i
    case 0 => "s"
    case 1 => "dg"
    case 2 => "lirmsn"
    case 3 => "eils"
    case _ => "lerctnumis"
  }

  lemma EndingOf1A(s: string)
    requires s in STEP1A
    ensures s != "" && s[|s| - 1] in "s"
  {
  }

  lemma EndingOf1B(s: string)
    requires s in STEP1B
    ensures s != "" && s[|s| - 1] in "dg"
  {
  }

  lemma EndingOf2(s: string)
    requires s in STEP2
    ensures s != "" && s[|s| - 1] in "lirmsn"
    ensures s[|s| - 1] == 'n' ==> s == "ization" || s == "ation"
    ensures s[|s| - 1] == 'l' ==> s == "ational" || s == "tional"
    ensures s[|s| - 1] == 'm' ==> s == "alism"
  {
  }

  lemma EndingOf3(s: string)
    requires s in STEP3
    ensures s != "" && s[|s| - 1] in "eils"
    ensures s[|s| - 1] == 'l' ==> s == "ical" || s == "ful"
  {
  }

  lemma EndingOf4(s: string)
    requires s in STEP4
    ensures s != "" && s[|s| - 1] in "lerctnumis"
    ensures s[|s| - 1] == 'n' ==> s == "ion"
    ensures s[|s| - 1] == 'l' ==> s == "al"
  {
  }

  lemma EndingOf(i: nat, s: string)
    requires i < 5 && s in RulesOf(i)
    ensures s != "" && s[|s| - 1] in Endings(i)
  {
    hide STEP1A, STEP1B, STEP2, STEP3, STEP4;
    match i
    case 0 => EndingOf1A(s);
    case 1 => EndingOf1B(s);
    case 2 => EndingOf2(s);
    case 3 => EndingOf3(s);
    case _ => EndingOf4(s);
  }

  /** No rule of the step may fire. */
  ghost predicate NoRule(i: nat, w: string)
    requires i < 5
  {
    forall s <- RulesOf(i) :: !Applies(w, s, MinOf(i))
  }

  lemma OtherEnding(i: nat, w: string)
    requires i < 5 && w != "" && w[|w| - 1] !in Endings(i)
    ensures NoRule(i, w)
  {
    hide RulesOf, Endings;
    forall s <- RulesOf(i)
      ensures !HasSuffix(w, s)
    {
      EndingOf(i, s);
      assert |s| < |w| ==> w[|w| - |s|..][|s| - 1] == w[|w| - 1];
    }
  }

  lemma {:induction false} Stays(i: nat, w: string, r: string)
    requires i <= 5 && forall j :: i <= j < 5 ==> NoRule(j, w)
    ensures RunTo(i, w, r) <==> r == w
    decreases 5 - i
  {
    hide RulesOf, MinOf, Applies;
    if i < 5 {
      assert NoRule(i, w);
      assert Step(i, w, w);
      forall w' | Step(i, w, w')
        ensures w' == w
      {
      }
      Stays(i + 1, w, r);
    }
  }

  lemma LastOf(w: string, s: string)
    requires HasSuffix(w, s) && s != ""
    ensures s[|s| - 1] == w[|w| - 1]
  {
  }

  lemma Measures()
    ensures MeasureOf("n") == 0 && MeasureOf("str") == 0 && MeasureOf("typ") == 0
    ensures MeasureOf("nat") == 1 && MeasureOf("typic") == 1
  {
    assert VowelEnds("n", 1) == {};
    assert VowelEnds("str", 3) == {};
    assert VowelEnds("typ", 3) == {};
    assert VowelEnds("nat", 3) == {2};
    assert VowelEnds("typic", 5) == {4};
  }

  lemma MoreMeasures()
    ensures MeasureOf("jump") == 1 && MeasureOf("feud") == 1 && MeasureOf("cup") == 1
    ensures MeasureOf("adopt") == 2
  {
    assert VowelEnds("jump", 4) == {2};
    assert VowelEnds("feud", 4) == {3};
    assert VowelEnds("cup", 3) == {2};
    assert VowelEnds("adopt", 5) == {1, 3};
  }

  // ----- words that stay

  lemma StringStays()
    ensures forall i :: 0 <= i < 5 ==> NoRule(i, "string")
  {
    hide STEP1B;
    Measures();
    assert "string"[3..] == "ing" && "string"[..3] == "str";
    forall s | s in STEP1B
      ensures !Applies("string", s, 0)
    {
      EndingOf1B(s);
      GOnly(s);
    }
    OtherEnding(0, "string");
    OtherEnding(2, "string");
    OtherEnding(3, "string");
    OtherEnding(4, "string");
  }

  lemma GOnly(s: string)
    requires s in STEP1B
    ensures HasSuffix("string", s) ==> s == "ing"
  {
  }

  lemma NationStays()
    ensures forall i :: 0 <= i < 5 ==> NoRule(i, "nation")
  {
    hide STEP1A, STEP1B, STEP2, STEP3, STEP4;
    Measures();
    var w := "nation";
    assert w[1..] == "ation" && w[..1] == "n" && w[3..] == "ion" && w[..3] == "nat";
    forall s | s in STEP2
      ensures !Applies(w, s, 0)
    {
      EndingOf2(s);
      if HasSuffix(w, s) {
        LastOf(w, s);
      }
    }
    forall s | s in STEP4
      ensures !Applies(w, s, 1)
    {
      EndingOf4(s);
      if HasSuffix(w, s) {
        LastOf(w, s);
      }
    }
    OtherEnding(0, w);
    OtherEnding(1, w);
    OtherEnding(3, w);
  }

  lemma TypicalStays()
    ensures forall i :: 0 <= i < 5 ==> NoRule(i, "typical")
  {
    hide STEP1A, STEP1B, STEP2, STEP3, STEP4;
    Measures();
    var w := "typical";
    assert w[3..] == "ical" && w[..3] == "typ" && w[5..] == "al" && w[..5] == "typic";
    assert w[4..] == "cal" && w[1..] == "ypical";
    forall s | s in STEP2
      ensures !Applies(w, s, 0)
    {
      EndingOf2(s);
      if HasSuffix(w, s) {
        LastOf(w, s);
      }
    }
    forall s | s in STEP3
      ensures !Applies(w, s, 0)
    {
      EndingOf3(s);
      if HasSuffix(w, s) {
        LastOf(w, s);
      }
    }
    forall s | s in STEP4
      ensures !Applies(w, s, 1)
    {
      EndingOf4(s);
      if HasSuffix(w, s) {
        LastOf(w, s);
      }
    }
    OtherEnding(0, w);
    OtherEnding(1, w);
  }

  /** Too little precedes "ing" in "string", "ation" and "ion" in "nation", "ical" and "al" in "typical". */
  lemma TooShort(u: Alphabet, rules: seq<Rule>, r: string)
    requires u.Valid()
    ensures StemsTo(English(u, rules), "string", r) <==> r == "string"
    ensures StemsTo(English(u, rules), "nation", r) <==> r == "nation"
    ensures StemsTo(English(u, rules), "typical", r) <==> r == "typical"
  {
    hide *;
    StringStays();
    NationStays();
    TypicalStays();
    Stays(0, "string", r);
    Stays(0, "nation", r);
    Stays(0, "typical", r);
    LongWord(u, rules, "string");
    LongWord(u, rules, "nation");
    LongWord(u, rules, "typical");
    StemIsRun(u, rules, "string", r);
    StemIsRun(u, rules, "nation", r);
    StemIsRun(u, rules, "typical", r);
  }

  // ----- words that are shortened

  lemma Skip(i: nat, w: string, r: string)
    requires i < 5 && NoRule(i, w) && RunTo(i + 1, w, r)
    ensures RunTo(i, w, r)
  {
    hide RulesOf, MinOf, Applies;
    assert Step(i, w, w);
  }

  /** The rule for `s` turns `x + s` into `w'`. */
  lemma Fires(i: nat, w: string, x: string, s: string, w': string, r: string)
    requires i < 5 && s in RulesOf(i) && x != "" && w == x + s && MeasureOf(x) > MinOf(i) && w' == x + RulesOf(i)[s]
    requires RunTo(i + 1, w', r)
    ensures RunTo(i, w, r)
  {
    hide RulesOf, MinOf, MeasureOf;
    StepByParts(RulesOf(i), MinOf(i), w, w');
    assert Parts(w, x, s, MinOf(i));
    StepFirst(i, w, w', r);
  }

  lemma RunOfThrees()
    ensures RunTo(0, "threes", "three")
  {
    hide RunTo, MeasureOf;
    BareRuns(1, "three");
    Fires(0, "threes", "three", "s", "three", "three");
  }

  lemma RunOfJumped()
    ensures RunTo(0, "jumped", "jump")
  {
    hide RunTo, MeasureOf;
    MoreMeasures();
    OtherEnding(0, "jumped");
    OtherEnding(2, "jump");
    OtherEnding(3, "jump");
    OtherEnding(4, "jump");
    Stays(2, "jump", "jump");
    Fires(1, "jumped", "jump", "ed", "jump", "jump");
    Skip(0, "jumped", "jump");
  }

  lemma RunOfCupful()
    ensures RunTo(0, "cupful", "cup")
  {
    hide RunTo, MeasureOf, STEP2;
    MoreMeasures();
    OtherEnding(0, "cupful");
    OtherEnding(1, "cupful");
    CupfulPasses();
    OtherEnding(4, "cup");
    Stays(4, "cup", "cup");
    Fires(3, "cupful", "cup", "ful", "cup", "cup");
    Skip(2, "cupful", "cup");
    Skip(1, "cupful", "cup");
    Skip(0, "cupful", "cup");
  }

  lemma CupfulPasses()
    ensures NoRule(2, "cupful")
  {
    hide STEP2;
    forall s | s in STEP2
      ensures !HasSuffix("cupful", s)
    {
      EndingOf2(s);
      if HasSuffix("cupful", s) {
        LastOf("cupful", s);
      }
    }
  }

  lemma RunOfFeudalism()
    ensures RunTo(0, "feudalism", "feudal")
  {
    hide RunTo, MeasureOf;
    MoreMeasures();
    OtherEnding(0, "feudalism");
    OtherEnding(1, "feudalism");
    FeudalStays();
    Stays(3, "feudal", "feudal");
    Fires(2, "feudalism", "feud", "alism", "feudal", "feudal");
    Skip(1, "feudalism", "feudal");
    Skip(0, "feudalism", "feudal");
  }

  lemma FeudalStays()
    ensures NoRule(3, "feudal") && NoRule(4, "feudal")
  {
    hide STEP3, STEP4;
    MoreMeasures();
    var w := "feudal";
    assert w[4..] == "al" && w[..4] == "feud" && w[2..] == "udal" && w[3..] == "dal";
    forall s | s in STEP3
      ensures !HasSuffix(w, s)
    {
      EndingOf3(s);
      if HasSuffix(w, s) {
        LastOf(w, s);
      }
    }
    forall s | s in STEP4
      ensures !Applies(w, s, 1)
    {
      EndingOf4(s);
      if HasSuffix(w, s) {
        LastOf(w, s);
      }
    }
  }

  lemma RunOfAdoption()
    ensures RunTo(0, "adoption", "adopt")
  {
    hide RunTo, MeasureOf;
    MoreMeasures();
    OtherEnding(0, "adoption");
    OtherEnding(1, "adoption");
    AdoptionPasses();
    OtherEnding(3, "adoption");
    Stays(5, "adopt", "adopt");
    Fires(4, "adoption", "adopt", "ion", "adopt", "adopt");
    Skip(3, "adoption", "adopt");
    Skip(2, "adoption", "adopt");
    Skip(1, "adoption", "adopt");
    Skip(0, "adoption", "adopt");
  }

  lemma AdoptionPasses()
    ensures NoRule(2, "adoption")
  {
    hide STEP2;
    var w := "adoption";
    assert w[3..] == "ption" && w[1..] == "doption";
    forall s | s in STEP2
      ensures !HasSuffix(w, s)
    {
      EndingOf2(s);
      if HasSuffix(w, s) {
        LastOf(w, s);
      }
    }
  }

  /** One place where a vowel is followed by something else is enough before "ed", "alism" and "ful", two before
      "ion"; before a plural "s" none is needed. */
  lemma JustEnough(u: Alphabet, rules: seq<Rule>)
    requires u.Valid()
    ensures StemsTo(English(u, rules), "threes", "three") && StemsTo(English(u, rules), "jumped", "jump")
    ensures StemsTo(English(u, rules), "feudalism", "feudal") && StemsTo(English(u, rules), "cupful", "cup")
    ensures StemsTo(English(u, rules), "adoption", "adopt")
  {
    hide *;
    RunOfThrees();
    RunOfJumped();
    RunOfFeudalism();
    RunOfCupful();
    RunOfAdoption();
    Stemmed(u, rules, "threes", "three");
    Stemmed(u, rules, "jumped", "jump");
    Stemmed(u, rules, "feudalism", "feudal");
    Stemmed(u, rules, "cupful", "cup");
    Stemmed(u, rules, "adoption", "adopt");
  }

  lemma Stemmed(u: Alphabet, rules: seq<Rule>, w: string, r: string)
    requires u.Valid() && |w| >= 6 && RunTo(0, w, r)
    ensures StemsTo(English(u, rules), w, r)
  {
    hide *;
    LongWord(u, rules, w);
    StemIsRun(u, rules, w, r);
  }
}
