/**
 * The answers the classifier gives to the questions of the agent's test
 * script. Each answer rests on which keywords occur in the lowered question
 * and which do not. A question is written as three short literal parts; a
 * keyword is shown present by its index in one part, and absent by a
 * character the question never uses, or by a pair of adjacent characters
 * that no part (and no seam between two parts) forms.
 */
module ClassifierExamples {
  import opened Ascii
  import opened Substrings
  import opened Classifier
  import opened ClassifierProperties

  /** Every character of `s` is one of `letters`. */
  predicate WrittenWith(s: string, letters: set<char>)
  {
    forall i :: 0 <= i < |s| ==> s[i] in letters
  }

  /** Lowered text in three parts. */
  datatype Parts = Parts(a: string, b: string, c: string)
  {
    function Text(): string { a + b + c }

    predicate Within(letters: set<char>)
    {
      WrittenWith(a, letters) && WrittenWith(b, letters) && WrittenWith(c, letters)
    }

    /** No part has `x` followed by `y`, and neither seam forms that pair. */
    predicate AvoidsPair(x: char, y: char)
    {
      LacksPair(a, x, y) && LacksPair(b, x, y) && LacksPair(c, x, y)
      && 0 < |b| && (|a| == 0 || a[|a| - 1] != x || b[0] != y) && (|c| == 0 || b[|b| - 1] != x || c[0] != y)
    }
  }

  /** Why a word is absent: its `k`-th character is not among the letters used, or its characters `k`, `k + 1` are never adjacent. */
  datatype Witness = ByChar(k: int) | ByPair(k: int)

  predicate RulesOut(p: Parts, letters: set<char>, word: string, w: Witness)
  {
    match w
    case ByChar(k) => 0 <= k < |word| && word[k] !in letters
    case ByPair(k) => 0 <= k < |word| - 1 && p.AvoidsPair(word[k], word[k + 1])
  }

  /** A question lowering to `p.Text()`, written with `letters` only, does not mention a word its witness rules out. */
  lemma NotMentioned(q: string, p: Parts, letters: set<char>, word: string, w: Witness)
    requires Lower(q) == p.Text() && p.Within(letters) && RulesOut(p, letters, word, w)
    ensures !Mentions(q, word)
  {
    match w
    case ByChar(k) =>
      forall i | 0 <= i < |p.Text()|
        ensures p.Text()[i] != word[k]
      {
        if i < |p.a| {
          assert p.Text()[i] == p.a[i];
        } else if i < |p.a| + |p.b| {
          assert p.Text()[i] == p.b[i - |p.a|];
        } else {
          assert p.Text()[i] == p.c[i - |p.a| - |p.b|];
        }
      }
      NotContainsByChar(p.Text(), word, k);
    case ByPair(k) =>
      LacksPairConcat(p.a, p.b, word[k], word[k + 1]);
      assert (p.a + p.b)[|p.a + p.b| - 1] == p.b[|p.b| - 1];
      LacksPairConcat(p.a + p.b, p.c, word[k], word[k + 1]);
      NotContainsByPair(p.Text(), word, k);
  }

  /** A question lowering to `p.Text()`, written with `letters` only, mentions none of `words` when each has a witness of absence. */
  lemma NoneMentioned(q: string, p: Parts, letters: set<char>, words: seq<string>, ws: seq<Witness>)
    requires Lower(q) == p.Text() && p.Within(letters) && |ws| == |words|
    requires forall n :: 0 <= n < |words| ==> RulesOut(p, letters, words[n], ws[n])
    ensures !MentionsAny(q, words)
  {
    forall n | 0 <= n < |words|
      ensures !Contains(Lower(q), words[n])
    {
      NotMentioned(q, p, letters, words[n], ws[n]);
    }
  }

  /** A question lowering to `p.Text()` mentions `word` when `word` occurs at index `i` of part `j`. */
  lemma MentionedIn(q: string, p: Parts, word: string, j: int, i: int)
    requires Lower(q) == p.Text() && 0 <= j < 3
    requires j == 0 ==> OccursAt(p.a, word, i)
    requires j == 1 ==> OccursAt(p.b, word, i)
    requires j == 2 ==> OccursAt(p.c, word, i)
    ensures Mentions(q, word)
  {
    if j == 0 {
      ContainsWitness(p.a, word, i);
      ContainsInConcat(p.a, p.b, word);
    } else if j == 1 {
      ContainsWitness(p.b, word, i);
      ContainsInConcat(p.a, p.b, word);
    } else {
      ContainsWitness(p.c, word, i);
    }
    ContainsInConcat(p.a + p.b, p.c, word);
  }

  /** A question written in three parts lowers part by part. */
  lemma LowersTo(a: string, b: string, c: string, p: Parts)
    requires Lower(a) == p.a && Lower(b) == p.b && Lower(c) == p.c
    ensures Lower(a + b + c) == p.Text()
  {
    LowerConcat(a, b);
    LowerConcat(a + b, c);
  }

  // ---- "Give me the subjects who had Adverse events of Moderate severity" ----

  const ModerateQuestion := "Give me the subjects " + "who had Adverse events " + "of Moderate severity"
  const ModerateLowered := Parts("give me the subjects ", "who had adverse events ", "of moderate severity")
  const ModerateLetters := {' ', 'a', 'b', 'c', 'd', 'e', 'f', 'g', 'h', 'i', 'j', 'm', 'n', 'o', 'r', 's', 't', 'u', 'v', 'w', 'y'}

  lemma ModerateLowersFirst() ensures Lower("Give me the subjects ") == ModerateLowered.a {}
  lemma ModerateLowersSecond() ensures Lower("who had Adverse events ") == ModerateLowered.b {}
  lemma ModerateLowersThird() ensures Lower("of Moderate severity") == ModerateLowered.c {}

  lemma ModerateLowers()
    ensures Lower(ModerateQuestion) == ModerateLowered.Text()
  {
    ModerateLowersFirst();
    ModerateLowersSecond();
    ModerateLowersThird();
    LowersTo("Give me the subjects ", "who had Adverse events ", "of Moderate severity", ModerateLowered);
  }

  lemma ModerateHasSeverity() ensures OccursAt(ModerateLowered.c, "severity", 12) {}
  lemma ModerateHasModerate() ensures OccursAt(ModerateLowered.c, "moderate", 3) {}

  lemma ModerateAlphabet() ensures ModerateLowered.Within(ModerateLetters) {}

  /** Which of the severity rule's keywords the first question mentions. */
  lemma ModerateKeywords(q: string)
    requires Lower(q) == ModerateLowered.Text()
    ensures Mentions(q, "severity") && Mentions(q, "moderate") && !Mentions(q, "mild")
  {
    var p := ModerateLowered;
    ModerateAlphabet();
    ModerateHasSeverity();
    MentionedIn(q, p, "severity", 2, 12);
    NotMentioned(q, p, ModerateLetters, "mild", ByChar(2));
    ModerateHasModerate();
    MentionedIn(q, p, "moderate", 2, 3);
  }

  /** The first expected mapping of the test script. */
  lemma ModerateSeverityQuestion()
    ensures Classify(ModerateQuestion) == Intent(Severity, "MODERATE")
  {
    var q := ModerateQuestion;
    ModerateLowers();
    ModerateKeywords(q);
    assert MentionsAny(q, SeverityWords) by { assert Mentions(q, SeverityWords[0]); }
    SeverityRuleFirst(q);
  }

  // ---- "Which subjects experienced cardiac disorders?" ----

  const CardiacQuestion := "Which subjects " + "experienced cardiac " + "disorders?"
  const CardiacLowered := Parts("which subjects ", "experienced cardiac ", "disorders?")
  const CardiacLetters := {' ', '?', 'a', 'b', 'c', 'd', 'e', 'h', 'i', 'j', 'n', 'o', 'p', 'r', 's', 't', 'u', 'w', 'x'}

  lemma CardiacLowersFirst() ensures Lower("Which subjects ") == CardiacLowered.a {}
  lemma CardiacLowersSecond() ensures Lower("experienced cardiac ") == CardiacLowered.b {}
  lemma CardiacLowersThird() ensures Lower("disorders?") == CardiacLowered.c {}

  lemma CardiacLowers()
    ensures Lower(CardiacQuestion) == CardiacLowered.Text()
  {
    CardiacLowersFirst();
    CardiacLowersSecond();
    CardiacLowersThird();
    LowersTo("Which subjects ", "experienced cardiac ", "disorders?", CardiacLowered);
  }

  lemma CardiacHasCardiac() ensures OccursAt(CardiacLowered.b, "cardiac", 12) {}

  lemma CardiacAlphabet() ensures CardiacLowered.Within(CardiacLetters) {}

  lemma CardiacKeywords(q: string)
    requires Lower(q) == CardiacLowered.Text()
    ensures !Mentions(q, "mild") && !Mentions(q, "moderate") && !Mentions(q, "severe")
    ensures Mentions(q, "cardiac")
  {
    var p, letters := CardiacLowered, CardiacLetters;
    CardiacAlphabet();
    NotMentioned(q, p, letters, "mild", ByChar(2));
    NotMentioned(q, p, letters, "moderate", ByChar(0));
    NotMentioned(q, p, letters, "severe", ByChar(2));
    CardiacHasCardiac();
    MentionedIn(q, p, "cardiac", 1, 12);
  }

  /** The second expected mapping of the test script. */
  lemma CardiacQuestionMapping()
    ensures Classify(CardiacQuestion) == Intent(SystemOrganClass, "CARDIAC DISORDERS")
  {
    var q := CardiacQuestion;
    CardiacLowers();
    CardiacKeywords(q);
    SeverityNeedsLevel(q);
    assert MentionsAny(q, CardiacWords) by { assert Mentions(q, CardiacWords[0]); }
    BodySystemOrder(q);
  }

  // ---- "Show me patients with erythema" ----

  const ErythemaQuestion := "Show me " + "patients with " + "erythema"
  const ErythemaLowered := Parts("show me ", "patients with ", "erythema")
  const ErythemaLetters := {' ', 'a', 'e', 'h', 'i', 'm', 'n', 'o', 'p', 'r', 's', 't', 'w', 'y'}

  lemma ErythemaLowersFirst() ensures Lower("Show me ") == ErythemaLowered.a {}
  lemma ErythemaLowersSecond() ensures Lower("patients with ") == ErythemaLowered.b {}
  lemma ErythemaLowersThird() ensures Lower("erythema") == ErythemaLowered.c {}

  lemma ErythemaLowers()
    ensures Lower(ErythemaQuestion) == ErythemaLowered.Text()
  {
    ErythemaLowersFirst();
    ErythemaLowersSecond();
    ErythemaLowersThird();
    LowersTo("Show me ", "patients with ", "erythema", ErythemaLowered);
  }

  lemma ErythemaHasErythema() ensures OccursAt(ErythemaLowered.c, "erythema", 0) {}

  lemma ErythemaAlphabet() ensures ErythemaLowered.Within(ErythemaLetters) {}

  lemma ErythemaAvoidsEa() ensures ErythemaLowered.AvoidsPair('e', 'a') {}

  lemma ErythemaLevels(q: string)
    requires Lower(q) == ErythemaLowered.Text()
    ensures !Mentions(q, "mild") && !Mentions(q, "moderate") && !Mentions(q, "severe")
  {
    var p, letters := ErythemaLowered, ErythemaLetters;
    ErythemaAlphabet();
    NotMentioned(q, p, letters, "mild", ByChar(2));
    NotMentioned(q, p, letters, "moderate", ByChar(2));
    NotMentioned(q, p, letters, "severe", ByChar(2));
  }

  lemma ErythemaOrganWords(q: string)
    requires Lower(q) == ErythemaLowered.Text()
    ensures !MentionsAny(q, CardiacWords) && !MentionsAny(q, SkinWords) && !MentionsAny(q, DigestiveWords)
  {
    var p, letters := ErythemaLowered, ErythemaLetters;
    ErythemaAlphabet();
    ErythemaAvoidsEa();
    NoneMentioned(q, p, letters, CardiacWords, [ByChar(0), ByPair(1), ByChar(0)]);
    NoneMentioned(q, p, letters, SkinWords, [ByChar(1), ByChar(0), ByChar(0)]);
    NoneMentioned(q, p, letters, DigestiveWords, [ByChar(0), ByChar(0), ByChar(0), ByChar(5)]);
  }

  lemma ErythemaOtherWords(q: string)
    requires Lower(q) == ErythemaLowered.Text()
    ensures !MentionsAny(q, InfectionWords) && !MentionsAny(q, GeneralWords)
    ensures Mentions(q, "erythema")
  {
    var p, letters := ErythemaLowered, ErythemaLetters;
    ErythemaAlphabet();
    NoneMentioned(q, p, letters, InfectionWords, [ByChar(2), ByChar(2)]);
    NoneMentioned(q, p, letters, GeneralWords, [ByChar(0), ByChar(1)]);
    ErythemaHasErythema();
    MentionedIn(q, p, "erythema", 2, 0);
  }

  /** The third expected mapping of the test script. */
  lemma ErythemaQuestionMapping()
    ensures Classify(ErythemaQuestion) == Intent(Term, "ERYTHEMA")
  {
    var q := ErythemaQuestion;
    ErythemaLowers();
    ErythemaLevels(q);
    SeverityNeedsLevel(q);
    ErythemaOrganWords(q);
    ErythemaOtherWords(q);
    BodySystemSilent(q);
    ConditionFirstKey(q, 0);
  }

  // ---- "Who had mild severity events?" ----

  const MildQuestion := "Who had " + "mild severity " + "events?"
  const MildLowered := Parts("who had ", "mild severity ", "events?")

  lemma MildLowersFirst() ensures Lower("Who had ") == MildLowered.a {}
  lemma MildLowersSecond() ensures Lower("mild severity ") == MildLowered.b {}
  lemma MildLowersThird() ensures Lower("events?") == MildLowered.c {}

  lemma MildLowers()
    ensures Lower(MildQuestion) == MildLowered.Text()
  {
    MildLowersFirst();
    MildLowersSecond();
    MildLowersThird();
    LowersTo("Who had ", "mild severity ", "events?", MildLowered);
  }

  lemma MildHasSeverity() ensures OccursAt(MildLowered.b, "severity", 5) {}
  lemma MildHasMild() ensures OccursAt(MildLowered.b, "mild", 0) {}

  /** The first question of the advanced test suite. */
  lemma MildSeverityQuestion()
    ensures Classify(MildQuestion) == Intent(Severity, "MILD")
  {
    var q, p := MildQuestion, MildLowered;
    MildLowers();
    MildHasSeverity();
    MentionedIn(q, p, "severity", 1, 5);
    MildHasMild();
    MentionedIn(q, p, "mild", 1, 0);
    assert MentionsAny(q, SeverityWords) by { assert Mentions(q, SeverityWords[0]); }
    SeverityRuleFirst(q);
  }

  // ---- "Show me skin disorders" ----

  const SkinQuestion := "Show me " + "skin " + "disorders"
  const SkinLowered := Parts("show me ", "skin ", "disorders")
  const SkinLetters := {' ', 'd', 'e', 'h', 'i', 'k', 'm', 'n', 'o', 'r', 's', 'w'}

  lemma SkinLowersFirst() ensures Lower("Show me ") == SkinLowered.a {}
  lemma SkinLowersSecond() ensures Lower("skin ") == SkinLowered.b {}
  lemma SkinLowersThird() ensures Lower("disorders") == SkinLowered.c {}

  lemma SkinLowers()
    ensures Lower(SkinQuestion) == SkinLowered.Text()
  {
    SkinLowersFirst();
    SkinLowersSecond();
    SkinLowersThird();
    LowersTo("Show me ", "skin ", "disorders", SkinLowered);
  }

  lemma SkinHasSkin() ensures OccursAt(SkinLowered.b, "skin", 0) {}

  lemma SkinAlphabet() ensures SkinLowered.Within(SkinLetters) {}

  lemma SkinKeywords(q: string)
    requires Lower(q) == SkinLowered.Text()
    ensures !Mentions(q, "mild") && !Mentions(q, "moderate") && !Mentions(q, "severe")
    ensures !MentionsAny(q, CardiacWords) && Mentions(q, "skin")
  {
    var p, letters := SkinLowered, SkinLetters;
    SkinAlphabet();
    NotMentioned(q, p, letters, "mild", ByChar(2));
    NotMentioned(q, p, letters, "moderate", ByChar(5));
    NotMentioned(q, p, letters, "severe", ByChar(2));
    NoneMentioned(q, p, letters, CardiacWords, [ByChar(0), ByChar(2), ByChar(0)]);
    SkinHasSkin();
    MentionedIn(q, p, "skin", 1, 0);
  }

  /** The second question of the advanced test suite. */
  lemma SkinQuestionMapping()
    ensures Classify(SkinQuestion) == Intent(SystemOrganClass, "SKIN AND SUBCUTANEOUS TISSUE DISORDERS")
  {
    var q := SkinQuestion;
    SkinLowers();
    SkinKeywords(q);
    SeverityNeedsLevel(q);
    assert MentionsAny(q, SkinWords) by { assert Mentions(q, SkinWords[0]); }
    BodySystemOrder(q);
  }

  // ---- "Which subjects had gastrointestinal adverse events?" ----

  const DigestiveQuestion := "Which subjects had " + "gastrointestinal " + "adverse events?"
  const DigestiveLowered := Parts("which subjects had ", "gastrointestinal ", "adverse events?")
  const DigestiveLetters := {' ', '?', 'a', 'b', 'c', 'd', 'e', 'g', 'h', 'i', 'j', 'l', 'n', 'o', 'r', 's', 't', 'u', 'v', 'w'}

  lemma DigestiveLowersFirst() ensures Lower("Which subjects had ") == DigestiveLowered.a {}
  lemma DigestiveLowersSecond() ensures Lower("gastrointestinal ") == DigestiveLowered.b {}
  lemma DigestiveLowersThird() ensures Lower("adverse events?") == DigestiveLowered.c {}

  lemma DigestiveLowers()
    ensures Lower(DigestiveQuestion) == DigestiveLowered.Text()
  {
    DigestiveLowersFirst();
    DigestiveLowersSecond();
    DigestiveLowersThird();
    LowersTo("Which subjects had ", "gastrointestinal ", "adverse events?", DigestiveLowered);
  }

  lemma DigestiveHasGastrointestinal() ensures OccursAt(DigestiveLowered.b, "gastrointestinal", 0) {}

  lemma DigestiveAlphabet() ensures DigestiveLowered.Within(DigestiveLetters) {}

  lemma DigestiveAvoidsRe() ensures DigestiveLowered.AvoidsPair('r', 'e') {}
  lemma DigestiveAvoidsCa() ensures DigestiveLowered.AvoidsPair('c', 'a') {}
  lemma DigestiveAvoidsEa() ensures DigestiveLowered.AvoidsPair('e', 'a') {}

  lemma DigestiveLevels(q: string)
    requires Lower(q) == DigestiveLowered.Text()
    ensures !Mentions(q, "mild") && !Mentions(q, "moderate") && !Mentions(q, "severe")
  {
    var p, letters := DigestiveLowered, DigestiveLetters;
    DigestiveAlphabet();
    NotMentioned(q, p, letters, "mild", ByChar(0));
    NotMentioned(q, p, letters, "moderate", ByChar(0));
    DigestiveAvoidsRe();
    NotMentioned(q, p, letters, "severe", ByPair(4));
  }

  lemma DigestiveCardiacWords(q: string)
    requires Lower(q) == DigestiveLowered.Text()
    ensures !MentionsAny(q, CardiacWords)
  {
    var p, letters := DigestiveLowered, DigestiveLetters;
    DigestiveAlphabet();
    DigestiveAvoidsCa();
    DigestiveAvoidsEa();
    NoneMentioned(q, p, letters, CardiacWords, [ByPair(0), ByPair(1), ByPair(0)]);
  }

  lemma DigestiveOrganWords(q: string)
    requires Lower(q) == DigestiveLowered.Text()
    ensures !MentionsAny(q, SkinWords) && Mentions(q, "gastrointestinal")
  {
    var p, letters := DigestiveLowered, DigestiveLetters;
    DigestiveAlphabet();
    NoneMentioned(q, p, letters, SkinWords, [ByChar(1), ByChar(3), ByChar(3)]);
    DigestiveHasGastrointestinal();
    MentionedIn(q, p, "gastrointestinal", 1, 0);
  }

  /** The third question of the advanced test suite. */
  lemma DigestiveQuestionMapping()
    ensures Classify(DigestiveQuestion) == Intent(SystemOrganClass, "GASTROINTESTINAL DISORDERS")
  {
    var q := DigestiveQuestion;
    DigestiveLowers();
    DigestiveLevels(q);
    SeverityNeedsLevel(q);
    DigestiveCardiacWords(q);
    DigestiveOrganWords(q);
    assert MentionsAny(q, DigestiveWords) by { assert Mentions(q, DigestiveWords[0]); }
    BodySystemOrder(q);
  }

  // ---- "List patients with fatigue" ----

  const FatigueQuestion := "List patients " + "with " + "fatigue"
  const FatigueLowered := Parts("list patients ", "with ", "fatigue")
  const FatigueLetters := {' ', 'a', 'e', 'f', 'g', 'h', 'i', 'l', 'n', 'p', 's', 't', 'u', 'w'}

  lemma FatigueLowersFirst() ensures Lower("List patients ") == FatigueLowered.a {}
  lemma FatigueLowersSecond() ensures Lower("with ") == FatigueLowered.b {}
  lemma FatigueLowersThird() ensures Lower("fatigue") == FatigueLowered.c {}

  lemma FatigueLowers()
    ensures Lower(FatigueQuestion) == FatigueLowered.Text()
  {
    FatigueLowersFirst();
    FatigueLowersSecond();
    FatigueLowersThird();
    LowersTo("List patients ", "with ", "fatigue", FatigueLowered);
  }

  lemma FatigueHasFatigue() ensures OccursAt(FatigueLowered.c, "fatigue", 0) {}

  lemma FatigueAlphabet() ensures FatigueLowered.Within(FatigueLetters) {}

  lemma FatigueAvoidsGi() ensures FatigueLowered.AvoidsPair('g', 'i') {}

  lemma FatigueLevels(q: string)
    requires Lower(q) == FatigueLowered.Text()
    ensures !Mentions(q, "mild") && !Mentions(q, "moderate") && !Mentions(q, "severe")
  {
    var p, letters := FatigueLowered, FatigueLetters;
    FatigueAlphabet();
    NotMentioned(q, p, letters, "mild", ByChar(0));
    NotMentioned(q, p, letters, "moderate", ByChar(0));
    NotMentioned(q, p, letters, "severe", ByChar(2));
  }

  lemma FatigueOrganWords(q: string)
    requires Lower(q) == FatigueLowered.Text()
    ensures !MentionsAny(q, CardiacWords) && !MentionsAny(q, SkinWords) && !MentionsAny(q, DigestiveWords)
  {
    var p, letters := FatigueLowered, FatigueLetters;
    FatigueAlphabet();
    NoneMentioned(q, p, letters, CardiacWords, [ByChar(0), ByChar(3), ByChar(0)]);
    NoneMentioned(q, p, letters, SkinWords, [ByChar(1), ByChar(0), ByChar(0)]);
    FatigueAvoidsGi();
    NoneMentioned(q, p, letters, DigestiveWords, [ByChar(4), ByChar(0), ByPair(0), ByChar(3)]);
  }

  lemma FatigueOtherWords(q: string)
    requires Lower(q) == FatigueLowered.Text()
    ensures !MentionsAny(q, InfectionWords) && !MentionsAny(q, GeneralWords)
    ensures !Mentions(q, "erythema") && !Mentions(q, "diarrhea") && !Mentions(q, "diarrhoea")
    ensures Mentions(q, "fatigue")
  {
    var p, letters := FatigueLowered, FatigueLetters;
    FatigueAlphabet();
    NoneMentioned(q, p, letters, InfectionWords, [ByChar(4), ByChar(4)]);
    NoneMentioned(q, p, letters, GeneralWords, [ByChar(4), ByChar(1)]);
    NotMentioned(q, p, letters, "erythema", ByChar(2));
    NotMentioned(q, p, letters, "diarrhea", ByChar(0));
    NotMentioned(q, p, letters, "diarrhoea", ByChar(0));
    FatigueHasFatigue();
    MentionedIn(q, p, "fatigue", 2, 0);
  }

  /** The fourth question of the advanced test suite: the fourth key of the condition table. */
  lemma FatigueQuestionMapping()
    ensures Classify(FatigueQuestion) == Intent(Term, "FATIGUE")
  {
    var q := FatigueQuestion;
    FatigueLowers();
    FatigueLevels(q);
    SeverityNeedsLevel(q);
    FatigueOrganWords(q);
    FatigueOtherWords(q);
    BodySystemSilent(q);
    assert Conditions[0].0 == "erythema" && Conditions[1].0 == "diarrhea" && Conditions[2].0 == "diarrhoea";
    ConditionFirstKey(q, 3);
  }
}
