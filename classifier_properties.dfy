/**
 * What the question classifier promises: the order in which its rules are
 * tried, what each rule answers once it is reached, and when the default
 * answers.
 */
module ClassifierProperties {
  import opened Wrappers
  import opened Ascii
  import opened Substrings
  import opened Classifier

  /** Only the lowered question matters: questions equal up to ASCII case are classified alike. */
  lemma ClassifyIgnoresCase(a: string, b: string)
    requires EqualIgnoringCase(a, b)
    ensures Classify(a) == Classify(b)
  {
    EqualIgnoringCaseIffSameLower(a, b);
  }

  /**
   * When no rule answers, the default (AESEV, MILD) does. A severity or
   * relationship word without one of its level words does not make its rule
   * answer, so such questions get the default too.
   */
  lemma DefaultWhenNoKeyword(q: string)
    requires !MentionsAny(q, SeverityWords) || (!Mentions(q, "mild") && !Mentions(q, "moderate") && !Mentions(q, "severe"))
    requires !MentionsAny(q, CardiacWords) && !MentionsAny(q, SkinWords) && !MentionsAny(q, DigestiveWords)
    requires !MentionsAny(q, InfectionWords) && !MentionsAny(q, GeneralWords)
    requires forall k :: 0 <= k < |Conditions| ==> !Mentions(q, Conditions[k].0)
    requires !Mentions(q, "serious")
    requires !(Mentions(q, "relationship") || Mentions(q, "related"))
             || (!Mentions(q, "probable") && !Mentions(q, "possible") && !Mentions(q, "remote") && !Mentions(q, "none"))
    requires !Mentions(q, "outcome") && !Mentions(q, "resolved") && !Mentions(q, "recovered")
    ensures Classify(q) == Intent(Severity, "MILD")
  {
    assert FirstMatch(Lower(q), Conditions, 0).None?;
  }

  /** The severity rule goes first; within it 'mild' beats 'moderate', which beats 'severe'. */
  lemma SeverityRuleFirst(q: string)
    requires MentionsAny(q, SeverityWords)
    ensures Mentions(q, "mild") ==> Classify(q) == Intent(Severity, "MILD")
    ensures !Mentions(q, "mild") && Mentions(q, "moderate") ==> Classify(q) == Intent(Severity, "MODERATE")
    ensures !Mentions(q, "mild") && !Mentions(q, "moderate") && Mentions(q, "severe")
            ==> Classify(q) == Intent(Severity, "SEVERE")
  {
  }

  /** Without a level word the severity rule never answers, whatever severity words the question has. */
  lemma SeverityNeedsLevel(q: string)
    requires !Mentions(q, "mild") && !Mentions(q, "moderate") && !Mentions(q, "severe")
    ensures SeverityRule(Lower(q)).None?
  {
  }

  /** The body-system rules stay silent when none of their words is mentioned. */
  lemma BodySystemSilent(q: string)
    requires !MentionsAny(q, CardiacWords) && !MentionsAny(q, SkinWords) && !MentionsAny(q, DigestiveWords)
    requires !MentionsAny(q, InfectionWords) && !MentionsAny(q, GeneralWords)
    ensures BodySystemRule(Lower(q)).None?
  {
  }

  /** 'severe' is both a trigger and a level, so a question containing it is always a severity query. */
  lemma SevereDecidesSeverity(q: string)
    requires Mentions(q, "severe")
    ensures Classify(q).target == Severity
    ensures Classify(q).filterValue != "SEVERE" ==> Mentions(q, "mild") || Mentions(q, "moderate")
  {
    assert Contains(Lower(q), SeverityWords[1]);
  }

  /** A severity answer comes from a question with a severity word, or is the default. */
  lemma SeverityAnswerSource(q: string)
    ensures Classify(q).target == Severity ==> MentionsAny(q, SeverityWords) || Classify(q) == Default
  {
    var ql := Lower(q);
    if Classify(q).target == Severity && SeverityRule(ql).None? {
      assert Classify(q) == LateRules(ql);
    }
  }

  /** Once the severity rule is silent, body systems are tried: cardiac, skin, digestive, infection, general. */
  lemma BodySystemOrder(q: string)
    requires SeverityRule(Lower(q)).None?
    ensures MentionsAny(q, CardiacWords) ==> Classify(q) == Intent(SystemOrganClass, "CARDIAC DISORDERS")
    ensures !MentionsAny(q, CardiacWords) && MentionsAny(q, SkinWords)
            ==> Classify(q) == Intent(SystemOrganClass, "SKIN AND SUBCUTANEOUS TISSUE DISORDERS")
    ensures !MentionsAny(q, CardiacWords) && !MentionsAny(q, SkinWords) && MentionsAny(q, DigestiveWords)
            ==> Classify(q) == Intent(SystemOrganClass, "GASTROINTESTINAL DISORDERS")
    ensures !MentionsAny(q, CardiacWords) && !MentionsAny(q, SkinWords) && !MentionsAny(q, DigestiveWords)
            && MentionsAny(q, InfectionWords)
            ==> Classify(q) == Intent(SystemOrganClass, "INFECTIONS AND INFESTATIONS")
    ensures !MentionsAny(q, CardiacWords) && !MentionsAny(q, SkinWords) && !MentionsAny(q, DigestiveWords)
            && !MentionsAny(q, InfectionWords) && MentionsAny(q, GeneralWords)
            ==> Classify(q) == Intent(SystemOrganClass, "GENERAL DISORDERS AND ADMINISTRATION SITE CONDITIONS")
  {
  }

  /**
   * "gi" is matched as a raw substring: any mentioned word that contains it
   * (such as "give") makes the question a gastrointestinal one, unless an
   * earlier rule answered.
   */
  lemma GiMatchesInsideWords(q: string, word: string)
    requires SeverityRule(Lower(q)).None?
    requires !MentionsAny(q, CardiacWords) && !MentionsAny(q, SkinWords)
    requires Mentions(q, word) && Contains(word, "gi")
    ensures Classify(q) == Intent(SystemOrganClass, "GASTROINTESTINAL DISORDERS")
  {
    ContainsTransitive(Lower(q), word, "gi");
    assert Contains(Lower(q), DigestiveWords[2]);
  }

  /** Conditions are looked up in insertion order: the first keyword present decides the term. */
  lemma ConditionFirstKey(q: string, k: int)
    requires SeverityRule(Lower(q)).None? && BodySystemRule(Lower(q)).None?
    requires 0 <= k < |Conditions| && Mentions(q, Conditions[k].0)
    requires forall j :: 0 <= j < k ==> !Mentions(q, Conditions[j].0)
    ensures Classify(q) == Intent(Term, Conditions[k].1)
  {
    var m := FirstMatch(Lower(q), Conditions, 0);
    assert m.Some?;
    assert m.value == k;
  }

  /** Both spellings of diarrhoea map to the same term (erythema, listed earlier, wins over either). */
  lemma DiarrhoeaSpellings(q: string)
    requires SeverityRule(Lower(q)).None? && BodySystemRule(Lower(q)).None?
    requires !Mentions(q, "erythema")
    requires Mentions(q, "diarrhea") || Mentions(q, "diarrhoea")
    ensures Classify(q) == Intent(Term, "DIARRHOEA")
  {
    if Mentions(q, "diarrhea") {
      ConditionFirstKey(q, 1);
    } else {
      ConditionFirstKey(q, 2);
    }
  }

  /** Once reached, the serious rule answers 'Y': its 'N' branch cannot be taken. */
  lemma SeriousAlwaysYes(q: string)
    ensures Classify(q).target == Serious ==> Classify(q).filterValue == "Y"
    ensures SeverityRule(Lower(q)).None? && BodySystemRule(Lower(q)).None? && ConditionRule(Lower(q)).None?
            && Mentions(q, "serious")
            ==> Classify(q) == Intent(Serious, "Y")
  {
    var ql := Lower(q);
    if Classify(q).target == Serious {
      assert SeriousRule(ql).Some? && Classify(q) == SeriousRule(ql).value;
    }
  }

  /** A relationship answer needs both a relationship word and a level word. */
  lemma RelatednessNeedsLevel(q: string)
    ensures Classify(q).target == Relatedness
            ==> (Mentions(q, "relationship") || Mentions(q, "related"))
                && (Mentions(q, "probable") || Mentions(q, "possible") || Mentions(q, "remote") || Mentions(q, "none"))
  {
    var ql := Lower(q);
    if Classify(q).target == Relatedness {
      assert RelationshipRule(ql).Some? && Classify(q) == RelationshipRule(ql).value;
    }
  }

  /** A relationship question with no level word falls through to the outcome rule and the default. */
  lemma RelationshipWithoutLevelFallsThrough(q: string)
    requires SeverityRule(Lower(q)).None? && BodySystemRule(Lower(q)).None?
    requires ConditionRule(Lower(q)).None? && SeriousRule(Lower(q)).None?
    requires !Mentions(q, "probable") && !Mentions(q, "possible") && !Mentions(q, "remote") && !Mentions(q, "none")
    ensures Classify(q) == LateRules(Lower(q))
  {
  }

  /**
   * Once the earlier rules are silent, a relationship word with a level word
   * answers on AEREL, 'probable' before 'possible' before 'remote' before 'none'.
   */
  lemma RelationshipLevels(q: string)
    requires SeverityRule(Lower(q)).None? && BodySystemRule(Lower(q)).None?
    requires ConditionRule(Lower(q)).None? && SeriousRule(Lower(q)).None?
    requires Mentions(q, "relationship") || Mentions(q, "related")
    ensures Mentions(q, "probable") ==> Classify(q) == Intent(Relatedness, "PROBABLE")
    ensures !Mentions(q, "probable") && Mentions(q, "possible") ==> Classify(q) == Intent(Relatedness, "POSSIBLE")
    ensures !Mentions(q, "probable") && !Mentions(q, "possible") && Mentions(q, "remote")
            ==> Classify(q) == Intent(Relatedness, "REMOTE")
    ensures !Mentions(q, "probable") && !Mentions(q, "possible") && !Mentions(q, "remote") && Mentions(q, "none")
            ==> Classify(q) == Intent(Relatedness, "NONE")
  {
  }

  /**
   * A question that reaches the outcome rule with an outcome word is answered
   * on AEOUT, unresolved exactly when it contains "not"; without one it gets
   * the default.
   */
  lemma OutcomeReached(q: string)
    requires SeverityRule(Lower(q)).None? && BodySystemRule(Lower(q)).None?
    requires ConditionRule(Lower(q)).None? && SeriousRule(Lower(q)).None? && RelationshipRule(Lower(q)).None?
    ensures Mentions(q, "outcome") || Mentions(q, "resolved") || Mentions(q, "recovered")
            ==> Classify(q) == Intent(Outcome,
                  if Mentions(q, "not") then "NOT RECOVERED/NOT RESOLVED" else "RECOVERED/RESOLVED")
    ensures !(Mentions(q, "outcome") || Mentions(q, "resolved") || Mentions(q, "recovered"))
            ==> Classify(q) == Intent(Severity, "MILD")
  {
  }

  /**
   * The last condition key can never decide the answer: "respiratory
   * infection" contains "infection", so the body-system rule (or the
   * severity rule before it) has already answered.
   */
  lemma RespiratoryInfectionNeverAnswers(q: string)
    ensures Classify(q) != Intent(Term, "UPPER RESPIRATORY TRACT INFECTION")
  {
    var ql := Lower(q);
    if Cascade(ql).target == Term {
      TermAnswerSilent(ql);
      var k := FirstMatch(ql, Conditions, 0).value;
      if Conditions[k].1 == "UPPER RESPIRATORY TRACT INFECTION" {
        OnlyRespiratoryKey(k);
        RespiratoryMentionsInfection();
        InfectionInsideKey(ql, Conditions[k].0);
        assert false;
      }
    }
  }

  /** A term answer means the severity and body-system rules were silent and the condition rule answered. */
  lemma TermAnswerSilent(ql: string)
    requires Cascade(ql).target == Term
    ensures SeverityRule(ql).None? && BodySystemRule(ql).None? && ConditionRule(ql) == Some(Cascade(ql))
  {
  }

  /** A lowered question containing a key that contains "infection" is answered by the body-system rule or earlier. */
  lemma InfectionInsideKey(ql: string, key: string)
    requires Contains(ql, key) && Contains(key, InfectionWords[0])
    ensures BodySystemRule(ql).Some?
  {
    ContainsTransitive(ql, key, InfectionWords[0]);
  }

  /** Only the key "respiratory infection" maps to the upper respiratory tract infection term. */
  lemma OnlyRespiratoryKey(k: int)
    requires 0 <= k < |Conditions| && Conditions[k].1 == "UPPER RESPIRATORY TRACT INFECTION"
    ensures Conditions[k].0 == "respiratory infection"
  {
  }

  lemma RespiratoryMentionsInfection()
    ensures Contains(Conditions[10].0, InfectionWords[0])
  {
    assert OccursAt("respiratory infection", "infection", 12);
    ContainsWitness("respiratory infection", "infection", 12);
  }

  /** An outcome answer is the unresolved one exactly when the question contains "not". */
  lemma OutcomeNotIff(q: string)
    ensures Classify(q).target == Outcome
            ==> (Mentions(q, "outcome") || Mentions(q, "resolved") || Mentions(q, "recovered"))
                && (Classify(q).filterValue == "NOT RECOVERED/NOT RESOLVED" <==> Mentions(q, "not"))
  {
    var ql := Lower(q);
    if Classify(q).target == Outcome {
      assert OutcomeRule(ql).Some? && Classify(q) == OutcomeRule(ql).value;
    }
  }
}
