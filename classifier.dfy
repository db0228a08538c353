/**
 * The rule-based question classifier of the clinical data agent (its
 * "mock LLM"): a question is lowered once and then run through an ordered
 * cascade of substring tests; the first rule that answers decides the
 * (target column, filter value) pair, and a fixed default answers when no
 * rule does.
 */
module Classifier {
  import opened Wrappers
  import opened Ascii
  import opened Substrings

  /** The adverse-event columns a question can be mapped to. */
  datatype Column = Term | Severity | SystemOrganClass | BodySystem | Serious | Relatedness | Outcome
  {
    /** The column's name in the adverse-events table. */
    function Name(): string
    {
      match this
      case Term => "AETERM"
      case Severity => "AESEV"
      case SystemOrganClass => "AESOC"
      case BodySystem => "AEBODSYS"
      case Serious => "AESER"
      case Relatedness => "AEREL"
      case Outcome => "AEOUT"
    }
  }

  /** The classifier's answer: `{"target_column": ..., "filter_value": ...}`. */
  datatype Intent = Intent(target: Column, filterValue: string)

  const SeverityWords: seq<string> := ["severity", "severe", "intensity", "intense"]
  const CardiacWords: seq<string> := ["cardiac", "heart", "cardiovascular"]
  const SkinWords: seq<string> := ["skin", "dermal", "dermatologic"]
  const DigestiveWords: seq<string> := ["gastrointestinal", "digestive", "gi", "stomach"]
  const InfectionWords: seq<string> := ["infection", "infectious"]
  const GeneralWords: seq<string> := ["general disorder", "administration site"]

  /** The condition keywords and the adverse-event terms they stand for, in insertion order. */
  const Conditions: seq<(string, string)> := [
    ("erythema", "ERYTHEMA"),
    ("diarrhea", "DIARRHOEA"),
    ("diarrhoea", "DIARRHOEA"),
    ("fatigue", "FATIGUE"),
    ("pruritus", "APPLICATION SITE PRURITUS"),
    ("itching", "APPLICATION SITE PRURITUS"),
    ("headache", "HEADACHE"),
    ("nausea", "NAUSEA"),
    ("hiatus hernia", "HIATUS HERNIA"),
    ("bundle branch block", "BUNDLE BRANCH BLOCK LEFT"),
    ("respiratory infection", "UPPER RESPIRATORY TRACT INFECTION")
  ]

  const Default: Intent := Intent(Severity, "MILD")

  const SeverityLevels: set<string> := {"MILD", "MODERATE", "SEVERE"}
  const OrganClasses: set<string> := {
    "CARDIAC DISORDERS", "SKIN AND SUBCUTANEOUS TISSUE DISORDERS", "GASTROINTESTINAL DISORDERS",
    "INFECTIONS AND INFESTATIONS", "GENERAL DISORDERS AND ADMINISTRATION SITE CONDITIONS"
  }
  const SeriousFlags: set<string> := {"Y", "N"}
  const RelatednessLevels: set<string> := {"PROBABLE", "POSSIBLE", "REMOTE", "NONE"}
  const Outcomes: set<string> := {"RECOVERED/RESOLVED", "NOT RECOVERED/NOT RESOLVED"}

  /** A term the condition table maps some keyword to. */
  predicate KnownTerm(value: string)
  {
    exists k :: 0 <= k < |Conditions| && Conditions[k].1 == value
  }

  /** The filter values the classifier may pair with each column. */
  predicate KnownValue(target: Column, value: string)
  {
    match target
    case Severity => value in SeverityLevels
    case SystemOrganClass => value in OrganClasses
    case Term => KnownTerm(value)
    case Serious => value in SeriousFlags
    case Relatedness => value in RelatednessLevels
    case Outcome => value in Outcomes
    case BodySystem => false
  }

  /** An answer the classifier may give: a known value on a column other than the body system. */
  predicate Answerable(i: Intent)
  {
    i.target != BodySystem && KnownValue(i.target, i.filterValue)
  }

  /**
   * The first index at or after `from` whose keyword occurs in `ql`: the
   * loop over the condition dictionary, which returns on its first hit.
   */
  function FirstMatch(ql: string, table: seq<(string, string)>, from: nat): (r: Option<nat>)
    requires from <= |table|
    ensures r.Some? ==> from <= r.value < |table| && Contains(ql, table[r.value].0)
    ensures r.Some? ==> forall j :: from <= j < r.value ==> !Contains(ql, table[j].0)
    ensures r.None? ==> forall j :: from <= j < |table| ==> !Contains(ql, table[j].0)
    decreases |table| - from
  {
    if from == |table| then None
    else if Contains(ql, table[from].0) then Some(from)
    else FirstMatch(ql, table, from + 1)
  }

  /** Severity rule: a severity word plus a level; without a level it falls through. */
  function SeverityRule(ql: string): (r: Option<Intent>)
    ensures r.Some? ==> r.value.target == Severity && r.value.filterValue in SeverityLevels
  {
    if AnyIn(ql, SeverityWords) then
      if Contains(ql, "mild") then Some(Intent(Severity, "MILD"))
      else if Contains(ql, "moderate") then Some(Intent(Severity, "MODERATE"))
      else if Contains(ql, "severe") then Some(Intent(Severity, "SEVERE"))
      else None
    else None
  }

  /** Body-system rules, tried cardiac, skin, digestive, infection, general. */
  function BodySystemRule(ql: string): (r: Option<Intent>)
    ensures r.Some? ==> r.value.target == SystemOrganClass && r.value.filterValue in OrganClasses
  {
    if AnyIn(ql, CardiacWords) then Some(Intent(SystemOrganClass, "CARDIAC DISORDERS"))
    else if AnyIn(ql, SkinWords) then Some(Intent(SystemOrganClass, "SKIN AND SUBCUTANEOUS TISSUE DISORDERS"))
    else if AnyIn(ql, DigestiveWords) then Some(Intent(SystemOrganClass, "GASTROINTESTINAL DISORDERS"))
    else if AnyIn(ql, InfectionWords) then Some(Intent(SystemOrganClass, "INFECTIONS AND INFESTATIONS"))
    else if AnyIn(ql, GeneralWords) then
      Some(Intent(SystemOrganClass, "GENERAL DISORDERS AND ADMINISTRATION SITE CONDITIONS"))
    else None
  }

  /** Condition rule: the first condition keyword present names the term. */
  function ConditionRule(ql: string): (r: Option<Intent>)
    ensures r.Some? ==> r.value.target == Term && KnownTerm(r.value.filterValue)
  {
    match FirstMatch(ql, Conditions, 0)
    case Some(k) => Some(Intent(Term, Conditions[k].1))
    case None => None
  }

  /** Serious-event rule, with the source's value test kept as written. */
  function SeriousRule(ql: string): (r: Option<Intent>)
    ensures r.Some? ==> r.value.target == Serious && r.value.filterValue in SeriousFlags
  {
    if Contains(ql, "serious") then
      Some(Intent(Serious, if Contains(ql, "yes") || Contains(ql, "serious") then "Y" else "N"))
    else None
  }

  /** Relationship rule: a relationship word plus a level; without a level it falls through. */
  function RelationshipRule(ql: string): (r: Option<Intent>)
    ensures r.Some? ==> r.value.target == Relatedness && r.value.filterValue in RelatednessLevels
    ensures r.Some? <==> (Contains(ql, "relationship") || Contains(ql, "related"))
                         && (Contains(ql, "probable") || Contains(ql, "possible")
                             || Contains(ql, "remote") || Contains(ql, "none"))
  {
    if Contains(ql, "relationship") || Contains(ql, "related") then
      if Contains(ql, "probable") then Some(Intent(Relatedness, "PROBABLE"))
      else if Contains(ql, "possible") then Some(Intent(Relatedness, "POSSIBLE"))
      else if Contains(ql, "remote") then Some(Intent(Relatedness, "REMOTE"))
      else if Contains(ql, "none") then Some(Intent(Relatedness, "NONE"))
      else None
    else None
  }

  /** Outcome rule: "not" anywhere selects the unresolved outcome. */
  function OutcomeRule(ql: string): (r: Option<Intent>)
    ensures r.Some? ==> r.value.target == Outcome && r.value.filterValue in Outcomes
    ensures r.Some? <==> Contains(ql, "outcome") || Contains(ql, "resolved") || Contains(ql, "recovered")
    ensures r.Some? ==> (r.value.filterValue == "NOT RECOVERED/NOT RESOLVED" <==> Contains(ql, "not"))
  {
    if Contains(ql, "outcome") || Contains(ql, "resolved") || Contains(ql, "recovered") then
      if Contains(ql, "not") then Some(Intent(Outcome, "NOT RECOVERED/NOT RESOLVED"))
      else Some(Intent(Outcome, "RECOVERED/RESOLVED"))
    else None
  }

  /** The lowered question contains `word`. */
  predicate Mentions(question: string, word: string)
  {
    Contains(Lower(question), word)
  }

  /** The lowered question contains one of `words`. */
  predicate MentionsAny(question: string, words: seq<string>)
  {
    AnyIn(Lower(question), words)
  }

  /** `first` if it answers, otherwise `second`. */
  function OrElse(first: Option<Intent>, second: Intent): Intent
  {
    match first
    case Some(i) => i
    case None => second
  }

  /**
   * The rules after the relationship rule, with the default at the end: an
   * outcome word gives an AEOUT answer, and without one the default answers.
   */
  function LateRules(ql: string): (r: Intent)
    ensures Answerable(r)
    ensures r.target == Outcome <==> Contains(ql, "outcome") || Contains(ql, "resolved") || Contains(ql, "recovered")
    ensures r.target != Outcome ==> r == Default
  {
    OrElse(OutcomeRule(ql), Default)
  }

  /** The whole cascade over an already lowered question. */
  function Cascade(ql: string): (r: Intent)
    ensures Answerable(r)
  {
    OrElse(SeverityRule(ql),
    OrElse(BodySystemRule(ql),
    OrElse(ConditionRule(ql),
    OrElse(SeriousRule(ql),
    OrElse(RelationshipRule(ql),
    LateRules(ql))))))
  }

  /**
   * `_mock_llm_response`: lower the question, run the cascade. Total: every
   * question gets an answer, never on the body-system column, always with
   * one of the values the schema lists for the chosen column.
   */
  function Classify(question: string): (r: Intent)
    ensures Answerable(r)
  {
    Cascade(Lower(question))
  }
}
