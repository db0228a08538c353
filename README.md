# Clinical data agent: rule-based classifier and subject query

This project models the two pieces of logic in the clinical trial data agent
(`ClinicalTrialDataAgent` in `question_4_clinical_agent/clinical_data_agent.py`)
and proves properties about them:

1. **The rule-based question classifier** (`_mock_llm_response`). This is the
   "mock LLM" the agent uses when no language model is configured, and also
   its fallback when the model fails. It lowers the question once, then runs
   an ordered cascade of substring tests:
   - severity words with a level (mild, then moderate, then severe);
   - body-system words (cardiac, skin, digestive, infection, general);
   - the condition dictionary, searched in insertion order;
   - the serious-event rule;
   - relationship words with a level;
   - outcome words.

   The first rule that answers decides the `(target_column, filter_value)`
   pair. When none answers, the default `(AESEV, MILD)` applies.
2. **The data side of `query`**:
   - Keep the adverse-event records whose target cell, upper-cased, equals
     the upper-cased filter value.
   - List the distinct `USUBJID` values of the kept records, in order of
     first appearance, with their count.

   The adverse-events table is an immutable sequence of records. Each record
   maps a column name to an optional string. A missing cell (pandas' NaN) is
   `None` and never matches the filter. It does count as one subject value
   when it occurs in `USUBJID`, as it does in `Series.unique`.

Files:
- `wrappers.dfy`: the `Option` and `Result` types.
- `ascii.dfy`: ASCII `lower()`/`upper()`.
- `substrings.dfy`: Python's `word in text` and `any(...)` over keyword lists.
- `classifier.dfy`: the classifier.
- `classifier_properties.dfy`: rule order and the answers of each rule.
- `classifier_examples.dfy`: the answers to the questions of the test script.
- `sequences.dfy`: order-preserving removal of duplicates.
- `query.dfy`: the filter, the unique subjects and the count.

Some properties are worth noting. The serious-event rule can only answer
`Y`: it is reached only when "serious" occurs, and its value test
(`'yes' in q or 'serious' in q`) is then always true. The digestive keyword
"gi" is matched as a raw substring, so any word containing it (such as
"give") makes a question gastrointestinal once the earlier rules are silent.
The last condition key, "respiratory infection", can never decide the
answer: it contains "infection", so the body-system rule (or the severity
rule) has always answered before the dictionary is searched.

## Model

| member | source | states |
|---|---|---|
| Ascii.Lower | question_4_clinical_agent/clinical_data_agent.py:122 | lowering keeps the length and leaves no upper-case letter |
| Ascii.EqualIgnoringCaseIffSameLower | question_4_clinical_agent/clinical_data_agent.py:122 | two strings lower to the same text exactly when they differ only in letter case |
| Ascii.LowerAbsorbs | question_4_clinical_agent/clinical_data_agent.py:122 | lowering is idempotent and forgets an earlier upper-casing |
| Ascii.Upper | question_4_clinical_agent/clinical_data_agent.py:215 | upper-casing keeps the length and leaves no lower-case letter |
| Ascii.UpperAbsorbs | question_4_clinical_agent/clinical_data_agent.py:215 | upper-casing is idempotent and forgets an earlier lowering |
| Ascii.SameUpperIffSameLower | question_4_clinical_agent/clinical_data_agent.py:215 | comparing upper-cased forms is the same as comparing lowered forms |
| Ascii.LowerConcat | question_4_clinical_agent/clinical_data_agent.py:122 | lowering distributes over concatenation |
| Substrings.Contains | question_4_clinical_agent/clinical_data_agent.py:125-185 | `word in text`: the empty word is in every text, and a word found is no longer than the text |
| Substrings.AnyIn | question_4_clinical_agent/clinical_data_agent.py:125 | `any(word in text for word in words)` holds exactly when some listed word occurs at some index of the text |
| Substrings.ContainsIffOccurs | question_4_clinical_agent/clinical_data_agent.py:125 | `word in text` holds exactly when the word occurs at some index of the text |
| Substrings.IsPrefixIffSlice | question_4_clinical_agent/clinical_data_agent.py:125 | the character-by-character prefix test agrees with comparing a slice |
| Substrings.ContainsTransitive | question_4_clinical_agent/clinical_data_agent.py:138 | a substring of a substring of the text is a substring of the text |
| Substrings.ContainsInConcat | question_4_clinical_agent/clinical_data_agent.py:125 | a word found in either part is found in their concatenation |
| Substrings.NotContainsByChar | question_4_clinical_agent/clinical_data_agent.py:125 | a word is absent from a text that lacks one of its characters |
| Substrings.NotContainsByPair | question_4_clinical_agent/clinical_data_agent.py:125 | a word is absent from a text in which two of its adjacent characters never appear side by side |
| Classifier.FirstMatch | question_4_clinical_agent/clinical_data_agent.py:160-162 | the loop over the condition dictionary returns the first index whose key occurs, and no earlier key occurs; or no key occurs at all |
| Classifier.SeverityRule | question_4_clinical_agent/clinical_data_agent.py:125-131 | when it answers, the column is AESEV and the value is MILD, MODERATE or SEVERE |
| Classifier.BodySystemRule | question_4_clinical_agent/clinical_data_agent.py:134-143 | when it answers, the column is AESOC and the value is one of the five organ classes |
| Classifier.ConditionRule | question_4_clinical_agent/clinical_data_agent.py:146-162 | when it answers, the column is AETERM and the value is a term of the condition dictionary |
| Classifier.SeriousRule | question_4_clinical_agent/clinical_data_agent.py:165-167 | when it answers, the column is AESER and the value is Y or N |
| Classifier.RelationshipRule | question_4_clinical_agent/clinical_data_agent.py:170-178 | it answers exactly when a relationship word and a level word both occur, on AEREL with PROBABLE, POSSIBLE, REMOTE or NONE |
| Classifier.OutcomeRule | question_4_clinical_agent/clinical_data_agent.py:181-185 | it answers exactly when "outcome", "resolved" or "recovered" occurs, on AEOUT, with NOT RECOVERED/NOT RESOLVED exactly when "not" occurs |
| Classifier.LateRules | question_4_clinical_agent/clinical_data_agent.py:181-188 | the answer is on AEOUT exactly when an outcome word occurs, and is the default (AESEV, MILD) otherwise |
| Classifier.Cascade | question_4_clinical_agent/clinical_data_agent.py:124-188 | the cascade is total; its answer never names AEBODSYS and always pairs the column with a value listed for it |
| Classifier.Classify | question_4_clinical_agent/clinical_data_agent.py:111-188 | `_mock_llm_response` answers every question with one of AESEV, AESOC, AETERM, AESER, AEREL, AEOUT and a value listed for that column |
| ClassifierProperties.ClassifyIgnoresCase | question_4_clinical_agent/clinical_data_agent.py:122 | questions equal up to ASCII case are classified alike |
| ClassifierProperties.DefaultWhenNoKeyword | question_4_clinical_agent/clinical_data_agent.py:124-188 | when no rule answers, including a severity or relationship word without a level word, the answer is (AESEV, MILD) |
| ClassifierProperties.SeverityRuleFirst | question_4_clinical_agent/clinical_data_agent.py:125-131 | with a severity word present, mild beats moderate, which beats severe, before any other rule |
| ClassifierProperties.SeverityNeedsLevel | question_4_clinical_agent/clinical_data_agent.py:125-131 | without mild, moderate or severe the severity rule falls through |
| ClassifierProperties.SevereDecidesSeverity | question_4_clinical_agent/clinical_data_agent.py:125-131 | a question containing "severe" is always answered on AESEV, and with SEVERE unless mild or moderate also occur |
| ClassifierProperties.SeverityAnswerSource | question_4_clinical_agent/clinical_data_agent.py:125-188 | an AESEV answer comes from a question with a severity word, or is the default |
| ClassifierProperties.BodySystemSilent | question_4_clinical_agent/clinical_data_agent.py:134-143 | with none of the body-system words, the body-system rules do not answer |
| ClassifierProperties.BodySystemOrder | question_4_clinical_agent/clinical_data_agent.py:134-143 | once the severity rule is silent, body systems are tried cardiac, skin, digestive, infection, general, each with its organ class |
| ClassifierProperties.GiMatchesInsideWords | question_4_clinical_agent/clinical_data_agent.py:138-139 | any mentioned word containing "gi" makes the question gastrointestinal when the severity, cardiac and skin rules are silent |
| ClassifierProperties.ConditionFirstKey | question_4_clinical_agent/clinical_data_agent.py:146-162 | the first dictionary key, in insertion order, that occurs in the question decides the AETERM value |
| ClassifierProperties.DiarrhoeaSpellings | question_4_clinical_agent/clinical_data_agent.py:148-149 | both "diarrhea" and "diarrhoea" give DIARRHOEA |
| ClassifierProperties.SeriousAlwaysYes | question_4_clinical_agent/clinical_data_agent.py:165-167 | every AESER answer is Y; reaching the rule with "serious" gives (AESER, Y) |
| ClassifierProperties.RelatednessNeedsLevel | question_4_clinical_agent/clinical_data_agent.py:170-178 | an AEREL answer needs both a relationship word and a level word |
| ClassifierProperties.RelationshipWithoutLevelFallsThrough | question_4_clinical_agent/clinical_data_agent.py:170-188 | a relationship question without a level word is decided by the outcome rule and the default |
| ClassifierProperties.RelationshipLevels | question_4_clinical_agent/clinical_data_agent.py:170-178 | once the earlier rules are silent, a relationship word with a level word answers on AEREL, probable before possible before remote before none |
| ClassifierProperties.OutcomeReached | question_4_clinical_agent/clinical_data_agent.py:181-188 | once the earlier rules are silent, an outcome word gives AEOUT (NOT RECOVERED/NOT RESOLVED exactly when "not" occurs), and without one the answer is (AESEV, MILD) |
| ClassifierProperties.OutcomeNotIff | question_4_clinical_agent/clinical_data_agent.py:181-185 | an AEOUT answer needs an outcome word, and is NOT RECOVERED/NOT RESOLVED exactly when "not" occurs |
| ClassifierProperties.RespiratoryInfectionNeverAnswers | question_4_clinical_agent/clinical_data_agent.py:146-162 | no question is answered (AETERM, UPPER RESPIRATORY TRACT INFECTION) |
| ClassifierExamples.ModerateSeverityQuestion | question_4_clinical_agent/test_agent.py:25-27 | "Give me the subjects who had Adverse events of Moderate severity" gives (AESEV, MODERATE) |
| ClassifierExamples.CardiacQuestionMapping | question_4_clinical_agent/test_agent.py:30-32 | "Which subjects experienced cardiac disorders?" gives (AESOC, CARDIAC DISORDERS) |
| ClassifierExamples.ErythemaQuestionMapping | question_4_clinical_agent/test_agent.py:35-37 | "Show me patients with erythema" gives (AETERM, ERYTHEMA) |
| ClassifierExamples.MildSeverityQuestion | question_4_clinical_agent/test_agent.py:101 | "Who had mild severity events?" gives (AESEV, MILD) |
| ClassifierExamples.SkinQuestionMapping | question_4_clinical_agent/test_agent.py:102 | "Show me skin disorders" gives (AESOC, SKIN AND SUBCUTANEOUS TISSUE DISORDERS) |
| ClassifierExamples.DigestiveQuestionMapping | question_4_clinical_agent/test_agent.py:103 | "Which subjects had gastrointestinal adverse events?" gives (AESOC, GASTROINTESTINAL DISORDERS) |
| ClassifierExamples.FatigueQuestionMapping | question_4_clinical_agent/test_agent.py:104 | "List patients with fatigue" gives (AETERM, FATIGUE) |
| Sequences.FirstIndex | question_4_clinical_agent/clinical_data_agent.py:219 | the index of the first occurrence of a value, with no earlier occurrence |
| Sequences.Distinct | question_4_clinical_agent/clinical_data_agent.py:219 | `unique()`: no duplicates, exactly the input's values, never longer than the input |
| Sequences.DistinctKeepsFirstOrder | question_4_clinical_agent/clinical_data_agent.py:219 | `unique()` lists values in the order of their first appearance |
| Sequences.DistinctIsUnique | question_4_clinical_agent/clinical_data_agent.py:219 | any duplicate-free list of exactly the input's values in first-appearance order is the result of `unique()` |
| Sequences.FirstOccurrenceOrderUnique | question_4_clinical_agent/clinical_data_agent.py:219 | two lists of the same values, both in first-appearance order, are equal |
| Sequences.DistinctEmptyIff | question_4_clinical_agent/clinical_data_agent.py:219-220 | `unique()` is empty exactly when its input is |
| AdverseEventQuery.Matches | question_4_clinical_agent/clinical_data_agent.py:215 | a record matches exactly when its target cell is present and equal to the filter value ignoring case; a missing cell never matches |
| AdverseEventQuery.Filter | question_4_clinical_agent/clinical_data_agent.py:214-216 | every kept record matches, and each record is kept as often as it occurs in the table when it matches and never otherwise |
| AdverseEventQuery.FilterIsSubsequence | question_4_clinical_agent/clinical_data_agent.py:214-216 | the kept records keep their table order |
| AdverseEventQuery.FilterKeepsExactlyMatches | question_4_clinical_agent/clinical_data_agent.py:214-216 | a record of the table is kept exactly when its target cell is present and equal to the value ignoring case |
| AdverseEventQuery.FilterIgnoresValueCase | question_4_clinical_agent/clinical_data_agent.py:215 | filter values that differ only in case keep the same records |
| AdverseEventQuery.Execute | question_4_clinical_agent/clinical_data_agent.py:214-222 | fails exactly when the target or the subject column is missing, naming the target first; otherwise returns the filtered records and a duplicate-free subject list whose length is the count and is at most the number of records |
| AdverseEventQuery.ExecuteSubjects | question_4_clinical_agent/clinical_data_agent.py:219-222 | the subjects are exactly the subject cells of the kept records, in order of first appearance |
| AdverseEventQuery.ExecuteCountPositiveIff | question_4_clinical_agent/test_agent.py:61 | the count is positive exactly when some record of the table matches |
| AdverseEventQuery.Query | question_4_clinical_agent/clinical_data_agent.py:204-222 | `query` with the rule-based classifier fails exactly when the chosen column or `USUBJID` is missing, naming the chosen column first; otherwise it returns the records matching the classifier's column and value, their distinct subjects without duplicates, and the count of those subjects |
| AdverseEventQuery.QueryIgnoresCase | question_4_clinical_agent/clinical_data_agent.py:122 | questions equal up to ASCII case get the same answer from the same table |

## Left out

- Loading the table with `pd.read_csv` (line 26) is file input. The table is a parameter of `Execute` and `Query`.
- The language-model path of `_call_llm` (lines 67-109) is left out: the network call, parsing its JSON reply, and the fallback on errors. `Query` uses the rule-based classifier, which is what `_call_llm` returns when the mock is selected (lines 64-65).
- The progress messages of `query` (lines 209-211), `display_results` and `main` (lines 224-277) only print, so they are left out.
- Ascii.Lower, Ascii.Upper: only ASCII letters change case. Python's `str.lower`/`str.upper` also map other Unicode letters and can change the length (`"ß".upper() == "SS"`).
- AdverseEventQuery.Filter: all cells are strings or missing. Pandas raises an error when `.str` is used on a column that is not of string type (for example an all-NaN or numeric column); the model simply finds no match there.
- AdverseEventQuery.Execute: `filtered_df` is a copy of the kept rows, with the table's index and column layout. The model keeps the records only, without pandas' row index.
- The pass criterion of the test script (`count > 0`, test_agent.py:61) depends on the contents of `adae.csv`, which is not part of this model. `ExecuteCountPositiveIff` states what the criterion means for any table.
- The answers to the test questions are proved for the questions exactly as written. Any question equal to one of them up to ASCII case gets the same answer, by `ClassifyIgnoresCase`.
