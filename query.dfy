/**
 * The data side of the agent's `query`: keep the adverse-event records
 * whose target cell, upper-cased, equals the upper-cased filter value, then
 * list the distinct subject identifiers of the kept records in order of
 * first appearance, together with their count.
 *
 * The adverse-events table is an immutable sequence of records. A record
 * maps column names to cells; an absent or empty cell (pandas' NaN) is
 * `None`.
 */
module AdverseEventQuery {
  import opened Wrappers
  import opened Ascii
  import opened Sequences
  import opened Classifier

  /** One adverse-event record: column name to cell, `None` for a missing value. */
  type Record = map<string, Option<string>>

  /** The table: its column names and its records in file order. */
  datatype Table = Table(columns: set<string>, records: seq<Record>)

  /** The subject identifier column. */
  const SubjectColumn := "USUBJID"

  /** The cell of `column` in `record`; a record without the key holds a missing value there. */
  function Cell(record: Record, column: string): Option<string>
  {
    if column in record then record[column] else None
  }

  /**
   * `df[column].str.upper() == value.upper()` for one record: a missing
   * cell stays missing after `.str.upper()` and compares unequal to any
   * string.
   */
  function Matches(record: Record, column: string, value: string): (b: bool)
    ensures b <==> column in record && record[column].Some? && EqualIgnoringCase(record[column].value, value)
  {
    var cell := Cell(record, column);
    if cell.Some? then
      EqualIgnoringCaseIffSameLower(cell.value, value);
      SameUpperIffSameLower(cell.value, value);
      Upper(cell.value) == Upper(value)
    else false
  }

  /** The records kept by the equality filter, in table order. */
  function Filter(records: seq<Record>, column: string, value: string): (kept: seq<Record>)
    ensures forall i :: 0 <= i < |kept| ==> Matches(kept[i], column, value)
    ensures forall r :: multiset(kept)[r] == if Matches(r, column, value) then multiset(records)[r] else 0
    ensures |kept| <= |records|
  {
    if |records| == 0 then []
    else
      var rest := Filter(records[1..], column, value);
      assert records == [records[0]] + records[1..];
      if Matches(records[0], column, value) then [records[0]] + rest else rest
  }

  /** The filter keeps records in their table order: its result is a subsequence of the table. */
  lemma {:induction false} FilterIsSubsequence(records: seq<Record>, column: string, value: string)
    ensures IsSubsequence(Filter(records, column, value), records)
  {
    if |records| > 0 {
      FilterIsSubsequence(records[1..], column, value);
      var rest := Filter(records[1..], column, value);
      if !Matches(records[0], column, value) && |rest| > 0 {
        assert Filter(records, column, value) == rest;
      }
    }
  }

  /** Every record that matches is kept: a record of the table is in the result exactly when it matches. */
  lemma FilterKeepsExactlyMatches(records: seq<Record>, column: string, value: string, r: Record)
    requires r in records
    ensures r in Filter(records, column, value) <==> Matches(r, column, value)
  {
    assert multiset(records)[r] > 0;
  }

  /** Letter case in the filter value does not change which records are kept. */
  lemma {:induction false} FilterIgnoresValueCase(records: seq<Record>, column: string, v1: string, v2: string)
    requires EqualIgnoringCase(v1, v2)
    ensures Filter(records, column, v1) == Filter(records, column, v2)
  {
    EqualIgnoringCaseIffSameLower(v1, v2);
    SameUpperIffSameLower(v1, v2);
    if |records| > 0 {
      FilterIgnoresValueCase(records[1..], column, v1, v2);
    }
  }

  /** The subject identifier cell of each record, in record order. */
  function SubjectCells(records: seq<Record>): seq<Option<string>>
  {
    seq(|records|, i requires 0 <= i < |records| => Cell(records[i], SubjectColumn))
  }

  lemma SubjectCellsAt(records: seq<Record>)
    ensures |SubjectCells(records)| == |records|
    ensures forall i :: 0 <= i < |records| ==> SubjectCells(records)[i] == Cell(records[i], SubjectColumn)
  {
  }

  /** What `query` returns: the subject count, the distinct subjects, and the kept records. */
  datatype Answer = Answer(count: nat, subjects: seq<Option<string>>, records: seq<Record>)

  /** `df[name]` on a column the table lacks raises a KeyError naming it. */
  datatype QueryError = MissingColumn(name: string)

  /**
   * The filter, unique and count steps of `query` for an already chosen
   * target column and filter value. The target column is read first, the
   * subject column second, so a table lacking both reports the target.
   */
  function Execute(t: Table, column: string, value: string): (r: Result<Answer, QueryError>)
    ensures r.Err? <==> column !in t.columns || SubjectColumn !in t.columns
    ensures column !in t.columns ==> r == Err(MissingColumn(column))
    ensures column in t.columns && SubjectColumn !in t.columns ==> r == Err(MissingColumn(SubjectColumn))
    ensures r.Ok? ==> r.value.records == Filter(t.records, column, value)
    ensures r.Ok? ==> r.value.count == |r.value.subjects| && NoDuplicates(r.value.subjects)
    ensures r.Ok? ==> r.value.count <= |r.value.records|
  {
    if column !in t.columns then Err(MissingColumn(column))
    else
      var kept := Filter(t.records, column, value);
      if SubjectColumn !in t.columns then Err(MissingColumn(SubjectColumn))
      else
        var subjects := Distinct(SubjectCells(kept));
        Ok(Answer(|subjects|, subjects, kept))
  }

  /**
   * The subjects `Execute` reports are exactly the subject cells of the
   * matching records, each once, in order of first appearance among them.
   */
  lemma ExecuteSubjects(t: Table, column: string, value: string)
    requires column in t.columns && SubjectColumn in t.columns
    ensures var a := Execute(t, column, value).value;
      && (forall i :: 0 <= i < |a.records| ==> Cell(a.records[i], SubjectColumn) in a.subjects)
      && (forall k :: 0 <= k < |a.subjects| ==>
            exists i :: 0 <= i < |a.records| && a.subjects[k] == Cell(a.records[i], SubjectColumn))
      && InFirstOccurrenceOrder(a.subjects, SubjectCells(a.records))
  {
    var a := Execute(t, column, value).value;
    SubjectCellsAt(a.records);
    DistinctKeepsFirstOrder(SubjectCells(a.records));
  }

  /**
   * The test script's pass criterion, `count > 0`: it holds exactly when some
   * record of the table matches.
   */
  lemma ExecuteCountPositiveIff(t: Table, column: string, value: string)
    requires column in t.columns && SubjectColumn in t.columns
    ensures Execute(t, column, value).value.count > 0 <==>
      exists i :: 0 <= i < |t.records| && Matches(t.records[i], column, value)
  {
    var kept := Filter(t.records, column, value);
    DistinctEmptyIff(SubjectCells(kept));
    if |kept| > 0 {
      assert kept[0] in multiset(kept);
      FilterKeepsExactlyMatches(t.records, column, value, kept[0]);
      var i :| 0 <= i < |t.records| && t.records[i] == kept[0];
    }
    if exists i :: 0 <= i < |t.records| && Matches(t.records[i], column, value) {
      var i :| 0 <= i < |t.records| && Matches(t.records[i], column, value);
      FilterKeepsExactlyMatches(t.records, column, value, t.records[i]);
    }
  }

  /**
   * `query` with the rule-based classifier: classify the question, then run
   * the filter on the column and value it chose.
   */
  function Query(t: Table, question: string): (r: Result<Answer, QueryError>)
    ensures var intent := Classify(question);
      r.Err? <==> intent.target.Name() !in t.columns || SubjectColumn !in t.columns
    ensures var intent := Classify(question);
      intent.target.Name() !in t.columns ==> r == Err(MissingColumn(intent.target.Name()))
    ensures var intent := Classify(question);
      intent.target.Name() in t.columns && SubjectColumn !in t.columns ==> r == Err(MissingColumn(SubjectColumn))
    ensures r.Ok? ==> r.value.records == Filter(t.records, Classify(question).target.Name(), Classify(question).filterValue)
    ensures r.Ok? ==> r.value.count == |r.value.subjects| && NoDuplicates(r.value.subjects)
    ensures r.Ok? ==> r.value.subjects == Distinct(SubjectCells(r.value.records))
    ensures r.Ok? ==> forall i :: 0 <= i < |r.value.records| ==> Matches(r.value.records[i], Classify(question).target.Name(), Classify(question).filterValue)
  {
    var intent := Classify(question);
    Execute(t, intent.target.Name(), intent.filterValue)
  }

  /** Questions equal up to letter case get the same answer from the same table. */
  lemma QueryIgnoresCase(t: Table, q1: string, q2: string)
    requires EqualIgnoringCase(q1, q2)
    ensures Query(t, q1) == Query(t, q2)
  {
    EqualIgnoringCaseIffSameLower(q1, q2);
  }
}
