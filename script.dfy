/** script.py: the stand-alone ingestion script. It drops the rows whose
    question or answer cell is missing, then writes every remaining row to
    the graph database as it is, untrimmed, one transaction per row. */
module Script {
  import opened Seqs
  import opened GraphDb
  import Text
  import ExcelIngest

  /** A cell of the loaded frame: a value, or missing (NaN). */
  datatype Cell = Missing | Value(text: string)

  const QuestionLabel := "questionText"
  const AnswerLabel := "answerText"
  /** The labels the script passes to dropna, in that order. */
  const Subset := [QuestionLabel, AnswerLabel]

  /** No cell of the row under a label of subset is missing. */
  predicate Complete(columns: seq<string>, subset: seq<string>, row: seq<Cell>)
  {
    forall j :: 0 <= j < |columns| && j < |row| && columns[j] in subset ==> row[j].Value?
  }

  /** The labels of subset that are not columns of the frame, in subset order. */
  function MissingLabels(columns: seq<string>, subset: seq<string>): seq<string>
  {
    Filter(subset, l => l !in columns)
  }

  /** dropna reports no missing label exactly when every label of subset is a column. */
  lemma MissingLabelsEmptyIff(columns: seq<string>, subset: seq<string>)
    ensures MissingLabels(columns, subset) == [] <==> forall l :: l in subset ==> l in columns
  {
    forall l | l in subset
      ensures l in MissingLabels(columns, subset) <==> l !in columns
    {
      FilterMembers(subset, l => l !in columns, l);
    }
    if MissingLabels(columns, subset) != [] {
      var l := MissingLabels(columns, subset)[0];
      FilterMembers(subset, l => l !in columns, l);
    }
  }

  /** The rows that survive dropna, in their original order. */
  function DropIncomplete(columns: seq<string>, subset: seq<string>, rows: seq<seq<Cell>>): seq<seq<Cell>>
  {
    Filter(rows, row => Complete(columns, subset, row))
  }

  /** dropna keeps every complete row as often as it occurs, removes every
      incomplete one, and keeps the order of what it keeps. */
  lemma DropIncompleteKeepsCompleteRows(columns: seq<string>, subset: seq<string>, rows: seq<seq<Cell>>, row: seq<Cell>)
    ensures multiset(DropIncomplete(columns, subset, rows))[row]
         == if Complete(columns, subset, row) then multiset(rows)[row] else 0
    ensures IsSubsequence(DropIncomplete(columns, subset, rows), rows)
  {
    FilterCount(rows, r => Complete(columns, subset, r), row);
    FilterIsSubsequence(rows, r => Complete(columns, subset, r));
  }

  /** Under the script's subset, a row is complete when the cells of the first
      questionText and the first answerText column hold values, and, when
      neither label is repeated among the columns, only then. */
  lemma CompleteIffBothPresent(columns: seq<string>, row: seq<Cell>)
    requires QuestionLabel in columns && AnswerLabel in columns
    requires |row| == |columns|
    ensures Complete(columns, Subset, row) ==>
              row[IndexOf(columns, QuestionLabel)].Value? && row[IndexOf(columns, AnswerLabel)].Value?
    ensures (forall j :: 0 <= j < |columns| && columns[j] in Subset ==> j == IndexOf(columns, columns[j])) ==>
              row[IndexOf(columns, QuestionLabel)].Value? && row[IndexOf(columns, AnswerLabel)].Value? ==>
              Complete(columns, Subset, row)
  {
    var qi, ai := IndexOf(columns, QuestionLabel), IndexOf(columns, AnswerLabel);
    assert columns[qi] in Subset && columns[ai] in Subset;
    if (forall j :: 0 <= j < |columns| && columns[j] in Subset ==> j == IndexOf(columns, columns[j]))
       && row[qi].Value? && row[ai].Value?
    {
      forall j | 0 <= j < |columns| && j < |row| && columns[j] in Subset
        ensures row[j].Value?
      {
        assert j == IndexOf(columns, columns[j]);
        assert columns[j] == QuestionLabel || columns[j] == AnswerLabel;
      }
    }
  }

  /** Every row has one cell per column. */
  predicate Rectangular(columns: seq<string>, rows: seq<seq<Cell>>)
  {
    forall row :: row in rows ==> |row| == |columns|
  }

  /** The data frame the script loads and then cleans in place. */
  class DataFrame {
    var columns: seq<string>
    var rows: seq<seq<Cell>>

    ghost predicate Valid()
      reads this
    {
      Rectangular(columns, rows)
    }

    constructor (columns: seq<string>, rows: seq<seq<Cell>>)
      requires Rectangular(columns, rows)
      ensures this.columns == columns && this.rows == rows && Valid()
    {
      this.columns := columns;
      this.rows := rows;
    }

    /** `dropna(subset=subset, inplace=True)`: when a label of subset is not a
        column, the call fails with those labels and the frame is left as it
        was; otherwise exactly the rows complete under subset remain. */
    method DropNa(subset: seq<string>) returns (missing: seq<string>)
      requires Valid()
      modifies this
      ensures Valid()
      ensures missing == MissingLabels(old(columns), subset)
      ensures columns == old(columns)
      ensures missing != [] ==> rows == old(rows)
      ensures missing == [] ==> rows == DropIncomplete(old(columns), subset, old(rows))
    {
      var cols, all := columns, rows;
      missing := MissingLabels(cols, subset);
      if missing == [] {
        FilterKeepsOnly(all, row => Complete(cols, subset, row));
        rows := DropIncomplete(cols, subset, all);
      }
    }
  }

  /** `row["questionText"], row["answerText"]` of a complete row: the raw
      values under the first column of each label. */
  function RowPair(columns: seq<string>, row: seq<Cell>): (string, string)
    requires QuestionLabel in columns && AnswerLabel in columns
    requires |row| == |columns| && Complete(columns, Subset, row)
  {
    var qi, ai := IndexOf(columns, QuestionLabel), IndexOf(columns, AnswerLabel);
    assert columns[qi] in Subset && columns[ai] in Subset;
    (row[qi].text, row[ai].text)
  }

  /** The raw (question, answer) values of rows complete under the script's
      subset, in row order. */
  function RowValues(columns: seq<string>, rows: seq<seq<Cell>>): seq<(string, string)>
    requires QuestionLabel in columns && AnswerLabel in columns
    requires forall row :: row in rows ==> |row| == |columns| && Complete(columns, Subset, row)
  {
    seq(|rows|, k requires 0 <= k < |rows| => RowPair(columns, rows[k]))
  }

  /** The pairs the script writes, one per row that survives dropna, in row order. */
  function ScriptPairs(columns: seq<string>, rows: seq<seq<Cell>>): seq<(string, string)>
    requires QuestionLabel in columns && AnswerLabel in columns
    requires Rectangular(columns, rows)
  {
    var kept := DropIncomplete(columns, Subset, rows);
    FilterKeepsOnly(rows, row => Complete(columns, Subset, row));
    RowValues(columns, kept)
  }

  /** A frame with no missing cell loses no row, and every value is written as
      it is: the k-th pair is the k-th row's question and answer, untrimmed. */
  lemma {:induction false} NoMissingCellWritesEveryRowAsIs(columns: seq<string>, rows: seq<seq<Cell>>)
    requires QuestionLabel in columns && AnswerLabel in columns
    requires Rectangular(columns, rows)
    requires forall k, j :: 0 <= k < |rows| && 0 <= j < |rows[k]| ==> rows[k][j].Value?
    ensures |ScriptPairs(columns, rows)| == |rows|
    ensures forall k :: 0 <= k < |rows| ==>
              ScriptPairs(columns, rows)[k]
              == (rows[k][IndexOf(columns, QuestionLabel)].text, rows[k][IndexOf(columns, AnswerLabel)].text)
  {
    FilterKeepsAll(rows, row => Complete(columns, Subset, row));
  }

  datatype ScriptOutcome = Pushed | KeyError(labels: seq<string>)

  /** `create_graph(tx, question, answer)`: the MERGE statement for the pair. */
  method CreateGraph(tx: GraphStore, question: string, answer: string)
    modifies tx
    ensures tx.State() == Merge(old(tx.State()), question, answer)
    ensures tx.log == old(tx.log) + [(question, answer)]
  {
    tx.RunMerge(question, answer);
  }

  /** The write loop: one create_graph per row, in row order, with the raw
      values of the row; writes are the pairs, and the store's log shows that
      exactly these statements were executed, in this order. */
  method WriteRows(columns: seq<string>, rows: seq<seq<Cell>>, db: GraphStore) returns (ghost writes: seq<(string, string)>)
    requires QuestionLabel in columns && AnswerLabel in columns
    requires forall row :: row in rows ==> |row| == |columns| && Complete(columns, Subset, row)
    modifies db
    ensures writes == RowValues(columns, rows)
    ensures db.State() == MergeAll(old(db.State()), writes)
    ensures db.log == old(db.log) + writes
  {
    ghost var all := RowValues(columns, rows);
    writes := [];
    var i := 0;
    while i < |rows|
      invariant 0 <= i <= |rows|
      invariant writes == all[..i]
      invariant db.State() == MergeAll(old(db.State()), writes)
      invariant db.log == old(db.log) + writes
    {
      assert rows[i] in rows;
      var (question, answer) := RowPair(columns, rows[i]);
      CreateGraph(db, question, answer);
      MergeAllSnoc(old(db.State()), writes, (question, answer));
      PrefixSnoc(all, i);
      AppendAssoc(old(db.log), writes, [(question, answer)]);
      writes := writes + [(question, answer)];
      i := i + 1;
    }
    assert all[..|all|] == all;
  }

  /** The script from dropna to the last write. When a required label is not a
      column, dropna fails and nothing is written; otherwise one create_graph
      per surviving row, in row order, with the values as they are. */
  method PushToGraph(df: DataFrame, db: GraphStore) returns (outcome: ScriptOutcome, ghost writes: seq<(string, string)>)
    requires df.Valid()
    modifies df, db
    ensures df.Valid() && df.columns == old(df.columns)
    ensures MissingLabels(old(df.columns), Subset) != [] ==>
              outcome == KeyError(MissingLabels(old(df.columns), Subset))
              && writes == [] && df.rows == old(df.rows)
              && db.State() == old(db.State()) && db.log == old(db.log)
    ensures MissingLabels(old(df.columns), Subset) == [] ==>
              && QuestionLabel in old(df.columns) && AnswerLabel in old(df.columns)
              && outcome == Pushed
              && df.rows == DropIncomplete(old(df.columns), Subset, old(df.rows))
              && writes == ScriptPairs(old(df.columns), old(df.rows))
              && db.State() == MergeAll(old(db.State()), writes)
              && db.log == old(db.log) + ScriptPairs(old(df.columns), old(df.rows))
  {
    var missing := df.DropNa(Subset);
    if missing != [] {
      return KeyError(missing), [];
    }
    MissingLabelsEmptyIff(df.columns, Subset);
    assert QuestionLabel in Subset && AnswerLabel in Subset;
    var columns := df.columns;
    FilterKeepsOnly(old(df.rows), row => Complete(columns, Subset, row));
    writes := WriteRows(df.columns, df.rows, db);
    outcome := Pushed;
  }

  /** A blank question cell is a value, not a missing cell: the script writes
      it, while the spreadsheet ingestion skips the row. */
  lemma BlankQuestionDiverges()
    ensures ScriptPairs(Subset, [[Value("  "), Value("answer")]]) == [("  ", "answer")]
    ensures ExcelIngest.KeptPairs([("  ", "answer")]) == []
  {
    var rows := [[Value("  "), Value("answer")]];
    assert Complete(Subset, Subset, rows[0]);
    assert DropIncomplete(Subset, Subset, rows) == rows;
    assert Text.Strip("  ") == [] by { Text.StripUnique("  ", "  ", [], []); }
    assert [("  ", "answer")][..0] == [];
  }

  /** Surrounding whitespace reaches the graph through the script and is
      removed by the spreadsheet ingestion. */
  lemma PaddedQuestionDiverges()
    ensures ScriptPairs(Subset, [[Value(" Why? "), Value("Because.")]]) == [(" Why? ", "Because.")]
    ensures ExcelIngest.KeptPairs([(" Why? ", "Because.")]) == [("Why?", "Because.")]
  {
    var rows := [[Value(" Why? "), Value("Because.")]];
    assert Complete(Subset, Subset, rows[0]);
    assert DropIncomplete(Subset, Subset, rows) == rows;
    assert Text.Strip(" Why? ") == "Why?" by { Text.StripUnique(" Why? ", " ", "Why?", " "); }
    Text.StripStripped("Because.");
    assert [(" Why? ", "Because.")][..0] == [];
  }

  /** A missing answer cell removes the row before any write. */
  lemma MissingAnswerDropped()
    ensures ScriptPairs(Subset, [[Value("Why?"), Missing], [Value("How?"), Value("Slowly.")]]) == [("How?", "Slowly.")]
  {
    var rows := [[Value("Why?"), Missing], [Value("How?"), Value("Slowly.")]];
    assert !Complete(Subset, Subset, rows[0]) by { assert Subset[1] in Subset; }
    assert Complete(Subset, Subset, rows[1]);
    assert rows[1..][1..] == [];
    assert DropIncomplete(Subset, Subset, rows) == [rows[1]];
  }

  /** Header labels are matched as written: a capitalised header that the
      spreadsheet ingestion accepts after normalisation makes dropna fail. */
  lemma CapitalisedHeadersDiverge()
    ensures MissingLabels(["QuestionText", "AnswerText"], Subset) == Subset
    ensures ExcelIngest.HasRequiredColumns(["QuestionText", "AnswerText"])
  {
    var columns := ["QuestionText", "AnswerText"];
    assert QuestionLabel !in columns by { assert QuestionLabel[0] != columns[0][0]; }
    assert AnswerLabel !in columns by { assert AnswerLabel[0] != columns[1][0]; }
    var missing := (l: string) => l !in columns;
    assert Filter(Subset[1..], missing) == [AnswerLabel] by { assert Subset[1..][1..] == []; }
    assert Filter(Subset, missing) == [QuestionLabel] + [AnswerLabel];
    Text.StripStripped(columns[0]);
    Text.StripStripped(columns[1]);
    assert ExcelIngest.NormalizeColumns(columns)[0] == ExcelIngest.QuestionColumn;
    assert ExcelIngest.NormalizeColumns(columns)[1] == ExcelIngest.AnswerColumn;
  }
}
