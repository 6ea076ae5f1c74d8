/** ingest/excel_ingest.py: reads question/answer pairs from a spreadsheet and
    writes each usable pair to the graph database through a Neo4jHandler. */
module ExcelIngest {
  import opened Text
  import opened Seqs
  import opened GraphDb
  import opened Handler

  /** A spreadsheet as it is loaded: the header labels, and the rows as the
      text of their cells, one cell per column. */
  datatype Sheet = Sheet(columns: seq<string>, rows: seq<seq<string>>)

  predicate Rectangular(sheet: Sheet)
  {
    forall k :: 0 <= k < |sheet.rows| ==> |sheet.rows[k]| == |sheet.columns|
  }

  /** How a header label is normalised: stripped, then lower-cased. */
  function NormalizeHeader(column: string): string
  {
    Lower(Strip(column))
  }

  /** A normalised label has no surrounding whitespace and no capital letter,
      and normalising it again changes nothing. */
  lemma NormalizeHeaderIsNormal(column: string)
    ensures IsStripped(NormalizeHeader(column))
    ensures Lower(NormalizeHeader(column)) == NormalizeHeader(column)
    ensures NormalizeHeader(NormalizeHeader(column)) == NormalizeHeader(column)
  {
    var h := NormalizeHeader(column);
    LowerKeepsStripped(Strip(column));
    LowerIdempotent(Strip(column));
    StripStripped(h);
  }

  /** The header labels after normalisation, one per column. */
  function NormalizeColumns(columns: seq<string>): (r: seq<string>)
    ensures |r| == |columns|
  {
    seq(|columns|, k requires 0 <= k < |columns| => NormalizeHeader(columns[k]))
  }

  /** Normalising labels that are already normalised changes nothing. */
  lemma NormalizeColumnsIdempotent(columns: seq<string>)
    ensures NormalizeColumns(NormalizeColumns(columns)) == NormalizeColumns(columns)
  {
    var once := NormalizeColumns(columns);
    forall k | 0 <= k < |once|
      ensures NormalizeHeader(once[k]) == once[k]
    {
      NormalizeHeaderIsNormal(columns[k]);
    }
  }

  const QuestionColumn := "questiontext"
  const AnswerColumn := "answertext"

  /** Both required columns are present among the normalised labels. */
  predicate HasRequiredColumns(columns: seq<string>)
  {
    QuestionColumn in NormalizeColumns(columns) && AnswerColumn in NormalizeColumns(columns)
  }

  /** The (question cell, answer cell) of every row, in row order. */
  function ColumnPairs(rows: seq<seq<string>>, qi: nat, ai: nat): seq<(string, string)>
    requires forall k :: 0 <= k < |rows| ==> qi < |rows[k]| && ai < |rows[k]|
  {
    seq(|rows|, k requires 0 <= k < |rows| => (rows[k][qi], rows[k][ai]))
  }

  /** What one row contributes before the empty-field check: its trimmed fields. */
  function Trimmed(cell: (string, string)): (string, string)
  {
    (Strip(cell.0), Strip(cell.1))
  }

  predicate BothNonEmpty(pair: (string, string))
  {
    pair.0 != [] && pair.1 != []
  }

  /** The trimmed (question, answer) pairs, in row order, leaving out every
      row whose trimmed question or trimmed answer is empty. */
  function KeptPairs(cells: seq<(string, string)>): seq<(string, string)>
  {
    if cells == [] then []
    else
      var p := Trimmed(cells[|cells| - 1]);
      KeptPairs(cells[..|cells| - 1]) + (if BothNonEmpty(p) then [p] else [])
  }

  /** What the row at position i adds to the pairs of the rows before it. */
  lemma KeptPairsStep(cells: seq<(string, string)>, i: nat)
    requires i < |cells|
    ensures var p := Trimmed(cells[i]);
            KeptPairs(cells[..i + 1]) == KeptPairs(cells[..i]) + (if BothNonEmpty(p) then [p] else [])
  {
    assert cells[..i + 1][..i] == cells[..i];
  }

  /** A pair that trimming leaves as it is and that has both fields non-empty. */
  predicate Clean(cell: (string, string))
  {
    cell.0 != [] && cell.1 != [] && IsStripped(cell.0) && IsStripped(cell.1)
  }

  /** Every written pair is trimmed and has both fields non-empty. */
  lemma {:induction false} KeptPairsClean(cells: seq<(string, string)>)
    ensures forall p :: p in KeptPairs(cells) ==> Clean(p)
    decreases |cells|
  {
    if cells != [] {
      KeptPairsClean(cells[..|cells| - 1]);
    }
  }

  /** The trimmed fields of every row, in row order. */
  function TrimmedAll(cells: seq<(string, string)>): seq<(string, string)>
  {
    seq(|cells|, k requires 0 <= k < |cells| => Trimmed(cells[k]))
  }

  /** The last row's trimmed fields come last. */
  lemma TrimmedAllSnoc(cells: seq<(string, string)>)
    requires cells != []
    ensures TrimmedAll(cells) == TrimmedAll(cells[..|cells| - 1]) + [Trimmed(cells[|cells| - 1])]
  {
    var init := cells[..|cells| - 1];
    var whole, parts := TrimmedAll(cells), TrimmedAll(init) + [Trimmed(cells[|cells| - 1])];
    forall k | 0 <= k < |cells|
      ensures whole[k] == parts[k]
    {
      if k < |init| {
        assert cells[k] == init[k];
      }
    }
  }

  /** KeptPairs as a comprehension, `[trimmed pair for each row if both fields
      non-empty]`: one pair per such row, in row order, and none for any other row. */
  lemma {:induction false} KeptPairsIsFilter(cells: seq<(string, string)>)
    ensures KeptPairs(cells) == Filter(TrimmedAll(cells), BothNonEmpty)
    decreases |cells|
  {
    if cells != [] {
      var init, last := cells[..|cells| - 1], cells[|cells| - 1];
      KeptPairsIsFilter(init);
      TrimmedAllSnoc(cells);
      FilterAppend(TrimmedAll(init), [Trimmed(last)], BothNonEmpty);
      assert Filter([Trimmed(last)], BothNonEmpty)
          == if BothNonEmpty(Trimmed(last)) then [Trimmed(last)] else [];
    }
  }

  /** Rows are processed independently and in order. */
  lemma {:induction false} KeptPairsAppend(cells: seq<(string, string)>, more: seq<(string, string)>)
    ensures KeptPairs(cells + more) == KeptPairs(cells) + KeptPairs(more)
    decreases |more|
  {
    if more == [] {
      assert cells + more == cells;
    } else {
      var init := more[..|more| - 1];
      KeptPairsAppend(cells, init);
      assert (cells + more)[..|cells + more| - 1] == cells + init;
    }
  }

  /** A row whose trimmed question or trimmed answer is empty causes no write:
      the pairs are those of the other rows. */
  lemma EmptyFieldRowSkipped(cells: seq<(string, string)>, k: nat)
    requires k < |cells|
    requires Strip(cells[k].0) == [] || Strip(cells[k].1) == []
    ensures KeptPairs(cells) == KeptPairs(cells[..k] + cells[k + 1..])
  {
    var before, row, after := cells[..k], [cells[k]], cells[k + 1..];
    assert KeptPairs(cells) == KeptPairs(before + row) + KeptPairs(after) by {
      SplitAt(cells, k);
      KeptPairsAppend(before + row, after);
    }
    assert KeptPairs(before + row) == KeptPairs(before) by {
      KeptPairsAppend(before, row);
      assert KeptPairs(row) == [] by {
        assert row[..0] == [];
      }
    }
    KeptPairsAppend(before, after);
  }

  /** The pairs the ingestion writes for a sheet that has both required columns. */
  function SheetPairs(sheet: Sheet): seq<(string, string)>
    requires Rectangular(sheet) && HasRequiredColumns(sheet.columns)
  {
    var columns := NormalizeColumns(sheet.columns);
    KeptPairs(ColumnPairs(sheet.rows, IndexOf(columns, QuestionColumn), IndexOf(columns, AnswerColumn)))
  }

  datatype Outcome = Completed | ValueError(message: string)

  const MissingColumnsMessage := "Excel must have 'questionText' and 'answerText' columns"

  /** The body of the row loop for the row at position i: trims the question
      and the answer and writes them through the handler when both are
      non-empty; kept is what was written, the row's share of KeptPairs. */
  method WriteRow(handler: Neo4jHandler, cells: seq<(string, string)>, i: nat) returns (ghost kept: seq<(string, string)>)
    requires i < |cells|
    modifies handler, handler.graph
    ensures kept == if BothNonEmpty(Trimmed(cells[i])) then [Trimmed(cells[i])] else []
    ensures KeptPairs(cells[..i + 1]) == KeptPairs(cells[..i]) + kept
    ensures handler.graph.State() == MergeAll(old(handler.graph.State()), kept)
    ensures handler.log == old(handler.log) + Writes(kept)
    ensures handler.graph.log == old(handler.graph.log) + kept
  {
    var question := Strip(cells[i].0);
    var answer := Strip(cells[i].1);
    KeptPairsStep(cells, i);
    if question != [] && answer != [] {
      handler.AddQuestionAnswer(question, answer);
      kept := [(question, answer)];
      assert kept[..0] == [];
    } else {
      kept := [];
    }
  }

  /** The row loop over the (question cell, answer cell) of each row. */
  method WriteRows(handler: Neo4jHandler, cells: seq<(string, string)>)
    modifies handler, handler.graph
    ensures handler.graph.State() == MergeAll(old(handler.graph.State()), KeptPairs(cells))
    ensures handler.log == old(handler.log) + Writes(KeptPairs(cells))
    ensures handler.graph.log == old(handler.graph.log) + KeptPairs(cells)
  {
    ghost var g0, log0, dlog0 := handler.graph.State(), handler.log, handler.graph.log;
    ghost var written: seq<(string, string)> := [];
    var i := 0;
    while i < |cells|
      invariant 0 <= i <= |cells|
      invariant written == KeptPairs(cells[..i])
      invariant handler.graph.State() == MergeAll(g0, written)
      invariant handler.log == log0 + Writes(written)
      invariant handler.graph.log == dlog0 + written
    {
      ghost var kept := WriteRow(handler, cells, i);
      MergeAllAppend(g0, written, kept);
      WritesAppend(written, kept);
      AppendAssoc(log0, Writes(written), Writes(kept));
      AppendAssoc(dlog0, written, kept);
      written := written + kept;
      i := i + 1;
    }
    assert cells[..i] == cells;
  }

  /** Loads the pairs of a sheet into the database. Without both required
      columns it fails before any handler is created, so nothing is written;
      otherwise the handler it creates makes one AddQuestionAnswer call per
      kept row, in row order, and is then closed once. The handler is
      returned so that its calls can be observed. */
  method IngestExcelToNeo4j(sheet: Sheet, db: GraphStore) returns (outcome: Outcome, handler: Neo4jHandler?)
    requires Rectangular(sheet)
    modifies db
    ensures !HasRequiredColumns(sheet.columns) ==>
              outcome == ValueError(MissingColumnsMessage) && handler == null && unchanged(db)
    ensures HasRequiredColumns(sheet.columns) ==>
              && outcome == Completed
              && handler != null && fresh(handler) && handler.graph == db
              && handler.log == Writes(SheetPairs(sheet)) + [Call.Close]
              && db.State() == MergeAll(old(db.State()), SheetPairs(sheet))
              && db.log == old(db.log) + SheetPairs(sheet)
  {
    var columns := NormalizeColumns(sheet.columns);
    if QuestionColumn !in columns || AnswerColumn !in columns {
      return ValueError(MissingColumnsMessage), null;
    }
    var qi, ai := IndexOf(columns, QuestionColumn), IndexOf(columns, AnswerColumn);
    handler := new Neo4jHandler(db);
    WriteRows(handler, ColumnPairs(sheet.rows, qi, ai));
    handler.Close();
    outcome := Completed;
  }

  /** Ingesting the same sheet a second time leaves the graph as the first
      ingestion left it. */
  lemma ReingestChangesNothing(sheet: Sheet, g: Graph)
    requires Rectangular(sheet) && HasRequiredColumns(sheet.columns)
    ensures MergeAll(MergeAll(g, SheetPairs(sheet)), SheetPairs(sheet)) == MergeAll(g, SheetPairs(sheet))
  {
    MergeAllIdempotent(g, SheetPairs(sheet));
  }

  /** Rows whose fields are already trimmed and non-empty are all written, as they are. */
  lemma {:induction false} KeptPairsOfCleanCells(cells: seq<(string, string)>)
    requires forall k :: 0 <= k < |cells| ==> Clean(cells[k])
    ensures KeptPairs(cells) == cells
    decreases |cells|
  {
    if cells != [] {
      var init, last := cells[..|cells| - 1], cells[|cells| - 1];
      assert forall k :: 0 <= k < |init| ==> init[k] == cells[k];
      KeptPairsOfCleanCells(init);
      assert Clean(last);
      StripStripped(last.0);
      StripStripped(last.1);
      assert Trimmed(last) == last;
      assert KeptPairs(cells) == init + [last];
      assert cells == init + [last];
    }
  }

  /** Two identical rows give one Question node, one Answer node and one edge. */
  lemma DuplicateRowsScenario()
    ensures var pairs := KeptPairs([("What is X?", "X is Y."), ("What is X?", "X is Y.")]);
            MergeAll(Empty, pairs) == Graph({"What is X?"}, {"X is Y."}, {("What is X?", "X is Y.")})
  {
    var row := ("What is X?", "X is Y.");
    assert Clean(row);
    KeptPairsOfCleanCells([row, row]);
    assert [row, row][..1] == [row];
    assert [row][..0] == [];
  }

  /** A question that is blank after trimming gives no nodes at all. */
  lemma BlankQuestionScenario()
    ensures MergeAll(Empty, KeptPairs([("  ", "answer")])) == Empty
  {
    assert Strip("  ") == [] by { StripUnique("  ", "  ", [], []); }
    assert [("  ", "answer")][..0] == [];
  }
}
