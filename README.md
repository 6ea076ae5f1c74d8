# MentalH: question/answer ingestion and forum state, modelled in Dafny

MentalH has two small pieces of logic, and this project models both.

**Ingestion into a graph database.** Question/answer pairs are read from a spreadsheet and written to a graph database.
- One path is `ingest_excel_to_neo4j`. It normalises the header labels (stripped, lower-cased) and fails with a `ValueError` when `questiontext` or `answertext` is missing. It then trims both fields of every row and skips rows where either is empty. Each remaining pair goes through `Neo4jHandler.add_question_answer`, and the handler is closed at the end.
- The other path is the stand-alone `script.py`. It drops the rows whose `questionText` or `answerText` cell is missing (`dropna`). Every remaining row is then written through `create_graph`, untrimmed.
- Both paths send the same statement, `MERGE (q:Question {text: …}) MERGE (a:Answer {text: …}) MERGE (q)-[:HAS_ANSWER]->(a)`.
- The database is modelled as three sets: question texts, answer texts, and (question, answer) edges. Under that model MERGE is set insertion.

**The forum page's in-memory state** (`ui.py`):
- the tag universe, the search and tag filters, and the two descending sorts;
- parsing of the comma-separated tag field;
- posting, which puts the new post in front and numbers it one past the number of posts;
- replying to a post;
- the support chat, where each user message is answered with one of five canned replies.

The modules follow the program:

| module | models |
|---|---|
| `Text` | the Python string operations used: `str.strip()`, `str.lower()`, `needle in hay`, `str.split(sep)` |
| `Seqs` | list comprehensions with a condition, and related helpers |
| `GraphDb` | the graph as three sets, the MERGE statement, and the store class |
| `Handler` | `Neo4jHandler` and the calls made on it |
| `ExcelIngest` | `ingest_excel_to_neo4j` |
| `Script` | `script.py`: `dropna(inplace=True)` on a data-frame class, `create_graph`, and the write loop |
| `Forum` | the pure list logic of the forum page |
| `ForumSession` | `st.session_state` as a class with the page actions as methods |

Where the code changes state, the model is imperative:
- The database, the handler, the data frame and the session are classes.
- The row loops and the tag-universe loop are `while` loops with invariants.
- Each method is proved against a specification function (`KeptPairs`, `MergeAll`, `Writes`, `DropIncomplete`, `SortDesc`, …), and the properties of that function are proved as lemmas.

Three behaviours of the code are easy to misread, and the model follows the code in each:
- **Error message.** The error for missing columns always names both columns (`"Excel must have 'questionText' and 'answerText' columns"`), whatever is actually missing.
- **Two ingestion paths.** They really do differ:
  - `script.py` matches header labels exactly as written;
  - it treats only missing cells, not blank ones, as absent;
  - it writes values untrimmed.
  
  `Script.BlankQuestionDiverges`, `Script.PaddedQuestionDiverges` and `Script.CapitalisedHeadersDiverge` prove concrete inputs on which the two paths disagree.
- **Forum list logic.** The tag universe, the filters, the sorts and the page actions of `ui.py` are part of the model.

## Model

| member | source | states |
|---|---|---|
| Text.Strip | ingest/excel_ingest.py:22-23 | the result of `str.strip()` has no whitespace at either end |
| Text.StripRemovesOnlySpaces | ingest/excel_ingest.py:22-23 | `str.strip()` removes only whitespace: the input is whitespace, then the result, then whitespace |
| Text.StripUnique | ingest/excel_ingest.py:22-23 | whatever whitespace surrounds a stripped core, stripping returns exactly that core, so the two lemmas above determine strip completely |
| Text.StripIdempotent | ingest/excel_ingest.py:13 | stripping a stripped string changes nothing |
| Text.Lower | ingest/excel_ingest.py:13 | lower-casing keeps the length, turns each capital into its lower-case letter, leaves every other character as it is, and so leaves no capital letter |
| Text.Contains | ui.py:96 | Python's `needle in hay` on strings, by walking the text; `Text.ContainsIsInfix` proves it is exactly the substring test |
| Text.ContainsIsInfix | ui.py:96 | the substring test holds exactly when the needle occurs at some position of the text (both directions) |
| Text.Split | ui.py:176 | `split(',')` gives at least one piece, no piece holds a comma, and joining the pieces with commas gives the input back |
| Text.SplitJoin | ui.py:176 | splitting comma-joined comma-free pieces gives the pieces back |
| GraphDb.Merge | graph/neo4j_handler.py:10-14 | the MERGE statement on (q, a) as set insertion of Question q, Answer a and the edge; its properties are the lemmas `GraphDb.MergeEffect`, `GraphDb.MergeNoopIff` and `GraphDb.MergeIdempotent` |
| GraphDb.MergeEffect | graph/neo4j_handler.py:10-14 | after MERGE on (q, a), Question q, Answer a and the edge between them exist. Nothing is removed, nothing else is added, and every edge still joins existing nodes |
| GraphDb.MergeNoopIff | graph/neo4j_handler.py:10-14 | MERGE leaves the graph unchanged exactly when the pair is already present |
| GraphDb.MergeIdempotent | graph/neo4j_handler.py:10-14 | running the same MERGE twice is the same as running it once |
| GraphDb.MergeSameTextTwoNodes | graph/neo4j_handler.py:11-12 | the same text used as question and answer gives two nodes, one per label |
| GraphDb.MergeAll | ingest/excel_ingest.py:21-25 | a run of MERGE statements, one per pair, in pair order; `GraphDb.MergeAllUnion` proves its closed form |
| GraphDb.MergeAllAppend | ingest/excel_ingest.py:21-25 | a run of MERGEs split in two is the first part followed by the second |
| GraphDb.MergeAllUnion | ingest/excel_ingest.py:21-25 | after a run of MERGEs the graph is the old graph plus the questions, answers and edges of the pairs, independent of order and repetition |
| GraphDb.MergeAllIdempotent | ingest/excel_ingest.py:21-25 | re-running the same MERGEs leaves the graph as after the first run |
| GraphDb.MergeAllHasExactlyPairs | ingest/excel_ingest.py:21-25 | every written pair is present, and an edge is present exactly when it was there before or was written |
| GraphDb.GraphStore.RunMerge | graph/neo4j_handler.py:10-14 | executing the statement turns the store's state into MERGE of the old state, and the statement is recorded at the end of the store's statement log |
| Handler.Neo4jHandler.constructor | graph/neo4j_handler.py:5-7 | the handler is connected to the given database and no call has been made on it yet |
| Handler.Neo4jHandler.AddQuestionAnswer | graph/neo4j_handler.py:9-14 | the database becomes MERGE(old, question, answer) and records that one statement, and the call is logged at the end |
| Handler.Neo4jHandler.Close | graph/neo4j_handler.py:16-18 | closing leaves the database unchanged and is logged at the end |
| Handler.Writes | ingest/excel_ingest.py:21-25 | the `add_question_answer` calls made for a run of pairs; `Handler.WritesCalls` proves one call per pair, in order |
| Handler.WritesCalls | ingest/excel_ingest.py:21-25 | writing pairs makes one `add_question_answer` call per pair, with that pair's question and answer, in pair order |
| Handler.WritesAppend | ingest/excel_ingest.py:21-25 | the calls for two runs of pairs are the calls for the first run followed by those for the second |
| Handler.CloseOnceAtEnd | ingest/excel_ingest.py:27 | in the calls of an ingestion, `close` is made exactly once and last |
| ExcelIngest.NormalizeHeader | ingest/excel_ingest.py:13 | a header label stripped, then lower-cased; `ExcelIngest.NormalizeHeaderIsNormal` proves the result is normal and a fixed point |
| ExcelIngest.HasRequiredColumns | ingest/excel_ingest.py:14 | the check that both `questiontext` and `answertext` are among the normalised labels; `ExcelIngest.IngestExcelToNeo4j` raises the `ValueError` exactly when it fails |
| ExcelIngest.NormalizeHeaderIsNormal | ingest/excel_ingest.py:13 | a normalised label has no surrounding whitespace and no capital letter, and normalising it again changes nothing |
| ExcelIngest.NormalizeColumns | ingest/excel_ingest.py:13 | one normalised label per column |
| ExcelIngest.NormalizeColumnsIdempotent | ingest/excel_ingest.py:13 | normalising the labels twice is the same as normalising them once |
| ExcelIngest.KeptPairs | ingest/excel_ingest.py:21-25 | the pairs the row loop writes: trimmed, both fields non-empty, in row order; `ExcelIngest.KeptPairsIsFilter` proves it equals the filter comprehension |
| ExcelIngest.KeptPairsStep | ingest/excel_ingest.py:21-25 | row i adds its trimmed pair to the written pairs when both trimmed fields are non-empty, and adds nothing otherwise |
| ExcelIngest.KeptPairsClean | ingest/excel_ingest.py:22-24 | every written pair is trimmed and has both fields non-empty |
| ExcelIngest.KeptPairsIsFilter | ingest/excel_ingest.py:21-25 | the written pairs are the trimmed pairs of the rows filtered by "both fields non-empty", in row order |
| ExcelIngest.KeptPairsAppend | ingest/excel_ingest.py:21-25 | rows are handled independently: the pairs of two runs of rows are the pairs of each, concatenated |
| ExcelIngest.EmptyFieldRowSkipped | ingest/excel_ingest.py:24 | a row whose trimmed question or trimmed answer is empty causes no write: the written pairs are those of the other rows |
| ExcelIngest.KeptPairsOfCleanCells | ingest/excel_ingest.py:22-24 | rows that are already trimmed and non-empty are all written, unchanged |
| ExcelIngest.SheetPairs | ingest/excel_ingest.py:13-25 | the pairs ingestion writes for a sheet: the first column whose normalised label is `questiontext` and the first whose label is `answertext` are read row by row, then trimmed and filtered as `ExcelIngest.KeptPairs` does; `ExcelIngest.IngestExcelToNeo4j` and `ExcelIngest.ReingestChangesNothing` are stated against it |
| ExcelIngest.WriteRow | ingest/excel_ingest.py:22-25 | for one row: the trimmed pair is written through the handler when both fields are non-empty, and this is exactly that row's share of the written pairs; the store's statement log gains exactly that pair or nothing |
| ExcelIngest.WriteRows | ingest/excel_ingest.py:21-25 | the row loop leaves the database as MERGE of every kept pair in row order, logs one call per kept pair, and the store's statement log gains exactly the kept pairs, in row order |
| ExcelIngest.IngestExcelToNeo4j | ingest/excel_ingest.py:9-27 | without both required columns: `ValueError` with the fixed message, no handler created, database unchanged. Otherwise a new handler on the database whose calls are one write per kept row in row order, then exactly one close; the database becomes MERGE of the kept pairs and its statement log grows by exactly the kept pairs, in row order |
| ExcelIngest.ReingestChangesNothing | ingest/excel_ingest.py:21-25 | ingesting the same sheet a second time leaves the graph as the first ingestion left it |
| ExcelIngest.DuplicateRowsScenario | ingest/excel_ingest.py:21-25 | two identical rows give one Question node, one Answer node and one edge |
| ExcelIngest.BlankQuestionScenario | ingest/excel_ingest.py:22-24 | a question that is blank after trimming gives no nodes |
| Script.MissingLabels | script.py:15 | the labels of the `dropna` subset that are not columns, in subset order; `Script.MissingLabelsEmptyIff` proves when it is empty |
| Script.DropIncomplete | script.py:15 | the rows `dropna` keeps: those with a value under every subset label, in order; `Script.DropIncompleteKeepsCompleteRows` proves it |
| Script.MissingLabelsEmptyIff | script.py:15 | `dropna` finds no missing label exactly when every label of the subset is a column |
| Script.DropIncompleteKeepsCompleteRows | script.py:15 | `dropna` keeps every complete row as often as it occurs and removes every incomplete one, in the original order |
| Script.CompleteIffBothPresent | script.py:15 | a complete row has values under `questionText` and `answerText`. When neither label is repeated, a row with those two values is complete |
| Script.DataFrame.DropNa | script.py:15 | with a label missing from the columns, the missing labels are reported and the frame is unchanged. Otherwise exactly the complete rows remain, in order, and the columns are unchanged |
| Script.RowValues | script.py:29-30 | `row["questionText"], row["answerText"]` for each row, in row order; `Script.WriteRows` proves the store's statement log gains exactly these pairs |
| Script.ScriptPairs | script.py:28-30 | the raw (question, answer) values of every row left by `dropna`, in row order; `Script.NoMissingCellWritesEveryRowAsIs` relates it to the input rows |
| Script.NoMissingCellWritesEveryRowAsIs | script.py:15-30 | a frame without missing cells loses no row, and row k is written with its raw question and answer values |
| Script.CreateGraph | script.py:21-26 | the transaction leaves the store as MERGE(old, question, answer) and records exactly that one statement in the store's log |
| Script.WriteRows | script.py:28-30 | one `create_graph` per row, in row order, with the raw values: the store's statement log gains exactly those pairs, in that order, and the store becomes MERGE of them |
| Script.PushToGraph | script.py:15-30 | with a label missing: `KeyError` naming the missing labels, no write, frame and database unchanged. Otherwise the frame keeps the complete rows, and the store's statement log gains exactly their raw pairs, one per row in row order, which the store merges |
| Script.BlankQuestionDiverges | script.py:29-30 | a whitespace-only question is written by the script but skipped by the spreadsheet ingestion |
| Script.PaddedQuestionDiverges | script.py:29-30 | surrounding whitespace reaches the graph through the script but is removed by the spreadsheet ingestion |
| Script.MissingAnswerDropped | script.py:15 | a row with a missing answer is dropped before any write, and the other rows are still written |
| Script.CapitalisedHeadersDiverge | script.py:15 | headers `QuestionText`/`AnswerText` make `dropna` fail, while the spreadsheet ingestion accepts them |
| Forum.CollectTags | ui.py:83-85 | the tag universe holds exactly the tags that some post carries |
| Forum.SearchFilter | ui.py:95-96 | the search as a filter on lower-cased content, with no filtering for an empty term; `Forum.SearchFilterKeepsMatches` proves what it keeps |
| Forum.SearchFilterKeepsMatches | ui.py:95-96 | the search keeps exactly the posts whose lower-cased content contains the lower-cased term, each as often as before and in the original order. An empty term keeps every post |
| Forum.TagFilter | ui.py:98-99 | the tag filter, with no filtering for an empty selection; `Forum.TagFilterKeepsTagged` proves what it keeps |
| Forum.TagFilterKeepsTagged | ui.py:98-99 | the tag filter keeps exactly the posts sharing a tag with a non-empty selection, each as often as before and in the original order. An empty selection keeps every post |
| Forum.SortDesc | ui.py:102-105 | the stable descending sort by timestamp or by number of replies; `Forum.SortDescSortsPermutation` and `Forum.SortDescStable` prove it sorted, a permutation and stable |
| Forum.SortDescSortsPermutation | ui.py:102-105 | after either sort, keys (timestamp, or number of replies) never increase along the list, and the list holds the same posts as often as before |
| Forum.SortDescStable | ui.py:102-105 | posts with equal keys keep their relative order, as Python's stable sort with `reverse=True` does |
| Forum.ParseTags | ui.py:176 | the tag field split on commas, each piece stripped, blank pieces dropped; `Forum.ParseTagsClean` and `Forum.ParseTagsOfJoin` prove what it yields |
| Forum.ParseTagsClean | ui.py:176 | no parsed tag is empty, has surrounding whitespace, or contains a comma |
| Forum.ParseTagsOfJoin | ui.py:176 | parsing comma-joined pieces strips each piece and drops the blank ones, in order |
| Forum.ParseTagsOfEmpty | ui.py:176 | an empty tag field gives no tags |
| Forum.ParseTagsRoundTrip | ui.py:176 | tags the parser could produce, written back comma-separated, parse to themselves |
| Forum.ParseTagsPlaceholder | ui.py:164-176 | the placeholder example `"stress, anxiety, support"` parses to `["stress", "anxiety", "support"]` |
| ForumSession.PrependNextId | ui.py:180-188 | a post numbered n + 1 inserted in front of posts numbered 1..n leaves them numbered 1..n + 1 |
| ForumSession.IdsDistinct | ui.py:180 | when the posts are numbered 1..n, their numbers are pairwise distinct and within 1..n |
| ForumSession.InitialPostsSorted | ui.py:14-57 | the sample posts are already in "Recent" order and in "Most Replies" order |
| ForumSession.InitialIds | ui.py:14-57 | the sample posts are numbered 1, 2, 3 |
| ForumSession.Session.constructor | ui.py:13-62 | a new session holds the three sample posts and the assistant's greeting, and the posts are numbered 1..n |
| ForumSession.Session.CommunityFeed | ui.py:83-105 | returns the tag universe and the filtered, sorted posts. Through the alias at line 92, the session's own list is left sorted when no filter applies and unchanged otherwise. Post numbering is kept |
| ForumSession.Session.SubmitPost | ui.py:173-193 | with content, the new post goes in front, numbered one past the number of posts, with author `Anonymous`/`You`, the parsed tags and no replies, and the older posts follow unchanged. Without content nothing changes. Numbering 1..n is kept |
| ForumSession.Session.AddReply | ui.py:130-137 | a non-empty reply goes at the end of the replies of the post with that id, and every other post is unchanged. An empty reply changes nothing |
| ForumSession.Session.SendChat | ui.py:217-233 | a non-empty message appends the user message and then one of the five canned replies, keeping the alternation of the transcript. An empty message changes nothing |

## Left out

- Spreadsheet parsing (`pd.read_excel`, `iterrows`) and pandas type coercion are not modelled. A sheet is header labels plus rows of cell texts (for `script.py`, cells that may be missing). `str(NaN)` giving `"nan"` is pandas behaviour and is not modelled.
- Duplicate header labels: the model reads the first column carrying the label, where pandas would return several columns.
- The database driver and connection (`Graph(...)`, `GraphDatabase.driver`, sessions, `write_transaction`, `driver.close()`) are foreign calls. Only the abstract store and the MERGE statement are modelled, and connection failures are not.
- The hard-coded credentials, file paths and `print` logging are left out.
- All Streamlit rendering is left out: widgets, forms, `st.rerun`, `time.sleep`, the mood box and the resources page.
- `datetime.now()` and `strftime` are left out. Timestamps are integers supplied by the caller, and a larger number means a later time.
- Text.Lower: only ASCII and Latin-1 capitals are lower-cased. Python's full Unicode case mapping is not modelled.
- ForumSession.Session.SendChat: `random.choice` is modelled as an arbitrary choice among the five replies. Uniform randomness is not modelled.
- ForumSession.Session.AddReply: requires a post with that id to exist. The page only offers reply forms under existing posts.
- The search box's placeholder says "content or tags", but the code searches the content only. The model follows the code.
- Scoping to one Streamlit session is not modelled: a rerun of the page is a method call on the same session object.
