/** The graph database as the ingestion code sees it. Nodes are keyed by their
    text and label, so the database is three sets: the texts of the Question
    nodes, the texts of the Answer nodes, and the HAS_ANSWER edges as
    (question text, answer text) pairs. The one statement both ingestion paths
    send,

      MERGE (q:Question {text: $q}) MERGE (a:Answer {text: $a}) MERGE (q)-[:HAS_ANSWER]->(a)

    then becomes insertion into those sets. */
module GraphDb {

  datatype Graph = Graph(questions: set<string>, answers: set<string>, edges: set<(string, string)>)

  const Empty := Graph({}, {}, {})

  /** A labelled node: the same text under the two labels is two different nodes. */
  datatype Node = QuestionNode(text: string) | AnswerNode(text: string)

  function Nodes(g: Graph): set<Node>
  {
    (set q | q in g.questions :: QuestionNode(q)) + (set a | a in g.answers :: AnswerNode(a))
  }

  /** Every edge runs from an existing Question node to an existing Answer node. */
  predicate Consistent(g: Graph)
  {
    forall e :: e in g.edges ==> e.0 in g.questions && e.1 in g.answers
  }

  /** g holds Question q, Answer a and the HAS_ANSWER edge between them. */
  predicate HasPair(g: Graph, q: string, a: string)
  {
    q in g.questions && a in g.answers && (q, a) in g.edges
  }

  /** Nothing of g is lost in g'. */
  predicate Extends(g: Graph, g': Graph)
  {
    g.questions <= g'.questions && g.answers <= g'.answers && g.edges <= g'.edges
  }

  /** The MERGE statement on (q, a): Question q, Answer a and the edge
      between them are created unless they already exist. */
  function Merge(g: Graph, q: string, a: string): Graph
  {
    Graph(g.questions + {q}, g.answers + {a}, g.edges + {(q, a)})
  }

  /** After MERGE the pair is present, nothing was removed, nothing but
      Question q, Answer a and the edge (q, a) was added, and every edge still
      joins existing nodes. */
  lemma MergeEffect(g: Graph, q: string, a: string)
    ensures HasPair(Merge(g, q, a), q, a)
    ensures Extends(g, Merge(g, q, a))
    ensures Merge(g, q, a).questions - g.questions <= {q}
    ensures Merge(g, q, a).answers - g.answers <= {a}
    ensures Merge(g, q, a).edges - g.edges <= {(q, a)}
    ensures Consistent(g) ==> Consistent(Merge(g, q, a))
  {
  }

  /** MERGE changes nothing exactly when the pair is already there. */
  lemma MergeNoopIff(g: Graph, q: string, a: string)
    ensures Merge(g, q, a) == g <==> HasPair(g, q, a)
  {
    if HasPair(g, q, a) {
      assert g.questions + {q} == g.questions;
      assert g.answers + {a} == g.answers;
      assert g.edges + {(q, a)} == g.edges;
    }
  }

  /** Running the same MERGE twice is running it once. */
  lemma MergeIdempotent(g: Graph, q: string, a: string)
    ensures Merge(Merge(g, q, a), q, a) == Merge(g, q, a)
  {
    MergeNoopIff(Merge(g, q, a), q, a);
  }

  /** The same text as question and answer gives two nodes, one per label. */
  lemma MergeSameTextTwoNodes(t: string)
    ensures Nodes(Merge(Empty, t, t)) == {QuestionNode(t), AnswerNode(t)}
    ensures |Nodes(Merge(Empty, t, t))| == 2
  {
    var g := Merge(Empty, t, t);
    assert (set q | q in g.questions :: QuestionNode(q)) == {QuestionNode(t)};
    assert (set a | a in g.answers :: AnswerNode(a)) == {AnswerNode(t)};
  }

  /** One MERGE per pair, in order. */
  function MergeAll(g: Graph, pairs: seq<(string, string)>): Graph
  {
    if pairs == [] then g
    else
      var last := pairs[|pairs| - 1];
      Merge(MergeAll(g, pairs[..|pairs| - 1]), last.0, last.1)
  }

  /** One more pair is one more MERGE on top of the earlier ones. */
  lemma MergeAllSnoc(g: Graph, pairs: seq<(string, string)>, p: (string, string))
    ensures MergeAll(g, pairs + [p]) == Merge(MergeAll(g, pairs), p.0, p.1)
  {
    assert (pairs + [p])[..|pairs|] == pairs;
  }

  /** A run of MERGEs split in two is the first part followed by the second. */
  lemma {:induction false} MergeAllAppend(g: Graph, pairs: seq<(string, string)>, more: seq<(string, string)>)
    ensures MergeAll(g, pairs + more) == MergeAll(MergeAll(g, pairs), more)
    decreases |more|
  {
    if more == [] {
      assert pairs + more == pairs;
    } else {
      var init, last := more[..|more| - 1], more[|more| - 1];
      MergeAllAppend(g, pairs, init);
      assert (pairs + more)[..|pairs + more| - 1] == pairs + init;
    }
  }

  function QuestionsOf(pairs: seq<(string, string)>): set<string>
  {
    set p | p in pairs :: p.0
  }

  function AnswersOf(pairs: seq<(string, string)>): set<string>
  {
    set p | p in pairs :: p.1
  }

  function PairsOf(pairs: seq<(string, string)>): set<(string, string)>
  {
    set p | p in pairs
  }

  lemma OfSnoc(pairs: seq<(string, string)>, p: (string, string))
    ensures QuestionsOf(pairs + [p]) == QuestionsOf(pairs) + {p.0}
    ensures AnswersOf(pairs + [p]) == AnswersOf(pairs) + {p.1}
    ensures PairsOf(pairs + [p]) == PairsOf(pairs) + {p}
  {
    assert forall x :: x in pairs + [p] <==> x in pairs || x == p;
  }

  /** The graph after a run of MERGEs is the old graph plus the questions,
      answers and edges of the pairs: no order, no count. */
  lemma {:induction false} MergeAllUnion(g: Graph, pairs: seq<(string, string)>)
    ensures MergeAll(g, pairs)
         == Graph(g.questions + QuestionsOf(pairs), g.answers + AnswersOf(pairs), g.edges + PairsOf(pairs))
    decreases |pairs|
  {
    if pairs != [] {
      var init, last := pairs[..|pairs| - 1], pairs[|pairs| - 1];
      MergeAllUnion(g, init);
      assert pairs == init + [last];
      OfSnoc(init, last);
    }
  }

  /** Re-running the same MERGEs leaves the graph as it was after the first run. */
  lemma MergeAllIdempotent(g: Graph, pairs: seq<(string, string)>)
    ensures MergeAll(MergeAll(g, pairs), pairs) == MergeAll(g, pairs)
  {
    MergeAllUnion(g, pairs);
    MergeAllUnion(MergeAll(g, pairs), pairs);
  }

  /** After the run every pair is present, and nothing else was added. */
  lemma MergeAllHasExactlyPairs(g: Graph, pairs: seq<(string, string)>, q: string, a: string)
    ensures (q, a) in pairs ==> HasPair(MergeAll(g, pairs), q, a)
    ensures (q, a) in MergeAll(g, pairs).edges <==> (q, a) in g.edges || (q, a) in pairs
  {
    MergeAllUnion(g, pairs);
    if (q, a) in pairs {
      assert q in QuestionsOf(pairs);
      assert a in AnswersOf(pairs);
    }
  }

  /** The database itself, holding the three sets. */
  class GraphStore {
    var questions: set<string>
    var answers: set<string>
    var edges: set<(string, string)>
    /** The MERGE statements executed so far, as (question, answer) pairs, in order. */
    ghost var log: seq<(string, string)>

    function State(): Graph
      reads this
    {
      Graph(questions, answers, edges)
    }

    /** An empty database. */
    constructor ()
      ensures State() == Empty && log == []
    {
      questions, answers, edges := {}, {}, {};
      log := [];
    }

    /** Executes the MERGE statement for (q, a). */
    method RunMerge(q: string, a: string)
      modifies this
      ensures State() == Merge(old(State()), q, a)
      ensures log == old(log) + [(q, a)]
    {
      questions := questions + {q};
      answers := answers + {a};
      edges := edges + {(q, a)};
      log := log + [(q, a)];
    }
  }
}
