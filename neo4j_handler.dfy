/** graph/neo4j_handler.py: a handle on the graph database that writes one
    question/answer pair per call and can be closed. */
module Handler {
  import opened GraphDb

  /** The calls made on a handler, in the order they were made. */
  datatype Call = AddQuestionAnswer(question: string, answer: string) | Close

  /** The calls that writing pairs, one by one, makes on a handler. */
  function Writes(pairs: seq<(string, string)>): seq<Call>
  {
    if pairs == [] then []
    else
      var last := pairs[|pairs| - 1];
      Writes(pairs[..|pairs| - 1]) + [AddQuestionAnswer(last.0, last.1)]
  }

  /** One AddQuestionAnswer call per pair, with that pair's question and
      answer, in the order of the pairs. */
  lemma {:induction false} WritesCalls(pairs: seq<(string, string)>)
    ensures |Writes(pairs)| == |pairs|
    ensures forall k :: 0 <= k < |pairs| ==> Writes(pairs)[k] == AddQuestionAnswer(pairs[k].0, pairs[k].1)
    decreases |pairs|
  {
    if pairs != [] {
      WritesCalls(pairs[..|pairs| - 1]);
    }
  }

  /** Writing pairs and then more pairs makes the calls of the first, then
      those of the second. */
  lemma {:induction false} WritesAppend(pairs: seq<(string, string)>, more: seq<(string, string)>)
    ensures Writes(pairs + more) == Writes(pairs) + Writes(more)
    decreases |more|
  {
    if more == [] {
      assert pairs + more == pairs;
    } else {
      var init, last := more[..|more| - 1], more[|more| - 1];
      WritesAppend(pairs, init);
      assert (pairs + more)[..|pairs + more| - 1] == pairs + init;
    }
  }

  /** In the calls of writing pairs and then closing, Close is made once and last. */
  lemma CloseOnceAtEnd(pairs: seq<(string, string)>)
    ensures var calls := Writes(pairs) + [Close];
            calls[|calls| - 1] == Close && forall k :: 0 <= k < |calls| - 1 ==> calls[k] != Close
  {
    WritesCalls(pairs);
  }

  class Neo4jHandler {
    /** The database the handler is connected to. */
    const graph: GraphStore
    /** The calls made on this handler so far. */
    ghost var log: seq<Call>

    /** Connects to the database; the connection parameters are not modelled. */
    constructor (db: GraphStore)
      ensures graph == db && log == []
    {
      graph := db;
      log := [];
    }

    /** Runs the MERGE statement for (question, answer). */
    method AddQuestionAnswer(question: string, answer: string)
      modifies graph, this`log
      ensures graph.State() == Merge(old(graph.State()), question, answer)
      ensures graph.log == old(graph.log) + [(question, answer)]
      ensures log == old(log) + [Call.AddQuestionAnswer(question, answer)]
    {
      graph.RunMerge(question, answer);
      log := log + [Call.AddQuestionAnswer(question, answer)];
    }

    /** Closing leaves the database as it is. */
    method Close()
      modifies this`log
      ensures log == old(log) + [Call.Close]
      ensures unchanged(graph)
    {
      log := log + [Call.Close];
    }
  }
}
