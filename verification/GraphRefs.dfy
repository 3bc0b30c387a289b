/** The loaded graph in memory: one object whose fields, and whose set objects, the gate and the belts rewrite in
    place. */
module GraphRefs {
  import opened Graph
  import opened SolveCore
  import opened BeltGraph

  class GraphRef {
    var questions: map<int, set<int>>
    var sets: seq<OutcomeSetRef>
    var edges: seq<Edge>
    var pairs: seq<(int, int)>

    constructor (g: QGraph, sets: seq<OutcomeSetRef>)
      requires Values(sets) == g.sets
      ensures Value() == g && this.sets == sets
    {
      questions, this.sets, edges, pairs := g.questions, sets, g.edges, g.pairs;
    }

    function Value(): QGraph
      reads this, sets
    {
      QGraph(questions, Values(sets), edges, pairs)
    }
  }
}
