/** The graph builder of `generate_graph` in backend/app.py: a directed graph
    keyed by entity text, filled by one `add_edge(head, tail, label=relation)`
    per triple. Adding an edge that exists already overwrites its label. */
module Graph {
  import opened Parse
  import opened Rules
  import Extractor

  /** A directed graph with string nodes and one labelled edge per ordered pair. */
  class RelationGraph {
    var nodes: set<string>
    var edges: map<(string, string), string>

    /** Both ends of every edge are nodes of the graph. */
    ghost predicate Valid()
      reads this
    {
      forall e :: e in edges ==> e.0 in nodes && e.1 in nodes
    }

    /** `nx.DiGraph()`: no nodes, no edges. */
    constructor()
      ensures nodes == {} && edges == map[]
      ensures Valid()
    {
      nodes := {};
      edges := map[];
    }

    /** `add_edge(u, v, label=relation)`: adds the nodes that are missing and sets the
        label of the edge from `u` to `v`, replacing an earlier one. A self-loop
        (`u == v`) is added like any other edge. */
    method AddEdge(u: string, v: string, relation: string)
      requires Valid()
      modifies this
      ensures nodes == old(nodes) + {u, v}
      ensures edges == old(edges)[(u, v) := relation]
      ensures Valid()
    {
      nodes := nodes + {u, v};
      edges := edges[(u, v) := relation];
    }
  }

  /** The node set after adding an edge for every triple of `ts`, in order. */
  function NodesOf(ts: seq<Triple>): set<string>
  {
    if ts == [] then {}
    else NodesOf(ts[..|ts| - 1]) + {ts[|ts| - 1].head, ts[|ts| - 1].tail}
  }

  /** The labelled edges after adding an edge for every triple of `ts`, in order. */
  function EdgesOf(ts: seq<Triple>): map<(string, string), string>
  {
    if ts == [] then map[]
    else
      var t := ts[|ts| - 1];
      EdgesOf(ts[..|ts| - 1])[(t.head, t.tail) := t.relation]
  }

  /** `n` is the subject or the object of some triple of `ts`. */
  ghost predicate IsEntity(ts: seq<Triple>, n: string)
  {
    exists t :: t in ts && (t.head == n || t.tail == n)
  }

  /** Some triple of `ts` relates `u` to `v`. */
  ghost predicate IsRelated(ts: seq<Triple>, u: string, v: string)
  {
    exists t :: t in ts && t.head == u && t.tail == v
  }

  /** The nodes are exactly the subjects and objects of the triples. */
  lemma {:induction false} NodesOfSpec(ts: seq<Triple>, n: string)
    ensures n in NodesOf(ts) <==> IsEntity(ts, n)
  {
    if ts != [] {
      var p := ts[..|ts| - 1];
      var last := ts[|ts| - 1];
      NodesOfSpec(p, n);
      assert ts == p + [last];
      if IsEntity(p, n) {
        var t :| t in p && (t.head == n || t.tail == n);
        assert t in ts;
      }
      if IsEntity(ts, n) && !(last.head == n || last.tail == n) {
        var t :| t in ts && (t.head == n || t.tail == n);
        assert t in p;
      }
    }
  }

  /** There is an edge from `u` to `v` exactly when some triple relates `u` to
      `v`; nothing excludes `u == v`, so self-loops are kept. */
  lemma {:induction false} EdgeKeysSpec(ts: seq<Triple>, u: string, v: string)
    ensures (u, v) in EdgesOf(ts) <==> IsRelated(ts, u, v)
  {
    if ts != [] {
      var p := ts[..|ts| - 1];
      var last := ts[|ts| - 1];
      EdgeKeysSpec(p, u, v);
      assert ts == p + [last];
      if IsRelated(p, u, v) {
        var t :| t in p && t.head == u && t.tail == v;
        assert t in ts;
      }
      if IsRelated(ts, u, v) && !(last.head == u && last.tail == v) {
        var t :| t in ts && t.head == u && t.tail == v;
        assert t in p;
      }
    }
  }

  /** The label of the edge from `ts[k].head` to `ts[k].tail` is `ts[k].relation`
      when no later triple relates the same pair: the last writer wins. */
  lemma {:induction false} LastWriterWins(ts: seq<Triple>, k: nat)
    requires k < |ts|
    requires forall j :: k < j < |ts| ==> (ts[j].head, ts[j].tail) != (ts[k].head, ts[k].tail)
    ensures (ts[k].head, ts[k].tail) in EdgesOf(ts)
    ensures EdgesOf(ts)[(ts[k].head, ts[k].tail)] == ts[k].relation
  {
    if k < |ts| - 1 {
      var p := ts[..|ts| - 1];
      assert forall j :: 0 <= j < |p| ==> p[j] == ts[j];
      LastWriterWins(p, k);
    }
  }

  /** Every label comes from the last triple that relates its pair. */
  lemma {:induction false} LabelIsLastRelation(ts: seq<Triple>, u: string, v: string)
    requires (u, v) in EdgesOf(ts)
    ensures exists k :: 0 <= k < |ts| && ts[k].head == u && ts[k].tail == v &&
              ts[k].relation == EdgesOf(ts)[(u, v)] &&
              forall j :: k < j < |ts| ==> (ts[j].head, ts[j].tail) != (u, v)
  {
    var last := ts[|ts| - 1];
    if (last.head, last.tail) != (u, v) {
      var p := ts[..|ts| - 1];
      LabelIsLastRelation(p, u, v);
      var k :| 0 <= k < |p| && p[k].head == u && p[k].tail == v
        && p[k].relation == EdgesOf(p)[(u, v)]
        && forall j :: k < j < |p| ==> (p[j].head, p[j].tail) != (u, v);
      assert ts[k] == p[k];
      assert forall j :: k < j < |ts| - 1 ==> ts[j] == p[j];
    } else {
      assert ts[|ts| - 1].head == u && ts[|ts| - 1].tail == v;
    }
  }

  /** The graph built from `ts` is valid, and every node is an end of some edge. */
  lemma GraphOfTriplesIsValid(ts: seq<Triple>, n: string)
    ensures forall u, v :: (u, v) in EdgesOf(ts) ==> u in NodesOf(ts) && v in NodesOf(ts)
    ensures n in NodesOf(ts) ==> exists e :: e in EdgesOf(ts) && (e.0 == n || e.1 == n)
  {
    forall u, v | (u, v) in EdgesOf(ts)
      ensures u in NodesOf(ts) && v in NodesOf(ts)
    {
      EdgeKeysSpec(ts, u, v);
      NodesOfSpec(ts, u);
      NodesOfSpec(ts, v);
    }
    NodesOfSpec(ts, n);
    if n in NodesOf(ts) {
      var t :| t in ts && (t.head == n || t.tail == n);
      EdgeKeysSpec(ts, t.head, t.tail);
      assert (t.head, t.tail) in EdgesOf(ts);
    }
  }

  /** Nodes and edge pairs depend only on which triples occur, not on their order
      or repetition, so they are the same for any order `list(set(...))` produces. */
  lemma SameTriplesSameShape(a: seq<Triple>, b: seq<Triple>)
    requires forall t :: t in a <==> t in b
    ensures NodesOf(a) == NodesOf(b)
    ensures EdgesOf(a).Keys == EdgesOf(b).Keys
  {
    forall n ensures n in NodesOf(a) <==> n in NodesOf(b) {
      NodesOfSpec(a, n);
      NodesOfSpec(b, n);
    }
    forall e ensures e in EdgesOf(a).Keys <==> e in EdgesOf(b).Keys {
      EdgeKeysSpec(a, e.0, e.1);
      EdgeKeysSpec(b, e.0, e.1);
    }
  }

  /** Labels, unlike the shape, depend on the order: two triples for the same
      pair leave the label of whichever comes last. */
  lemma OverwrittenLabel()
    ensures EdgesOf([Triple("A", "likes", "B"), Triple("A", "hates", "B")])[("A", "B")] == "hates"
    ensures EdgesOf([Triple("A", "hates", "B"), Triple("A", "likes", "B")])[("A", "B")] == "likes"
  {
    var ts := [Triple("A", "likes", "B"), Triple("A", "hates", "B")];
    assert ts[..1] == [Triple("A", "likes", "B")];
    var us := [Triple("A", "hates", "B"), Triple("A", "likes", "B")];
    assert us[..1] == [Triple("A", "hates", "B")];
  }

  /** The builder loop: one `AddEdge` per triple, in input order. */
  method BuildGraph(triplets: seq<Triple>) returns (g: RelationGraph)
    ensures fresh(g) && g.Valid()
    ensures g.nodes == NodesOf(triplets)
    ensures g.edges == EdgesOf(triplets)
  {
    g := new RelationGraph();
    var i := 0;
    while i < |triplets|
      invariant 0 <= i <= |triplets|
      invariant g.Valid()
      invariant g.nodes == NodesOf(triplets[..i])
      invariant g.edges == EdgesOf(triplets[..i])
    {
      var t := triplets[i];
      assert triplets[..i + 1][..i] == triplets[..i];
      g.AddEdge(t.head, t.tail, t.relation);
      i := i + 1;
    }
    assert triplets[..i] == triplets;
  }

  /** Text to graph, minus the parser: extract the triples, then build the graph.
      Its nodes are the entities of the extracted triples and its edge pairs are
      the related pairs, whatever order de-duplication leaves the triples in; every
      label is the predicate of an extracted triple for its pair. */
  method GenerateGraph(doc: seq<Token>) returns (g: RelationGraph)
    requires WellFormed(doc)
    ensures fresh(g) && g.Valid()
    ensures g.nodes == NodesOf(AllTriples(doc))
    ensures g.edges.Keys == EdgesOf(AllTriples(doc)).Keys
    ensures forall u, v :: (u, v) in g.edges ==> Triple(u, g.edges[(u, v)], v) in AllTriples(doc)
    ensures |doc| == 0 ==> g.nodes == {} && g.edges == map[]
  {
    var triplets := Extractor.ExtractSemanticTriplets(doc);
    g := BuildGraph(triplets);
    SameTriplesSameShape(triplets, AllTriples(doc));
    forall u, v | (u, v) in g.edges
      ensures Triple(u, g.edges[(u, v)], v) in AllTriples(doc)
    {
      LabelIsLastRelation(triplets, u, v);
      var k :| 0 <= k < |triplets| && triplets[k].head == u && triplets[k].tail == v &&
        triplets[k].relation == EdgesOf(triplets)[(u, v)] &&
        forall j :: k < j < |triplets| ==> (triplets[j].head, triplets[j].tail) != (u, v);
      assert triplets[k] == Triple(u, g.edges[(u, v)], v);
    }
  }
}
