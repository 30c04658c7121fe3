/** `graphNodes` as it runs: a map filled by one loop, then a search that mutates its three collections. */
module GraphSearch {
  import opened Text
  import opened Order
  import G = Graphs
  import opened GraphProofs

  class Search {
    const nodes: G.Nodes
    var visiting: set<Str>
    var visited: set<Str>
    var ordered: seq<G.Node>

    ghost predicate Valid()
      reads this
    {
      visited == Keys(G.NodeIds(ordered)) && G.Keyed(nodes)
    }

    constructor (nodes: G.Nodes)
      requires G.Keyed(nodes)
      ensures Valid() && this.nodes == nodes && visiting == {} && ordered == []
    {
      this.nodes := nodes;
      visiting, visited, ordered := {}, {}, [];
    }

    /** A thrown error leaves the search in no particular state; a return leaves what `G.Visit` says. */
    ghost predicate Follows(r: G.Result<seq<G.Node>>, error: Option<G.Error>, before: set<Str>)
      reads this
    {
      match r
      case Failure(e) => error == Some(e)
      case Success(o) => error == None && Valid() && ordered == o && visiting == before
    }

    method Visit(id: Str) returns (error: Option<G.Error>)
      requires Valid()
      modifies this
      ensures Follows(G.Visit(nodes, old(visiting), old(ordered), id), error, old(visiting))
      decreases nodes.Keys - visiting
    {
      if id !in nodes { return Some(G.MissingDependency); }
      var node := nodes[id];
      if id in visiting { return Some(G.CyclicDependency); }
      if id in visited { return None; }
      visiting := visiting + {id};
      ghost var inside := visiting;
      ghost var result := G.VisitAll(nodes, visiting, ordered, node.dependsOn);
      var i := 0;
      while i < |node.dependsOn|
        invariant i <= |node.dependsOn| && Valid() && visiting == inside
        invariant result == G.VisitAll(nodes, visiting, ordered, node.dependsOn[i..])
      {
        error := Visit(node.dependsOn[i]);
        assert node.dependsOn[i..][1..] == node.dependsOn[i + 1..];
        if error.Some? { return; }
        i := i + 1;
      }
      visiting := visiting - {id};
      visited := visited + {id};
      IdsAppended(ordered, node);
      ordered := ordered + [node];
      return None;
    }
  }

  lemma Grown(input: seq<G.Node>, i: nat)
    requires i < |input| && Distinct(G.NodeIds(input[..i]))
    ensures Distinct(G.NodeIds(input[..i + 1])) <==> input[i].id !in G.Collect(input[..i])
    ensures G.Collect(input[..i + 1]) == G.Collect(input[..i])[input[i].id := G.Stored(input[i])]
  {
    var front := input[..i];
    assert input[..i + 1] == front + [input[i]];
    IdsAppended(front, input[i]);
    var ids := G.NodeIds(front + [input[i]]);
    Collected(front);
    if input[i].id in G.NodeIds(front) {
      var k :| 0 <= k < i && G.NodeIds(front)[k] == input[i].id;
      assert ids[k] == ids[i];
    }
  }

  /** A repeated id stays repeated whatever follows. */
  lemma StillRepeated(input: seq<G.Node>, i: nat)
    requires i <= |input|
    ensures Distinct(G.NodeIds(input)) ==> Distinct(G.NodeIds(input[..i]))
  {
    IdsPrefix(input, i);
  }

  /** The whole of `graphNodes`. */
  method GraphNodes(id: Str, input: seq<G.Node>) returns (r: G.Result<seq<G.Node>>)
    ensures r == G.GraphNodes(id, input)
  {
    if !G.IsIdentifier(id) || |input| == 0 || |input| > 64 { return G.Failure(G.InvalidGraph); }
    var nodes: G.Nodes := map[];
    var i := 0;
    while i < |input|
      invariant i <= |input| && nodes == G.Collect(input[..i])
      invariant Distinct(G.NodeIds(input[..i])) && forall n <- input[..i] :: G.ValidNode(n)
    {
      var node := input[i];
      Grown(input, i);
      StillRepeated(input, i + 1);
      if !G.ValidNode(node) || node.id in nodes { return G.Failure(G.InvalidGraph); }
      nodes := nodes[node.id := G.Stored(node)];
      assert input[..i + 1] == input[..i] + [node];
      i := i + 1;
    }
    assert input[..i] == input;
    Collected(input);
    var ids := Sort(G.NodeIds(input));
    var search := new Search(nodes);
    ghost var result := G.VisitAll(nodes, {}, [], ids);
    var k := 0;
    while k < |ids|
      invariant k <= |ids| && search.Valid() && search.nodes == nodes && search.visiting == {}
      invariant result == G.VisitAll(nodes, {}, search.ordered, ids[k..])
    {
      var error := search.Visit(ids[k]);
      assert ids[k..][1..] == ids[k + 1..];
      if error.Some? { return G.Failure(error.value); }
      k := k + 1;
    }
    return G.Success(search.ordered);
  }
}
