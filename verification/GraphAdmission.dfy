/** `enqueueGraph`: the order that `graphNodes` gives always passes the check for existing siblings. */
module GraphAdmission {
  import opened Folding
  import opened Text
  import opened Work
  import opened Lineage
  import opened LineageProofs
  import opened LineageTheorems
  import O = Order
  import G = Graphs
  import P = GraphProofs
  import T = GraphTheorems

  /** Rows are named after the graph and the node, by a digest that does not collide. */
  type Naming = Str -> Id

  ghost predicate Injective(work: Naming) { forall a, b :: work(a) == work(b) ==> a == b }

  function Works(work: Naming, ids: seq<Str>): (r: seq<Id>)
    ensures |r| == |ids|
  {
    seq(|ids|, i requires 0 <= i < |ids| => work(ids[i]))
  }

  /** The loop over the nodes; a refused node throws, and the transaction leaves nothing behind. */
  function EnqueueGraph(s: Tasks, parent: Id, group: Group, nodes: seq<G.Node>, work: Naming): Option<Tasks> {
    if nodes == [] then Some(s)
    else
      var last := nodes[|nodes| - 1];
      match EnqueueGraph(s, parent, group, nodes[..|nodes| - 1], work)
      case None => None
      case Some(t) => EnqueueNode(t, parent, group, last, work)
  }

  /** A row that is there already is accepted when it is the same child. */
  function EnqueueNode(t: Tasks, parent: Id, group: Group, n: G.Node, work: Naming): Option<Tasks> {
    var id, dependsOn := work(n.id), Works(work, n.dependsOn);
    if !MayCreate(t, parent, id, dependsOn, group) then None
    else if id in t.rows then
      if IsSibling(t, t.rows[parent].owner, parent, group, id) && t.rows[id].dependsOn == dependsOn then Some(t) else None
    else Some(CreateChild(t, parent, id, dependsOn, group))
  }

  function ChildrenOf(s: Tasks, parent: Id): set<Id> { set k | k in s.rows && s.rows[k].parent == Some(parent) }

  /** A parent that may have `count` more children: live, started, and not too deep in its lineage. */
  predicate HasRoom(s: Tasks, parent: Id, count: nat) {
    && parent in s.rows && s.rows[parent].started && s.rows[parent].owner.principal.Some?
    && Live(s.rows[parent]) && s.rows[parent].depth < LIMIT && |ChildrenOf(s, parent)| + count <= 64
  }

  predicate OldRowsKept(s: Tasks, t: Tasks) { forall k <- s.rows.Keys :: k in t.rows && t.rows[k] == s.rows[k] }

  ghost predicate NewRowsNamed(s: Tasks, t: Tasks, nodes: seq<G.Node>, work: Naming) {
    forall k <- t.rows.Keys :: k in s.rows || k in Works(work, G.NodeIds(nodes))
  }

  /** The row of the node: a sibling in the group, depending on what the node depends on. */
  predicate NodeRow(t: Tasks, owner: Owner, parent: Id, group: Group, n: G.Node, work: Naming) {
    && IsSibling(t, owner, parent, group, work(n.id))
    && t.rows[work(n.id)].dependsOn == Works(work, n.dependsOn)
  }

  /** What the loop has done after some of the nodes. */
  ghost predicate Added(s: Tasks, t: Tasks, owner: Owner, parent: Id, group: Group, nodes: seq<G.Node>, work: Naming) {
    && OldRowsKept(s, t) && NewRowsNamed(s, t, nodes, work)
    && (forall i :: 0 <= i < |nodes| ==> NodeRow(t, owner, parent, group, nodes[i], work))
    && |ChildrenOf(t, parent)| <= |ChildrenOf(s, parent)| + |nodes|
  }

  /** Folded. */
  ghost predicate AddedSoFar(s: Tasks, t: Tasks, owner: Owner, parent: Id, group: Group, nodes: seq<G.Node>,
                             work: Naming) {
    forall n: nat :: Unfolding(n) ==> Added(s, t, owner, parent, group, nodes, work)
  }

  /** The nodes of an accepted graph, up to some place in their order. */
  ghost predicate Ordered(s: Tasks, nodes: seq<G.Node>, work: Naming) {
    && (exists map_ :: G.Topological(map_, nodes))
    && forall n <- nodes :: O.Distinct(n.dependsOn) && |n.dependsOn| <= 64 && work(n.id) !in s.rows
  }

  lemma FrontOrdered(s: Tasks, nodes: seq<G.Node>, work: Naming)
    requires Ordered(s, nodes, work) && nodes != []
    ensures var front, last := nodes[..|nodes| - 1], nodes[|nodes| - 1];
            && Ordered(s, front, work)
            && last.id !in G.NodeIds(front) && forall d <- last.dependsOn :: d in G.NodeIds(front)
  {
    var front, last := nodes[..|nodes| - 1], nodes[|nodes| - 1];
    var m :| G.Topological(m, nodes);
    P.IdsPrefix(nodes, |front|);
    assert G.Settled(m, nodes, |front|);
    assert G.NodeIds(nodes)[|front|] == last.id;
    forall i | 0 <= i < |front|
      ensures G.Settled(m, front, i)
    {
      assert G.Settled(m, nodes, i);
      assert front[..i] == nodes[..i];
    }
    assert G.Topological(m, front);
  }

  lemma WorksDistinct(work: Naming, ids: seq<Str>)
    requires Injective(work) && O.Distinct(ids)
    ensures DistinctIds(Works(work, ids))
  {
    var r := Works(work, ids);
    forall i, j | 0 <= i < j < |r|
      ensures r[i] != r[j]
    {
      assert ids[i] != ids[j];
    }
  }

  lemma NameFresh(s: Tasks, t: Tasks, front: seq<G.Node>, n: G.Node, work: Naming)
    requires NewRowsNamed(s, t, front, work) && Injective(work) && work(n.id) !in s.rows && n.id !in G.NodeIds(front)
    ensures work(n.id) !in t.rows
  {
  }

  lemma DependenciesThere(t: Tasks, owner: Owner, parent: Id, group: Group, front: seq<G.Node>, n: G.Node, work: Naming)
    requires forall i :: 0 <= i < |front| ==> NodeRow(t, owner, parent, group, front[i], work)
    requires Injective(work) && n.id !in G.NodeIds(front) && forall d <- n.dependsOn :: d in G.NodeIds(front)
    ensures forall d <- Works(work, n.dependsOn) :: d != work(n.id) && IsSibling(t, owner, parent, group, d)
  {
    var dependsOn := Works(work, n.dependsOn);
    forall d | d in dependsOn
      ensures d != work(n.id) && IsSibling(t, owner, parent, group, d)
    {
      var i :| 0 <= i < |dependsOn| && dependsOn[i] == d;
      assert n.dependsOn[i] in n.dependsOn;
      assert n.dependsOn[i] in G.NodeIds(front);
      var k :| 0 <= k < |front| && G.NodeIds(front)[k] == n.dependsOn[i];
      assert NodeRow(t, owner, parent, group, front[k], work);
    }
  }

  lemma NodeAdmitted(s: Tasks, t: Tasks, owner: Owner, parent: Id, group: Group, front: seq<G.Node>, n: G.Node,
                     work: Naming)
    requires Sound(t) && HasRoom(s, parent, |front| + 1) && s.rows[parent].owner == owner && Injective(work)
    requires AddedSoFar(s, t, owner, parent, group, front, work)
    requires work(n.id) !in s.rows && n.id !in G.NodeIds(front) && (forall d <- n.dependsOn :: d in G.NodeIds(front))
    requires O.Distinct(n.dependsOn) && |n.dependsOn| <= 64
    ensures parent in t.rows && t.rows[parent] == s.rows[parent]
    ensures work(n.id) !in t.rows && MayCreate(t, parent, work(n.id), Works(work, n.dependsOn), group)
  {
    assert Unfolding(0);
    NameFresh(s, t, front, n, work);
    DependenciesThere(t, owner, parent, group, front, n, work);
    AncestorCheckExact(t, parent);
    WorksDistinct(work, n.dependsOn);
    assert ChildrenBut(t, parent, work(n.id)) == ChildrenOf(t, parent);
  }

  lemma RowsStay(t: Tasks, u: Tasks, owner: Owner, parent: Id, group: Group, nodes: seq<G.Node>, work: Naming)
    requires OldRowsKept(t, u) && forall i :: 0 <= i < |nodes| ==> NodeRow(t, owner, parent, group, nodes[i], work)
    ensures forall i :: 0 <= i < |nodes| ==> NodeRow(u, owner, parent, group, nodes[i], work)
  {
    forall i | 0 <= i < |nodes|
      ensures NodeRow(u, owner, parent, group, nodes[i], work)
    {
      assert NodeRow(t, owner, parent, group, nodes[i], work);
    }
  }

  lemma NamesGrow(s: Tasks, t: Tasks, u: Tasks, front: seq<G.Node>, n: G.Node, work: Naming)
    requires NewRowsNamed(s, t, front, work) && u.rows.Keys == t.rows.Keys + {work(n.id)}
    ensures NewRowsNamed(s, u, front + [n], work)
  {
    P.IdsAppended(front, n);
    var names := Works(work, G.NodeIds(front + [n]));
    assert names == Works(work, G.NodeIds(front)) + [work(n.id)];
  }

  lemma ChildInserted(t: Tasks, parent: Id, group: Group, id: Id, dependsOn: seq<Id>)
    requires id !in t.rows && MayCreate(t, parent, id, dependsOn, group)
    ensures var u := CreateChild(t, parent, id, dependsOn, group);
            && OldRowsKept(t, u) && u.rows.Keys == t.rows.Keys + {id}
            && IsSibling(u, t.rows[parent].owner, parent, group, id) && u.rows[id].dependsOn == dependsOn
            && |ChildrenOf(u, parent)| <= |ChildrenOf(t, parent)| + 1
  {
    var u := CreateChild(t, parent, id, dependsOn, group);
    assert u == Insert(t, id, NewChild(t, parent, id, dependsOn, group));
    assert ChildrenOf(u, parent) == ChildrenOf(t, parent) + {id};
  }

  lemma NodeAdded(s: Tasks, t: Tasks, owner: Owner, parent: Id, group: Group, front: seq<G.Node>, n: G.Node,
                  work: Naming)
    requires parent in t.rows && t.rows[parent].owner == owner && AddedSoFar(s, t, owner, parent, group, front, work)
    requires work(n.id) !in t.rows && MayCreate(t, parent, work(n.id), Works(work, n.dependsOn), group)
    ensures AddedSoFar(s, CreateChild(t, parent, work(n.id), Works(work, n.dependsOn), group), owner, parent, group, front + [n], work)
  {
    assert Unfolding(0);
    var id := work(n.id);
    var u := CreateChild(t, parent, id, Works(work, n.dependsOn), group);
    ChildInserted(t, parent, group, id, Works(work, n.dependsOn));
    RowsStay(t, u, owner, parent, group, front, work);
    NamesGrow(s, t, u, front, n, work);
  }

  lemma NothingAdded(s: Tasks, owner: Owner, parent: Id, group: Group, work: Naming)
    ensures AddedSoFar(s, s, owner, parent, group, [], work)
  {
  }

  lemma {:induction false} OrderedAdmitted(s: Tasks, owner: Owner, parent: Id, group: Group, nodes: seq<G.Node>,
                                           work: Naming)
    requires Sound(s) && HasRoom(s, parent, |nodes|) && s.rows[parent].owner == owner
    requires Injective(work) && Ordered(s, nodes, work)
    ensures var r := EnqueueGraph(s, parent, group, nodes, work);
            r.Some? && Sound(r.value) && AddedSoFar(s, r.value, owner, parent, group, nodes, work)
    decreases |nodes|
  {
    if nodes == [] {
      NothingAdded(s, owner, parent, group, work);
    } else {
      var front, n := nodes[..|nodes| - 1], nodes[|nodes| - 1];
      FrontOrdered(s, nodes, work);
      OrderedAdmitted(s, owner, parent, group, front, work);
      var t := EnqueueGraph(s, parent, group, front, work).value;
      assert n in nodes;
      NodeAdmitted(s, t, owner, parent, group, front, n, work);
      ChildKeeps(t, parent, work(n.id), Works(work, n.dependsOn), group);
      NodeAdded(s, t, owner, parent, group, front, n, work);
      assert nodes == front + [n];
    }
  }

  lemma GraphOrdered(s: Tasks, id: Str, input: seq<G.Node>, work: Naming)
    requires G.GraphNodes(id, input).Success? && forall n <- input :: work(n.id) !in s.rows
    ensures Ordered(s, G.GraphNodes(id, input).value, work)
    ensures |G.GraphNodes(id, input).value| == |input|
  {
    var ordered := G.GraphNodes(id, input).value;
    T.SuccessIsOrder(id, input);
    assert |multiset(T.Shapes(ordered))| == |multiset(T.Shapes(input))|;
    forall n | n in ordered
      ensures O.Distinct(n.dependsOn) && |n.dependsOn| <= 64 && work(n.id) !in s.rows
    {
      var m := T.Partner(ordered, input, n);
      T.SameDependencies(m, n);
    }
  }

  /**
   * When `graphNodes` accepts a graph and the parent has room for it, every node is inserted in turn: each finds its
   * dependencies there, the dependency edges are those of the graph, and no other row changes.
   */
  lemma GraphAdmitted(s: Tasks, parent: Id, group: Group, id: Str, input: seq<G.Node>, work: Naming)
    requires Sound(s) && HasRoom(s, parent, |input|) && Injective(work)
    requires G.GraphNodes(id, input).Success? && forall n <- input :: work(n.id) !in s.rows
    ensures var nodes := G.GraphNodes(id, input).value;
            var r := EnqueueGraph(s, parent, group, nodes, work);
            r.Some? && Sound(r.value) && Added(s, r.value, s.rows[parent].owner, parent, group, nodes, work)
  {
    assert Unfolding(0);
    GraphOrdered(s, id, input, work);
    OrderedAdmitted(s, s.rows[parent].owner, parent, group, G.GraphNodes(id, input).value, work);
  }
}
