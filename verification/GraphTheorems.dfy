/** `graphNodes`: when it succeeds, what it returns, and that the order of its input does not matter. */
module GraphTheorems {
  import opened Text
  import opened Order
  import opened Graphs
  import opened GraphProofs

  /** A node up to the order of its dependencies. */
  datatype Shape = Shape(id: Str, agentId: Str, text: Str, dependsOn: multiset<Str>)

  function ShapeOf(n: Node): Shape { Shape(n.id, n.agentId, n.text, multiset(n.dependsOn)) }

  function Shapes(input: seq<Node>): (s: seq<Shape>)
    ensures |s| == |input|
  {
    seq(|input|, i requires 0 <= i < |input| => ShapeOf(input[i]))
  }

  /** The same nodes, in any order, each with its dependencies in any order. */
  predicate SameGraph(a: seq<Node>, b: seq<Node>) { multiset(Shapes(a)) == multiset(Shapes(b)) }

  lemma SameIds(a: seq<Node>, b: seq<Node>)
    requires SameGraph(a, b) && Distinct(NodeIds(a))
    ensures Distinct(NodeIds(b)) && Keys(NodeIds(a)) == Keys(NodeIds(b))
  {
    var key := (s: Shape) => s.id;
    assert Column(Shapes(a), key) == NodeIds(a) && Column(Shapes(b), key) == NodeIds(b);
    Permuted(Shapes(a), Shapes(b), key);
  }

  lemma Partner(a: seq<Node>, b: seq<Node>, n: Node) returns (m: Node)
    requires SameGraph(a, b) && n in a
    ensures m in b && ShapeOf(m) == ShapeOf(n)
  {
    var i :| 0 <= i < |a| && a[i] == n;
    assert Shapes(a)[i] in multiset(Shapes(b));
    var j :| 0 <= j < |b| && Shapes(b)[j] == Shapes(a)[i];
    m := b[j];
  }

  lemma SameDependencies(n: Node, m: Node)
    requires ShapeOf(n) == ShapeOf(m) && Distinct(n.dependsOn)
    ensures Distinct(m.dependsOn) && |m.dependsOn| == |n.dependsOn| && Stored(n) == Stored(m)
    ensures forall d :: d in n.dependsOn <==> d in m.dependsOn
  {
    assert |multiset(n.dependsOn)| == |multiset(m.dependsOn)|;
    forall i, j | 0 <= i < j < |m.dependsOn|
      ensures m.dependsOn[i] != m.dependsOn[j]
    {
      if m.dependsOn[i] == m.dependsOn[j] {
        Twice(m.dependsOn, i, j);
        var k, l := TwoPlaces(n.dependsOn, m.dependsOn[i]);
      }
    }
    forall d
      ensures d in n.dependsOn <==> d in m.dependsOn
    {
      assert d in multiset(n.dependsOn) <==> d in multiset(m.dependsOn);
    }
    assert Keys(n.dependsOn) == Keys(m.dependsOn);
    SortForgets(n.dependsOn, m.dependsOn);
  }

  lemma StillValid(id: Str, a: seq<Node>, b: seq<Node>)
    requires SameGraph(a, b) && ValidInput(id, a)
    ensures ValidInput(id, b)
  {
    SameIds(a, b);
    assert |multiset(Shapes(a))| == |multiset(Shapes(b))|;
    forall m | m in b
      ensures ValidNode(m)
    {
      var n := Partner(b, a, m);
      SameDependencies(n, m);
    }
  }

  lemma SameCollection(a: seq<Node>, b: seq<Node>)
    requires SameGraph(a, b) && Distinct(NodeIds(a)) && forall n <- a :: Distinct(n.dependsOn)
    ensures Collect(a) == Collect(b)
  {
    SameIds(a, b);
    Collected(a);
    Collected(b);
    forall k | k in Collect(a)
      ensures Collect(a)[k] == Collect(b)[k]
    {
      assert k in NodeIds(a);
      var i :| 0 <= i < |a| && a[i].id == k;
      var m := Partner(a, b, a[i]);
      SameDependencies(a[i], m);
    }
  }

  /** Neither the order of the nodes nor the order of any `dependsOn` can be told from the result. */
  lemma OrderIndependent(id: Str, a: seq<Node>, b: seq<Node>)
    requires SameGraph(a, b)
    ensures GraphNodes(id, a) == GraphNodes(id, b)
  {
    if ValidInput(id, a) {
      StillValid(id, a, b);
      SameIds(a, b);
      SameCollection(a, b);
      SortForgets(NodeIds(a), NodeIds(b));
    } else if ValidInput(id, b) {
      StillValid(id, b, a);
    }
  }

  // ---- Success ----

  lemma StoredShape(n: Node)
    requires Distinct(n.dependsOn)
    ensures ShapeOf(Stored(n)) == ShapeOf(n) && Ascending(Stored(n).dependsOn)
  {
    SortSorts(n.dependsOn);
    AscendingDistinct(Sort(n.dependsOn));
    SortMembers(n.dependsOn);
    SameMembers(Sort(n.dependsOn), n.dependsOn);
  }

  lemma Origin(input: seq<Node>, ordered: seq<Node>, i: nat) returns (n: Node)
    requires Distinct(NodeIds(input)) && Topological(Collect(input), ordered) && i < |ordered|
    ensures n in input && ordered[i] == Stored(n)
  {
    Collected(input);
    assert Settled(Collect(input), ordered, i);
    assert ordered[i].id in NodeIds(input);
    var j :| 0 <= j < |input| && NodeIds(input)[j] == ordered[i].id;
    n := input[j];
  }

  lemma Placed(input: seq<Node>, ordered: seq<Node>, n: Node) returns (i: nat)
    requires Distinct(NodeIds(input)) && Topological(Collect(input), ordered) && n in input
    requires Collect(input).Keys == Keys(NodeIds(ordered))
    ensures i < |ordered| && ordered[i] == Stored(n)
  {
    Collected(input);
    assert n.id in Keys(NodeIds(ordered));
    i :| 0 <= i < |ordered| && NodeIds(ordered)[i] == n.id;
    assert Settled(Collect(input), ordered, i);
  }

  lemma DistinctShapes(s: seq<Node>)
    requires Distinct(NodeIds(s))
    ensures forall i, j :: 0 <= i < j < |s| ==> Shapes(s)[i] != Shapes(s)[j]
  {
    forall i, j | 0 <= i < j < |s|
      ensures Shapes(s)[i] != Shapes(s)[j]
    {
      assert NodeIds(s)[i] != NodeIds(s)[j];
    }
  }

  predicate Arranges(input: seq<Node>, ordered: seq<Node>) {
    && Distinct(NodeIds(input)) && (forall n <- input :: Distinct(n.dependsOn))
    && Topological(Collect(input), ordered) && Collect(input).Keys == Keys(NodeIds(ordered))
  }

  lemma ShapeFrom(input: seq<Node>, ordered: seq<Node>, i: nat)
    requires Arranges(input, ordered) && i < |ordered|
    ensures Shapes(ordered)[i] in Shapes(input)
  {
    var n := Origin(input, ordered, i);
    StoredShape(n);
    var j :| 0 <= j < |input| && input[j] == n;
    assert Shapes(input)[j] == Shapes(ordered)[i];
  }

  lemma ShapeTo(input: seq<Node>, ordered: seq<Node>, j: nat)
    requires Arranges(input, ordered) && j < |input|
    ensures Shapes(input)[j] in Shapes(ordered)
  {
    assert input[j] in input;
    var i := Placed(input, ordered, input[j]);
    StoredShape(input[j]);
    assert Shapes(ordered)[i] == Shapes(input)[j];
  }

  lemma SameGraphOut(input: seq<Node>, ordered: seq<Node>)
    requires Arranges(input, ordered)
    ensures SameGraph(ordered, input)
  {
    forall i | 0 <= i < |ordered| ensures Shapes(ordered)[i] in Shapes(input) { ShapeFrom(input, ordered, i); }
    forall j | 0 <= j < |input| ensures Shapes(input)[j] in Shapes(ordered) { ShapeTo(input, ordered, j); }
    DistinctShapes(input);
    DistinctShapes(ordered);
    SameMembers(Shapes(ordered), Shapes(input));
  }

  lemma SuccessArranges(id: Str, input: seq<Node>)
    requires GraphNodes(id, input).Success?
    ensures Arranges(input, GraphNodes(id, input).value)
  {
    var nodes, ids := Collect(input), Sort(NodeIds(input));
    var ordered := GraphNodes(id, input).value;
    Collected(input);
    SortMembers(NodeIds(input));
    VisitAllGrows(nodes, {}, [], ids);
    assert forall k :: k in nodes ==> k in NodeIds(ordered);
    forall k | k in NodeIds(ordered)
      ensures k in nodes
    {
      var i :| 0 <= i < |ordered| && NodeIds(ordered)[i] == k;
      assert Settled(nodes, ordered, i);
    }
  }

  /** What the search returns is the input again, put into dependency order. */
  lemma SuccessIsOrder(id: Str, input: seq<Node>)
    requires GraphNodes(id, input).Success?
    ensures var ordered := GraphNodes(id, input).value;
            && Topological(Collect(input), ordered) && SameGraph(ordered, input)
            && forall n <- ordered :: Ascending(n.dependsOn)
    ensures Complete(Collect(input)) && Acyclic(Collect(input))
  {
    var ordered := GraphNodes(id, input).value;
    SuccessArranges(id, input);
    SameGraphOut(input, ordered);
    forall m | m in ordered
      ensures Ascending(m.dependsOn)
    {
      var i :| 0 <= i < |ordered| && ordered[i] == m;
      var n := Origin(input, ordered, i);
      StoredShape(n);
    }
    OrderedAcyclic(Collect(input), ordered);
  }

  /** It fails exactly for a bad node, a missing dependency or a cycle, and names one that is there. */
  lemma SucceedsExactly(id: Str, input: seq<Node>)
    ensures var r := GraphNodes(id, input);
            && (r == Failure(InvalidGraph) <==> !ValidInput(id, input))
            && (r == Failure(MissingDependency) ==> !Complete(Collect(input)))
            && (r == Failure(CyclicDependency) ==> !Acyclic(Collect(input)))
            && (r.Success? <==> ValidInput(id, input) && Complete(Collect(input)) && Acyclic(Collect(input)))
  {
    if ValidInput(id, input) {
      var nodes := Collect(input);
      Collected(input);
      SortMembers(NodeIds(input));
      assert IsStack(nodes, {}, []);
      VisitAllFails(nodes, {}, [], [], Sort(NodeIds(input)));
      if GraphNodes(id, input).Success? { SuccessIsOrder(id, input); }
    }
  }
}
