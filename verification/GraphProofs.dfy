/** What the depth-first search of `graphNodes` keeps, and why it fails when it fails. */
module GraphProofs {
  import opened Text
  import opened Order
  import opened Graphs

  lemma IdsAppended(o: seq<Node>, n: Node)
    ensures NodeIds(o + [n]) == NodeIds(o) + [n.id]
  {
  }

  lemma IdsPrefix(o: seq<Node>, i: nat)
    requires i <= |o|
    ensures NodeIds(o[..i]) == NodeIds(o)[..i]
  {
  }

  lemma Appended(nodes: Nodes, o: seq<Node>, n: Node)
    requires Topological(nodes, o) && n.id in nodes && nodes[n.id] == n && n.id !in NodeIds(o)
    requires forall d <- n.dependsOn :: d in NodeIds(o)
    ensures Topological(nodes, o + [n])
  {
    var p := o + [n];
    IdsAppended(o, n);
    forall i | 0 <= i < |p|
      ensures Settled(nodes, p, i)
    {
      assert p[..i] == o[..i];
      assert i < |o| ==> Settled(nodes, o, i);
      assert i == |o| ==> o[..i] == o;
    }
  }

  // ---- What a successful search has done ----

  /** The result extends the order, stays in dependency order, and has nothing that is still being visited. */
  predicate Grows(nodes: Nodes, visiting: set<Str>, before: seq<Node>, after: seq<Node>) {
    before <= after && Topological(nodes, after) && forall v <- visiting :: v !in NodeIds(after)
  }

  lemma {:induction false} VisitGrows(nodes: Nodes, visiting: set<Str>, ordered: seq<Node>, id: Str)
    requires Keyed(nodes) && Grows(nodes, visiting, [], ordered)
    ensures var r := Visit(nodes, visiting, ordered, id);
            r.Success? ==> Grows(nodes, visiting, ordered, r.value) && id in NodeIds(r.value)
    decreases nodes.Keys - visiting, 0, 0
  {
    if id in nodes && id !in visiting && id !in NodeIds(ordered) {
      VisitAllGrows(nodes, visiting + {id}, ordered, nodes[id].dependsOn);
      var r := VisitAll(nodes, visiting + {id}, ordered, nodes[id].dependsOn);
      if r.Success? {
        Appended(nodes, r.value, nodes[id]);
        IdsAppended(r.value, nodes[id]);
      }
    }
  }

  lemma {:induction false} VisitAllGrows(nodes: Nodes, visiting: set<Str>, ordered: seq<Node>, ids: seq<Str>)
    requires Keyed(nodes) && Grows(nodes, visiting, [], ordered)
    ensures var r := VisitAll(nodes, visiting, ordered, ids);
            r.Success? ==> Grows(nodes, visiting, ordered, r.value) && forall d <- ids :: d in NodeIds(r.value)
    decreases nodes.Keys - visiting, 1, |ids|
  {
    if ids != [] {
      VisitGrows(nodes, visiting, ordered, ids[0]);
      var r := Visit(nodes, visiting, ordered, ids[0]);
      if r.Success? {
        VisitAllGrows(nodes, visiting, r.value, ids[1..]);
        var q := VisitAll(nodes, visiting, r.value, ids[1..]);
        if q.Success? {
          IdsPrefix(q.value, |r.value|);
          assert q.value[..|r.value|] == r.value;
          assert ids[0] in NodeIds(q.value)[..|r.value|];
          assert ids == [ids[0]] + ids[1..];
        }
      }
    }
  }

  // ---- Why a search fails ----

  /** The stack of ids being visited is a walk whose next step is `id`. */
  predicate Leads(nodes: Nodes, stack: seq<Str>, id: Str) {
    if stack == [] then id in nodes else DependsOn(nodes, stack[|stack| - 1], id)
  }

  predicate IsStack(nodes: Nodes, visiting: set<Str>, stack: seq<Str>) {
    Keys(stack) == visiting && IsPath(nodes, stack)
  }

  ghost predicate Explains(nodes: Nodes, error: Error) {
    || (error.MissingDependency? && !Complete(nodes))
    || (error.CyclicDependency? && !Acyclic(nodes))
  }

  lemma ClosesCycle(nodes: Nodes, stack: seq<Str>, id: Str)
    requires IsPath(nodes, stack) && stack != [] && Leads(nodes, stack, id) && id in stack
    ensures !Acyclic(nodes)
  {
    var i :| 0 <= i < |stack| && stack[i] == id;
    var p := stack[i..] + [id];
    forall k | 0 <= k < |p| - 1
      ensures DependsOn(nodes, p[k], p[k + 1])
    {
      assert p[k] == stack[i + k];
      assert k + 1 < |p| - 1 ==> p[k + 1] == stack[i + k + 1];
    }
    assert IsCycle(nodes, p);
  }

  lemma Pushes(nodes: Nodes, visiting: set<Str>, stack: seq<Str>, id: Str)
    requires IsStack(nodes, visiting, stack) && Leads(nodes, stack, id)
    ensures IsStack(nodes, visiting + {id}, stack + [id])
  {
    var p := stack + [id];
    assert forall k :: 0 <= k < |p| - 1 ==> DependsOn(nodes, p[k], p[k + 1]);
    assert forall x :: x in p <==> x in stack || x == id;
  }

  lemma {:induction false} VisitFails(nodes: Nodes, visiting: set<Str>, stack: seq<Str>, ordered: seq<Node>, id: Str)
    requires IsStack(nodes, visiting, stack) && Leads(nodes, stack, id)
    ensures var r := Visit(nodes, visiting, ordered, id); r.Failure? ==> Explains(nodes, r.error)
    decreases nodes.Keys - visiting, 0, 0
  {
    if id in nodes && id in visiting {
      ClosesCycle(nodes, stack, id);
    } else if id in nodes && id !in NodeIds(ordered) {
      Pushes(nodes, visiting, stack, id);
      VisitAllFails(nodes, visiting + {id}, stack + [id], ordered, nodes[id].dependsOn);
    }
  }

  lemma {:induction false} VisitAllFails(nodes: Nodes, visiting: set<Str>, stack: seq<Str>, ordered: seq<Node>,
                                         ids: seq<Str>)
    requires IsStack(nodes, visiting, stack) && forall d <- ids :: Leads(nodes, stack, d)
    ensures var r := VisitAll(nodes, visiting, ordered, ids); r.Failure? ==> Explains(nodes, r.error)
    decreases nodes.Keys - visiting, 1, |ids|
  {
    if ids != [] {
      VisitFails(nodes, visiting, stack, ordered, ids[0]);
      var r := Visit(nodes, visiting, ordered, ids[0]);
      if r.Success? {
        VisitAllFails(nodes, visiting, stack, r.value, ids[1..]);
      }
    }
  }

  // ---- A full order shows that the graph is complete and without cycles ----

  function Position(ordered: seq<Node>, id: Str): (i: nat)
    requires id in NodeIds(ordered)
    ensures i < |ordered| && ordered[i].id == id
  {
    if ordered[0].id == id then 0
    else
      assert NodeIds(ordered)[1..] == NodeIds(ordered[1..]);
      1 + Position(ordered[1..], id)
  }

  lemma Descends(nodes: Nodes, ordered: seq<Node>, a: Str, b: Str)
    requires Topological(nodes, ordered) && DependsOn(nodes, a, b) && a in NodeIds(ordered)
    ensures b in NodeIds(ordered) && Position(ordered, b) < Position(ordered, a)
  {
    var i := Position(ordered, a);
    assert Settled(nodes, ordered, i);
    assert b in NodeIds(ordered[..i]);
    var k :| 0 <= k < i && NodeIds(ordered[..i])[k] == b;
    assert ordered[k].id == b && NodeIds(ordered)[k] == b;
    var j := Position(ordered, b);
    assert NodeIds(ordered)[j] == b;
  }

  lemma {:induction false} PathDescends(nodes: Nodes, ordered: seq<Node>, p: seq<Str>)
    requires Topological(nodes, ordered) && |p| >= 2 && IsPath(nodes, p) && p[0] in NodeIds(ordered)
    ensures p[|p| - 1] in NodeIds(ordered) && Position(ordered, p[|p| - 1]) < Position(ordered, p[0])
    decreases |p|
  {
    assert DependsOn(nodes, p[0], p[1]);
    Descends(nodes, ordered, p[0], p[1]);
    if |p| > 2 {
      var q := p[1..];
      forall i | 0 <= i < |q| - 1
        ensures DependsOn(nodes, q[i], q[i + 1])
      {
        var k := i + 1;
        assert DependsOn(nodes, p[k], p[k + 1]);
      }
      PathDescends(nodes, ordered, q);
    }
  }

  lemma OrderedAcyclic(nodes: Nodes, ordered: seq<Node>)
    requires Topological(nodes, ordered) && forall k <- nodes.Keys :: k in NodeIds(ordered)
    ensures Complete(nodes) && Acyclic(nodes)
  {
    forall a, d | a in nodes.Keys && d in nodes[a].dependsOn
      ensures d in nodes
    {
      assert DependsOn(nodes, a, d);
      Descends(nodes, ordered, a, d);
      assert Settled(nodes, ordered, Position(ordered, d));
    }
    forall p | IsCycle(nodes, p)
      ensures false
    {
      assert DependsOn(nodes, p[0], p[1]);
      PathDescends(nodes, ordered, p);
    }
  }

  // ---- The map that the search reads ----

  lemma LastNode(input: seq<Node>)
    requires input != [] && Distinct(NodeIds(input))
    ensures var front, n := input[..|input| - 1], input[|input| - 1];
            NodeIds(input) == NodeIds(front) + [n.id] && Distinct(NodeIds(front)) && n.id !in NodeIds(front)
  {
    var front, n := input[..|input| - 1], input[|input| - 1];
    assert input == front + [n];
    IdsAppended(front, n);
    assert forall i :: 0 <= i < |front| ==> NodeIds(input)[i] == NodeIds(front)[i];
    assert NodeIds(input)[|front|] == n.id;
  }

  lemma IdIn(input: seq<Node>, n: Node)
    requires n in input
    ensures n.id in NodeIds(input)
  {
    var i :| 0 <= i < |input| && input[i] == n;
    assert NodeIds(input)[i] == n.id;
  }

  lemma {:induction false} Collected(input: seq<Node>)
    requires Distinct(NodeIds(input))
    ensures Keyed(Collect(input)) && Collect(input).Keys == Keys(NodeIds(input))
    ensures forall n <- input :: n.id in Collect(input) && Collect(input)[n.id] == Stored(n)
    decreases |input|
  {
    if input != [] {
      var front, n := input[..|input| - 1], input[|input| - 1];
      LastNode(input);
      Collected(front);
      forall m | m in front
        ensures m.id in NodeIds(front)
      {
        IdIn(front, m);
      }
    }
  }
}
