/** `graphNodes`, said of its input: what it accepts, and in which order it returns the nodes. */
module GraphOrder {
  import opened Text
  import opened Order
  import opened Graphs
  import opened GraphProofs
  import opened GraphTheorems

  // ---- What is accepted ----

  /** Something other than white space. */
  ghost predicate Written(s: Str) { exists i :: 0 <= i < |s| && !IsSpace(s[i]) }

  ghost predicate Named(s: Str) { Written(s) && |s| <= 1000 }

  ghost predicate GoodNode(n: Node) {
    && Named(n.id) && Named(n.agentId) && Written(n.text) && |n.text| <= 100_000
    && |n.dependsOn| <= 64 && (forall k :: 0 <= k < |n.dependsOn| ==> Named(n.dependsOn[k]))
    && forall k, l :: 0 <= k < l < |n.dependsOn| ==> n.dependsOn[k] != n.dependsOn[l]
  }

  ghost predicate WellFormed(id: Str, input: seq<Node>) {
    && Named(id) && 1 <= |input| <= 64 && (forall i :: 0 <= i < |input| ==> GoodNode(input[i]))
    && forall i, j :: 0 <= i < j < |input| ==> input[i].id != input[j].id
  }

  ghost predicate Needs(input: seq<Node>, a: Str, b: Str) { exists n <- input :: n.id == a && b in n.dependsOn }

  ghost predicate NothingMissing(input: seq<Node>) {
    forall n <- input :: forall d <- n.dependsOn :: exists m <- input :: m.id == d
  }

  /** Walking along dependencies never leads back to the start. */
  ghost predicate NoCycle(input: seq<Node>) {
    forall p: seq<Str> :: |p| >= 2 && p[0] == p[|p| - 1] ==> exists i :: 0 <= i < |p| - 1 && !Needs(input, p[i], p[i + 1])
  }

  lemma NamedExactly(s: Str)
    ensures IsIdentifier(s) <==> Named(s)
    ensures IsBlank(s) <==> !Written(s)
  {
  }

  lemma NodeExactly(n: Node)
    ensures ValidNode(n) <==> GoodNode(n)
  {
    NamedExactly(n.id);
    NamedExactly(n.agentId);
    NamedExactly(n.text);
    forall k | 0 <= k < |n.dependsOn|
      ensures IsIdentifier(n.dependsOn[k]) <==> Named(n.dependsOn[k])
    {
      NamedExactly(n.dependsOn[k]);
    }
    assert (forall d <- n.dependsOn :: IsIdentifier(d)) <==> forall k :: 0 <= k < |n.dependsOn| ==> Named(n.dependsOn[k]);
  }

  lemma DistinctExactly(input: seq<Node>)
    ensures Distinct(NodeIds(input)) <==> forall i, j :: 0 <= i < j < |input| ==> input[i].id != input[j].id
  {
    assert forall i :: 0 <= i < |input| ==> NodeIds(input)[i] == input[i].id;
    if !Distinct(NodeIds(input)) {
      var i, j :| 0 <= i < j < |input| && NodeIds(input)[i] == NodeIds(input)[j];
      assert input[i].id == input[j].id;
    }
  }

  lemma WellFormedExactly(id: Str, input: seq<Node>)
    ensures ValidInput(id, input) <==> WellFormed(id, input)
  {
    NamedExactly(id);
    forall i | 0 <= i < |input|
      ensures ValidNode(input[i]) <==> GoodNode(input[i])
    {
      NodeExactly(input[i]);
    }
    assert (forall n <- input :: ValidNode(n)) <==> forall i :: 0 <= i < |input| ==> ValidNode(input[i]);
    DistinctExactly(input);
  }

  lemma OneNode(input: seq<Node>, n: Node, m: Node)
    requires Distinct(NodeIds(input)) && n in input && m in input && n.id == m.id
    ensures n == m
  {
    var i :| 0 <= i < |input| && input[i] == n;
    var j :| 0 <= j < |input| && input[j] == m;
    assert NodeIds(input)[i] == NodeIds(input)[j];
  }

  lemma HasNode(input: seq<Node>, id: Str) returns (n: Node)
    requires id in NodeIds(input)
    ensures n in input && n.id == id
  {
    var i :| 0 <= i < |input| && NodeIds(input)[i] == id;
    n := input[i];
  }

  lemma NeedsExactly(input: seq<Node>, a: Str, b: Str)
    requires Distinct(NodeIds(input))
    ensures DependsOn(Collect(input), a, b) <==> Needs(input, a, b)
  {
    Collected(input);
    if a in Collect(input) {
      var n := HasNode(input, a);
      SortMembers(n.dependsOn);
      forall m | m in input && m.id == a ensures m == n { OneNode(input, n, m); }
    }
  }

  lemma MissingExactly(input: seq<Node>)
    requires Distinct(NodeIds(input))
    ensures Complete(Collect(input)) <==> NothingMissing(input)
  {
    Collected(input);
    forall d ensures d in Collect(input) <==> exists m <- input :: m.id == d {
      if d in Collect(input) { var m := HasNode(input, d); }
    }
    forall n | n in input ensures forall d :: d in n.dependsOn <==> d in Collect(input)[n.id].dependsOn {
      SortMembers(n.dependsOn);
    }
    forall a | a in Collect(input) ensures exists n <- input :: n.id == a { var n := HasNode(input, a); }
  }

  lemma CyclesExactly(input: seq<Node>)
    requires Distinct(NodeIds(input))
    ensures Acyclic(Collect(input)) <==> NoCycle(input)
  {
    forall p: seq<Str> | |p| >= 2 && p[0] == p[|p| - 1]
      ensures IsCycle(Collect(input), p) <==> !exists i :: 0 <= i < |p| - 1 && !Needs(input, p[i], p[i + 1])
    {
      forall i | 0 <= i < |p| - 1
        ensures DependsOn(Collect(input), p[i], p[i + 1]) <==> Needs(input, p[i], p[i + 1])
      {
        NeedsExactly(input, p[i], p[i + 1]);
      }
    }
  }

  /** What is refused is malformed, or depends on what is not there, or has a cycle; the error names the defect. */
  lemma AcceptsExactly(id: Str, input: seq<Node>)
    ensures var r := GraphNodes(id, input);
            && (r.Success? <==> WellFormed(id, input) && NothingMissing(input) && NoCycle(input))
            && (r == Failure(InvalidGraph) <==> !WellFormed(id, input))
            && (r == Failure(MissingDependency) ==> !NothingMissing(input))
            && (r == Failure(CyclicDependency) ==> !NoCycle(input))
  {
    SucceedsExactly(id, input);
    WellFormedExactly(id, input);
    if ValidInput(id, input) {
      MissingExactly(input);
      CyclesExactly(input);
    }
  }

  // ---- In which order ----

  /** `to` is `from` itself or what it depends on, directly or not. */
  ghost predicate Reaches(nodes: Nodes, from: Str, to: Str) {
    exists p: seq<Str> :: p != [] && p[0] == from && p[|p| - 1] == to && IsPath(nodes, p)
  }

  lemma ReachesItself(nodes: Nodes, a: Str)
    ensures Reaches(nodes, a, a)
  {
    assert [a][0] == a && IsPath(nodes, [a]);
  }

  lemma ReachesOn(nodes: Nodes, a: Str, b: Str, c: Str)
    requires DependsOn(nodes, a, b) && Reaches(nodes, b, c)
    ensures Reaches(nodes, a, c)
  {
    var p: seq<Str> :| p != [] && p[0] == b && p[|p| - 1] == c && IsPath(nodes, p);
    var q := [a] + p;
    forall i | 0 <= i < |q| - 1
      ensures DependsOn(nodes, q[i], q[i + 1])
    {
      if i > 0 { assert DependsOn(nodes, p[i - 1], p[i]); }
    }
    assert q[0] == a && q[|q| - 1] == c;
  }

  lemma {:induction false} VisitReaches(nodes: Nodes, visiting: set<Str>, ordered: seq<Node>, id: Str, x: Str)
    requires Keyed(nodes) && Visit(nodes, visiting, ordered, id).Success?
    requires x in NodeIds(Visit(nodes, visiting, ordered, id).value) && x !in NodeIds(ordered)
    ensures Reaches(nodes, id, x)
    decreases nodes.Keys - visiting, 0, 0
  {
    var inner := VisitAll(nodes, visiting + {id}, ordered, nodes[id].dependsOn);
    IdsAppended(inner.value, nodes[id]);
    if x == id {
      ReachesItself(nodes, id);
    } else {
      var z := VisitAllReaches(nodes, visiting + {id}, ordered, nodes[id].dependsOn, x);
      assert DependsOn(nodes, id, z);
      ReachesOn(nodes, id, z, x);
    }
  }

  lemma {:induction false} VisitAllReaches(nodes: Nodes, visiting: set<Str>, ordered: seq<Node>, ids: seq<Str>, x: Str)
    returns (z: Str)
    requires Keyed(nodes) && VisitAll(nodes, visiting, ordered, ids).Success?
    requires x in NodeIds(VisitAll(nodes, visiting, ordered, ids).value) && x !in NodeIds(ordered)
    ensures z in ids && Reaches(nodes, z, x)
    decreases nodes.Keys - visiting, 1, |ids|
  {
    var o := Visit(nodes, visiting, ordered, ids[0]).value;
    if x in NodeIds(o) {
      VisitReaches(nodes, visiting, ordered, ids[0], x);
      z := ids[0];
    } else {
      z := VisitAllReaches(nodes, visiting, o, ids[1..], x);
    }
  }

  lemma {:induction false} VisitAllSplit(nodes: Nodes, visiting: set<Str>, ordered: seq<Node>, a: seq<Str>, b: seq<Str>)
    requires VisitAll(nodes, visiting, ordered, a + b).Success?
    ensures VisitAll(nodes, visiting, ordered, a).Success?
    ensures VisitAll(nodes, visiting, ordered, a + b) == VisitAll(nodes, visiting, VisitAll(nodes, visiting, ordered, a).value, b)
    decreases |a|
  {
    if a == [] {
      assert a + b == b;
    } else {
      assert (a + b)[0] == a[0] && (a + b)[1..] == a[1..] + b;
      VisitAllSplit(nodes, visiting, Visit(nodes, visiting, ordered, a[0]).value, a[1..], b);
    }
  }

  /** What is in the order once the ids up to `ids[m]` were visited comes before all the rest. */
  lemma UpTo(nodes: Nodes, ids: seq<Str>, m: nat, out: seq<Node>)
    requires Keyed(nodes) && m < |ids| && VisitAll(nodes, {}, [], ids) == Success(out)
    ensures var r := VisitAll(nodes, {}, [], ids[..m + 1]); r.Success? && r.value <= out && ids[m] in NodeIds(r.value)
  {
    assert ids == ids[..m + 1] + ids[m + 1..];
    VisitAllSplit(nodes, {}, [], ids[..m + 1], ids[m + 1..]);
    VisitAllGrows(nodes, {}, [], ids[..m + 1]);
    assert ids[..m + 1][m] == ids[m];
    VisitAllGrows(nodes, {}, VisitAll(nodes, {}, [], ids[..m + 1]).value, ids[m + 1..]);
  }

  /** The same, told by the place of another node: what stands before `ids[m]` was reached from `ids[..m + 1]`. */
  lemma Before(nodes: Nodes, ids: seq<Str>, m: nat, out: seq<Node>, i: nat, j: nat) returns (l: nat)
    requires Keyed(nodes) && m < |ids| && VisitAll(nodes, {}, [], ids) == Success(out)
    requires i < j < |out| && out[j].id == ids[m] && Distinct(NodeIds(out))
    ensures l <= m && Reaches(nodes, ids[l], out[i].id)
  {
    UpTo(nodes, ids, m, out);
    var part := VisitAll(nodes, {}, [], ids[..m + 1]).value;
    var k :| 0 <= k < |part| && NodeIds(part)[k] == ids[m];
    assert NodeIds(out)[k] == NodeIds(out)[j];
    assert NodeIds(part)[i] == out[i].id;
    var z := VisitAllReaches(nodes, {}, [], ids[..m + 1], out[i].id);
    l :| 0 <= l < |ids[..m + 1]| && ids[..m + 1][l] == z;
  }

  lemma Visited(id: Str, input: seq<Node>, j: nat) returns (m: nat)
    requires GraphNodes(id, input).Success? && j < |GraphNodes(id, input).value|
    ensures m < |Sort(NodeIds(input))| && Sort(NodeIds(input))[m] == GraphNodes(id, input).value[j].id
    ensures Ascending(Sort(NodeIds(input))) && Keyed(Collect(input)) && Distinct(NodeIds(GraphNodes(id, input).value))
  {
    var ids, out := Sort(NodeIds(input)), GraphNodes(id, input).value;
    Collected(input);
    SortSorts(NodeIds(input));
    SuccessIsOrder(id, input);
    assert Settled(Collect(input), out, j);
    assert out[j].id in Keys(ids);
    m :| 0 <= m < |ids| && ids[m] == out[j].id;
  }

  /**
   * Smaller ids come first as far as the dependencies allow: a node stands before another only if some id that is not
   * greater than that other's leads to it.
   */
  lemma SmallerFirst(id: Str, input: seq<Node>, i: nat, j: nat)
    requires GraphNodes(id, input).Success? && i < j < |GraphNodes(id, input).value|
    ensures var out := GraphNodes(id, input).value;
            exists z :: (z == out[j].id || Precedes(z, out[j].id)) && Reaches(Collect(input), z, out[i].id)
  {
    var ids, out := Sort(NodeIds(input)), GraphNodes(id, input).value;
    var m := Visited(id, input, j);
    var l := Before(Collect(input), ids, m, out, i, j);
    if l < m { LessExactly(ids[l], ids[m]); }
  }
}
