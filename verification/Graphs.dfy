/** `graphNodes`: the dependency graph of a delegation, checked and put in order by depth-first search. */
module Graphs {
  import opened Text
  import opened Order

  /** A node as the caller wrote it; no `dependsOn` is an empty one. */
  datatype Node = Node(id: Str, agentId: Str, text: Str, dependsOn: seq<Str>)

  datatype Error = InvalidGraph | MissingDependency | CyclicDependency

  datatype Result<+T> = Success(value: T) | Failure(error: Error)

  type Nodes = map<Str, Node>

  predicate IsBlank(s: Str) { forall u <- s :: IsSpace(u) }

  /** `identifier` of access.ts. */
  predicate IsIdentifier(s: Str) { !IsBlank(s) && |s| <= 1000 }

  predicate ValidNode(n: Node) {
    && IsIdentifier(n.id) && IsIdentifier(n.agentId)
    && !IsBlank(n.text) && |n.text| <= 100_000
    && |n.dependsOn| <= 64 && Distinct(n.dependsOn) && (forall d <- n.dependsOn :: IsIdentifier(d))
  }

  function NodeIds(input: seq<Node>): seq<Str> { seq(|input|, i requires 0 <= i < |input| => input[i].id) }

  predicate ValidInput(id: Str, input: seq<Node>) {
    && IsIdentifier(id) && 1 <= |input| <= 64
    && (forall n <- input :: ValidNode(n)) && Distinct(NodeIds(input))
  }

  function Stored(n: Node): Node { n.(dependsOn := Sort(n.dependsOn)) }

  /** The map that the first loop fills. */
  function Collect(input: seq<Node>): Nodes {
    if input == [] then map[] else Collect(input[..|input| - 1])[input[|input| - 1].id := Stored(input[|input| - 1])]
  }

  // ---- What a good order is ----

  predicate DependsOn(nodes: Nodes, a: Str, b: Str) { a in nodes && b in nodes[a].dependsOn }

  /** A walk along dependencies. */
  predicate IsPath(nodes: Nodes, p: seq<Str>) {
    forall i :: 0 <= i < |p| - 1 ==> DependsOn(nodes, p[i], p[i + 1])
  }

  predicate IsCycle(nodes: Nodes, p: seq<Str>) {
    |p| >= 2 && IsPath(nodes, p) && p[0] == p[|p| - 1]
  }

  ghost predicate Acyclic(nodes: Nodes) { forall p :: !IsCycle(nodes, p) }

  predicate Complete(nodes: Nodes) {
    forall a <- nodes.Keys :: forall d <- nodes[a].dependsOn :: d in nodes
  }

  predicate Settled(nodes: Nodes, ordered: seq<Node>, i: nat)
    requires i < |ordered|
  {
    && ordered[i].id in nodes && nodes[ordered[i].id] == ordered[i]
    && forall d <- ordered[i].dependsOn :: d in NodeIds(ordered[..i])
  }

  /** Each node once, its own entry of the map, after everything it depends on. */
  predicate Topological(nodes: Nodes, ordered: seq<Node>) {
    Distinct(NodeIds(ordered)) && forall i :: 0 <= i < |ordered| ==> Settled(nodes, ordered, i)
  }

  /** The nodes know their own ids. */
  predicate Keyed(nodes: Nodes) { forall k <- nodes.Keys :: nodes[k].id == k }

  // ---- The search ----

  /** `visit`, as a function of the sets it mutates; `ordered` also tells what was visited. */
  function Visit(nodes: Nodes, visiting: set<Str>, ordered: seq<Node>, id: Str): (r: Result<seq<Node>>)
    decreases nodes.Keys - visiting, 0, 0
  {
    if id !in nodes then Failure(MissingDependency)
    else if id in visiting then Failure(CyclicDependency)
    else if id in NodeIds(ordered) then Success(ordered)
    else
      match VisitAll(nodes, visiting + {id}, ordered, nodes[id].dependsOn)
      case Failure(e) => Failure(e)
      case Success(o) => Success(o + [nodes[id]])
  }

  function VisitAll(nodes: Nodes, visiting: set<Str>, ordered: seq<Node>, ids: seq<Str>): (r: Result<seq<Node>>)
    decreases nodes.Keys - visiting, 1, |ids|
  {
    if ids == [] then Success(ordered)
    else
      match Visit(nodes, visiting, ordered, ids[0])
      case Failure(e) => Failure(e)
      case Success(o) => VisitAll(nodes, visiting, o, ids[1..])
  }

  function GraphNodes(id: Str, input: seq<Node>): Result<seq<Node>> {
    if !ValidInput(id, input) then Failure(InvalidGraph)
    else VisitAll(Collect(input), {}, [], Sort(NodeIds(input)))
  }
}
