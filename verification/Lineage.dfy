/** Parents, children and dependencies of work rows, one transaction of the durable store at a time. */
module Lineage {
  import opened Text
  import opened Work

  datatype Owner = Owner(tenant: string, principal: Option<string>)

  /** The request version and the graph that a child belongs to. */
  datatype Group = Group(version: int, graph: Option<string>)

  /** What a delegated row waits for: a child of a request version, and some or all the children of that version. */
  datatype Wait = Wait(child: Id, version: int, children: Option<set<Id>>)

  /**
   * `wait` is set while the row waits for children, `started` says that the row was leased once, `good` that its result
   * is satisfied and answers its last revision.
   * `born` counts the rows inserted before it and `depth` the rows of its lineage; the store keeps neither.
   */
  datatype Task = Task(owner: Owner, parent: Option<Id>, root: Id, group: Group, dependsOn: seq<Id>, status: Status,
                       wait: Option<Wait>, cancelRequested: bool, started: bool, good: bool, born: nat, depth: nat)

  datatype Tasks = Tasks(rows: map<Id, Task>, next: nat)

  const LIMIT := 64

  /** Active and without a cancel request. */
  predicate Live(t: Task) { Active(t.status) && !t.cancelRequested }

  /** The claim's dependency test. */
  predicate Fulfilled(t: Task) { t.status.Succeeded? && !t.cancelRequested && t.good }

  // ---- Creation ----

  /** The recursive query of `enqueueChild`: the row, its parent, and so on up. */
  function Upward(s: Tasks, owner: Owner, id: Id, path: seq<Id>): seq<Id>
    requires |path| < LIMIT
    decreases LIMIT - |path|
  {
    if id !in s.rows || s.rows[id].owner != owner || id in path then path
    else
      var longer := path + [id];
      if |longer| >= LIMIT || s.rows[id].parent.None? then longer
      else Upward(s, owner, s.rows[id].parent.value, longer)
  }

  function ChildrenBut(s: Tasks, parent: Id, id: Id): set<Id> {
    set k | k in s.rows && s.rows[k].parent == Some(parent) && k != id
  }

  predicate IsSibling(s: Tasks, owner: Owner, parent: Id, group: Group, id: Id) {
    id in s.rows && s.rows[id].owner == owner && s.rows[id].parent == Some(parent) && s.rows[id].group == group
  }

  predicate DistinctIds(ids: seq<Id>) { forall i, j :: 0 <= i < j < |ids| ==> ids[i] != ids[j] }

  /** Every ancestor is active and free of cancel requests, the lineage is short enough, and its root is in it. */
  predicate LineageActive(s: Tasks, owner: Owner, parent: Id, root: Id) {
    var line := Upward(s, owner, parent, []);
    |line| < LIMIT && root in line && forall a <- line :: a in s.rows && Live(s.rows[a])
  }

  /**
   * The checks of `enqueueChild`, which a request snapshot precedes: only the worker of a leased parent writes one.
   */
  predicate MayCreate(s: Tasks, parent: Id, id: Id, dependsOn: seq<Id>, group: Group) {
    && parent in s.rows && s.rows[parent].started && s.rows[parent].owner.principal.Some?
    && LineageActive(s, s.rows[parent].owner, parent, s.rows[parent].root)
    && |dependsOn| <= 64 && id !in dependsOn && DistinctIds(dependsOn)
    && |ChildrenBut(s, parent, id)| < 64
    && forall d <- dependsOn :: IsSibling(s, s.rows[parent].owner, parent, group, d)
  }

  function Insert(s: Tasks, id: Id, t: Task): Tasks { Tasks(s.rows[id := t], s.next + 1) }

  function NewRoot(s: Tasks, id: Id, owner: Owner): Task {
    Task(owner, None, id, Group(0, None), [], Queued, None, false, false, false, s.next, 1)
  }

  function NewChild(s: Tasks, parent: Id, id: Id, dependsOn: seq<Id>, group: Group): Task
    requires parent in s.rows
  {
    var p := s.rows[parent];
    Task(p.owner, Some(parent), p.root, group, dependsOn, Queued, None, false, false, false, s.next, p.depth + 1)
  }

  /** A taken id inserts nothing: the request is recognised or refused. */
  function CreateRoot(s: Tasks, id: Id, owner: Owner): Tasks {
    if id in s.rows then s else Insert(s, id, NewRoot(s, id, owner))
  }

  function CreateChild(s: Tasks, parent: Id, id: Id, dependsOn: seq<Id>, group: Group): Tasks {
    if id in s.rows || !MayCreate(s, parent, id, dependsOn, group) then s
    else Insert(s, id, NewChild(s, parent, id, dependsOn, group))
  }

  // ---- Cancellation ----

  predicate ChildOf(s: Tasks, parent: Id, child: Id) {
    parent in s.rows && child in s.rows && s.rows[child].parent == Some(parent) && s.rows[child].owner == s.rows[parent].owner
  }

  /** A path of the recursive query of `cancelDescendants`. */
  predicate IsDescent(s: Tasks, path: seq<Id>) {
    && 2 <= |path| <= LIMIT && DistinctIds(path)
    && forall k :: 0 <= k < |path| - 1 ==> ChildOf(s, path[k], path[k + 1])
  }

  ghost predicate IsDescendant(s: Tasks, from: Id, id: Id) {
    exists path :: IsDescent(s, path) && path[0] == from && path[|path| - 1] == id
  }

  function Stopped(t: Task): Task {
    if !Active(t.status) then t
    else t.(cancelRequested := true, status := if t.status.Leased? then Leased else Cancelled)
  }

  ghost function CancelDescendants(s: Tasks, from: Id): Tasks {
    s.(rows := map id | id in s.rows :: if IsDescendant(s, from, id) then Stopped(s.rows[id]) else s.rows[id])
  }

  ghost function CancelRun(s: Tasks, id: Id): Tasks {
    if id !in s.rows || !Active(s.rows[id].status) then s
    else CancelDescendants(s.(rows := s.rows[id := Stopped(s.rows[id])]), id)
  }

  // ---- The life of a row ----

  /** Queued or with a lease that ran out, no cancel request, every dependency satisfied. */
  predicate MayClaim(s: Tasks, id: Id) {
    && id in s.rows && (s.rows[id].status.Queued? || s.rows[id].status.Leased?) && !s.rows[id].cancelRequested
    && forall d <- s.rows[id].dependsOn :: d in s.rows && Fulfilled(s.rows[d])
  }

  function Put(s: Tasks, id: Id, t: Task): Tasks { s.(rows := s.rows[id := t]) }

  function ClaimTask(s: Tasks, id: Id): Tasks {
    if !MayClaim(s, id) then s else Put(s, id, s.rows[id].(status := Leased, started := true))
  }

  function YieldTask(s: Tasks, id: Id): Tasks {
    if id !in s.rows || !s.rows[id].status.Leased? then s else Put(s, id, s.rows[id].(status := Queued))
  }

  ghost function SettleTask(s: Tasks, id: Id, status: Status, good: bool, wait: Option<Wait>): Tasks {
    if id !in s.rows || !s.rows[id].status.Leased? then s
    else if !status.Failed? && !status.Cancelled? && s.rows[id].cancelRequested then s
    else
      var t := Put(s, id, s.rows[id].(status := status, good := good, wait := if status.Waiting? then wait else None));
      if status.Waiting? then t else CancelDescendants(t, id)
  }

  ghost function Revise(s: Tasks, id: Id): Tasks {
    if id !in s.rows || !Live(s.rows[id]) then s
    else
      var status := if s.rows[id].status.Waiting? then Queued else s.rows[id].status;
      CancelDescendants(Put(s, id, s.rows[id].(status := status, wait := None)), id)
  }

  // ---- Dependents ----

  /** A dependency that can no longer be satisfied. */
  predicate Failing(t: Task) {
    || t.status.Partial? || t.status.Blocked? || t.status.Failed? || t.status.Cancelled? || t.cancelRequested
    || (t.status.Succeeded? && !t.good)
  }

  predicate Fails(s: Tasks, scope: Option<Id>, id: Id) {
    id in s.rows && exists d <- s.rows[id].dependsOn :: d in s.rows && Failing(s.rows[d]) && (scope.Some? ==> scope.value == d)
  }

  predicate Needs(s: Tasks, id: Id, dependency: Id) { id in s.rows && dependency in s.rows[id].dependsOn }

  /** From a row with a failing dependency, dependent by dependent. */
  predicate IsBlockage(s: Tasks, scope: Option<Id>, path: seq<Id>) {
    && path != [] && Fails(s, scope, path[0])
    && forall k :: 0 <= k < |path| - 1 ==> Needs(s, path[k + 1], path[k])
  }

  /** The closure that the recursive query of `resumeDependents` computes. */
  ghost predicate InBlocked(s: Tasks, scope: Option<Id>, id: Id) {
    exists path :: IsBlockage(s, scope, path) && path[|path| - 1] == id
  }

  /** The first statement of `resumeDependents`. */
  ghost function Block(s: Tasks, scope: Option<Id>): Tasks {
    s.(rows := map id | id in s.rows ::
                 if s.rows[id].status.Queued? && InBlocked(s, scope, id) then s.rows[id].(status := Blocked) else s.rows[id])
  }

  /** The child was created by that row for that version of its request. */
  predicate WaitedChild(s: Tasks, id: Id, w: Wait, k: Id) { ChildOf(s, id, k) && s.rows[k].group.version == w.version }

  /** One of the children that have to finish first. */
  predicate Awaited(s: Tasks, id: Id, w: Wait, k: Id) {
    WaitedChild(s, id, w, k) && (w.children.Some? ==> k in w.children.value)
  }

  predicate Parked(s: Tasks, id: Id) {
    id in s.rows && s.rows[id].status.Waiting? && Live(s.rows[id]) && s.rows[id].wait.Some?
  }

  /** A row that waits for children which have all finished. */
  predicate Resumable(s: Tasks, id: Id) {
    && Parked(s, id)
    && var w := s.rows[id].wait.value;
       && WaitedChild(s, id, w, w.child) && !Active(s.rows[w.child].status)
       && forall k <- s.rows.Keys :: Awaited(s, id, w, k) ==> !Active(s.rows[k].status)
  }

  predicate Near(s: Tasks, x: Id, id: Id) { x == id || (x in s.rows && s.rows[x].parent == Some(id)) }

  predicate InScope(s: Tasks, scope: Option<Id>, id: Id) { scope.Some? ==> Near(s, scope.value, id) }

  function Resumed(t: Task): Task { t.(status := Queued, wait := None) }

  /** The second statement of `resumeDependents`. */
  function Resume(s: Tasks, scope: Option<Id>): Tasks {
    s.(rows := map id | id in s.rows ::
                 if InScope(s, scope, id) && Resumable(s, id) then Resumed(s.rows[id]) else s.rows[id])
  }

  /** The resumption of decided approvals: some rows that wait for no child go back to the queue. */
  function Wake(s: Tasks, ids: set<Id>): Tasks {
    s.(rows := map id | id in s.rows ::
                 if id in ids && s.rows[id].status.Waiting? && Live(s.rows[id]) && s.rows[id].wait.None?
                 then Resumed(s.rows[id]) else s.rows[id])
  }

  // ---- Runs ----

  datatype Act =
    | Rooting(id: Id, owner: Owner)
    | Delegating(parent: Id, id: Id, dependsOn: seq<Id>, group: Group)
    | Claiming(id: Id)
    | Yielding(id: Id)
    | Settling(id: Id, status: Status, good: bool, wait: Option<Wait>)
    | Cancelling(id: Id)
    | Revising(id: Id)
    | Blocking(scope: Option<Id>)
    | Resuming(scope: Option<Id>)
    | Waking(ids: set<Id>)

  predicate Allowed(a: Act) { a.Settling? ==> !a.status.Queued? && !a.status.Leased? }

  ghost function Step(s: Tasks, a: Act): Tasks {
    match a
    case Rooting(id, owner) => CreateRoot(s, id, owner)
    case Delegating(parent, id, dependsOn, group) => CreateChild(s, parent, id, dependsOn, group)
    case Claiming(id) => ClaimTask(s, id)
    case Yielding(id) => YieldTask(s, id)
    case Settling(id, status, good, wait) => SettleTask(s, id, status, good, wait)
    case Cancelling(id) => CancelRun(s, id)
    case Revising(id) => Revise(s, id)
    case Blocking(scope) => Block(s, scope)
    case Resuming(scope) => Resume(s, scope)
    case Waking(ids) => Wake(s, ids)
  }

  ghost function Run(s: Tasks, acts: seq<Act>): Tasks
    decreases |acts|
  {
    if acts == [] then s else Run(Step(s, acts[0]), acts[1..])
  }

  const NOTHING := Tasks(map[], 0)
}
