/** What every transaction keeps of lineage and dependencies. */
module LineageProofs {
  import opened Folding
  import opened Text
  import opened Work
  import opened Lineage

  // ---- The invariant ----

  /** A row and its parent: one owner, one root, one generation apart; a live row has a live parent that started. */
  predicate ParentFits(s: Tasks, id: Id, t: Task) {
    match t.parent
    case None => t.root == id && t.depth == 1
    case Some(p) =>
      && p in s.rows
      && var up := s.rows[p];
         && up.owner == t.owner && up.root == t.root && t.depth == up.depth + 1 && up.started
         && (Live(t) ==> Live(up))
  }

  predicate DependencyFits(s: Tasks, t: Task, d: Id) {
    && d in s.rows && s.rows[d].born < t.born && s.rows[d].parent == t.parent
    && (t.started ==> Fulfilled(s.rows[d]))
  }

  /** Only a row that was leased leaves the queue otherwise than by being cancelled or blocked. */
  predicate StatusFits(t: Task) { t.started || t.status.Queued? || t.status.Cancelled? || t.status.Blocked? }

  predicate Fits(s: Tasks, id: Id)
    requires id in s.rows
  {
    var t := s.rows[id];
    && 1 <= t.depth <= LIMIT && t.born < s.next && StatusFits(t) && ParentFits(s, id, t)
    && forall d <- t.dependsOn :: DependencyFits(s, t, d)
  }

  /** Folded: a proof that needs it at some row asks `SoundAt`. */
  ghost predicate Sound(s: Tasks) {
    forall n: nat :: Unfolding(n) ==> forall id <- s.rows.Keys :: Fits(s, id)
  }

  lemma SoundAt(s: Tasks, id: Id)
    requires Sound(s) && id in s.rows
    ensures Fits(s, id)
  {
    assert Unfolding(0);
  }

  // ---- Changes to rows that are there ----

  /** What a transaction may do to a row. */
  predicate Changes(a: Task, b: Task) {
    && b.owner == a.owner && b.parent == a.parent && b.root == a.root && b.dependsOn == a.dependsOn
    && b.born == a.born && b.depth == a.depth && (a.started ==> b.started)
    && (!Active(a.status) ==> b == a) && (Live(b) ==> Live(a))
  }

  predicate Newly(s: Tasks, t: Tasks, id: Id)
    requires id in s.rows && id in t.rows
  {
    t.rows[id].started && !s.rows[id].started ==> forall d <- s.rows[id].dependsOn :: d in s.rows && Fulfilled(s.rows[d])
  }

  /** A row that stops being live takes its live children with it. */
  predicate Together(s: Tasks, t: Tasks, id: Id)
    requires id in s.rows && id in t.rows
  {
    s.rows[id].parent.Some? && Live(t.rows[id]) ==>
      var p := s.rows[id].parent.value;
      p in s.rows && p in t.rows && Live(s.rows[p]) ==> Live(t.rows[p])
  }

  predicate Moved(s: Tasks, t: Tasks) {
    && t.rows.Keys == s.rows.Keys && t.next == s.next
    && forall id <- s.rows.Keys ::
         Changes(s.rows[id], t.rows[id]) && StatusFits(t.rows[id]) && Newly(s, t, id) && Together(s, t, id)
  }

  lemma MovedFits(s: Tasks, t: Tasks, id: Id)
    requires Sound(s) && Moved(s, t) && id in s.rows
    ensures Fits(t, id)
  {
    SoundAt(s, id);
    var a, b := s.rows[id], t.rows[id];
    assert Changes(a, b) && Newly(s, t, id) && Together(s, t, id);
    if a.parent.Some? {
      assert Changes(s.rows[a.parent.value], t.rows[a.parent.value]);
    }
    forall d | d in b.dependsOn
      ensures DependencyFits(t, b, d)
    {
      assert DependencyFits(s, a, d);
      assert Changes(s.rows[d], t.rows[d]);
    }
  }

  lemma MovedSound(s: Tasks, t: Tasks)
    requires Sound(s) && Moved(s, t)
    ensures Sound(t)
  {
    forall id | id in t.rows
      ensures Fits(t, id)
    {
      MovedFits(s, t, id);
    }
  }

  // ---- Descendants ----

  lemma {:induction false} DescentDepth(s: Tasks, path: seq<Id>, k: nat)
    requires Sound(s) && k < |path|
    requires forall j :: 0 <= j < |path| - 1 ==> ChildOf(s, path[j], path[j + 1])
    requires path[0] in s.rows
    ensures path[k] in s.rows && s.rows[path[k]].depth == s.rows[path[0]].depth + k
    decreases k
  {
    if k > 0 {
      DescentDepth(s, path, k - 1);
      assert ChildOf(s, path[k - 1], path[k - 1 + 1]);
      SoundAt(s, path[k]);
    }
  }

  /** The bound of the query is wide enough: the child of a row that it finds, it finds too. */
  lemma FindsChildren(s: Tasks, from: Id, parent: Id, child: Id)
    requires Sound(s) && ChildOf(s, parent, child) && (parent == from || IsDescendant(s, from, parent))
    ensures IsDescendant(s, from, child)
  {
    var path := [from];
    if parent != from {
      path :| IsDescent(s, path) && path[0] == from && path[|path| - 1] == parent;
      assert ChildOf(s, path[0], path[0 + 1]);
    }
    var longer := path + [child];
    forall k | 0 <= k < |longer| - 1
      ensures ChildOf(s, longer[k], longer[k + 1])
    {
      assert k < |path| - 1 ==> ChildOf(s, path[k], path[k + 1]);
    }
    forall i, j | 0 <= i < j < |longer|
      ensures longer[i] != longer[j]
    {
      DescentDepth(s, longer, i);
      DescentDepth(s, longer, j);
    }
    DescentDepth(s, longer, |longer| - 1);
    SoundAt(s, from);
    SoundAt(s, child);
    assert IsDescent(s, longer);
  }

  /** What the query finds, it finds by way of the parent. */
  lemma FoundThrough(s: Tasks, from: Id, k: Id)
    requires IsDescendant(s, from, k)
    ensures k in s.rows && s.rows[k].parent.Some?
    ensures var p := s.rows[k].parent.value; p == from || IsDescendant(s, from, p)
  {
    var path :| IsDescent(s, path) && path[0] == from && path[|path| - 1] == k;
    var front := path[..|path| - 1];
    assert ChildOf(s, path[|front| - 1], path[|front| - 1 + 1]);
    if |front| > 1 {
      forall i | 0 <= i < |front| - 1
        ensures ChildOf(s, front[i], front[i + 1])
      {
        assert ChildOf(s, path[i], path[i + 1]);
      }
      assert IsDescent(s, front);
    }
  }

  /** The query looks at links, which no change touches. */
  predicate SameLinks(s: Tasks, t: Tasks) {
    && t.rows.Keys == s.rows.Keys
    && forall id <- s.rows.Keys :: t.rows[id].parent == s.rows[id].parent && t.rows[id].owner == s.rows[id].owner
  }

  lemma SameDescendants(s: Tasks, t: Tasks, from: Id, id: Id)
    requires SameLinks(s, t)
    ensures IsDescendant(s, from, id) <==> IsDescendant(t, from, id)
  {
    assert forall a, b :: ChildOf(s, a, b) <==> ChildOf(t, a, b);
    assert forall path :: IsDescent(s, path) <==> IsDescent(t, path) by {
      forall path
        ensures IsDescent(s, path) <==> IsDescent(t, path)
      {
      }
    }
  }

  lemma StoppedChanges(t: Task)
    ensures Changes(t, Stopped(t)) && !Live(Stopped(t)) && (StatusFits(t) ==> StatusFits(Stopped(t)))
  {
  }

  lemma StopsTogether(s: Tasks, id: Id, task: Task, k: Id)
    requires Sound(s) && id in s.rows && k in s.rows && Changes(s.rows[id], task)
    ensures Together(s, CancelDescendants(Put(s, id, task), id), k)
  {
    var m := Put(s, id, task);
    SoundAt(s, k);
    SameDescendants(s, m, id, k);
    StoppedChanges(m.rows[k]);
    if s.rows[k].parent.Some? {
      var p := s.rows[k].parent.value;
      SameDescendants(s, m, id, p);
      if p == id || IsDescendant(s, id, p) { FindsChildren(s, id, p, k); }
    }
  }

  /** A change of one row, followed by the cancellation of its descendants. */
  lemma StopsBelow(s: Tasks, id: Id, task: Task)
    requires Sound(s) && id in s.rows && Changes(s.rows[id], task) && StatusFits(task) && task.started == s.rows[id].started
    ensures Sound(CancelDescendants(Put(s, id, task), id))
  {
    var m := Put(s, id, task);
    var t := CancelDescendants(m, id);
    forall k | k in s.rows
      ensures Changes(s.rows[k], t.rows[k]) && StatusFits(t.rows[k]) && Newly(s, t, k) && Together(s, t, k)
    {
      SoundAt(s, k);
      StoppedChanges(m.rows[k]);
      StopsTogether(s, id, task, k);
    }
    MovedSound(s, t);
  }

  // ---- The blocked closure ----

  /** A row that was leased has satisfied dependencies for good, so nothing can block it. */
  lemma {:induction false} BlockageNotStarted(s: Tasks, scope: Option<Id>, path: seq<Id>, k: nat)
    requires Sound(s) && IsBlockage(s, scope, path) && k < |path|
    ensures path[k] in s.rows && !s.rows[path[k]].started
    decreases k
  {
    if k == 0 {
      SoundAt(s, path[0]);
      var d :| d in s.rows[path[0]].dependsOn && d in s.rows && Failing(s.rows[d]);
      assert DependencyFits(s, s.rows[path[0]], d);
    } else {
      BlockageNotStarted(s, scope, path, k - 1);
      assert Needs(s, path[k - 1 + 1], path[k - 1]);
      SoundAt(s, path[k]);
      SoundAt(s, path[k - 1]);
      assert DependencyFits(s, s.rows[path[k]], path[k - 1]);
    }
  }

  lemma BlockedNotStarted(s: Tasks, scope: Option<Id>, id: Id)
    requires Sound(s) && InBlocked(s, scope, id)
    ensures id in s.rows && !s.rows[id].started
  {
    var path :| IsBlockage(s, scope, path) && path[|path| - 1] == id;
    BlockageNotStarted(s, scope, path, |path| - 1);
  }

  lemma BlockKeeps(s: Tasks, scope: Option<Id>)
    requires Sound(s)
    ensures Sound(Block(s, scope))
  {
    var t := Block(s, scope);
    forall k | k in s.rows
      ensures Changes(s.rows[k], t.rows[k]) && StatusFits(t.rows[k]) && Newly(s, t, k) && Together(s, t, k)
    {
      SoundAt(s, k);
      if s.rows[k].parent.Some? {
        var p := s.rows[k].parent.value;
        if InBlocked(s, scope, p) { BlockedNotStarted(s, scope, p); }
      }
    }
    MovedSound(s, t);
  }

  // ---- Creation ----

  lemma RootKeeps(s: Tasks, id: Id, owner: Owner)
    requires Sound(s)
    ensures Sound(CreateRoot(s, id, owner))
  {
    if id !in s.rows { InsertKeeps(s, id, NewRoot(s, id, owner)); }
  }

  lemma InsertKeeps(s: Tasks, id: Id, task: Task)
    requires Sound(s) && id !in s.rows && task.born == s.next
    requires Fits(Insert(s, id, task), id)
    ensures Sound(Insert(s, id, task))
  {
    var t := Insert(s, id, task);
    forall k | k in t.rows
      ensures Fits(t, k)
    {
      if k != id {
        SoundAt(s, k);
        forall d | d in t.rows[k].dependsOn
          ensures DependencyFits(t, t.rows[k], d)
        {
          assert DependencyFits(s, s.rows[k], d);
        }
      }
    }
  }

  /** The query goes all the way up a lineage that is short enough. */
  lemma {:induction false} UpwardLength(s: Tasks, id: Id, path: seq<Id>)
    requires Sound(s) && id in s.rows && |path| < LIMIT
    requires forall a <- path :: a in s.rows && s.rows[a].depth > s.rows[id].depth
    ensures var line := Upward(s, s.rows[id].owner, id, path);
            && path <= line && |line| == Min(LIMIT, |path| + s.rows[id].depth)
            && |line| > |path| && line[|path|] == id
            && (|path| + s.rows[id].depth <= LIMIT ==> s.rows[id].root in line)
    decreases LIMIT - |path|
  {
    SoundAt(s, id);
    var longer := path + [id];
    assert longer[|path|] == id;
    if s.rows[id].parent.Some? { SoundAt(s, s.rows[id].parent.value); }
    if |longer| < LIMIT && s.rows[id].parent.Some? {
      var p := s.rows[id].parent.value;
      UpwardLength(s, p, longer);
      var line := Upward(s, s.rows[id].owner, id, path);
      assert line[..|longer|] == longer;
    }
  }

  function Min(a: int, b: int): int { if a < b then a else b }

  lemma ChildKeeps(s: Tasks, parent: Id, id: Id, dependsOn: seq<Id>, group: Group)
    requires Sound(s)
    ensures Sound(CreateChild(s, parent, id, dependsOn, group))
  {
    if id !in s.rows && MayCreate(s, parent, id, dependsOn, group) {
      SoundAt(s, parent);
      UpwardLength(s, parent, []);
      var line := Upward(s, s.rows[parent].owner, parent, []);
      assert line[0] in line;
      var task := NewChild(s, parent, id, dependsOn, group);
      var t := Insert(s, id, task);
      forall d | d in dependsOn
        ensures DependencyFits(t, task, d)
      {
        assert IsSibling(s, s.rows[parent].owner, parent, group, d);
        SoundAt(s, d);
      }
      InsertKeeps(s, id, task);
    }
  }

  // ---- Every transaction ----

  lemma OneKeeps(s: Tasks, id: Id, task: Task)
    requires Sound(s) && id in s.rows && Changes(s.rows[id], task) && StatusFits(task) && (Live(task) <==> Live(s.rows[id]))
    requires task.started && !s.rows[id].started ==> forall d <- s.rows[id].dependsOn :: d in s.rows && Fulfilled(s.rows[d])
    ensures Sound(Put(s, id, task))
  {
    var t := Put(s, id, task);
    forall k | k in s.rows
      ensures Changes(s.rows[k], t.rows[k]) && StatusFits(t.rows[k]) && Newly(s, t, k) && Together(s, t, k)
    {
      SoundAt(s, k);
    }
    MovedSound(s, t);
  }

  lemma WakeKeeps(s: Tasks, ids: set<Id>)
    requires Sound(s)
    ensures Sound(Wake(s, ids))
  {
    var t := Wake(s, ids);
    forall k | k in s.rows
      ensures Changes(s.rows[k], t.rows[k]) && StatusFits(t.rows[k]) && Newly(s, t, k) && Together(s, t, k)
    {
      SoundAt(s, k);
    }
    MovedSound(s, t);
  }

  lemma ResumeKeeps(s: Tasks, scope: Option<Id>)
    requires Sound(s)
    ensures Sound(Resume(s, scope))
  {
    var t := Resume(s, scope);
    forall k | k in s.rows
      ensures Changes(s.rows[k], t.rows[k]) && StatusFits(t.rows[k]) && Newly(s, t, k) && Together(s, t, k)
    {
      SoundAt(s, k);
    }
    MovedSound(s, t);
  }

  lemma {:induction false} StepKeeps(s: Tasks, a: Act)
    requires Sound(s) && Allowed(a)
    ensures Sound(Step(s, a))
  {
    match a {
      case Rooting(id, owner) => RootKeeps(s, id, owner);
      case Delegating(parent, id, dependsOn, group) => ChildKeeps(s, parent, id, dependsOn, group);
      case Claiming(id) =>
        if MayClaim(s, id) { OneKeeps(s, id, s.rows[id].(status := Leased, started := true)); }
      case Yielding(id) =>
        if id in s.rows && s.rows[id].status.Leased? {
          SoundAt(s, id);
          OneKeeps(s, id, s.rows[id].(status := Queued));
        }
      case Settling(id, status, good, wait) =>
        if Step(s, a) != s {
          SoundAt(s, id);
          var task := s.rows[id].(status := status, good := good, wait := if status.Waiting? then wait else None);
          if status.Waiting? { OneKeeps(s, id, task); } else { StopsBelow(s, id, task); }
        }
      case Cancelling(id) =>
        if id in s.rows && Active(s.rows[id].status) {
          SoundAt(s, id);
          StoppedChanges(s.rows[id]);
          StopsBelow(s, id, Stopped(s.rows[id]));
        }
      case Revising(id) =>
        if id in s.rows && Live(s.rows[id]) {
          SoundAt(s, id);
          var status := if s.rows[id].status.Waiting? then Queued else s.rows[id].status;
          StopsBelow(s, id, s.rows[id].(status := status, wait := None));
        }
      case Blocking(scope) => BlockKeeps(s, scope);
      case Resuming(scope) => ResumeKeeps(s, scope);
      case Waking(ids) => WakeKeeps(s, ids);
    }
  }

  lemma {:induction false} RunKeeps(s: Tasks, acts: seq<Act>)
    requires Sound(s) && forall a <- acts :: Allowed(a)
    ensures Sound(Run(s, acts))
    decreases |acts|
  {
    if acts != [] {
      StepKeeps(s, acts[0]);
      RunKeeps(Step(s, acts[0]), acts[1..]);
    }
  }

  lemma NothingSound()
    ensures Sound(NOTHING)
  {
  }
}
