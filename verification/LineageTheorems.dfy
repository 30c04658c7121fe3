/** Cancellation reaches everything below it, and no dependency graph gets stuck. */
module LineageTheorems {
  import opened Text
  import opened Work
  import opened Lineage
  import opened LineageProofs

  /** The rows after a run of an empty store. */
  ghost function Reached(acts: seq<Act>): (s: Tasks)
    requires forall a <- acts :: Allowed(a)
    ensures Sound(s)
  {
    NothingSound();
    RunKeeps(NOTHING, acts);
    Run(NOTHING, acts)
  }

  // ---- Cancellation ----

  /** From an ancestor down to a row, parent by parent. */
  predicate IsLine(s: Tasks, path: seq<Id>) {
    path != [] && path[0] in s.rows && forall k :: 0 <= k < |path| - 1 ==> ChildOf(s, path[k], path[k + 1])
  }

  lemma {:induction false} LineLive(s: Tasks, path: seq<Id>, k: nat)
    requires Sound(s) && IsLine(s, path) && k < |path|
    requires path[|path| - 1] in s.rows && Live(s.rows[path[|path| - 1]])
    ensures path[k] in s.rows && Live(s.rows[path[k]])
    decreases |path| - k
  {
    if k < |path| - 1 {
      LineLive(s, path, k + 1);
      assert ChildOf(s, path[k], path[k + 1]);
      SoundAt(s, path[k + 1]);
    }
  }

  /**
   * In every run, an active row without a cancel request has only such rows above it. So no worker is ever given work
   * below a finished or cancelled row.
   */
  lemma CancellationComplete(acts: seq<Act>, path: seq<Id>, k: nat)
    requires (forall a <- acts :: Allowed(a)) && IsLine(Reached(acts), path) && k < |path|
    requires var s, id := Reached(acts), path[|path| - 1]; id in s.rows && (Live(s.rows[id]) || MayClaim(s, id))
    ensures path[k] in Reached(acts).rows && Live(Reached(acts).rows[path[k]])
  {
    LineLive(Reached(acts), path, k);
  }

  /** There is a line of descent from one row to the other, or they are the same. */
  ghost predicate Reaches(s: Tasks, from: Id, to: Id) {
    exists path :: IsLine(s, path) && path[0] == from && path[|path| - 1] == to
  }

  lemma {:induction false} LineFound(s: Tasks, path: seq<Id>)
    requires Sound(s) && IsLine(s, path)
    ensures |path| == 1 || IsDescendant(s, path[0], path[|path| - 1])
    decreases |path|
  {
    if |path| > 1 {
      var front := path[..|path| - 1];
      forall k | 0 <= k < |front| - 1
        ensures ChildOf(s, front[k], front[k + 1])
      {
        assert ChildOf(s, path[k], path[k + 1]);
      }
      LineFound(s, front);
      assert ChildOf(s, path[|front| - 1], path[|front| - 1 + 1]);
      FindsChildren(s, path[0], path[|front| - 1], path[|front|]);
    }
  }

  lemma FoundReaches(s: Tasks, from: Id, to: Id)
    requires IsDescendant(s, from, to)
    ensures Reaches(s, from, to)
  {
    var path :| IsDescent(s, path) && path[0] == from && path[|path| - 1] == to;
    assert ChildOf(s, path[0], path[0 + 1]);
    assert IsLine(s, path);
  }

  /**
   * Cancelling an active run stops it and all that descends from it at whatever depth, leaves leased work to its
   * worker with the request on it, and touches nothing else.
   */
  lemma CancelRunExact(s: Tasks, id: Id, k: Id)
    requires Sound(s) && id in s.rows && k in s.rows && Active(s.rows[id].status)
    ensures var t, a := CancelRun(s, id), s.rows[k];
            && k in t.rows
            && t.rows[k] == if Reaches(s, id, k) && Active(a.status)
                            then a.(cancelRequested := true, status := if a.status == Leased then Leased else Cancelled)
                            else a
  {
    var m := Put(s, id, Stopped(s.rows[id]));
    SameDescendants(s, m, id, k);
    if Reaches(s, id, k) {
      var path :| IsLine(s, path) && path[0] == id && path[|path| - 1] == k;
      LineFound(s, path);
    }
    if IsDescendant(s, id, k) { FoundReaches(s, id, k); }
    assert IsLine(s, [id]);
  }

  lemma DescendantsExact(s: Tasks, id: Id, k: Id)
    requires Sound(s) && id in s.rows && k in s.rows
    ensures IsDescendant(s, id, k) <==> k != id && Reaches(s, id, k)
  {
    if Reaches(s, id, k) {
      var path :| IsLine(s, path) && path[0] == id && path[|path| - 1] == k;
      LineFound(s, path);
    }
    if IsDescendant(s, id, k) { FoundReaches(s, id, k); }
  }

  /** What becomes of a row below one that is revised or over. */
  function Halted(t: Task): Task {
    match t.status
    case Leased => t.(cancelRequested := true)
    case Queued => t.(cancelRequested := true, status := Cancelled)
    case Waiting => t.(cancelRequested := true, status := Cancelled)
    case _ => t
  }

  /** One row changes, and all below it is stopped. */
  lemma StopsBelowExactly(s: Tasks, id: Id, task: Task, k: Id)
    requires Sound(s) && id in s.rows && k in s.rows && task.parent == s.rows[id].parent && task.owner == s.rows[id].owner
    ensures var t := CancelDescendants(Put(s, id, task), id);
            && k in t.rows
            && t.rows[k] == if k == id then task else if Reaches(s, id, k) then Halted(s.rows[k]) else s.rows[k]
  {
    SameDescendants(s, Put(s, id, task), id, k);
    DescendantsExact(s, id, k);
  }

  /**
   * A revision is taken exactly on an active row that nobody asked to cancel: a parked row is queued again, and all that
   * descends from it, at whatever depth, is stopped. Nothing else changes.
   */
  lemma ReviseExact(s: Tasks, id: Id, k: Id)
    requires Sound(s) && k in s.rows
    ensures var t := Revise(s, id);
            && k in t.rows
            && t.rows[k] ==
               if id !in s.rows || s.rows[id].status !in {Queued, Leased, Waiting} || s.rows[id].cancelRequested then s.rows[k]
               else if k == id then s.rows[k].(status := if s.rows[k].status == Leased then Leased else Queued, wait := None)
               else if Reaches(s, id, k) then Halted(s.rows[k])
               else s.rows[k]
  {
    if id in s.rows && Live(s.rows[id]) {
      var status := if s.rows[id].status.Waiting? then Queued else s.rows[id].status;
      StopsBelowExactly(s, id, s.rows[id].(status := status, wait := None), k);
    }
  }

  /**
   * A settlement is taken exactly on leased work, and unless it reports failure or cancellation only if nobody asked to
   * cancel. Parking touches the row alone; anything else stops all that descends from it.
   */
  lemma SettleExact(s: Tasks, id: Id, status: Status, good: bool, wait: Option<Wait>, k: Id)
    requires Sound(s) && k in s.rows && !status.Queued? && !status.Leased?
    ensures var t := SettleTask(s, id, status, good, wait);
            && k in t.rows
            && t.rows[k] ==
               if id !in s.rows || s.rows[id].status != Leased then s.rows[k]
               else if s.rows[id].cancelRequested && status !in {Failed, Cancelled} then s.rows[k]
               else if k == id then s.rows[k].(status := status, good := good, wait := if status == Waiting then wait else None)
               else if status != Waiting && Reaches(s, id, k) then Halted(s.rows[k])
               else s.rows[k]
  {
    if id in s.rows && !status.Waiting? {
      StopsBelowExactly(s, id, s.rows[id].(status := status, good := good, wait := None), k);
    }
  }

  /** The walk over all the ancestors finds nothing that the parent alone does not show. */
  lemma AncestorCheckExact(s: Tasks, parent: Id)
    requires Sound(s) && parent in s.rows
    ensures LineageActive(s, s.rows[parent].owner, parent, s.rows[parent].root)
            <==> Live(s.rows[parent]) && s.rows[parent].depth < LIMIT
  {
    UpwardLength(s, parent, []);
    var line := Upward(s, s.rows[parent].owner, parent, []);
    assert line[0] in line;
    if Live(s.rows[parent]) { UpwardLive(s, parent, []); }
  }

  lemma {:induction false} UpwardLive(s: Tasks, id: Id, path: seq<Id>)
    requires Sound(s) && id in s.rows && |path| < LIMIT && Live(s.rows[id])
    requires forall a <- path :: a in s.rows && Live(s.rows[a])
    ensures forall a <- Upward(s, s.rows[id].owner, id, path) :: a in s.rows && Live(s.rows[a])
    decreases LIMIT - |path|
  {
    SoundAt(s, id);
    if id !in path && |path| + 1 < LIMIT && s.rows[id].parent.Some? {
      UpwardLive(s, s.rows[id].parent.value, path + [id]);
    }
  }

  /** A finished row that an operator may put back into the queue. */
  predicate Revivable(t: Task) { (t.status.Partial? || t.status.Blocked? || t.status.Failed?) && !t.cancelRequested }

  /**
   * Putting such a row back keeps all this exactly when the row has no parent or its parent is still live: its own
   * children, if it has any, are no longer live by then, and nothing was started on the strength of its result.
   */
  lemma RevivalExact(s: Tasks, id: Id)
    requires Sound(s) && id in s.rows && Revivable(s.rows[id])
    ensures Sound(Put(s, id, s.rows[id].(status := Queued)))
            <==> match s.rows[id].parent case None => true case Some(p) => p in s.rows && Live(s.rows[p])
  {
    var t := Put(s, id, s.rows[id].(status := Queued));
    SoundAt(s, id);
    if Sound(t) { SoundAt(t, id); }
    if s.rows[id].parent.Some? ==> s.rows[id].parent.value in s.rows && Live(s.rows[s.rows[id].parent.value]) {
      forall k | k in t.rows
        ensures Fits(t, k)
      {
        SoundAt(s, k);
        forall d | d in t.rows[k].dependsOn
          ensures DependencyFits(t, t.rows[k], d)
        {
          assert DependencyFits(s, s.rows[k], d);
        }
      }
    }
  }

  /** A parent delegates, its child fails, and the parent succeeds. */
  function Outliving(parent: Id, child: Id, owner: Owner): seq<Act> {
    [Rooting(parent, owner), Claiming(parent), Delegating(parent, child, [], Group(1, None)), Claiming(child),
     Settling(child, Failed, false, None), Settling(parent, Succeeded, true, None)]
  }

  lemma DelegatedRun(parent: Id, child: Id, owner: Owner)
    requires parent != child && owner.principal.Some?
    ensures var s := Run(NOTHING, Outliving(parent, child, owner)[..4]);
            && s.rows.Keys == {parent, child} && s.rows[parent].parent == None && s.rows[child].parent == Some(parent)
            && s.rows[parent].status == Leased && !s.rows[parent].cancelRequested
            && s.rows[child].status == Leased && !s.rows[child].cancelRequested && s.rows[child].dependsOn == []
            && s.rows[child].owner == s.rows[parent].owner
  {
    var acts := Outliving(parent, child, owner)[..4];
    var a := CreateRoot(NOTHING, parent, owner);
    var b := ClaimTask(a, parent);
    assert Upward(b, owner, parent, []) == [parent];
    assert ChildrenBut(b, parent, child) == {};
    var c := CreateChild(b, parent, child, [], Group(1, None));
    var d := ClaimTask(c, child);
    var last := [Claiming(child)];
    var third, second := [Delegating(parent, child, [], Group(1, None))] + last, [Claiming(parent)];
    assert acts[1..] == second + third && (second + third)[1..] == third && third[1..] == last && last[1..] == [];
    assert Run(d, []) == d;
    assert Run(c, last) == d;
    assert Run(b, third) == d;
    assert Run(a, second + third) == d;
  }

  lemma RootNotFound(s: Tasks, from: Id, id: Id)
    requires id in s.rows && s.rows[id].parent.None?
    ensures !IsDescendant(s, from, id)
  {
    if IsDescendant(s, from, id) { FoundThrough(s, from, id); }
  }

  lemma FinishedRun(s: Tasks, parent: Id, child: Id)
    requires parent != child && s.rows.Keys == {parent, child} && s.rows[parent].parent == None
    requires s.rows[parent].status == Leased && !s.rows[parent].cancelRequested
    requires s.rows[child].status == Leased && !s.rows[child].cancelRequested
    ensures var t := SettleTask(SettleTask(s, child, Failed, false, None), parent, Succeeded, true, None);
            && t.rows.Keys == {parent, child} && t.rows[parent].status == Succeeded
            && t.rows[child] == s.rows[child].(status := Failed, good := false, wait := None)
  {
    var failed := s.rows[child].(status := Failed, good := false, wait := None);
    var m := Put(s, child, failed);
    RootNotFound(m, child, parent);
    var t := CancelDescendants(m, child);
    assert SettleTask(s, child, Failed, false, None) == t && t.rows[child] == failed && t.rows[parent] == s.rows[parent];
    var n := Put(t, parent, t.rows[parent].(status := Succeeded, good := true, wait := None));
    RootNotFound(n, parent, parent);
    assert SettleTask(t, parent, Succeeded, true, None) == CancelDescendants(n, parent);
  }

  /**
   * The other case is reached: the parent of a failed child may finish first, and putting the child back then gives work
   * to a worker below a row that is over.
   */
  lemma RevivalOrphans(parent: Id, child: Id, owner: Owner)
    requires parent != child && owner.principal.Some?
    ensures forall a <- Outliving(parent, child, owner) :: Allowed(a)
    ensures var s := Reached(Outliving(parent, child, owner));
            && child in s.rows && Revivable(s.rows[child])
            && var t := Put(s, child, s.rows[child].(status := Queued));
               MayClaim(t, child) && ChildOf(t, parent, child) && !Live(t.rows[parent]) && !Sound(t)
  {
    var acts := Outliving(parent, child, owner);
    DelegatedRun(parent, child, owner);
    var s := Run(NOTHING, acts[..4]);
    FinishedRun(s, parent, child);
    var failing, finishing := Settling(child, Failed, false, None), Settling(parent, Succeeded, true, None);
    RunSplit(NOTHING, acts[..4], [failing, finishing]);
    assert acts[..4] + [failing, finishing] == acts && [failing, finishing][1..] == [finishing];
    assert Run(s, [failing, finishing]) == Run(Step(s, failing), [finishing]);
    var r := Reached(acts);
    assert r == Step(Step(s, failing), finishing);
    var t := Put(r, child, r.rows[child].(status := Queued));
    if Sound(t) { SoundAt(t, child); }
  }

  lemma {:induction false} RunSplit(s: Tasks, a: seq<Act>, b: seq<Act>)
    ensures Run(s, a + b) == Run(Run(s, a), b)
    decreases |a|
  {
    if a == [] {
      assert a + b == b;
    } else {
      assert (a + b)[1..] == a[1..] + b;
      RunSplit(Step(s, a[0]), a[1..], b);
    }
  }

  // ---- Dependencies ----

  /** Dependency after dependency. */
  predicate IsNeed(s: Tasks, path: seq<Id>) { forall k :: 0 <= k < |path| - 1 ==> Needs(s, path[k], path[k + 1]) }

  lemma {:induction false} NeedsOlder(s: Tasks, path: seq<Id>, k: nat)
    requires Sound(s) && IsNeed(s, path) && 0 < k < |path|
    ensures path[0] in s.rows && path[k] in s.rows && s.rows[path[k]].born < s.rows[path[0]].born
    decreases k
  {
    if k > 1 { NeedsOlder(s, path, k - 1); }
    assert Needs(s, path[k - 1], path[k - 1 + 1]);
    SoundAt(s, path[k - 1]);
    assert DependencyFits(s, s.rows[path[k - 1]], path[k]);
  }

  /** In every run the dependency edges stay without cycles. */
  lemma DependenciesAcyclic(acts: seq<Act>, path: seq<Id>)
    requires (forall a <- acts :: Allowed(a)) && |path| >= 2 && IsNeed(Reached(acts), path)
    ensures path[0] != path[|path| - 1]
  {
    NeedsOlder(Reached(acts), path, |path| - 1);
  }

  /** No worker is busy and nobody waits for an event. */
  predicate Quiet(s: Tasks) { forall id <- s.rows.Keys :: !s.rows[id].status.Leased? && !s.rows[id].status.Waiting? }

  predicate Pending(s: Tasks, id: Id) { id in s.rows && s.rows[id].status.Queued? && !s.rows[id].cancelRequested }

  /** The first missing dependency of a pending row either fails or is itself pending. */
  lemma WhyPending(s: Tasks, id: Id) returns (d: Id)
    requires Sound(s) && Quiet(s) && Pending(s, id) && !MayClaim(s, id)
    ensures Needs(s, id, d) && d in s.rows && s.rows[d].born < s.rows[id].born && (Failing(s.rows[d]) || Pending(s, d))
  {
    SoundAt(s, id);
    assert exists x :: x in s.rows[id].dependsOn && !Fulfilled(s.rows[x]) by {
      assert forall x <- s.rows[id].dependsOn :: DependencyFits(s, s.rows[id], x);
    }
    d :| d in s.rows[id].dependsOn && !Fulfilled(s.rows[d]);
    assert DependencyFits(s, s.rows[id], d);
  }

  lemma {:induction false} ClaimableBelow(s: Tasks, id: Id) returns (r: Id)
    requires Sound(s) && Quiet(s) && Pending(s, id)
    ensures Pending(s, r) && (MayClaim(s, r) || InBlocked(s, None, r))
    decreases s.rows[id].born
  {
    r := id;
    if !MayClaim(s, id) {
      var d := WhyPending(s, id);
      if Failing(s.rows[d]) {
        assert Fails(s, None, id);
        assert IsBlockage(s, None, [id]);
      } else {
        r := ClaimableBelow(s, d);
      }
    }
  }

  /** Whenever all is quiet, some pending row passes the claim's dependency test or is in the blocked closure. */
  lemma NeverStuck(acts: seq<Act>, id: Id) returns (r: Id)
    requires (forall a <- acts :: Allowed(a)) && Quiet(Reached(acts)) && Pending(Reached(acts), id)
    ensures var s := Reached(acts); Pending(s, r) && (MayClaim(s, r) || InBlocked(s, None, r))
  {
    r := ClaimableBelow(Reached(acts), id);
  }

  lemma {:induction false} BlockedWhenUnclaimable(s: Tasks, id: Id)
    requires Sound(s) && Quiet(s) && Pending(s, id) && forall k :: !MayClaim(s, k)
    ensures InBlocked(s, None, id)
    decreases s.rows[id].born
  {
    var d := WhyPending(s, id);
    if Failing(s.rows[d]) {
      assert Fails(s, None, id);
      assert IsBlockage(s, None, [id]);
    } else {
      BlockedWhenUnclaimable(s, d);
      var path :| IsBlockage(s, None, path) && path[|path| - 1] == d;
      var longer := path + [id];
      forall k | 0 <= k < |longer| - 1
        ensures Needs(s, longer[k + 1], longer[k])
      {
        assert k < |path| - 1 ==> Needs(s, path[k + 1], path[k]);
      }
      assert IsBlockage(s, None, longer);
    }
  }

  /** When all is quiet and nothing can be claimed, one pass of `resumeDependents` leaves nothing pending. */
  lemma BlockingFinishes(acts: seq<Act>)
    requires (forall a <- acts :: Allowed(a)) && Quiet(Reached(acts)) && forall k :: !MayClaim(Reached(acts), k)
    ensures forall id :: !Pending(Block(Reached(acts), None), id)
  {
    var s := Reached(acts);
    forall id | Pending(Block(s, None), id)
      ensures false
    {
      BlockedWhenUnclaimable(s, id);
    }
  }
}
