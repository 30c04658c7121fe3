/** A row that waits for its children is never forgotten, whichever of parking and finishing comes first. */
module LineageWakeups {
  import opened Text
  import opened Work
  import opened Lineage
  import opened LineageProofs
  import opened LineageTheorems

  /** The acts after which somebody has to look whether the row may go on. */
  predicate Touches(s: Tasks, a: Act, id: Id) {
    match a
    case Settling(x, _, _, _) => Near(s, x, id)
    case Cancelling(x) => Near(s, x, id)
    case Blocking(scope) => InScope(s, scope, id)
    case _ => false
  }

  /** A pass that looks at the row. */
  predicate Covers(s: Tasks, a: Act, id: Id) { a.Resuming? && InScope(s, a.scope, id) }

  // ---- What can make a row resumable ----

  predicate SameTies(s: Tasks, t: Tasks) {
    && t.rows.Keys == s.rows.Keys
    && forall k <- s.rows.Keys ::
         t.rows[k].parent == s.rows[k].parent && t.rows[k].owner == s.rows[k].owner && t.rows[k].group == s.rows[k].group
  }

  predicate Finishes(s: Tasks, t: Tasks, k: Id) {
    k in s.rows && k in t.rows && Active(s.rows[k].status) && !Active(t.rows[k].status)
  }

  /** Either the row itself changed or one of its children finished. */
  lemma WhyResumable(s: Tasks, t: Tasks, id: Id) returns (k: Id)
    requires SameTies(s, t) && !Resumable(s, id) && Resumable(t, id)
    ensures id in s.rows && k in s.rows
    ensures t.rows[id] != s.rows[id] || (s.rows[k].parent == Some(id) && Finishes(s, t, k))
  {
    k := id;
    if t.rows[id] == s.rows[id] {
      var w := s.rows[id].wait.value;
      assert WaitedChild(s, id, w, w.child);
      if Active(s.rows[w.child].status) {
        k := w.child;
      } else {
        k :| k in s.rows && Awaited(s, id, w, k) && Active(s.rows[k].status);
        assert Awaited(t, id, w, k);
      }
    }
  }

  /** A child that the cancellation finishes goes together with its parent. */
  lemma StopsParentToo(s: Tasks, x: Id, task: Task, id: Id, k: Id)
    requires x in s.rows && id in s.rows && k in s.rows && x != id && x != k && s.rows[k].parent == Some(id)
    requires Finishes(s, CancelDescendants(Put(s, x, task), x), k)
    ensures !Live(CancelDescendants(Put(s, x, task), x).rows[id])
  {
    FoundThrough(Put(s, x, task), x, k);
  }

  /** A change of the row `x` and the cancellation of what is below it finish no child of a row that lives on above. */
  lemma CancelTouches(s: Tasks, x: Id, task: Task, id: Id)
    requires x in s.rows && task.parent == s.rows[x].parent && task.owner == s.rows[x].owner && task.group == s.rows[x].group
    requires var t := CancelDescendants(Put(s, x, task), x); !Resumable(s, id) && Resumable(t, id)
    ensures x == id || (s.rows[x].parent == Some(id) && Active(s.rows[x].status) && !Active(task.status))
  {
    var m := Put(s, x, task);
    var t := CancelDescendants(m, x);
    var k := WhyResumable(s, t, id);
    if t.rows[id] == s.rows[id] && x != id && k != x { StopsParentToo(s, x, task, id, k); }
    assert !IsDescendant(m, x, x);
  }

  lemma ReviseTouches(s: Tasks, x: Id, id: Id)
    requires !Resumable(s, id)
    ensures !Resumable(Revise(s, x), id)
  {
    if Resumable(Revise(s, x), id) && Revise(s, x) != s {
      var status := if s.rows[x].status.Waiting? then Queued else s.rows[x].status;
      CancelTouches(s, x, s.rows[x].(status := status, wait := None), id);
      assert false;
    }
  }

  lemma InsertTouches(s: Tasks, k: Id, task: Task, id: Id)
    requires k !in s.rows && Active(task.status) && !task.status.Waiting? && Resumable(Insert(s, k, task), id)
    ensures Resumable(s, id)
  {
    var t := Insert(s, k, task);
    var w := t.rows[id].wait.value;
    assert WaitedChild(t, id, w, w.child);
    forall x | x in s.rows && Awaited(s, id, w, x)
      ensures !Active(s.rows[x].status)
    {
      assert Awaited(t, id, w, x);
    }
  }

  /** All rows of a blocked path hang below the parent of the dependency it starts from. */
  lemma {:induction false} BlockageBelow(s: Tasks, d: Id, path: seq<Id>, k: nat)
    requires Sound(s) && IsBlockage(s, Some(d), path) && k < |path|
    ensures d in s.rows && path[k] in s.rows && s.rows[path[k]].parent == s.rows[d].parent
    decreases k
  {
    if k == 0 {
      SoundAt(s, path[0]);
      assert DependencyFits(s, s.rows[path[0]], d);
    } else {
      BlockageBelow(s, d, path, k - 1);
      assert Needs(s, path[k - 1 + 1], path[k - 1]);
      SoundAt(s, path[k]);
      assert DependencyFits(s, s.rows[path[k]], path[k - 1]);
    }
  }

  lemma BlockTouches(s: Tasks, scope: Option<Id>, id: Id)
    requires Sound(s) && !Resumable(s, id) && Resumable(Block(s, scope), id)
    ensures InScope(s, scope, id)
  {
    var k := WhyResumable(s, Block(s, scope), id);
    if scope.Some? {
      var path :| IsBlockage(s, scope, path) && path[|path| - 1] == k;
      BlockageBelow(s, scope.value, path, |path| - 1);
    }
  }

  /** Only a settlement or a cancellation of the row or one of its children, or a blocking pass, makes it resumable. */
  lemma NewlyResumable(s: Tasks, a: Act, id: Id)
    requires Sound(s) && Allowed(a) && !Resumable(s, id) && Resumable(Step(s, a), id)
    ensures Touches(s, a, id)
  {
    match a {
      case Rooting(k, owner) => InsertTouches(s, k, NewRoot(s, k, owner), id);
      case Delegating(parent, k, dependsOn, group) => InsertTouches(s, k, NewChild(s, parent, k, dependsOn, group), id);
      case Claiming(_) => var k := WhyResumable(s, Step(s, a), id);
      case Yielding(_) => var k := WhyResumable(s, Step(s, a), id);
      case Settling(x, status, good, wait) =>
        if status.Waiting? {
          var k := WhyResumable(s, Step(s, a), id);
        } else {
          CancelTouches(s, x, s.rows[x].(status := status, good := good, wait := None), id);
        }
      case Cancelling(x) => CancelTouches(s, x, Stopped(s.rows[x]), id);
      case Revising(x) => ReviseTouches(s, x, id);
      case Blocking(scope) => BlockTouches(s, scope, id);
      case Resuming(_) => var k := WhyResumable(s, Step(s, a), id);
      case Waking(_) => var k := WhyResumable(s, Step(s, a), id);
    }
  }

  // ---- Runs ----

  ghost function Before(acts: seq<Act>, k: nat): Tasks
    requires k <= |acts|
  {
    Run(NOTHING, acts[..k])
  }

  /** The k-th act changed something, at or around the row. */
  ghost predicate Stirs(acts: seq<Act>, id: Id, k: nat)
    requires k < |acts|
  {
    Touches(Before(acts, k), acts[k], id) && Step(Before(acts, k), acts[k]) != Before(acts, k)
  }

  /** Such an act, and no pass has looked at the row since. */
  ghost predicate Owed(acts: seq<Act>, id: Id, k: nat) {
    && k < |acts| && Stirs(acts, id, k)
    && forall m :: k < m < |acts| ==> !Covers(Before(acts, m), acts[m], id)
  }

  lemma StillOwed(front: seq<Act>, last: Act, id: Id, k: nat)
    requires Owed(front, id, k) && !Covers(Run(NOTHING, front), last, id)
    ensures Owed(front + [last], id, k)
  {
    var acts := front + [last];
    forall m | 0 <= m <= |front|
      ensures Before(acts, m) == Run(NOTHING, front[..m])
    {
      assert acts[..m] == front[..m];
    }
    assert front[..|front|] == front;
    forall m | k < m < |acts|
      ensures !Covers(Before(acts, m), acts[m], id)
    {
      if m < |front| { assert !Covers(Before(front, m), front[m], id); }
    }
  }

  /**
   * In every run a row whose awaited children have all finished is still to be looked at: the last parking, finishing,
   * cancelling or blocking around it was followed by no pass that covers it.
   */
  lemma {:induction false} NoLostWakeup(acts: seq<Act>, id: Id) returns (k: nat)
    requires (forall a <- acts :: Allowed(a)) && Resumable(Reached(acts), id)
    ensures Owed(acts, id, k)
    decreases |acts|
  {
    k := 0;
    if acts != [] {
      var front, last := acts[..|acts| - 1], acts[|acts| - 1];
      assert acts == front + [last];
      assert forall a <- front :: Allowed(a);
      RunSplit(NOTHING, front, [last]);
      var s := Reached(front);
      assert Run(s, [last]) == Step(s, last);
      if Resumable(s, id) {
        k := NoLostWakeup(front, id);
        StillOwed(front, last, id, k);
      } else {
        NewlyResumable(s, last, id);
        k := |front|;
        assert acts[..k] == front;
      }
    }
  }

  /** A pass that covers a row takes it up at once if its awaited children have finished. */
  lemma PassResumes(s: Tasks, scope: Option<Id>, id: Id)
    requires Resumable(s, id) && InScope(s, scope, id)
    ensures var t := Resume(s, scope); id in t.rows && t.rows[id].status == Queued && !Resumable(t, id)
  {
  }

  /**
   * So if each of those acts is followed by a covering pass, no row waits for children that have all finished, and
   * whichever of those passes found it so has put it back into the queue.
   */
  lemma NobodyForgotten(acts: seq<Act>, id: Id)
    requires forall a <- acts :: Allowed(a)
    requires forall k: nat :: k < |acts| && Stirs(acts, id, k) ==>
               exists m :: k < m < |acts| && Covers(Before(acts, m), acts[m], id)
    ensures !Resumable(Reached(acts), id)
    ensures forall m: nat :: m < |acts| && Covers(Before(acts, m), acts[m], id) && Resumable(Before(acts, m), id) ==>
              id in Before(acts, m + 1).rows && Before(acts, m + 1).rows[id].status == Queued
  {
    if Resumable(Reached(acts), id) {
      var k := NoLostWakeup(acts, id);
      assert false;
    }
    forall m: nat | m < |acts| && Covers(Before(acts, m), acts[m], id) && Resumable(Before(acts, m), id)
      ensures id in Before(acts, m + 1).rows && Before(acts, m + 1).rows[id].status == Queued
    {
      PassResumes(Before(acts, m), acts[m].scope, id);
      BeforeNext(acts, m);
    }
  }

  lemma BeforeNext(acts: seq<Act>, m: nat)
    requires m < |acts|
    ensures Before(acts, m + 1) == Step(Before(acts, m), acts[m])
  {
    assert acts[..m + 1] == acts[..m] + [acts[m]];
    RunSplit(NOTHING, acts[..m], [acts[m]]);
    assert Run(Before(acts, m), [acts[m]]) == Step(Before(acts, m), acts[m]);
  }

  // ---- What a pass leaves alone ----

  /** The child that the row named, and all that it waits for, have finished. */
  predicate ChildrenDone(s: Tasks, id: Id, w: Wait)
    requires id in s.rows
  {
    && w.child in s.rows
    && s.rows[w.child].parent == Some(id) && s.rows[w.child].owner == s.rows[id].owner
    && s.rows[w.child].group.version == w.version
    && s.rows[w.child].status in {Succeeded, Partial, Blocked, Failed, Cancelled}
    && forall k <- s.rows.Keys ::
         s.rows[k].parent == Some(id) && s.rows[k].owner == s.rows[id].owner && s.rows[k].group.version == w.version
         && (w.children == None || k in w.children.value)
         ==> s.rows[k].status in {Succeeded, Partial, Blocked, Failed, Cancelled}
  }

  lemma DoneIsResumable(s: Tasks, id: Id)
    requires id in s.rows
    ensures Resumable(s, id) <==> Parked(s, id) && ChildrenDone(s, id, s.rows[id].wait.value)
  {
    var a := s.rows[id];
    if a.wait.Some? {
      var w := a.wait.value;
      assert forall k <- s.rows.Keys :: Awaited(s, id, w, k) <==>
        s.rows[k].parent == Some(id) && s.rows[k].owner == a.owner && s.rows[k].group.version == w.version
        && (w.children == None || k in w.children.value);
    }
  }

  /** The row, or the parent of the row, that the pass was started for; or any row. */
  predicate LooksAt(s: Tasks, scope: Option<Id>, id: Id) {
    match scope
    case None => true
    case Some(x) => x == id || (x in s.rows && s.rows[x].parent == Some(id))
  }

  /**
   * The second statement of a pass queues exactly the parked rows it looks at whose children are done, and changes
   * nothing else.
   */
  lemma ResumeExactly(s: Tasks, scope: Option<Id>, id: Id)
    requires id in s.rows
    ensures var a, t := s.rows[id], Resume(s, scope);
            && t.rows.Keys == s.rows.Keys && t.next == s.next
            && t.rows[id] ==
               if LooksAt(s, scope, id) && a.status == Waiting && !a.cancelRequested && a.wait.Some? && ChildrenDone(s, id, a.wait.value)
               then a.(status := Queued, wait := None) else a
  {
    DoneIsResumable(s, id);
  }

  /** The row it waits for will never do: it is over without a satisfied and current result, or about to be. */
  predicate Spoilt(t: Task) {
    t.status in {Partial, Blocked, Failed, Cancelled} || t.cancelRequested || (t.status == Succeeded && !t.good)
  }

  /** Row after row, each waits for the one before it, and the first for a spoilt one that the pass looks at. */
  predicate SpoiltPath(s: Tasks, scope: Option<Id>, path: seq<Id>) {
    && path != [] && (forall id <- path :: id in s.rows)
    && (exists d <- s.rows[path[0]].dependsOn :: d in s.rows && Spoilt(s.rows[d]) && (scope == None || scope == Some(d)))
    && forall k :: 0 < k < |path| ==> path[k - 1] in s.rows[path[k]].dependsOn
  }

  lemma SpoiltIsBlockage(s: Tasks, scope: Option<Id>, path: seq<Id>)
    ensures SpoiltPath(s, scope, path) <==> IsBlockage(s, scope, path)
  {
    if IsBlockage(s, scope, path) {
      forall id | id in path
        ensures id in s.rows
      {
        var k :| 0 <= k < |path| && path[k] == id;
        if k > 0 { assert Needs(s, path[k - 1 + 1], path[k - 1]); }
      }
      forall k | 0 < k < |path|
        ensures path[k - 1] in s.rows[path[k]].dependsOn
      {
        assert Needs(s, path[k - 1 + 1], path[k - 1]);
      }
    }
    if SpoiltPath(s, scope, path) {
      forall k | 0 <= k < |path| - 1
        ensures Needs(s, path[k + 1], path[k])
      {
        var l := k + 1;
        assert path[l - 1] in s.rows[path[l]].dependsOn;
      }
    }
  }

  /** The first statement blocks exactly the queued rows at the end of such a path, and changes nothing else. */
  lemma BlockExactly(s: Tasks, scope: Option<Id>, id: Id)
    requires id in s.rows
    ensures var a, t := s.rows[id], Block(s, scope);
            && t.rows.Keys == s.rows.Keys && t.next == s.next
            && t.rows[id] ==
               if a.status == Queued && exists path :: SpoiltPath(s, scope, path) && path[|path| - 1] == id
               then a.(status := Blocked) else a
  {
    forall path ensures SpoiltPath(s, scope, path) <==> IsBlockage(s, scope, path) { SpoiltIsBlockage(s, scope, path); }
  }

  /** In every run a pass takes up nobody too early: what it moved back into the queue had its children done. */
  lemma NobodyWokenEarly(acts: seq<Act>, m: nat, id: Id)
    requires m < |acts| && acts[m].Resuming? && id in Before(acts, m).rows
    ensures var a := Before(acts, m).rows[id];
            && id in Before(acts, m + 1).rows
            && (Before(acts, m + 1).rows[id] != a ==>
                  && Before(acts, m + 1).rows[id] == a.(status := Queued, wait := None)
                  && a.status == Waiting && !a.cancelRequested && a.wait.Some? && ChildrenDone(Before(acts, m), id, a.wait.value)
                  && LooksAt(Before(acts, m), acts[m].scope, id))
  {
    BeforeNext(acts, m);
    ResumeExactly(Before(acts, m), acts[m].scope, id);
  }
}
