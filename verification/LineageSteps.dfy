/** When a child is created and when a row is claimed, said of the rows themselves. */
module LineageSteps {
  import opened Text
  import opened Work
  import opened Lineage
  import opened LineageProofs
  import opened LineageTheorems

  /** A line of parents that leads down to the row. */
  ghost predicate LineTo(s: Tasks, path: seq<Id>, id: Id) { IsLine(s, path) && path[|path| - 1] == id }

  lemma {:induction false} WholeLine(s: Tasks, id: Id) returns (path: seq<Id>)
    requires Sound(s) && id in s.rows
    ensures LineTo(s, path, id) && |path| == s.rows[id].depth
    decreases s.rows[id].depth
  {
    SoundAt(s, id);
    if s.rows[id].parent.None? {
      path := [id];
    } else {
      var up := s.rows[id].parent.value;
      SoundAt(s, up);
      var front := WholeLine(s, up);
      path := front + [id];
      forall k | 0 <= k < |path| - 1
        ensures ChildOf(s, path[k], path[k + 1])
      {
        if k < |front| - 1 { assert ChildOf(s, front[k], front[k + 1]); }
      }
    }
  }

  /** The depth of a row is the length of the longest line that leads to it. */
  lemma DepthExact(s: Tasks, id: Id)
    requires Sound(s) && id in s.rows
    ensures s.rows[id].depth >= 64 <==> exists path :: LineTo(s, path, id) && |path| >= 64
  {
    var whole := WholeLine(s, id);
    forall path | LineTo(s, path, id)
      ensures |path| <= s.rows[id].depth
    {
      DescentDepth(s, path, |path| - 1);
      SoundAt(s, path[0]);
    }
  }

  /** The parent has this many children beside `id`, or more. */
  ghost predicate Crowded(s: Tasks, parent: Id, id: Id) {
    exists kids: set<Id> :: |kids| >= 64 && forall k <- kids :: k != id && k in s.rows && s.rows[k].parent == Some(parent)
  }

  lemma CrowdedExactly(s: Tasks, parent: Id, id: Id)
    ensures |ChildrenBut(s, parent, id)| >= 64 <==> Crowded(s, parent, id)
  {
    var all := ChildrenBut(s, parent, id);
    assert forall k <- all :: k != id && k in s.rows && s.rows[k].parent == Some(parent);
    forall kids: set<Id> | forall k <- kids :: k != id && k in s.rows && s.rows[k].parent == Some(parent)
      ensures |kids| <= |all|
    {
      assert kids <= all;
      Subset(kids, all);
    }
  }

  lemma {:induction false} Subset(a: set<Id>, b: set<Id>)
    requires a <= b
    ensures |a| <= |b|
    decreases |a|
  {
    if x :| x in a { Subset(a - {x}, b - {x}); }
  }

  /** A distinct row of the same parent, owner, request version and graph. */
  predicate Sibling(s: Tasks, parent: Id, group: Group, d: Id)
    requires parent in s.rows
  {
    d in s.rows && s.rows[d].parent == Some(parent) && s.rows[d].owner == s.rows[parent].owner && s.rows[d].group == group
  }

  ghost predicate DependenciesFit(s: Tasks, parent: Id, id: Id, dependsOn: seq<Id>, group: Group)
    requires parent in s.rows
  {
    && |dependsOn| <= 64 && (forall k, l :: 0 <= k < l < |dependsOn| ==> dependsOn[k] != dependsOn[l])
    && forall k :: 0 <= k < |dependsOn| ==> dependsOn[k] != id && Sibling(s, parent, group, dependsOn[k])
  }

  lemma DependenciesExactly(s: Tasks, parent: Id, id: Id, dependsOn: seq<Id>, group: Group)
    requires parent in s.rows
    ensures DependenciesFit(s, parent, id, dependsOn, group) <==>
            && |dependsOn| <= 64 && id !in dependsOn && DistinctIds(dependsOn)
            && forall d <- dependsOn :: IsSibling(s, s.rows[parent].owner, parent, group, d)
  {
    if DependenciesFit(s, parent, id, dependsOn, group) {
      assert forall d <- dependsOn :: Sibling(s, parent, group, d);
    } else if |dependsOn| <= 64 && DistinctIds(dependsOn) {
      var k :| 0 <= k < |dependsOn| && (dependsOn[k] == id || !Sibling(s, parent, group, dependsOn[k]));
      assert dependsOn[k] in dependsOn;
    }
  }

  lemma MayCreateExactly(s: Tasks, parent: Id, id: Id, dependsOn: seq<Id>, group: Group)
    requires Sound(s) && parent in s.rows
    ensures MayCreate(s, parent, id, dependsOn, group) <==>
            && s.rows[parent].started && s.rows[parent].owner.principal.Some?
            && s.rows[parent].status in {Queued, Leased, Waiting} && !s.rows[parent].cancelRequested
            && !(exists path :: LineTo(s, path, parent) && |path| >= 64)
            && !Crowded(s, parent, id) && DependenciesFit(s, parent, id, dependsOn, group)
  {
    AncestorCheckExact(s, parent);
    DepthExact(s, parent);
    CrowdedExactly(s, parent, id);
    DependenciesExactly(s, parent, id, dependsOn, group);
  }

  /**
   * A child is created exactly under a row that was started for some principal, is active and free of a cancel request,
   * has fewer than 64 rows in its line and fewer than 64 other children; its dependencies are at most 64 distinct
   * siblings. The child is queued below its parent with what was asked for, and no other row changes.
   */
  lemma CreateExactly(s: Tasks, parent: Id, id: Id, dependsOn: seq<Id>, group: Group)
    requires Sound(s)
    ensures var t := CreateChild(s, parent, id, dependsOn, group);
            if && id !in s.rows && parent in s.rows && s.rows[parent].started && s.rows[parent].owner.principal.Some?
               && s.rows[parent].status in {Queued, Leased, Waiting} && !s.rows[parent].cancelRequested
               && !(exists path :: LineTo(s, path, parent) && |path| >= 64)
               && !Crowded(s, parent, id) && DependenciesFit(s, parent, id, dependsOn, group)
            then && t.rows.Keys == s.rows.Keys + {id} && (forall k <- s.rows.Keys :: t.rows[k] == s.rows[k])
                 && var c := t.rows[id];
                    && c.parent == Some(parent) && c.owner == s.rows[parent].owner && c.root == s.rows[parent].root
                    && c.group == group && c.dependsOn == dependsOn && c.status == Queued && c.wait == None
                    && !c.cancelRequested && !c.started && !c.good
            else t == s
  {
    if parent in s.rows { MayCreateExactly(s, parent, id, dependsOn, group); }
  }

  /**
   * A row is claimed exactly when it is queued or was leased, nobody asked to cancel it, and everything it depends on
   * has succeeded, with a satisfied result for its last revision, and was not asked to cancel. No other row changes.
   */
  lemma ClaimExactly(s: Tasks, id: Id, k: Id)
    requires k in s.rows
    ensures var t := ClaimTask(s, id);
            && t.rows.Keys == s.rows.Keys && t.next == s.next
            && t.rows[k] ==
               if && k == id && s.rows[k].status in {Queued, Leased} && !s.rows[k].cancelRequested
                  && forall i :: 0 <= i < |s.rows[k].dependsOn| ==>
                       var d := s.rows[k].dependsOn[i];
                       d in s.rows && s.rows[d].status == Succeeded && s.rows[d].good && !s.rows[d].cancelRequested
               then s.rows[k].(status := Leased, started := true) else s.rows[k]
  {
    var ids := s.rows[k].dependsOn;
    assert (forall d <- ids :: d in s.rows && Fulfilled(s.rows[d]))
      <==> forall i :: 0 <= i < |ids| ==> ids[i] in s.rows && Fulfilled(s.rows[ids[i]]);
  }

  /** A yield queues leased work again, and a decided approval queues parked work that waits for no child. */
  lemma RequeueExactly(s: Tasks, id: Id, ids: set<Id>, k: Id)
    requires k in s.rows
    ensures var t := YieldTask(s, id);
            && t.rows.Keys == s.rows.Keys && t.next == s.next
            && t.rows[k] == if k == id && s.rows[k].status == Leased then s.rows[k].(status := Queued) else s.rows[k]
    ensures var t := Wake(s, ids);
            && t.rows.Keys == s.rows.Keys && t.next == s.next
            && t.rows[k] ==
               if k in ids && s.rows[k].status == Waiting && !s.rows[k].cancelRequested && s.rows[k].wait == None
               then s.rows[k].(status := Queued) else s.rows[k]
  {
  }
}
