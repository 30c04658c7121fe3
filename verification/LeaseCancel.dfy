/** `requestCancel`: which rows the fixpoint loop finds, and what happens to them. */
module LeaseCancel {
  import opened Text
  import opened Work
  import opened LeaseStore
  import opened LeaseRuns

  // ---- Descendants, without the loop ----

  /** `child` names `parent` as its parent, and belongs to the owner of `root`. */
  predicate Below(s: State, root: Row, parent: Id, child: Id) {
    child in s.rows && SameOwner(s.rows[child], root) && Shown(s.rows[child].request.meta.parent) == parent
  }

  /** A line of descent from the first id to the last. */
  predicate Lineage(s: State, root: Row, path: seq<Id>) {
    path != [] && forall k :: 0 <= k < |path| - 1 ==> Below(s, root, path[k], path[k + 1])
  }

  ghost predicate Descends(s: State, root: Row, from: Id, to: Id, hops: nat) {
    exists path :: Lineage(s, root, path) && |path| <= hops + 1 && path[0] == from && path[|path| - 1] == to
  }

  // ---- One pass ----

  lemma {:induction false} SweepGrows(s: State, root: Row, found: set<Id>, ids: seq<Id>)
    ensures found <= Sweep(s, root, found, ids)
    ensures forall id <- ids :: Hangs(s, root, found, id) ==> id in Sweep(s, root, found, ids)
    decreases |ids|
  {
    if ids != [] {
      var next := if Hangs(s, root, found, ids[0]) then found + {ids[0]} else found;
      SweepGrows(s, root, next, ids[1..]);
      forall id | id in ids && Hangs(s, root, found, id)
        ensures id in Sweep(s, root, found, ids)
      {
        if id != ids[0] {
          assert id in ids[1..];
          assert Hangs(s, root, next, id);
        }
      }
    }
  }

  /** Nothing but descendants of `from`, at any distance. */
  ghost predicate OnlyBelow(s: State, root: Row, from: Id, found: set<Id>) {
    forall id <- found :: exists hops: nat :: Descends(s, root, from, id, hops)
  }

  lemma Deeper(s: State, root: Row, from: Id, parent: Id, child: Id, hops: nat)
    requires Descends(s, root, from, parent, hops) && Below(s, root, parent, child)
    ensures Descends(s, root, from, child, hops + 1)
  {
    var path :| Lineage(s, root, path) && |path| <= hops + 1 && path[0] == from && path[|path| - 1] == parent;
    var longer := path + [child];
    forall k | 0 <= k < |longer| - 1
      ensures Below(s, root, longer[k], longer[k + 1])
    {
      assert k < |path| - 1 ==> Below(s, root, path[k], path[k + 1]);
    }
    assert Lineage(s, root, longer);
  }

  lemma {:induction false} SweepOnlyBelow(s: State, root: Row, from: Id, found: set<Id>, ids: seq<Id>)
    requires OnlyBelow(s, root, from, found)
    ensures OnlyBelow(s, root, from, Sweep(s, root, found, ids))
    decreases |ids|
  {
    if ids != [] {
      if Hangs(s, root, found, ids[0]) {
        var parent := Shown(s.rows[ids[0]].request.meta.parent);
        var hops: nat :| Descends(s, root, from, parent, hops);
        Deeper(s, root, from, parent, ids[0], hops);
        SweepOnlyBelow(s, root, from, found + {ids[0]}, ids[1..]);
      } else {
        SweepOnlyBelow(s, root, from, found, ids[1..]);
      }
    }
  }

  // ---- The loop ----

  lemma {:induction false} DescendOnlyBelow(s: State, root: Row, from: Id, found: set<Id>, rounds: nat)
    requires OnlyBelow(s, root, from, found)
    ensures OnlyBelow(s, root, from, Descend(s, root, found, rounds)) && found <= Descend(s, root, found, rounds)
    decreases rounds
  {
    SweepGrows(s, root, found, s.order);
    if rounds > 0 {
      SweepOnlyBelow(s, root, from, found, s.order);
      DescendOnlyBelow(s, root, from, Sweep(s, root, found, s.order), rounds - 1);
    }
  }

  /** Every row hanging below a found one is found. */
  predicate Closed(s: State, root: Row, found: set<Id>) {
    forall id <- s.rows.Keys :: Hangs(s, root, found, id) ==> id in found
  }

  lemma StillClosed(s: State, root: Row, found: set<Id>)
    requires InOrder(s) && Sweep(s, root, found, s.order) == found
    ensures Closed(s, root, found)
  {
    SweepGrows(s, root, found, s.order);
  }

  lemma {:induction false} ClosedHolds(s: State, root: Row, found: set<Id>, path: seq<Id>)
    requires Closed(s, root, found) && Lineage(s, root, path) && path[0] in found
    ensures path[|path| - 1] in found
    decreases |path|
  {
    if |path| > 1 {
      assert Below(s, root, path[0], path[1]);
      TailLineage(s, root, path);
      ClosedHolds(s, root, found, path[1..]);
    }
  }

  lemma TailLineage(s: State, root: Row, path: seq<Id>)
    requires Lineage(s, root, path) && |path| > 1
    ensures Lineage(s, root, path[1..])
  {
    var tail := path[1..];
    forall k | 0 <= k < |tail| - 1
      ensures Below(s, root, tail[k], tail[k + 1])
    {
      var j := k + 1;
      assert Below(s, root, path[j], path[j + 1]);
    }
  }

  /** Each round goes at least one generation further down; a round that adds nothing has gone all the way. */
  lemma {:induction false} DescendReaches(s: State, root: Row, found: set<Id>, rounds: nat, path: seq<Id>)
    requires InOrder(s) && Lineage(s, root, path) && path[0] in found && |path| <= rounds + 1
    ensures path[|path| - 1] in Descend(s, root, found, rounds)
    decreases rounds
  {
    if rounds > 0 {
      var next := Sweep(s, root, found, s.order);
      SweepGrows(s, root, found, s.order);
      if next == found {
        StillClosed(s, root, found);
        ClosedHolds(s, root, found, path);
      } else if |path| > 1 {
        assert Below(s, root, path[0], path[1]);
        TailLineage(s, root, path);
        DescendReaches(s, root, next, rounds - 1, path[1..]);
      } else {
        DescendReaches(s, root, next, rounds - 1, path);
      }
    }
  }

  // ---- What a cancel request does ----

  /** The rows that a cancel request stops. */
  function Reach(s: State, id: Id): set<Id>
    requires id in s.rows
  {
    Descend(s, s.rows[id], {id}, DEPTH)
  }

  lemma SelfDescends(s: State, root: Row, id: Id)
    ensures Descends(s, root, id, id, 0)
  {
    assert Lineage(s, root, [id]);
  }

  /**
   * A cancel request reaches the row and its descendants: all of those within 64 hops, and nothing else but
   * descendants.
   */
  lemma CancelReaches(s: State, id: Id)
    requires InOrder(s) && id in s.rows
    ensures forall d :: Descends(s, s.rows[id], id, d, 64) ==> d in Reach(s, id)
    ensures forall d <- Reach(s, id) :: exists hops: nat :: Descends(s, s.rows[id], id, d, hops)
  {
    var root := s.rows[id];
    SelfDescends(s, root, id);
    DescendOnlyBelow(s, root, id, {id}, DEPTH);
    forall d | Descends(s, root, id, d, 64)
      ensures d in Reach(s, id)
    {
      var path :| Lineage(s, root, path) && |path| <= 65 && path[0] == id && path[|path| - 1] == d;
      DescendReaches(s, root, {id}, DEPTH, path);
    }
  }

  /** Carries the request, and is over unless a worker holds it. */
  predicate Halted(a: Row, b: Row) {
    && b.cancelRequested && b.status == (if a.status.Leased? then Leased else Cancelled)
    && b.request == a.request && b.grant == a.grant && b.fence == a.fence && b.steers == a.steers
    && (!a.status.Leased? ==> b.outcome == Some(Outcome(BlockedGoal, |a.steers| + 1)))
  }

  /**
   * A cancel request on an active row halts every active descendant within 64 hops, touches nothing but active
   * descendants, and is refused otherwise.
   */
  lemma {:induction false} CancelStops(s: State, id: Id)
    requires InOrder(s)
    ensures var (t, ok) := RequestCancel(s, id);
            && (ok <==> id in s.rows && Active(s.rows[id].status))
            && t == s.(rows := t.rows) && t.rows.Keys == s.rows.Keys
            && (!ok ==> t == s)
            && forall k <- s.rows.Keys ::
                 && (t.rows[k] == s.rows[k] || (Active(s.rows[k].status) && Halted(s.rows[k], t.rows[k])))
                 && (ok && Active(s.rows[k].status) && Descends(s, s.rows[id], id, k, 64) ==> Halted(s.rows[k], t.rows[k]))
                 && (ok && (forall hops: nat :: !Descends(s, s.rows[id], id, k, hops)) ==> t.rows[k] == s.rows[k])
  {
    var (t, ok) := RequestCancel(s, id);
    if ok {
      var root := s.rows[id];
      CancelReaches(s, id);
      forall k | k in s.rows
        ensures t.rows[k] == s.rows[k] || (Active(s.rows[k].status) && Halted(s.rows[k], t.rows[k]))
        ensures Active(s.rows[k].status) && Descends(s, root, id, k, 64) ==> Halted(s.rows[k], t.rows[k])
        ensures (forall hops: nat :: !Descends(s, root, id, k, hops)) ==> t.rows[k] == s.rows[k]
      {
        assert t.rows[k] == if k in Reach(s, id) then Stopped(s.rows[k]) else s.rows[k];
      }
    }
  }

  // ---- The cascade of a settlement or a steer ----

  /** One cancel request after another for the children among `ids`. */
  function CancelEach(s: State, parent: Row, ids: seq<Id>): State
    decreases |ids|
  {
    if ids == [] then s
    else CancelEach(if IsChild(s, parent, ids[0]) then RequestCancel(s, ids[0]).0 else s, parent, ids[1..])
  }

  predicate Resting(row: Row) { Active(row.status) ==> row.cancelRequested }

  /** Rows may only come to rest. */
  ghost predicate OnlyStops(s: State, t: State) {
    && t == s.(rows := t.rows) && t.rows.Keys == s.rows.Keys
    && forall k <- s.rows.Keys :: t.rows[k].request == s.rows[k].request && (Resting(s.rows[k]) ==> Resting(t.rows[k]))
  }

  lemma CancelOnlyStops(s: State, id: Id)
    ensures var (t, ok) := RequestCancel(s, id); OnlyStops(s, t) && (id in s.rows ==> Resting(t.rows[id]))
  {
    if id in s.rows && Active(s.rows[id].status) {
      DescendOnlyBelowSelf(s, id);
    }
  }

  lemma DescendOnlyBelowSelf(s: State, id: Id)
    requires id in s.rows
    ensures id in Reach(s, id)
  {
    SelfDescends(s, s.rows[id], id);
    DescendOnlyBelow(s, s.rows[id], id, {id}, DEPTH);
  }

  /** After the cascade no child is both active and without a cancel request. */
  lemma {:induction false} CascadeStops(s: State, parent: Row, ids: seq<Id>)
    ensures OnlyStops(s, CancelEach(s, parent, ids))
    ensures forall id <- ids :: IsChild(s, parent, id) ==> Resting(CancelEach(s, parent, ids).rows[id])
    decreases |ids|
  {
    if ids != [] {
      var t := if IsChild(s, parent, ids[0]) then RequestCancel(s, ids[0]).0 else s;
      CancelOnlyStops(s, ids[0]);
      CascadeStops(t, parent, ids[1..]);
      assert ids == [ids[0]] + ids[1..];
      forall id | id in ids && IsChild(s, parent, id)
        ensures Resting(CancelEach(s, parent, ids).rows[id])
      {
        assert t.rows[id].request == s.rows[id].request;
        if id in ids[1..] { assert IsChild(t, parent, id); }
      }
    }
  }

  /** A settlement whose cascade nothing interrupts. */
  function SettleAll(s: State, p: Proof, status: Status, error: Option<string>, outcome: Option<Outcome>,
                     now: Instant): State {
    var (t, ok) := Settle(s, p, status, error, outcome, now);
    if ok && !status.Waiting? && p.id in t.rows then CancelEach(t, t.rows[p.id], t.order) else t
  }

  /** A steer whose cascade nothing interrupts. */
  function SteerAll(s: State, id: Id, text: string): State {
    var (t, ok) := AddSteer(s, id, text);
    if ok && id in t.rows then CancelEach(t, t.rows[id], t.order) else t
  }

  /** A cascade is a run of cancel requests, so whatever holds of runs holds of it, interrupted or not. */
  lemma {:induction false} CascadeIsRun(s: State, clock: Instant, parent: Row, ids: seq<Id>) returns (ops: seq<Op>)
    requires Coherent(s, clock)
    ensures Timed(clock, ops) && Clock(clock, ops) == clock && Run(s, clock, ops) == CancelEach(s, parent, ids)
    ensures forall op <- ops :: op.Cancelling?
    decreases |ids|
  {
    ops := [];
    if ids != [] {
      if IsChild(s, parent, ids[0]) {
        var op := Cancelling(ids[0], clock);
        StepKeeps(s, clock, op);
        var rest := CascadeIsRun(Step(s, op).0, clock, parent, ids[1..]);
        ops := [op] + rest;
        assert ops[1..] == rest;
      } else {
        ops := CascadeIsRun(s, clock, parent, ids[1..]);
      }
    }
  }
}
