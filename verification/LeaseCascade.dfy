/** When a settlement or a steer is accepted, and what it leaves of the rows below when nothing interrupts it. */
module LeaseCascade {
  import opened Text
  import opened Work
  import opened LeaseStore
  import opened LeaseRuns
  import opened LeaseCancel

  // ---- What a cascade does to a row ----

  /** The row is as it was, or was active and has been stopped: leased work keeps its lease, other work is over. */
  predicate MaybeStopped(a: Row, b: Row) {
    || b == a
    || (a.status == Leased && b == a.(cancelRequested := true))
    || (a.status in {Queued, Waiting}
        && b == a.(cancelRequested := true, status := Cancelled, outcome := Some(Outcome(BlockedGoal, |a.steers| + 1))))
  }

  /** A row of another tenant or principal. */
  predicate Foreign(k: Row, owner: Row) {
    k.request.tenant != owner.request.tenant || k.request.principal != owner.request.principal
  }

  /** Rows may be stopped, and only those of one owner. */
  ghost predicate StopsOwned(s: State, t: State, owner: Row) {
    && t == s.(rows := t.rows) && t.rows.Keys == s.rows.Keys
    && forall k <- s.rows.Keys ::
         MaybeStopped(s.rows[k], t.rows[k]) && (Foreign(s.rows[k], owner) ==> t.rows[k] == s.rows[k])
  }

  lemma {:induction false} SweepOwned(s: State, root: Row, found: set<Id>, ids: seq<Id>)
    requires forall k <- found :: k in s.rows ==> SameOwner(s.rows[k], root)
    ensures forall k <- Sweep(s, root, found, ids) :: k in s.rows ==> SameOwner(s.rows[k], root)
    decreases |ids|
  {
    if ids != [] { SweepOwned(s, root, if Hangs(s, root, found, ids[0]) then found + {ids[0]} else found, ids[1..]); }
  }

  lemma {:induction false} DescendOwned(s: State, root: Row, found: set<Id>, rounds: nat)
    requires forall k <- found :: k in s.rows ==> SameOwner(s.rows[k], root)
    ensures forall k <- Descend(s, root, found, rounds) :: k in s.rows ==> SameOwner(s.rows[k], root)
    decreases rounds
  {
    if rounds > 0 {
      SweepOwned(s, root, found, s.order);
      DescendOwned(s, root, Sweep(s, root, found, s.order), rounds - 1);
    }
  }

  lemma CancelOwned(s: State, id: Id, owner: Row)
    requires id in s.rows && SameOwner(s.rows[id], owner)
    ensures StopsOwned(s, RequestCancel(s, id).0, owner)
  {
    if Active(s.rows[id].status) { DescendOwned(s, s.rows[id], {id}, DEPTH); }
  }

  lemma StopsTwice(s: State, m: State, t: State, owner: Row)
    requires StopsOwned(s, m, owner) && StopsOwned(m, t, owner)
    ensures StopsOwned(s, t, owner)
  {
    forall k | k in s.rows
      ensures MaybeStopped(s.rows[k], t.rows[k]) && (Foreign(s.rows[k], owner) ==> t.rows[k] == s.rows[k])
    {
      assert MaybeStopped(s.rows[k], m.rows[k]) && MaybeStopped(m.rows[k], t.rows[k]);
    }
  }

  lemma {:induction false} CascadeOwned(s: State, parent: Row, ids: seq<Id>)
    ensures StopsOwned(s, CancelEach(s, parent, ids), parent)
    decreases |ids|
  {
    if ids != [] {
      var m := if IsChild(s, parent, ids[0]) then RequestCancel(s, ids[0]).0 else s;
      if IsChild(s, parent, ids[0]) { CancelOwned(s, ids[0], parent); }
      CascadeOwned(m, parent, ids[1..]);
      StopsTwice(s, m, CancelEach(m, parent, ids[1..]), parent);
    }
  }

  // ---- Where a cascade stays ----

  /** A row of the same tenant and principal that names the other as its parent. */
  predicate NamesParent(k: Row, parent: Row) {
    k.request.tenant == parent.request.tenant && k.request.principal == parent.request.principal
    && k.request.meta.parent == Words(parent.id)
  }

  /** It descends from a row that names the other as its parent, or is such a row. */
  ghost predicate UnderChild(s: State, parent: Row, k: Id) {
    exists c, hops: nat :: c in s.rows && NamesParent(s.rows[c], parent) && Descends(s, s.rows[c], c, k, hops)
  }

  predicate SameRequests(s: State, t: State) {
    t.order == s.order && t.rows.Keys == s.rows.Keys && forall k <- s.rows.Keys :: t.rows[k].request == s.rows[k].request
  }

  lemma DescendsAlike(s: State, t: State, c: Id, k: Id, hops: nat)
    requires SameRequests(s, t) && c in s.rows && Descends(t, t.rows[c], c, k, hops)
    ensures Descends(s, s.rows[c], c, k, hops)
  {
    var path :| Lineage(t, t.rows[c], path) && |path| <= hops + 1 && path[0] == c && path[|path| - 1] == k;
    forall i | 0 <= i < |path| - 1
      ensures Below(s, s.rows[c], path[i], path[i + 1])
    {
      assert Below(t, t.rows[c], path[i], path[i + 1]);
    }
    assert Lineage(s, s.rows[c], path);
  }

  lemma UnderAlike(s: State, t: State, parent: Row, k: Id)
    requires SameRequests(s, t) && UnderChild(t, parent, k)
    ensures UnderChild(s, parent, k)
  {
    var c, hops: nat :| c in t.rows && NamesParent(t.rows[c], parent) && Descends(t, t.rows[c], c, k, hops);
    DescendsAlike(s, t, c, k, hops);
  }

  lemma CancelUnder(s: State, parent: Row, c: Id, k: Id)
    requires InOrder(s) && IsChild(s, parent, c) && k in s.rows
    ensures var t := RequestCancel(s, c).0; SameRequests(s, t) && (t.rows[k] != s.rows[k] ==> UnderChild(s, parent, k))
  {
    var t := RequestCancel(s, c).0;
    CancelStops(s, c);
    if t.rows[k] != s.rows[k] {
      var hops: nat :| Descends(s, s.rows[c], c, k, hops);
      assert NamesParent(s.rows[c], parent);
    }
  }

  /** A cascade changes nothing but rows below the children. */
  lemma {:induction false} CascadeUnder(s: State, parent: Row, ids: seq<Id>, k: Id)
    requires InOrder(s) && k in s.rows
    ensures var t := CancelEach(s, parent, ids); SameRequests(s, t) && (t.rows[k] != s.rows[k] ==> UnderChild(s, parent, k))
    decreases |ids|
  {
    if ids != [] {
      var m := if IsChild(s, parent, ids[0]) then RequestCancel(s, ids[0]).0 else s;
      if IsChild(s, parent, ids[0]) { CancelUnder(s, parent, ids[0], k); }
      CascadeUnder(m, parent, ids[1..], k);
      if UnderChild(m, parent, k) { UnderAlike(s, m, parent, k); }
    }
  }

  // ---- Settlements and steers ----

  /** Over, or asked to stop. */
  predicate AtRest(row: Row) {
    row.status in {Succeeded, Partial, Blocked, Failed, Cancelled} || row.cancelRequested
  }

  lemma CascadeRests(s: State, parent: Row, k: Id)
    requires InOrder(s) && k in s.rows && NamesParent(s.rows[k], parent)
    ensures var t := CancelEach(s, parent, s.order); k in t.rows && AtRest(t.rows[k])
  {
    assert k in s.order && IsChild(s, parent, k);
    ChildRests(s, parent, s.order, k);
  }

  lemma ChildRests(s: State, parent: Row, ids: seq<Id>, k: Id)
    requires k in ids && IsChild(s, parent, k)
    ensures var t := CancelEach(s, parent, ids); k in t.rows && Resting(t.rows[k])
  {
    CascadeStops(s, parent, ids);
  }

  /** What the caller of a settlement has to be and to bring. */
  predicate Entitled(row: Row, p: Proof, status: Status, outcome: Option<Outcome>, now: Instant) {
    && row.status == Leased && row.fence == p.fence
    && row.grant.Some? && row.grant.value.token == p.token && now < row.grant.value.expires
    && (status in {Failed, Cancelled} ||
        ( && !row.cancelRequested
          && match outcome
             case None => !row.request.meta.hasText
             case Some(answer) => answer.requestVersion == |row.steers| + 1))
  }

  /**
   * A settlement is accepted exactly from the holder of a lease that runs, and unless it reports failure or cancellation
   * only with an answer to the last revision and no cancel request. An accepted one that does not park the row leaves
   * every row that names it as its parent over or asked to stop; one that parks it touches no other row; nothing is
   * stopped that was not active, and nothing of another tenant or principal is touched.
   */
  lemma SettlementCascades(s: State, p: Proof, status: Status, error: Option<string>, outcome: Option<Outcome>,
                           now: Instant)
    requires Coherent(s, now) && !status.Queued? && !status.Leased?
    ensures var ok, t := Settle(s, p, status, error, outcome, now).1, SettleAll(s, p, status, error, outcome, now);
            && (ok <==> p.id in s.rows && Entitled(s.rows[p.id], p, status, outcome, now))
            && t.rows.Keys == s.rows.Keys && (!ok ==> t == s)
            && (ok ==>
                  var row := s.rows[p.id];
                  && t.rows[p.id].status == status && t.rows[p.id].error == error
                  && t.rows[p.id].outcome == (if outcome == None then row.outcome else outcome)
                  && (status != Waiting ==> forall k <- s.rows.Keys :: NamesParent(s.rows[k], row) ==> AtRest(t.rows[k]))
                  && (forall k <- s.rows.Keys :: k != p.id ==>
                        && (status == Waiting ==> t.rows[k] == s.rows[k])
                        && MaybeStopped(s.rows[k], t.rows[k])
                        && (Foreign(s.rows[k], row) ==> t.rows[k] == s.rows[k])))
  {
    var (m, ok) := Settle(s, p, status, error, outcome, now);
    if ok {
      RowFits(s, now, p.id);
      SettleKeeps(s, p, status, error, outcome, now);
      if !status.Waiting? {
        CascadeOwned(m, m.rows[p.id], m.order);
        SettledRests(s, p, status, error, outcome, now);
      }
    }
  }

  lemma SettledRests(s: State, p: Proof, status: Status, error: Option<string>, outcome: Option<Outcome>, now: Instant)
    requires Coherent(s, now) && !status.Queued? && !status.Leased? && !status.Waiting?
    requires Settle(s, p, status, error, outcome, now).1
    ensures var t := SettleAll(s, p, status, error, outcome, now);
            t.rows.Keys == s.rows.Keys &&
            forall k <- s.rows.Keys :: NamesParent(s.rows[k], s.rows[p.id]) ==> AtRest(t.rows[k])
  {
    var m := Settle(s, p, status, error, outcome, now).0;
    RowFits(s, now, p.id);
    SettleKeeps(s, p, status, error, outcome, now);
    CascadeOwned(m, m.rows[p.id], m.order);
    forall k | k in s.rows && NamesParent(s.rows[k], s.rows[p.id])
      ensures AtRest(SettleAll(s, p, status, error, outcome, now).rows[k])
    {
      CascadeRests(m, m.rows[p.id], k);
    }
  }

  /**
   * A steer is accepted exactly on an active row that nobody asked to cancel. It takes the text, forgets the answer, and
   * leaves every row that names it as its parent over or asked to stop.
   */
  lemma SteerCascades(s: State, now: Instant, id: Id, text: string)
    requires Coherent(s, now)
    ensures var ok, t := AddSteer(s, id, text).1, SteerAll(s, id, text);
            && (ok <==> id in s.rows && s.rows[id].status in {Queued, Leased, Waiting} && !s.rows[id].cancelRequested)
            && t.rows.Keys == s.rows.Keys && (!ok ==> t == s)
            && (ok ==>
                  && t.rows[id].steers == s.rows[id].steers + [text]
                  && forall k <- s.rows.Keys ::
                       && (NamesParent(s.rows[k], s.rows[id]) ==> AtRest(t.rows[k]))
                       && (k != id ==> MaybeStopped(s.rows[k], t.rows[k]))
                       && (Foreign(s.rows[k], s.rows[id]) ==> t.rows[k] == s.rows[k]))
  {
    var (m, ok) := AddSteer(s, id, text);
    if ok {
      RowFits(s, now, id);
      SteerMarks(s, now, id, text);
      MarksKeep(s, m, now);
      CascadeOwned(m, m.rows[id], m.order);
      forall k | k in s.rows && NamesParent(s.rows[k], s.rows[id])
        ensures AtRest(SteerAll(s, id, text).rows[k])
      {
        CascadeRests(m, m.rows[id], k);
      }
    }
  }

  /** Whatever other row a settlement changes descends from a row that names the settled one as its parent. */
  lemma SettlementUnder(s: State, p: Proof, status: Status, error: Option<string>, outcome: Option<Outcome>, now: Instant,
                        k: Id)
    requires Coherent(s, now) && !status.Queued? && !status.Leased? && k in s.rows && k != p.id
    ensures var t := SettleAll(s, p, status, error, outcome, now);
            k in t.rows && (t.rows[k] != s.rows[k] ==> p.id in s.rows && UnderChild(s, s.rows[p.id], k))
  {
    var (m, ok) := Settle(s, p, status, error, outcome, now);
    SettleSpares(s, p, status, error, outcome, now, k);
    if ok && !status.Waiting? {
      CascadeUnder(m, m.rows[p.id], m.order, k);
      if UnderChild(m, m.rows[p.id], k) { UnderTwice(s, m, p.id, k); }
    }
  }

  lemma SettleSpares(s: State, p: Proof, status: Status, error: Option<string>, outcome: Option<Outcome>, now: Instant,
                     k: Id)
    requires Coherent(s, now) && !status.Queued? && !status.Leased? && k in s.rows && k != p.id
    ensures var (m, ok) := Settle(s, p, status, error, outcome, now);
            && k in m.rows && m.rows[k] == s.rows[k] && (!ok ==> m == s)
            && (ok ==> InOrder(m) && SameRequests(s, m) && p.id in s.rows && m.rows[p.id].id == s.rows[p.id].id)
  {
    if Settle(s, p, status, error, outcome, now).1 {
      RowFits(s, now, p.id);
      SettleKeeps(s, p, status, error, outcome, now);
    }
  }

  lemma UnderTwice(s: State, m: State, id: Id, k: Id)
    requires SameRequests(s, m) && id in s.rows && m.rows[id].id == s.rows[id].id && UnderChild(m, m.rows[id], k)
    ensures UnderChild(s, s.rows[id], k)
  {
    var c, hops: nat :| c in m.rows && NamesParent(m.rows[c], m.rows[id]) && Descends(m, m.rows[c], c, k, hops);
    DescendsAlike(s, m, c, k, hops);
    assert NamesParent(s.rows[c], s.rows[id]);
  }

  /** And so does whatever other row a steer changes. */
  lemma SteerUnder(s: State, now: Instant, id: Id, text: string, k: Id)
    requires Coherent(s, now) && k in s.rows && k != id
    ensures var t := SteerAll(s, id, text);
            k in t.rows && (t.rows[k] != s.rows[k] ==> id in s.rows && UnderChild(s, s.rows[id], k))
  {
    var (m, ok) := AddSteer(s, id, text);
    if ok {
      RowFits(s, now, id);
      SteerMarks(s, now, id, text);
      MarksKeep(s, m, now);
      CascadeUnder(m, m.rows[id], m.order, k);
      if UnderChild(m, m.rows[id], k) { UnderTwice(s, m, id, k); }
    }
  }

  /** A worker that reports an answer, or none, that does not wait for anything. */
  predicate Done(outcome: Option<Outcome>, goal: Goal) {
    match outcome case None => goal == Satisfied case Some(answer) => answer.goal == goal
  }

  /**
   * Where a report lands: an answer that waits for input, approval or delegated work parks the row; any other one, a
   * failure and a cancellation end it in a status of its own, and the row has it once the report is accepted.
   */
  lemma ReportLands(s: State, p: Proof, ending: Ending, error: Option<string>, outcome: Option<Outcome>, now: Instant)
    requires Coherent(s, now)
    ensures var status := StatusOf(ending, outcome);
            && (status == Waiting <==>
                  ending == Completed && outcome.Some? && outcome.value.goal in {AwaitingInput, AwaitingApproval, Delegated})
            && (status == Succeeded <==> ending == Completed && Done(outcome, Satisfied))
            && (status == Partial <==> ending == Completed && Done(outcome, PartialGoal))
            && (status == Blocked <==> ending == Completed && Done(outcome, BlockedGoal))
            && (status == Failed <==> ending == EndedFailed) && (status == Cancelled <==> ending == EndedCancelled)
            && status != Queued && status != Leased
            && (Settle(s, p, status, error, outcome, now).1 ==>
                  var t := SettleAll(s, p, status, error, outcome, now); p.id in t.rows && t.rows[p.id].status == status)
  {
    SettlementCascades(s, p, StatusOf(ending, outcome), error, outcome, now);
  }
}
