/** `MemoryWorkStore` as it runs: maps that its methods change in place. */
module MemoryWorkStores {
  import opened Text
  import opened Work
  import L = LeaseStore
  import C = LeaseCancel

  class MemoryWorkStore {
    const leaseTtlMs: nat
    var rows: map<Id, Row>
    var order: seq<Id>
    var routes: map<Key, Route>
    var sessionLeases: map<Key, Lease>
    var workerLastSeen: map<Worker, Instant>
    var claims: seq<Claim>

    ghost function Contents(): State
      reads this
    {
      State(leaseTtlMs, rows, order, routes, sessionLeases, workerLastSeen, claims)
    }

    ghost predicate Valid()
      reads this
    {
      (forall id <- order :: id in rows) && (forall id <- rows.Keys :: rows[id].id == id)
    }

    constructor (leaseTtlMs: nat)
      ensures Valid() && Contents() == L.Init(leaseTtlMs)
    {
      this.leaseTtlMs := leaseTtlMs;
      rows, order, routes := map[], [], map[];
      sessionLeases, workerLastSeen, claims := map[], map[], [];
    }

    method Enqueue(id: Id, request: Request, availableAt: Option<Instant>, now: Instant) returns (reply: L.EnqueueReply)
      requires Valid()
      modifies this
      ensures Valid() && (Contents(), reply) == L.Enqueue(old(Contents()), id, request, availableAt, now)
    {
      if id in rows {
        return if rows[id].request == request then L.Deduplicated else L.IdentityReused;
      }
      rows := rows[id := L.NewRow(id, request, availableAt, now)];
      order := order + [id];
      return L.Added;
    }

    method PurgeSessionLeases(now: Instant)
      requires Valid()
      modifies this`sessionLeases
      ensures Valid() && Contents() == L.Purged(old(Contents()), now)
    {
      var keys := sessionLeases.Keys;
      while keys != {}
        invariant keys <= old(sessionLeases.Keys)
        invariant sessionLeases == map k | k in old(sessionLeases) && (k in keys || old(sessionLeases)[k].expires > now)
                                     :: old(sessionLeases)[k]
      {
        var key :| key in keys;
        keys := keys - {key};
        if sessionLeases[key].expires <= now { sessionLeases := sessionLeases - {key}; }
      }
    }

    /** The head of the filtered and sorted rows. */
    method FirstCandidate(filter: Filter, worker: Worker, now: Instant) returns (best: Option<Id>)
      requires Valid() && L.Listed(Contents())
      ensures best == L.Best(Contents(), filter, worker, now, |order|)
    {
      best := None;
      for i := 0 to |order|
        invariant best == L.Best(Contents(), filter, worker, now, i)
      {
        var row := rows[order[i]];
        var ready := Ready(filter, now, row);
        if ready {
          if best.None? {
            best := Some(order[i]);
          } else {
            var difference := Compare(worker, now, row, rows[best.value]);
            if difference < 0 { best := Some(order[i]); }
          }
        }
      }
    }

    method Ready(filter: Filter, now: Instant, row: Row) returns (ready: bool)
      ensures ready == L.Ready(Contents(), filter, now, row)
    {
      if !L.Selected(filter, row.request) { return false; }
      if L.MemoryKind(row.request.kind) && row.attempts >= 3 { return false; }
      if !L.Claimable(row, now) || row.cancelRequested { return false; }
      var dependencies := row.request.meta.dependsOn;
      for i := 0 to |dependencies|
        invariant forall d <- dependencies[..i] :: !L.Unmet(Contents(), row.request, d)
      {
        var d := dependencies[i];
        if d !in rows || rows[d].request.tenant != row.request.tenant
           || rows[d].request.principal != row.request.principal || Active(rows[d].status) {
          assert d in dependencies;
          return false;
        }
      }
      return row.availableAt <= now && KeyOf(row.request) !in sessionLeases;
    }

    method Compare(worker: Worker, now: Instant, a: Row, b: Row) returns (difference: int)
      ensures difference == L.Compare(Contents(), worker, now, a, b)
    {
      difference := L.AgedRank(b, now) - L.AgedRank(a, now);
      if difference != 0 { return; }
      difference := b.request.priority - a.request.priority;
      if difference != 0 { return; }
      var home := routes;
      var keyA, keyB := KeyOf(a.request), KeyOf(b.request);
      difference := (if keyB in home && home[keyB].worker == worker then 1 else 0)
                    - if keyA in home && home[keyA].worker == worker then 1 else 0;
      if difference != 0 { return; }
      difference := a.createdAt - b.createdAt;
    }

    /** Routes the session to the worker and says which home it may use. */
    method RouteSession(key: Key, worker: Worker) returns (homeEpoch: nat)
      requires Valid()
      modifies this`routes
      ensures Valid() && routes == old(routes)[key := L.NextRoute(old(Contents()), key, worker)]
      ensures homeEpoch == L.NextRoute(old(Contents()), key, worker).homeEpoch
    {
      homeEpoch := 1;
      if key in routes {
        homeEpoch := if routes[key].worker == worker then routes[key].homeEpoch else routes[key].homeEpoch + 1;
      }
      routes := routes[key := Route(worker, homeEpoch)];
    }

    method Take(id: Id, worker: Worker, now: Instant, token: Token) returns (item: Item)
      requires Valid() && id in rows
      modifies this`rows, this`routes, this`sessionLeases
      ensures Valid() && (Contents(), item) == L.Take(old(Contents()), old(rows)[id], worker, now, token)
    {
      var row := rows[id];
      var key := KeyOf(row.request);
      var homeEpoch := RouteSession(key, worker);
      row := row.(status := Leased, fence := row.fence + 1, grant := Some(Grant(token, now + leaseTtlMs)),
                  leasedBy := Some(worker), attempts := row.attempts + 1);
      rows := rows[id := row];
      sessionLeases := sessionLeases[key := Lease(row.id, row.fence, now + leaseTtlMs)];
      item := L.ItemOf(row, token, homeEpoch);
    }

    method Claim(worker: Worker, requestId: string, filter: Filter, now: Instant,
                 token: Token) returns (reply: L.ClaimReply)
      requires Valid()
      modifies this
      ensures Valid() && (Contents(), reply) == L.ClaimWork(old(Contents()), worker, requestId, filter, now, token)
    {
      if requestId != "" {
        var prior := L.Prior(claims, requestId);
        if prior.Some? { return L.Replay(prior.value, worker, filter); }
        if |claims| >= L.PAGE { claims := claims[1..]; }
      }
      workerLastSeen := workerLastSeen[worker := now];
      PurgeSessionLeases(now);
      ghost var prepared := Contents();
      assert prepared == L.Prepared(old(Contents()), worker, requestId, now);
      var work := ClaimNew(worker, requestId, filter, now, token);
      return L.Issued(work);
    }

    method ClaimNew(worker: Worker, requestId: string, filter: Filter, now: Instant,
                    token: Token) returns (work: Option<Item>)
      requires Valid()
      modifies this
      ensures Valid() && (Contents(), work) == L.ClaimNew(old(Contents()), worker, requestId, filter, now, token)
    {
      var best := FirstCandidate(filter, worker, now);
      work := None;
      if best.Some? {
        var item := Take(best.value, worker, now, token);
        work := Some(item);
      }
      if requestId != "" { claims := claims + [Work.Claim(requestId, worker, work, filter)]; }
    }

    method ValidLease(proof: Proof, now: Instant) returns (held: bool)
      ensures held == L.Holds(Contents(), proof, now)
    {
      if proof.id !in rows { return false; }
      var row := rows[proof.id];
      if !row.status.Leased? || row.fence != proof.fence { return false; }
      if row.grant.None? || row.grant.value.token != proof.token { return false; }
      return row.grant.value.expires > now;
    }

    method Heartbeat(proof: Proof, now: Instant, later: Instant) returns (ok: bool)
      requires Valid()
      modifies this
      ensures Valid() && (Contents(), ok) == L.Heartbeat(old(Contents()), proof, now, later)
    {
      ok := ValidLease(proof, now);
      if !ok { return; }
      var row := rows[proof.id];
      var key := KeyOf(row.request);
      rows := rows[proof.id := row.(grant := Some(Grant(row.grant.value.token, later + leaseTtlMs)))];
      if row.leasedBy.Some? && row.leasedBy.value != "" { workerLastSeen := workerLastSeen[row.leasedBy.value := later]; }
      if key in sessionLeases && sessionLeases[key].work == proof.id && sessionLeases[key].fence == proof.fence {
        sessionLeases := sessionLeases[key := Lease(proof.id, proof.fence, later + leaseTtlMs)];
      }
    }

    method ReleaseSessionLease(key: Key, id: Id, fence: nat)
      requires Valid()
      modifies this`sessionLeases
      ensures Valid() && Contents() == L.Released(old(Contents()), key, id, fence)
    {
      if key in sessionLeases && sessionLeases[key].work == id && sessionLeases[key].fence == fence {
        sessionLeases := sessionLeases - {key};
      }
    }

    method YieldWork(proof: Proof, now: Instant, later: Instant) returns (ok: bool)
      requires Valid()
      modifies this
      ensures Valid() && (Contents(), ok) == L.YieldWork(old(Contents()), proof, now, later)
    {
      ok := ValidLease(proof, now);
      if !ok || !rows[proof.id].preemptRequested { return false; }
      var row := rows[proof.id];
      rows := rows[proof.id := row.(status := Queued, fence := row.fence + 1, grant := None, leasedBy := None,
                                    preemptRequested := false, preemptions := row.preemptions + 1,
                                    availableAt := later + 1_000)];
      ReleaseSessionLease(KeyOf(row.request), proof.id, proof.fence);
    }

    method GetLeased(proof: Proof, now: Instant) returns (row: Option<Row>)
      ensures row == if L.Holds(Contents(), proof, now) then Some(rows[proof.id]) else None
    {
      var held := ValidLease(proof, now);
      return if held then Some(rows[proof.id]) else None;
    }

    /** No answer stands for the error that is thrown when a completion would have to wait. */
    method Complete(proof: Proof, ending: Ending, error: Option<string>, outcome: Option<Outcome>, now: Instant)
      returns (answer: Option<bool>)
      requires Valid()
      modifies this
      ensures Valid()
      ensures var status := StatusOf(ending, outcome);
              if status.Waiting? then answer == None && Contents() == old(Contents())
              else answer == Some(L.Settle(old(Contents()), proof, status, error, outcome, now).1)
                   && Contents() == C.SettleAll(old(Contents()), proof, status, error, outcome, now)
    {
      var status := StatusOf(ending, outcome);
      if status.Waiting? { return None; }
      var ok := Settle(proof, status, error, outcome, now);
      return Some(ok);
    }

    method Wait(proof: Proof, outcome: Outcome, now: Instant) returns (ok: bool)
      requires Valid()
      modifies this
      ensures Valid() && (Contents(), ok) == L.Settle(old(Contents()), proof, Waiting, None, Some(outcome), now)
    {
      ok := Settle(proof, Waiting, None, Some(outcome), now);
    }

    method MaySettle(row: Row, status: Status, outcome: Option<Outcome>) returns (may: bool)
      ensures may == L.MaySettle(row, status, outcome)
    {
      if status.Failed? || status.Cancelled? { return true; }
      if row.cancelRequested || (row.request.meta.hasText && outcome.None?) { return false; }
      return outcome.Some? ==> outcome.value.requestVersion == |row.steers| + 1;
    }

    method SettleRow(proof: Proof, status: Status, error: Option<string>, outcome: Option<Outcome>,
                     now: Instant) returns (ok: bool)
      requires Valid()
      modifies this`rows, this`sessionLeases
      ensures Valid() && (Contents(), ok) == L.Settle(old(Contents()), proof, status, error, outcome, now)
    {
      ok := ValidLease(proof, now);
      if !ok { return; }
      var row := rows[proof.id];
      ok := MaySettle(row, status, outcome);
      if !ok { return; }
      row := row.(status := status, error := error, outcome := if outcome.Some? then outcome else row.outcome, grant := None);
      rows := rows[proof.id := row];
      ReleaseSessionLease(KeyOf(row.request), proof.id, proof.fence);
    }

    /** Without interruption, the settlement is followed by a cancel request for each child. */
    method Settle(proof: Proof, status: Status, error: Option<string>, outcome: Option<Outcome>,
                  now: Instant) returns (ok: bool)
      requires Valid()
      modifies this
      ensures Valid() && ok == L.Settle(old(Contents()), proof, status, error, outcome, now).1
      ensures Contents() == C.SettleAll(old(Contents()), proof, status, error, outcome, now)
    {
      ok := SettleRow(proof, status, error, outcome, now);
      if ok && !status.Waiting? { CancelChildren(rows[proof.id]); }
    }

    method CancelChildren(parent: Row)
      requires Valid()
      modifies this
      ensures Valid() && Contents() == C.CancelEach(old(Contents()), parent, old(order))
    {
      var ids := order;
      var i := 0;
      while i < |ids|
        invariant i <= |ids| && Valid()
        invariant C.CancelEach(old(Contents()), parent, ids) == C.CancelEach(Contents(), parent, ids[i..])
      {
        assert ids[i..][1..] == ids[i + 1..];
        var id := ids[i];
        if id in rows && rows[id].request.meta.parent == Words(parent.id) && L.SameOwner(rows[id], parent) {
          var _ := RequestCancel(id);
        }
        i := i + 1;
      }
    }

    method Descendants(root: Row) returns (found: set<Id>)
      requires Valid()
      ensures found == L.Descend(Contents(), root, {root.id}, L.DEPTH)
    {
      found := {root.id};
      var depth := 0;
      while depth < L.DEPTH
        invariant depth <= L.DEPTH
        invariant L.Descend(Contents(), root, found, L.DEPTH - depth) == L.Descend(Contents(), root, {root.id}, L.DEPTH)
      {
        ghost var before := found;
        var added := false;
        for i := 0 to |order|
          invariant L.Sweep(Contents(), root, found, order[i..]) == L.Sweep(Contents(), root, before, order)
          invariant before <= found && (added <==> found != before)
        {
          assert order[i..][1..] == order[i + 1..];
          var id := order[i];
          var row := rows[id];
          if L.SameOwner(row, root) && Shown(row.request.meta.parent) in found && id !in found {
            found := found + {id};
            added := true;
          } else {
            assert L.Hangs(Contents(), root, found, id) ==> found + {id} == found;
          }
        }
        if !added { return; }
        depth := depth + 1;
      }
    }

    method RequestCancel(id: Id) returns (ok: bool)
      requires Valid()
      modifies this`rows
      ensures Valid() && (Contents(), ok) == L.RequestCancel(old(Contents()), id)
    {
      if id !in rows || !Active(rows[id].status) { return false; }
      var descendants := Descendants(rows[id]);
      StopAll(descendants);
      return true;
    }

    method StopAll(descendants: set<Id>)
      requires Valid()
      modifies this`rows
      ensures Valid() && Contents() == L.StopAll(old(Contents()), descendants)
    {
      var targets := descendants;
      while targets != {}
        invariant targets <= descendants && rows.Keys == old(rows.Keys) && Valid()
        invariant forall k <- rows.Keys ::
                    rows[k] == if k in descendants && k !in targets then L.Stopped(old(rows)[k]) else old(rows)[k]
      {
        var target :| target in targets;
        targets := targets - {target};
        if target in rows {
          var row := rows[target];
          if Active(row.status) {
            row := row.(cancelRequested := true);
            if !row.status.Leased? {
              row := row.(status := Cancelled, outcome := Some(Outcome(BlockedGoal, |row.steers| + 1)));
            }
            rows := rows[target := row];
          }
        }
      }
      assert rows == L.StopAll(old(Contents()), descendants).rows;
    }

    method RequestPreempt(id: Id) returns (ok: bool)
      requires Valid()
      modifies this`rows
      ensures Valid() && (Contents(), ok) == L.RequestPreempt(old(Contents()), id)
    {
      if id !in rows || !rows[id].status.Leased? { return false; }
      rows := rows[id := rows[id].(preemptRequested := true)];
      return true;
    }

    /** Without interruption, the steer is followed by a cancel request for each child. */
    method AddSteer(id: Id, text: string) returns (ok: bool)
      requires Valid()
      modifies this
      ensures Valid() && ok == L.AddSteer(old(Contents()), id, text).1
      ensures Contents() == C.SteerAll(old(Contents()), id, text)
    {
      if id !in rows || !Active(rows[id].status) || rows[id].cancelRequested { return false; }
      var row := rows[id];
      row := row.(steers := row.steers + [text], outcome := None);
      if row.status.Waiting? { row := row.(status := Queued); }
      rows := rows[id := row];
      CancelChildren(row);
      return true;
    }
  }
}
