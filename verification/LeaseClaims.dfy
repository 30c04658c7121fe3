/** What a claim picks, and what a repeated claim gives back. */
module LeaseClaims {
  import opened Text
  import opened Work
  import opened LeaseStore
  import opened LeaseRuns

  // ---- The row that is picked ----

  /** Interactive work comes first, background work last, and a row moves up one lane for each minute it has waited. */
  function Standing(row: Row, now: Instant): int {
    var lane := match row.request.lane case Interactive => 4 case Approval => 3 case Collaboration => 2 case Background => 1;
    lane + if now <= row.availableAt then 0 else (now - row.availableAt) / 60_000
  }

  /** The row's session was last served by the worker. */
  predicate AtHome(s: State, worker: Worker, row: Row) {
    var key := KeyOf(row.request); key in s.routes && s.routes[key].worker == worker
  }

  /** The order in which rows are served: lane with age, then priority, then the worker's own session, then age. */
  predicate Outranks(s: State, worker: Worker, now: Instant, a: Row, b: Row) {
    var ra, rb := Standing(a, now), Standing(b, now);
    var pa, pb := a.request.priority, b.request.priority;
    var fa, fb := if AtHome(s, worker, a) then 1 else 0, if AtHome(s, worker, b) then 1 else 0;
    || ra > rb
    || (ra == rb && pa > pb)
    || (ra == rb && pa == pb && fa > fb)
    || (ra == rb && pa == pb && fa == fb && a.createdAt < b.createdAt)
  }

  lemma CompareOutranks(s: State, worker: Worker, now: Instant, a: Row, b: Row)
    ensures Compare(s, worker, now, a, b) < 0 <==> Outranks(s, worker, now, a, b)
  {
  }

  lemma OutranksTransitive(s: State, worker: Worker, now: Instant, a: Row, b: Row, c: Row)
    requires !Outranks(s, worker, now, b, a) && !Outranks(s, worker, now, c, b)
    ensures !Outranks(s, worker, now, c, a)
    ensures Outranks(s, worker, now, a, b) || Outranks(s, worker, now, b, c) ==> Outranks(s, worker, now, a, c)
  {
  }

  /** Row i is served before row j: it outranks it, or they tie and it was enqueued first. */
  predicate ServedBefore(s: State, worker: Worker, now: Instant, i: nat, j: nat)
    requires Listed(s) && i < |s.order| && j < |s.order|
  {
    var a, b := s.rows[s.order[i]], s.rows[s.order[j]];
    if i < j then !Outranks(s, worker, now, b, a) else Outranks(s, worker, now, a, b)
  }

  predicate ReadyAt(s: State, f: Filter, now: Instant, j: nat)
    requires Listed(s) && j < |s.order|
  {
    Ready(s, f, now, s.rows[s.order[j]])
  }

  ghost predicate First(s: State, f: Filter, worker: Worker, now: Instant, n: nat, i: nat)
    requires Listed(s) && n <= |s.order|
  {
    && i < n && ReadyAt(s, f, now, i)
    && forall j: nat :: j < n && j != i && ReadyAt(s, f, now, j) ==> ServedBefore(s, worker, now, i, j)
  }

  lemma {:induction false} BestIsFirst(s: State, f: Filter, worker: Worker, now: Instant, n: nat) returns (i: nat)
    requires Listed(s) && n <= |s.order|
    ensures var best := Best(s, f, worker, now, n);
            if best.Some? then First(s, f, worker, now, n, i) && s.order[i] == best.value
            else forall j: nat :: j < n ==> !ReadyAt(s, f, now, j)
  {
    i := 0;
    if n > 0 {
      i := BestIsFirst(s, f, worker, now, n - 1);
      var sooner := Best(s, f, worker, now, n - 1);
      if ReadyAt(s, f, now, n - 1) {
        if sooner.None? {
          i := n - 1;
        } else {
          i := Rechosen(s, f, worker, now, n, i);
        }
      }
    }
  }

  lemma Rechosen(s: State, f: Filter, worker: Worker, now: Instant, n: nat, i: nat) returns (k: nat)
    requires Listed(s) && 0 < n <= |s.order| && First(s, f, worker, now, n - 1, i) && ReadyAt(s, f, now, n - 1)
    ensures First(s, f, worker, now, n, k)
    ensures k == if Compare(s, worker, now, s.rows[s.order[n - 1]], s.rows[s.order[i]]) >= 0 then i else n - 1
  {
    var last, best := s.rows[s.order[n - 1]], s.rows[s.order[i]];
    CompareOutranks(s, worker, now, last, best);
    if Compare(s, worker, now, last, best) >= 0 {
      k := i;
    } else {
      k := n - 1;
      forall j: nat | j < n && j != k && ReadyAt(s, f, now, j)
        ensures ServedBefore(s, worker, now, k, j)
      {
        if j != i {
          assert ServedBefore(s, worker, now, i, j);
          OutranksTransitive(s, worker, now, last, best, s.rows[s.order[j]]);
        }
      }
    }
  }

  /** The session of the request is not locked by a lease that still runs. */
  predicate Unlocked(s: State, now: Instant, q: Request) {
    KeyOf(q) in s.leases ==> s.leases[KeyOf(q)].expires <= now
  }

  /** The request is of a kind, a lane and a class that the claim asks for, or it asks for any. */
  predicate Asked(f: Filter, q: Request) {
    && (f.kinds == None || q.kind in f.kinds.value)
    && (f.lanes == None || q.lane in f.lanes.value)
    && match f.class_
       case None => true
       case Some(c) => c == match q.meta.class_
                            case Some(own) => own
                            case None => if q.lane in {Interactive, Approval} then Conversation else Operation
  }

  /** What `Ready` says of the state that the claim finds, before it prepares it. */
  predicate Eligible(s: State, f: Filter, now: Instant, row: Row) {
    && Asked(f, row.request) && !row.cancelRequested && row.availableAt <= now
    && (row.status.Queued? || (row.status.Leased? && (row.grant.Some? ==> row.grant.value.expires <= now)))
    && (row.request.kind in {"memory_synthesis", "memory_index", "memory_evaluation"} ==> row.attempts < 3)
    && (forall d <- row.request.meta.dependsOn ::
          d in s.rows && s.rows[d].request.tenant == row.request.tenant
          && s.rows[d].request.principal == row.request.principal && !Active(s.rows[d].status))
    && Unlocked(s, now, row.request)
  }

  lemma ReadyIsEligible(s: State, worker: Worker, request: string, f: Filter, now: Instant, row: Row)
    ensures Ready(Prepared(s, worker, request, now), f, now, row) <==> Eligible(s, f, now, row)
  {
    var p := Prepared(s, worker, request, now);
    assert forall d <- row.request.meta.dependsOn :: Unmet(p, row.request, d) <==> Unmet(s, row.request, d);
  }

  lemma PreparedOrder(s: State, worker: Worker, request: string, now: Instant, a: Row, b: Row)
    ensures Outranks(Prepared(s, worker, request, now), worker, now, a, b) <==> Outranks(s, worker, now, a, b)
  {
  }

  /** A claim with no earlier one to repeat. */
  predicate Fresh(s: State, request: string) { request == "" || Prior(s.claims, request).None? }

  /**
   * A fresh claim leases the one eligible row that is served before all the others, and takes nothing exactly when
   * no row is eligible.
   */
  lemma ClaimTakesFirst(s: State, worker: Worker, request: string, f: Filter, now: Instant,
                        token: Token) returns (i: nat)
    requires Coherent(s, now) && Fresh(s, request)
    ensures var reply := ClaimWork(s, worker, request, f, now, token).1;
            && reply.Issued?
            && if reply.work.None? then forall id <- s.rows.Keys :: !Eligible(s, f, now, s.rows[id])
               else && i < |s.order| && s.order[i] == reply.work.value.id && Eligible(s, f, now, s.rows[s.order[i]])
                    && forall j: nat :: j < |s.order| && j != i && Eligible(s, f, now, s.rows[s.order[j]])
                                        ==> ServedBefore(s, worker, now, i, j)
  {
    PreparedKeeps(s, worker, request, now);
    var p := Prepared(s, worker, request, now);
    i := BestIsFirst(p, f, worker, now, |p.order|);
    var best := Best(p, f, worker, now, |p.order|);
    if best.None? {
      forall id | id in s.rows
        ensures !Eligible(s, f, now, s.rows[id])
      {
        ReadyIsEligible(s, worker, request, f, now, s.rows[id]);
        assert id in s.order;
        var j :| 0 <= j < |s.order| && s.order[j] == id;
        assert !ReadyAt(p, f, now, j);
      }
    } else {
      RowFits(s, now, best.value);
      ReadyIsEligible(s, worker, request, f, now, s.rows[s.order[i]]);
      forall j: nat | j < |s.order| && j != i && Eligible(s, f, now, s.rows[s.order[j]])
        ensures ServedBefore(s, worker, now, i, j)
      {
        ReadyIsEligible(s, worker, request, f, now, s.rows[s.order[j]]);
        assert ReadyAt(p, f, now, j);
        PreparedOrder(s, worker, request, now, s.rows[s.order[i]], s.rows[s.order[j]]);
        PreparedOrder(s, worker, request, now, s.rows[s.order[j]], s.rows[s.order[i]]);
      }
    }
  }

  const FOUR_MINUTES := 240_000

  lemma MinutesCount(a: int, b: int)
    requires 0 <= a && a + FOUR_MINUTES <= b
    ensures a / 60_000 + 4 <= b / 60_000
  {
  }

  lemma AgeOutranks(s: State, worker: Worker, now: Instant, a: Row, b: Row)
    requires a.availableAt <= now && b.availableAt + FOUR_MINUTES <= a.availableAt
    ensures Outranks(s, worker, now, b, a)
  {
    MinutesCount(now - a.availableAt, now - b.availableAt);
  }

  /** Ageing beats every lane: nothing is leased ahead of an eligible row that waited four minutes longer. */
  lemma NobodyOvertakes(s: State, worker: Worker, request: string, f: Filter, now: Instant, token: Token, other: Id)
    requires Coherent(s, now) && Fresh(s, request)
    requires other in s.rows && Eligible(s, f, now, s.rows[other])
    ensures var reply := ClaimWork(s, worker, request, f, now, token).1;
            && reply.Issued? && reply.work.Some? && reply.work.value.id in s.rows
            && s.rows[reply.work.value.id].availableAt < s.rows[other].availableAt + FOUR_MINUTES
  {
    var i := ClaimTakesFirst(s, worker, request, f, now, token);
    var item := ClaimWork(s, worker, request, f, now, token).1.work.value;
    var a, b := s.rows[item.id], s.rows[other];
    assert other in s.order;
    var j :| 0 <= j < |s.order| && s.order[j] == other;
    if b.availableAt + FOUR_MINUTES <= a.availableAt {
      AgeOutranks(s, worker, now, a, b);
    }
  }

  /** How many lanes the first is above the second. */
  function LanesAbove(a: Lane, b: Lane): int {
    var place := (lane: Lane) =>
      match lane case Background => 0 case Collaboration => 1 case Approval => 2 case Interactive => 3;
    place(a) - place(b)
  }

  /**
   * Nothing is leased ahead of an eligible row of a higher lane unless it has waited longer: by more than one minute
   * less than the lanes are apart.
   */
  lemma LanesFirst(s: State, worker: Worker, request: string, f: Filter, now: Instant, token: Token, other: Id)
    requires Coherent(s, now) && Fresh(s, request)
    requires other in s.rows && Eligible(s, f, now, s.rows[other])
    ensures var reply := ClaimWork(s, worker, request, f, now, token).1;
            && reply.Issued? && reply.work.Some? && reply.work.value.id in s.rows
            && var a, b := s.rows[reply.work.value.id], s.rows[other];
               var above := LanesAbove(b.request.lane, a.request.lane);
               above > 0 ==> a.availableAt + 60_000 * (above - 1) < b.availableAt
  {
    var i := ClaimTakesFirst(s, worker, request, f, now, token);
    var item := ClaimWork(s, worker, request, f, now, token).1.work.value;
    var a, b := s.rows[item.id], s.rows[other];
    assert other in s.order;
    var j :| 0 <= j < |s.order| && s.order[j] == other;
    if LanesAbove(b.request.lane, a.request.lane) > 0 { MinutesApart(a, b, now); }
  }

  lemma MinutesApart(a: Row, b: Row, now: Instant)
    requires a.availableAt <= now && b.availableAt <= now && Standing(a, now) >= Standing(b, now)
    requires LanesAbove(b.request.lane, a.request.lane) > 0
    ensures a.availableAt + 60_000 * (LanesAbove(b.request.lane, a.request.lane) - 1) < b.availableAt
  {
  }

  /** The row that was issued, its route and its lock; everything else is as before. */
  ghost predicate Issues(s: State, t: State, worker: Worker, now: Instant, token: Token, item: Item) {
    && item.id in s.rows
    && var row, key := s.rows[item.id], KeyOf(s.rows[item.id].request);
       && t.rows == s.rows[item.id := row.(status := Leased, fence := row.fence + 1, attempts := row.attempts + 1,
                                           grant := Some(Grant(token, now + s.ttl)), leasedBy := Some(worker))]
       && item == Item(row.id, row.fence + 1, item.homeEpoch, row.request, row.createdAt, row.availableAt,
                       row.attempts + 1, row.preemptions, token)
       && item.homeEpoch == (if key !in s.routes then 1
                             else s.routes[key].homeEpoch + if s.routes[key].worker == worker then 0 else 1)
       && t.routes == s.routes[key := Route(worker, item.homeEpoch)]
  }

  lemma TakeIssues(s: State, id: Id, worker: Worker, now: Instant, token: Token)
    requires Coherent(s, now) && id in s.rows
    ensures var (t, item) := Take(s, s.rows[id], worker, now, token); Issues(s, t, worker, now, token, item)
  {
    RowFits(s, now, id);
  }

  lemma ClaimNewChanges(s: State, worker: Worker, request: string, f: Filter, now: Instant, token: Token)
    requires Coherent(s, now)
    ensures var (t, work) := ClaimNew(s, worker, request, f, now, token);
            && t.order == s.order && t.seen == s.seen
            && if work.None? then t.rows == s.rows && t.routes == s.routes else Issues(s, t, worker, now, token, work.value)
  {
    var best := Best(s, f, worker, now, |s.order|);
    if best.Some? { TakeIssues(s, best.value, worker, now, token); }
  }

  lemma SameIssues(s: State, p: State, t: State, worker: Worker, now: Instant, token: Token, item: Item)
    requires p.rows == s.rows && p.routes == s.routes && p.ttl == s.ttl && Issues(p, t, worker, now, token, item)
    ensures Issues(s, t, worker, now, token, item)
  {
  }

  /**
   * A fresh claim changes the row it leases, and only that one; the item it issues is what the row then says, and
   * its proof is good for the length of a lease.
   */
  lemma ClaimChanges(s: State, worker: Worker, request: string, f: Filter, now: Instant, token: Token)
    requires Coherent(s, now) && Fresh(s, request)
    ensures var (t, reply) := ClaimWork(s, worker, request, f, now, token);
            && reply.Issued? && t.order == s.order && t.seen == s.seen[worker := now]
            && if reply.work.None? then t.rows == s.rows && t.routes == s.routes
               else Issues(s, t, worker, now, token, reply.work.value)
  {
    PreparedKeeps(s, worker, request, now);
    var p := Prepared(s, worker, request, now);
    ClaimNewChanges(p, worker, request, f, now, token);
    var (t, work) := ClaimNew(p, worker, request, f, now, token);
    assert ClaimWork(s, worker, request, f, now, token) == (t, Issued(work));
    if work.Some? { SameIssues(s, p, t, worker, now, token, work.value); }
  }

  lemma IssuedHolds(s: State, t: State, worker: Worker, now: Instant, token: Token, item: Item, later: Instant)
    requires Issues(s, t, worker, now, token, item)
    ensures Holds(t, Proof(item.id, item.fence, token), later) <==> later < now + s.ttl
  {
  }

  // ---- Claims that repeat ----

  /** Where the claims keep the one made under `request`, and how many fresh claims it will outlive. */
  predicate Kept(s: State, c: Claim, i: nat, left: nat) {
    && i < |s.claims| <= 10_000 && s.claims[i] == c && c.request != ""
    && (forall j :: 0 <= j < i ==> s.claims[j].request != c.request)
    && left == i + (10_000 - |s.claims|)
  }

  lemma {:induction false} PriorAt(claims: seq<Claim>, i: nat)
    requires i < |claims| && forall j :: 0 <= j < i ==> claims[j].request != claims[i].request
    ensures Prior(claims, claims[i].request) == Some(claims[i])
    decreases i
  {
    if i > 0 {
      assert claims[1..][i - 1] == claims[i];
      PriorAt(claims[1..], i - 1);
    }
  }

  /** A claim under a name that the store does not hold yet. */
  predicate NewClaim(s: State, op: Op) { op.Claiming? && op.requestId != "" && Prior(s.claims, op.requestId).None? }

  function NewClaims(s: State, ops: seq<Op>): nat
    requires Listed(s)
    decreases |ops|
  {
    if ops == [] then 0
    else
      var t := Step(s, ops[0]).0;
      (if NewClaim(s, ops[0]) then 1 else 0) + if Listed(t) then NewClaims(t, ops[1..]) else 0
  }

  lemma StepClaims(s: State, op: Op)
    requires Listed(s)
    ensures var t := Step(s, op).0;
            if !NewClaim(s, op) then t.claims == s.claims
            else exists c: Claim :: c.request == op.requestId
                   && t.claims == (if |s.claims| >= PAGE then s.claims[1..] else s.claims) + [c]
  {
    if NewClaim(s, op) {
      var t := Step(s, op).0;
      var p := Prepared(s, op.worker, op.requestId, op.now);
      var best := Best(p, op.filter, op.worker, op.now, |p.order|);
      var work := if best.None? then None else Some(Take(p, p.rows[best.value], op.worker, op.now, op.token).1);
      assert t.claims == p.claims + [Claim(op.requestId, op.worker, work, op.filter)];
    }
  }

  lemma StillKept(s: State, op: Op, c: Claim, i: nat, left: nat) returns (k: nat)
    requires Listed(s) && Kept(s, c, i, left) && (NewClaim(s, op) ==> left > 0)
    ensures Kept(Step(s, op).0, c, k, if NewClaim(s, op) then left - 1 else left)
  {
    StepClaims(s, op);
    k := if NewClaim(s, op) && |s.claims| >= PAGE then i - 1 else i;
  }

  /**
   * A worker that repeats a claim gets the same item again and leases nothing else, until ten thousand further claims
   * have been named.
   */
  lemma {:induction false} RetryReplays(s: State, clock: Instant, ops: seq<Op>, c: Claim, i: nat, left: nat,
                                        now: Instant, token: Token)
    requires Coherent(s, clock) && Timed(clock, ops) && Kept(s, c, i, left) && NewClaims(s, ops) <= left
    ensures var t := Run(s, clock, ops);
            ClaimWork(t, c.worker, c.request, c.filter, now, token) == (t, Issued(c.work))
    decreases |ops|
  {
    if ops == [] {
      PriorAt(s.claims, i);
    } else {
      StepKeeps(s, clock, ops[0]);
      var k := StillKept(s, ops[0], c, i, left);
      var rest := if NewClaim(s, ops[0]) then left - 1 else left;
      RetryReplays(Step(s, ops[0]).0, Ends(ops[0]), ops[1..], c, k, rest, now, token);
    }
  }

  /**
   * A claim under a name that is kept, but from another worker or for other work, is refused with what is wrong with it,
   * and changes nothing.
   */
  lemma RetryMustMatch(s: State, c: Claim, i: nat, left: nat, worker: Worker, f: Filter, now: Instant, token: Token)
    requires Listed(s) && Kept(s, c, i, left)
    ensures ClaimWork(s, worker, c.request, f, now, token) ==
            (s, if worker != c.worker then AnotherWorker
                else if f.kinds != c.filter.kinds then KindsChanged
                else if f.lanes != c.filter.lanes then LanesChanged
                else if f.class_ != c.filter.class_ then ClassChanged
                else Issued(c.work))
  {
    PriorAt(s.claims, i);
  }

  lemma {:induction false} NoPrior(claims: seq<Claim>, request: string)
    requires Prior(claims, request).None?
    ensures forall c <- claims :: c.request != request
    decreases |claims|
  {
    if claims != [] {
      NoPrior(claims[1..], request);
      assert claims == [claims[0]] + claims[1..];
    }
  }

  /** A claim that was just answered is kept, and outlives all but the ten-thousandth new one. */
  lemma JustKept(s: State, worker: Worker, request: string, f: Filter, now: Instant, token: Token)
    requires Listed(s) && request != "" && Prior(s.claims, request).None? && |s.claims| <= 10_000
    ensures var (t, reply) := ClaimWork(s, worker, request, f, now, token);
            reply.Issued? && t.claims != [] && Kept(t, Claim(request, worker, reply.work, f), |t.claims| - 1, 9_999)
  {
    NoPrior(s.claims, request);
  }
}
