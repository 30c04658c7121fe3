/** Runs of the store under a clock that never goes back, and what every step keeps. */
module LeaseRuns {
  import opened Folding
  import opened Text
  import opened Work
  import opened LeaseStore

  datatype Op =
    | Enqueuing(id: Id, request: Request, availableAt: Option<Instant>, now: Instant)
    | Claiming(worker: Worker, requestId: string, filter: Filter, now: Instant, token: Token)
    | Beating(proof: Proof, now: Instant, later: Instant)
    | Reading(proof: Proof, now: Instant)
    | Yielding(proof: Proof, now: Instant, later: Instant)
    | Settling(proof: Proof, status: Status, error: Option<string>, outcome: Option<Outcome>, now: Instant)
    | Cancelling(id: Id, now: Instant)
    | Preempting(id: Id, now: Instant)
    | Steering(id: Id, text: string, now: Instant)

  datatype Reply = Enqueued(added: EnqueueReply) | Claimed(claim: ClaimReply) | Answer(ok: bool)

  function Ends(op: Op): Instant { if op.Beating? || op.Yielding? then op.later else op.now }

  /** `settle` is only ever called with a status that `workStatusOf` gives. */
  predicate Possible(op: Op) {
    && (op.Settling? ==> !op.status.Queued? && !op.status.Leased?)
    && op.now <= Ends(op)
  }

  function Step(s: State, op: Op): (State, Reply)
    requires Listed(s)
  {
    match op
    case Enqueuing(id, q, at, now) => (var (t, r) := Enqueue(s, id, q, at, now); (t, Enqueued(r)))
    case Claiming(worker, request, f, now, token) =>
      (var (t, r) := ClaimWork(s, worker, request, f, now, token); (t, Claimed(r)))
    case Beating(p, now, later) => (var (t, ok) := Heartbeat(s, p, now, later); (t, Answer(ok)))
    case Reading(p, now) => (s, Answer(Holds(s, p, now)))
    case Yielding(p, now, later) => (var (t, ok) := YieldWork(s, p, now, later); (t, Answer(ok)))
    case Settling(p, status, error, outcome, now) =>
      (var (t, ok) := Settle(s, p, status, error, outcome, now); (t, Answer(ok)))
    case Cancelling(id, _) => (var (t, ok) := RequestCancel(s, id); (t, Answer(ok)))
    case Preempting(id, _) => (var (t, ok) := RequestPreempt(s, id); (t, Answer(ok)))
    case Steering(id, text, _) => (var (t, ok) := AddSteer(s, id, text); (t, Answer(ok)))
  }

  // ---- The invariant ----

  predicate RowOk(id: Id, row: Row) {
    && row.id == id
    && (row.status.Leased? <==> row.grant.Some?)
    && row.fence == row.attempts + row.preemptions
  }

  /** A lease that has not run out is the one its session is locked by. */
  predicate LockedBy(s: State, clock: Instant, row: Row) {
    row.grant.Some? && row.grant.value.expires > clock ==>
      var key := KeyOf(row.request);
      key in s.leases && s.leases[key] == Lease(row.id, row.fence, row.grant.value.expires)
  }

  /** A session lock is the lease of one of its rows. */
  predicate Backed(s: State, key: Key) {
    key in s.leases ==>
      && s.leases[key].work in s.rows
      && var row := s.rows[s.leases[key].work];
         && KeyOf(row.request) == key && row.fence == s.leases[key].fence
         && row.grant.Some? && row.grant.value.expires == s.leases[key].expires
  }

  predicate InOrder(s: State) {
    && Listed(s) && (forall id <- s.rows.Keys :: id in s.order)
    && (forall i, j :: 0 <= i < j < |s.order| ==> s.order[i] != s.order[j])
  }

  predicate RowsFit(s: State, clock: Instant) {
    forall id <- s.rows.Keys :: RowOk(id, s.rows[id]) && LockedBy(s, clock, s.rows[id])
  }

  predicate LocksFit(s: State) { forall key <- s.leases.Keys :: Backed(s, key) }

  /** Folded: a proof that needs it at some row or session asks `RowFits` or `LockFits`. */
  ghost predicate Coherent(s: State, clock: Instant) {
    InOrder(s) && forall n: nat :: Unfolding(n) ==> RowsFit(s, clock) && LocksFit(s)
  }

  lemma RowFits(s: State, clock: Instant, id: Id)
    requires Coherent(s, clock) && id in s.rows
    ensures RowOk(id, s.rows[id]) && LockedBy(s, clock, s.rows[id])
  {
    assert Unfolding(0);
  }

  lemma LockFits(s: State, clock: Instant, key: Key)
    requires Coherent(s, clock) && key in s.leases
    ensures Backed(s, key)
  {
    assert Unfolding(0);
  }

  lemma Later(s: State, clock: Instant, later: Instant)
    requires Coherent(s, clock) && clock <= later
    ensures Coherent(s, later)
  {
    assert Unfolding(0);
  }

  lemma InitCoherent(ttl: nat, clock: Instant)
    ensures Coherent(Init(ttl), clock)
  {
  }

  /** One row is added or replaced, and only its own session's lock may change. */
  ghost predicate Replaces(s: State, t: State, row: Row) {
    && t.rows == s.rows[row.id := row]
    && forall k :: k != KeyOf(row.request) ==> (k in t.leases <==> k in s.leases) && (k in t.leases ==> t.leases[k] == s.leases[k])
  }

  /** The row itself holds its session's lock, or nobody does. */
  predicate Fits(s: State, clock: Instant, row: Row) {
    && RowOk(row.id, row) && LockedBy(s, clock, row)
    && var key := KeyOf(row.request);
       key in s.leases ==> row.grant.Some? && s.leases[key] == Lease(row.id, row.fence, row.grant.value.expires)
  }

  lemma ReplaceKeeps(s: State, t: State, row: Row, now: Instant)
    requires Coherent(s, now) && InOrder(t) && Replaces(s, t, row) && Fits(t, now, row)
    requires row.id in s.rows ==> s.rows[row.id].request == row.request
    requires var key := KeyOf(row.request); key in s.leases ==> s.leases[key].work == row.id
    ensures Coherent(t, now)
  {
    var key := KeyOf(row.request);
    forall id | id in t.rows
      ensures RowOk(id, t.rows[id]) && LockedBy(t, now, t.rows[id])
    {
      if id != row.id { RowFits(s, now, id); }
    }
    forall k | k in t.leases
      ensures Backed(t, k)
    {
      if k != key { LockFits(s, now, k); }
    }
  }

  lemma EnqueueKeeps(s: State, id: Id, q: Request, at: Option<Instant>, now: Instant)
    requires Coherent(s, now)
    ensures Coherent(Enqueue(s, id, q, at, now).0, now)
  {
    if id !in s.rows {
      var t := Enqueue(s, id, q, at, now).0;
      forall k | k in t.rows
        ensures RowOk(k, t.rows[k]) && LockedBy(t, now, t.rows[k])
      {
        if k != id { RowFits(s, now, k); }
      }
      forall k | k in t.leases
        ensures Backed(t, k)
      {
        LockFits(s, now, k);
      }
    }
  }

  lemma PreparedKeeps(s: State, worker: Worker, request: string, now: Instant)
    requires Coherent(s, now)
    ensures var p := Prepared(s, worker, request, now);
            Coherent(p, now) && p.rows == s.rows && p.order == s.order && p.routes == s.routes && p.ttl == s.ttl
  {
    var p := Prepared(s, worker, request, now);
    forall k | k in p.rows
      ensures RowOk(k, p.rows[k]) && LockedBy(p, now, p.rows[k])
    {
      RowFits(s, now, k);
    }
    forall k | k in p.leases
      ensures Backed(p, k)
    {
      LockFits(s, now, k);
    }
  }

  lemma TakeKeeps(s: State, id: Id, worker: Worker, now: Instant, token: Token)
    requires Coherent(s, now) && id in s.rows && KeyOf(s.rows[id].request) !in s.leases
    ensures Coherent(Take(s, s.rows[id], worker, now, token).0, now)
  {
    RowFits(s, now, id);
    var t := Take(s, s.rows[id], worker, now, token).0;
    ReplaceKeeps(s, t, t.rows[id], now);
  }

  lemma {:induction false} BestReady(s: State, f: Filter, worker: Worker, now: Instant, n: nat)
    requires n <= |s.order| && Listed(s)
    ensures var best := Best(s, f, worker, now, n); best.Some? ==> Ready(s, f, now, s.rows[best.value])
  {
    if n > 0 { BestReady(s, f, worker, now, n - 1); }
  }

  lemma RememberedKeeps(s: State, request: string, worker: Worker, work: Option<Item>, f: Filter, now: Instant)
    requires Coherent(s, now)
    ensures Coherent(Remembered(s, request, worker, work, f), now)
  {
    var t := Remembered(s, request, worker, work, f);
    assert Unfolding(0);
    assert RowsFit(t, now) by {
      forall id | id in t.rows ensures RowOk(id, t.rows[id]) && LockedBy(t, now, t.rows[id]) { RowFits(s, now, id); }
    }
    assert LocksFit(t) by {
      forall k | k in t.leases ensures Backed(t, k) { LockFits(s, now, k); }
    }
  }

  lemma ClaimNewKeeps(s: State, worker: Worker, request: string, f: Filter, now: Instant, token: Token)
    requires Coherent(s, now)
    ensures Coherent(ClaimNew(s, worker, request, f, now, token).0, now)
  {
    BestReady(s, f, worker, now, |s.order|);
    var best := Best(s, f, worker, now, |s.order|);
    if best.Some? {
      TakeKeeps(s, best.value, worker, now, token);
      var (t, item) := Take(s, s.rows[best.value], worker, now, token);
      RememberedKeeps(t, request, worker, Some(item), f, now);
    } else {
      RememberedKeeps(s, request, worker, None, f, now);
    }
  }

  lemma ClaimKeeps(s: State, worker: Worker, request: string, f: Filter, now: Instant, token: Token)
    requires Coherent(s, now)
    ensures Coherent(ClaimWork(s, worker, request, f, now, token).0, now)
  {
    PreparedKeeps(s, worker, request, now);
    ClaimNewKeeps(Prepared(s, worker, request, now), worker, request, f, now, token);
  }

  lemma HeldFits(s: State, p: Proof, now: Instant)
    requires Coherent(s, now) && Holds(s, p, now)
    ensures RowOk(p.id, s.rows[p.id]) && Locks(s, KeyOf(s.rows[p.id].request), p.id, p.fence)
  {
    RowFits(s, now, p.id);
  }

  lemma HeartbeatIs(s: State, p: Proof, now: Instant, later: Instant)
    requires Coherent(s, now) && Holds(s, p, now)
    ensures var t, row, key := Heartbeat(s, p, now, later).0, s.rows[p.id], KeyOf(s.rows[p.id].request);
            && t.rows == s.rows[p.id := Renewed(row, later + s.ttl)] && t.order == s.order
            && t.leases == s.leases[key := Lease(p.id, p.fence, later + s.ttl)]
  {
    HeldFits(s, p, now);
  }

  lemma HeartbeatKeeps(s: State, p: Proof, now: Instant, later: Instant)
    requires Coherent(s, now) && now <= later
    ensures Coherent(Heartbeat(s, p, now, later).0, now)
  {
    if Holds(s, p, now) {
      HeldFits(s, p, now);
      HeartbeatIs(s, p, now, later);
      var t := Heartbeat(s, p, now, later).0;
      ReplaceKeeps(s, t, Renewed(s.rows[p.id], later + s.ttl), now);
    }
  }

  lemma YieldKeeps(s: State, p: Proof, now: Instant, later: Instant)
    requires Coherent(s, now)
    ensures Coherent(YieldWork(s, p, now, later).0, now)
  {
    if Holds(s, p, now) && s.rows[p.id].preemptRequested {
      HeldFits(s, p, now);
      var t := YieldWork(s, p, now, later).0;
      ReplaceKeeps(s, t, t.rows[p.id], now);
    }
  }

  lemma SettleKeeps(s: State, p: Proof, status: Status, error: Option<string>, outcome: Option<Outcome>, now: Instant)
    requires Coherent(s, now) && !status.Queued? && !status.Leased?
    ensures Coherent(Settle(s, p, status, error, outcome, now).0, now)
  {
    if Holds(s, p, now) && MaySettle(s.rows[p.id], status, outcome) {
      HeldFits(s, p, now);
      var t := Settle(s, p, status, error, outcome, now).0;
      ReplaceKeeps(s, t, t.rows[p.id], now);
    }
  }

  /** Marks on rows leave leases, fences and identities alone. */
  predicate Marks(a: Row, b: Row) {
    && b.id == a.id && b.request == a.request && b.grant == a.grant && b.fence == a.fence
    && b.attempts == a.attempts && b.preemptions == a.preemptions && (b.status.Leased? <==> a.status.Leased?)
  }

  predicate OnlyMarks(s: State, t: State) {
    && t.rows.Keys == s.rows.Keys && t.order == s.order && t.leases == s.leases
    && forall id <- s.rows.Keys :: Marks(s.rows[id], t.rows[id])
  }

  lemma MarksKeep(s: State, t: State, now: Instant)
    requires Coherent(s, now) && OnlyMarks(s, t)
    ensures Coherent(t, now)
  {
    forall id | id in t.rows
      ensures RowOk(id, t.rows[id]) && LockedBy(t, now, t.rows[id])
    {
      RowFits(s, now, id);
      assert Marks(s.rows[id], t.rows[id]);
    }
    forall key | key in t.leases
      ensures Backed(t, key)
    {
      LockFits(s, now, key);
      assert Marks(s.rows[s.leases[key].work], t.rows[s.leases[key].work]);
    }
  }

  lemma StoppedMarks(row: Row)
    ensures Marks(row, Stopped(row))
  {
  }

  lemma CancelMarks(s: State, id: Id)
    ensures OnlyMarks(s, RequestCancel(s, id).0)
  {
    var t := RequestCancel(s, id).0;
    forall k | k in s.rows
      ensures Marks(s.rows[k], t.rows[k])
    {
      StoppedMarks(s.rows[k]);
    }
  }

  lemma PreemptMarks(s: State, now: Instant, id: Id)
    requires Coherent(s, now)
    ensures OnlyMarks(s, RequestPreempt(s, id).0)
  {
    if id in s.rows { RowFits(s, now, id); }
  }

  lemma SteerMarks(s: State, now: Instant, id: Id, text: string)
    requires Coherent(s, now)
    ensures OnlyMarks(s, AddSteer(s, id, text).0)
  {
    if id in s.rows { RowFits(s, now, id); }
  }

  /** Every operation keeps the store coherent. */
  lemma {:induction false} StepKeeps(s: State, clock: Instant, op: Op)
    requires Coherent(s, clock) && clock <= op.now && Possible(op)
    ensures Coherent(Step(s, op).0, Ends(op))
  {
    var t, now := Step(s, op).0, op.now;
    Later(s, clock, now);
    match op {
      case Enqueuing(id, q, at, _) => EnqueueKeeps(s, id, q, at, now);
      case Claiming(worker, request, f, _, token) => ClaimKeeps(s, worker, request, f, now, token);
      case Beating(p, _, later) => HeartbeatKeeps(s, p, now, later);
      case Reading(p, _) =>
      case Yielding(p, _, later) => YieldKeeps(s, p, now, later);
      case Settling(p, status, error, outcome, _) => SettleKeeps(s, p, status, error, outcome, now);
      case Cancelling(id, _) => CancelMarks(s, id); MarksKeep(s, t, now);
      case Preempting(id, _) => PreemptMarks(s, now, id); MarksKeep(s, t, now);
      case Steering(id, text, _) => SteerMarks(s, now, id, text); MarksKeep(s, t, now);
    }
    Later(t, now, Ends(op));
  }

  // ---- Runs ----

  predicate Timed(clock: Instant, ops: seq<Op>)
    decreases |ops|
  {
    ops == [] || (clock <= ops[0].now && Possible(ops[0]) && Timed(Ends(ops[0]), ops[1..]))
  }

  function Clock(clock: Instant, ops: seq<Op>): Instant
    decreases |ops|
  {
    if ops == [] then clock else Clock(Ends(ops[0]), ops[1..])
  }

  ghost function Run(s: State, clock: Instant, ops: seq<Op>): (t: State)
    requires Coherent(s, clock) && Timed(clock, ops)
    ensures Coherent(t, Clock(clock, ops))
    decreases |ops|
  {
    if ops == [] then s
    else
      StepKeeps(s, clock, ops[0]);
      Run(Step(s, ops[0]).0, Ends(ops[0]), ops[1..])
  }

  /** The row is leased and the lease has not run out. */
  predicate Live(s: State, now: Instant, id: Id) {
    id in s.rows && s.rows[id].status.Leased? && s.rows[id].grant.Some? && s.rows[id].grant.value.expires > now
  }

  /** The requests are of one session: of one tenant, agent and session, and of one thread or none. */
  predicate OneSession(a: Request, b: Request) {
    a.tenant == b.tenant && a.agent == b.agent && a.session == b.session && a.thread == b.thread
  }

  /** The state after a run of a new store. */
  ghost function Reached(ttl: nat, start: Instant, ops: seq<Op>): (s: State)
    requires Timed(start, ops)
    ensures Coherent(s, Clock(start, ops))
  {
    InitCoherent(ttl, start);
    Run(Init(ttl), start, ops)
  }

  /** Two unexpired leases of one session are one lease, and the session lock carries it. */
  lemma SessionExclusive(ttl: nat, start: Instant, ops: seq<Op>, now: Instant, a: Id, b: Id)
    requires Timed(start, ops) && Clock(start, ops) <= now
    requires var s := Reached(ttl, start, ops);
             Live(s, now, a) && Live(s, now, b) && OneSession(s.rows[a].request, s.rows[b].request)
    ensures var s, q := Reached(ttl, start, ops), Reached(ttl, start, ops).rows[a].request;
            && a == b && Key(q.tenant, q.agent, q.session, q.thread) in s.leases
            && s.leases[Key(q.tenant, q.agent, q.session, q.thread)] == Lease(a, s.rows[a].fence, s.rows[a].grant.value.expires)
  {
    var s := Reached(ttl, start, ops);
    Later(s, Clock(start, ops), now);
    RowFits(s, now, a);
    RowFits(s, now, b);
  }
}
