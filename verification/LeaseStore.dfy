/** The operations of `MemoryWorkStore`, as functions from one state to the next. */
module LeaseStore {
  import opened Text
  import opened Work

  function Init(ttl: nat): State { State(ttl, map[], [], map[], map[], map[], []) }

  function Put(s: State, row: Row): State { s.(rows := s.rows[row.id := row]) }

  // ---- enqueue ----

  datatype EnqueueReply = Added | Deduplicated | IdentityReused

  /** An empty principal is not stored. */
  function StoredRequest(q: Request): Request { if q.principal == Some("") then q.(principal := None) else q }

  function NewRow(id: Id, q: Request, availableAt: Option<Instant>, now: Instant): Row {
    Row(id, StoredRequest(q), now, if availableAt.Some? then availableAt.value else now,
        Queued, 0, 0, 0, None, None, false, false, [], None, None)
  }

  function Enqueue(s: State, id: Id, q: Request, availableAt: Option<Instant>, now: Instant): (State, EnqueueReply) {
    if id in s.rows then (s, if s.rows[id].request == q then Deduplicated else IdentityReused)
    else (Put(s, NewRow(id, q, availableAt, now)).(order := s.order + [id]), Added)
  }

  // ---- claim ----

  const PAGE := 10_000

  datatype ClaimReply = Issued(work: Option<Item>) | AnotherWorker | KindsChanged | LanesChanged | ClassChanged

  function Prior(claims: seq<Claim>, request: string): Option<Claim> {
    if claims == [] then None
    else if claims[0].request == request then Some(claims[0])
    else Prior(claims[1..], request)
  }

  function Replay(prior: Claim, worker: Worker, filter: Filter): ClaimReply {
    if prior.worker != worker then AnotherWorker
    else if prior.filter.kinds != filter.kinds then KindsChanged
    else if prior.filter.lanes != filter.lanes then LanesChanged
    else if prior.filter.class_ != filter.class_ then ClassChanged
    else Issued(prior.work)
  }

  function Purged(s: State, now: Instant): State {
    s.(leases := map k | k in s.leases && s.leases[k].expires > now :: s.leases[k])
  }

  /** Forgets the oldest claim of a full page, marks the worker as seen and drops the expired session leases. */
  function Prepared(s: State, worker: Worker, request: string, now: Instant): State {
    var claims := if request != "" && |s.claims| >= PAGE then s.claims[1..] else s.claims;
    Purged(s, now).(claims := claims, seen := s.seen[worker := now])
  }

  predicate MemoryKind(kind: string) {
    kind == "memory_synthesis" || kind == "memory_index" || kind == "memory_evaluation"
  }

  predicate Claimable(row: Row, now: Instant) {
    row.status.Queued? || (row.status.Leased? && (row.grant.None? || row.grant.value.expires <= now))
  }

  predicate Selected(f: Filter, q: Request) {
    && (f.kinds.Some? ==> q.kind in f.kinds.value)
    && (f.lanes.Some? ==> q.lane in f.lanes.value)
    && (f.class_.Some? ==> ClassOf(q) == f.class_.value)
  }

  predicate Unmet(s: State, q: Request, dependency: Id) {
    || dependency !in s.rows
    || s.rows[dependency].request.tenant != q.tenant || s.rows[dependency].request.principal != q.principal
    || Active(s.rows[dependency].status)
  }

  predicate Ready(s: State, f: Filter, now: Instant, row: Row) {
    && Selected(f, row.request)
    && !(MemoryKind(row.request.kind) && row.attempts >= 3)
    && Claimable(row, now) && !row.cancelRequested
    && (forall d <- row.request.meta.dependsOn :: !Unmet(s, row.request, d))
    && row.availableAt <= now
    && KeyOf(row.request) !in s.leases
  }

  function AgedRank(row: Row, now: Instant): int {
    LaneRank(row.request.lane) + (if now > row.availableAt then now - row.availableAt else 0) / 60_000
  }

  function Affinity(s: State, worker: Worker, row: Row): int {
    var key := KeyOf(row.request);
    if key in s.routes && s.routes[key].worker == worker then 1 else 0
  }

  /** The sort's comparator; negative puts `a` first. */
  function Compare(s: State, worker: Worker, now: Instant, a: Row, b: Row): int {
    var rank := AgedRank(b, now) - AgedRank(a, now);
    if rank != 0 then rank
    else if b.request.priority != a.request.priority then b.request.priority - a.request.priority
    else
      var affinity := Affinity(s, worker, b) - Affinity(s, worker, a);
      if affinity != 0 then affinity else a.createdAt - b.createdAt
  }

  /** The rows of `order`, which the map holds. */
  predicate Listed(s: State) { forall id <- s.order :: id in s.rows }

  /** The first of the ready rows after a stable sort. */
  function Best(s: State, f: Filter, worker: Worker, now: Instant, n: nat): (best: Option<Id>)
    requires n <= |s.order| && Listed(s)
    ensures best.Some? ==> best.value in s.rows && best.value in s.order[..n]
  {
    if n == 0 then None
    else
      var sooner := Best(s, f, worker, now, n - 1);
      var row := s.rows[s.order[n - 1]];
      if !Ready(s, f, now, row) then sooner
      else if sooner.Some? && Compare(s, worker, now, row, s.rows[sooner.value]) >= 0 then sooner
      else Some(s.order[n - 1])
  }

  function NextRoute(s: State, key: Key, worker: Worker): Route {
    if key !in s.routes then Route(worker, 1)
    else if s.routes[key].worker == worker then s.routes[key]
    else Route(worker, s.routes[key].homeEpoch + 1)
  }

  function Taken(row: Row, worker: Worker, token: Token, expires: Instant): Row {
    row.(status := Leased, fence := row.fence + 1, attempts := row.attempts + 1,
         grant := Some(Grant(token, expires)), leasedBy := Some(worker))
  }

  function ItemOf(row: Row, token: Token, homeEpoch: nat): Item {
    Item(row.id, row.fence, homeEpoch, row.request, row.createdAt, row.availableAt, row.attempts, row.preemptions, token)
  }

  /** Routes the session, leases the row and locks its session. */
  function Take(s: State, row: Row, worker: Worker, now: Instant, token: Token): (State, Item) {
    var key := KeyOf(row.request);
    var route := NextRoute(s, key, worker);
    var taken := Taken(row, worker, token, now + s.ttl);
    (Put(s, taken).(routes := s.routes[key := route], leases := s.leases[key := Lease(row.id, taken.fence, now + s.ttl)]),
     ItemOf(taken, token, route.homeEpoch))
  }

  function Remembered(s: State, request: string, worker: Worker, work: Option<Item>, f: Filter): State {
    if request == "" then s else s.(claims := s.claims + [Claim(request, worker, work, f)])
  }

  /** A claim that has no earlier one to repeat. */
  function ClaimNew(s: State, worker: Worker, request: string, f: Filter, now: Instant, token: Token)
    : (State, Option<Item>)
    requires Listed(s)
  {
    var best := Best(s, f, worker, now, |s.order|);
    if best.None? then (Remembered(s, request, worker, None, f), None)
    else
      var (t, item) := Take(s, s.rows[best.value], worker, now, token);
      (Remembered(t, request, worker, Some(item), f), Some(item))
  }

  /** An empty `request` is a claim without an identity. */
  function ClaimWork(s: State, worker: Worker, request: string, f: Filter, now: Instant, token: Token)
    : (State, ClaimReply)
    requires Listed(s)
  {
    var prior := if request == "" then None else Prior(s.claims, request);
    if prior.Some? then (s, Replay(prior.value, worker, f))
    else
      var (t, work) := ClaimNew(Prepared(s, worker, request, now), worker, request, f, now, token);
      (t, Issued(work))
  }

  // ---- the calls that carry a proof ----

  /** `validLease`. */
  predicate Holds(s: State, p: Proof, now: Instant) {
    && p.id in s.rows
    && var row := s.rows[p.id];
       && row.status.Leased? && row.fence == p.fence
       && row.grant.Some? && row.grant.value.token == p.token && row.grant.value.expires > now
  }

  predicate Locks(s: State, key: Key, id: Id, fence: nat) {
    key in s.leases && s.leases[key].work == id && s.leases[key].fence == fence
  }

  function Renewed(row: Row, expires: Instant): Row {
    if row.grant.None? then row else row.(grant := Some(row.grant.value.(expires := expires)))
  }

  /** `validLease` and the renewal read the clock separately. */
  function Heartbeat(s: State, p: Proof, now: Instant, later: Instant): (State, bool) {
    if !Holds(s, p, now) then (s, false)
    else
      var row := s.rows[p.id];
      var key := KeyOf(row.request);
      var t := Put(s, Renewed(row, later + s.ttl));
      var u := if row.leasedBy.None? || row.leasedBy.value == "" then t else t.(seen := t.seen[row.leasedBy.value := later]);
      (if !Locks(u, key, p.id, p.fence) then u
       else u.(leases := u.leases[key := u.leases[key].(expires := later + s.ttl)]), true)
  }

  function Released(s: State, key: Key, id: Id, fence: nat): State {
    if Locks(s, key, id, fence) then s.(leases := s.leases - {key}) else s
  }

  function Yielded(row: Row, availableAt: Instant): Row {
    row.(status := Queued, fence := row.fence + 1, grant := None, leasedBy := None, preemptRequested := false,
         preemptions := row.preemptions + 1, availableAt := availableAt)
  }

  function YieldWork(s: State, p: Proof, now: Instant, later: Instant): (State, bool) {
    if !Holds(s, p, now) || !s.rows[p.id].preemptRequested then (s, false)
    else
      var row := s.rows[p.id];
      (Released(Put(s, Yielded(row, later + 1_000)), KeyOf(row.request), p.id, p.fence), true)
  }

  predicate MaySettle(row: Row, status: Status, outcome: Option<Outcome>) {
    status.Failed? || status.Cancelled? ||
    ( && !row.cancelRequested
      && (row.request.meta.hasText ==> outcome.Some?)
      && (outcome.Some? ==> outcome.value.requestVersion == |row.steers| + 1))
  }

  function Settled(row: Row, status: Status, error: Option<string>, outcome: Option<Outcome>): Row {
    row.(status := status, error := error, outcome := if outcome.Some? then outcome else row.outcome, grant := None)
  }

  /** The settlement itself; the children are cancelled by steps of their own. */
  function Settle(s: State, p: Proof, status: Status, error: Option<string>, outcome: Option<Outcome>, now: Instant)
    : (State, bool)
  {
    if !Holds(s, p, now) || !MaySettle(s.rows[p.id], status, outcome) then (s, false)
    else
      var row := s.rows[p.id];
      (Released(Put(s, Settled(row, status, error, outcome)), KeyOf(row.request), p.id, p.fence), true)
  }

  // ---- cancellation, preemption, steering ----

  predicate SameOwner(a: Row, b: Row) {
    a.request.tenant == b.request.tenant && a.request.principal == b.request.principal
  }

  predicate Hangs(s: State, root: Row, found: set<Id>, id: Id) {
    && id in s.rows && SameOwner(s.rows[id], root) && Shown(s.rows[id].request.meta.parent) in found
  }

  /** One pass over the rows; what it finds counts at once. */
  function Sweep(s: State, root: Row, found: set<Id>, ids: seq<Id>): set<Id>
    decreases |ids|
  {
    if ids == [] then found
    else Sweep(s, root, if Hangs(s, root, found, ids[0]) then found + {ids[0]} else found, ids[1..])
  }

  const DEPTH := 64

  function Descend(s: State, root: Row, found: set<Id>, rounds: nat): set<Id>
    decreases rounds
  {
    if rounds == 0 then found
    else
      var next := Sweep(s, root, found, s.order);
      if next == found then found else Descend(s, root, next, rounds - 1)
  }

  function Stopped(row: Row): Row {
    if !Active(row.status) then row
    else if row.status.Leased? then row.(cancelRequested := true)
    else row.(cancelRequested := true, status := Cancelled, outcome := Some(Outcome(BlockedGoal, |row.steers| + 1)))
  }

  function StopAll(s: State, ids: set<Id>): State {
    s.(rows := map id | id in s.rows :: if id in ids then Stopped(s.rows[id]) else s.rows[id])
  }

  function RequestCancel(s: State, id: Id): (State, bool) {
    if id !in s.rows || !Active(s.rows[id].status) then (s, false)
    else (StopAll(s, Descend(s, s.rows[id], {id}, DEPTH)), true)
  }

  function RequestPreempt(s: State, id: Id): (State, bool) {
    if id !in s.rows || !s.rows[id].status.Leased? then (s, false)
    else (Put(s, s.rows[id].(preemptRequested := true)), true)
  }

  function Steered(row: Row, text: string): Row {
    row.(steers := row.steers + [text], status := if row.status.Waiting? then Queued else row.status, outcome := None)
  }

  /** The steer itself; the children are cancelled by steps of their own. */
  function AddSteer(s: State, id: Id, text: string): (State, bool) {
    if id !in s.rows || !Active(s.rows[id].status) || s.rows[id].cancelRequested then (s, false)
    else (Put(s, Steered(s.rows[id], text)), true)
  }

  /** The direct children that a settlement or a steer goes on to cancel; here the parent must be a string. */
  predicate IsChild(s: State, parent: Row, id: Id) {
    && id in s.rows && s.rows[id].request.meta.parent == Words(parent.id) && SameOwner(s.rows[id], parent)
  }
}
