/** When a leased row can never be finished: exactly when its lease ran out and no claim may take it over. */
module LeaseStranded {
  import opened Folding
  import opened Text
  import opened Work
  import opened LeaseStore
  import opened LeaseRuns
  import opened LeaseFences
  import opened LeaseClaims
  import opened LeaseEffects
  import opened LeaseCancel

  // ---- What the rows of a run that carry a lease have in common ----

  predicate Met(s: State, q: Request) { forall d <- q.meta.dependsOn :: !Unmet(s, q, d) }

  /** A lease runs for one term at most, and was taken when nothing was missing. */
  predicate GrantFits(s: State, clock: Instant, row: Row) {
    row.grant.Some? ==> row.grant.value.expires <= clock + s.ttl && Met(s, row.request)
  }

  /** Folded: a proof that needs it at some row asks `GrantAt`. */
  ghost predicate Granted(s: State, clock: Instant) {
    forall n: nat :: Unfolding(n) ==> forall id <- s.rows.Keys :: GrantFits(s, clock, s.rows[id])
  }

  lemma GrantAt(s: State, clock: Instant, id: Id)
    requires Granted(s, clock) && id in s.rows
    ensures GrantFits(s, clock, s.rows[id])
  {
    assert Unfolding(0);
  }

  /** A dependency that is over stays over. */
  lemma StillMet(s: State, clock: Instant, op: Op, q: Request)
    requires Coherent(s, clock) && clock <= op.now && Possible(op) && Met(s, q)
    ensures Met(Step(s, op).0, q)
  {
    forall d | d in q.meta.dependsOn
      ensures !Unmet(Step(s, op).0, q, d)
    {
      assert !Unmet(s, q, d);
      StepMoves(s, clock, op, d);
    }
  }

  /** A grant is the one there was, or one that a claim or a heartbeat has just made. */
  predicate GrantComes(s: State, t: State, ends: Instant, id: Id)
    requires id in t.rows
  {
    t.rows[id].grant.Some? ==>
      || (id in s.rows && t.rows[id].grant == s.rows[id].grant)
      || (t.rows[id].grant.value.expires == ends + s.ttl && Met(s, t.rows[id].request))
  }

  lemma ClaimGrants(s: State, op: Op, id: Id)
    requires Coherent(s, op.now) && op.Claiming? && id in Step(s, op).0.rows
    ensures Step(s, op).0.ttl == s.ttl && GrantComes(s, Step(s, op).0, op.now, id)
  {
    var p := Prepared(s, op.worker, op.requestId, op.now);
    PreparedKeeps(s, op.worker, op.requestId, op.now);
    ClaimNewRows(p, op.worker, op.requestId, op.filter, op.now, op.token);
    BestReady(p, op.filter, op.worker, op.now, |p.order|);
    var best := Best(p, op.filter, op.worker, op.now, |p.order|);
    if best.Some? {
      ReadyIsEligible(s, op.worker, op.requestId, op.filter, op.now, s.rows[best.value]);
    }
  }

  lemma BeatGrants(s: State, op: Op, id: Id)
    requires Coherent(s, op.now) && Granted(s, op.now) && op.Beating? && id in Step(s, op).0.rows
    ensures Step(s, op).0.ttl == s.ttl && GrantComes(s, Step(s, op).0, op.later, id)
  {
    if Holds(s, op.proof, op.now) {
      HeartbeatIs(s, op.proof, op.now, op.later);
      GrantAt(s, op.now, op.proof.id);
    }
  }

  lemma OthersGrant(s: State, op: Op, id: Id)
    requires Coherent(s, op.now) && !op.Claiming? && !op.Beating? && id in Step(s, op).0.rows
    ensures Step(s, op).0.ttl == s.ttl && GrantComes(s, Step(s, op).0, Ends(op), id)
  {
    if op.Cancelling? {
      CancelMarks(s, op.id);
      assert Marks(s.rows[id], Step(s, op).0.rows[id]);
    } else if op.Preempting? || op.Steering? {
      if op.id in s.rows { RowFits(s, op.now, op.id); }
    } else if op.Yielding? || op.Settling? {
      if op.proof.id in s.rows { RowFits(s, op.now, op.proof.id); }
    }
  }

  lemma GrantedStep(s: State, clock: Instant, op: Op)
    requires Coherent(s, clock) && clock <= op.now && Possible(op) && Granted(s, clock)
    ensures Step(s, op).0.ttl == s.ttl && Granted(Step(s, op).0, Ends(op))
  {
    var t := Step(s, op).0;
    Later(s, clock, op.now);
    assert Granted(s, op.now) by { assert Unfolding(0); }
    if op.Claiming? { assert t.ttl == s.ttl; }
    forall id | id in t.rows
      ensures GrantFits(t, Ends(op), t.rows[id])
    {
      GrantedRow(s, clock, op, id);
    }
  }

  lemma GrantedRow(s: State, clock: Instant, op: Op, id: Id)
    requires Coherent(s, clock) && clock <= op.now && Possible(op) && Granted(s, clock) && id in Step(s, op).0.rows
    ensures var t := Step(s, op).0; t.ttl == s.ttl && GrantFits(t, Ends(op), t.rows[id])
  {
    var t := Step(s, op).0;
    Later(s, clock, op.now);
    assert Granted(s, op.now) by { assert Unfolding(0); }
    if op.Claiming? {
      ClaimGrants(s, op, id);
    } else if op.Beating? {
      BeatGrants(s, op, id);
    } else {
      OthersGrant(s, op, id);
    }
    if id in s.rows {
      GrantAt(s, clock, id);
      StepMoves(s, clock, op, id);
    }
    if t.rows[id].grant.Some? { StillMet(s, clock, op, t.rows[id].request); }
  }

  lemma {:induction false} GrantedRun(s: State, clock: Instant, ops: seq<Op>)
    requires Coherent(s, clock) && Timed(clock, ops) && Granted(s, clock)
    ensures var t := Run(s, clock, ops); t.ttl == s.ttl && Granted(t, Clock(clock, ops))
    decreases |ops|
  {
    if ops != [] {
      StepKeeps(s, clock, ops[0]);
      GrantedStep(s, clock, ops[0]);
      GrantedRun(Step(s, ops[0]).0, Ends(ops[0]), ops[1..]);
    }
  }

  // ---- With a term of no length no proof ever holds ----

  lemma {:induction false} NoTerm(s: State, clock: Instant, ops: seq<Op>, id: Id)
    requires Coherent(s, clock) && Timed(clock, ops) && Granted(s, clock) && s.ttl == 0
    requires id in s.rows && s.rows[id].status.Leased?
    ensures var t := Run(s, clock, ops); id in t.rows && t.rows[id].status.Leased?
    decreases |ops|
  {
    if ops != [] {
      RowFits(s, clock, id);
      GrantAt(s, clock, id);
      StepMoves(s, clock, ops[0], id);
      StepKeeps(s, clock, ops[0]);
      GrantedStep(s, clock, ops[0]);
      NoTerm(Step(s, ops[0]).0, Ends(ops[0]), ops[1..], id);
    }
  }

  // ---- A way out for every other row ----

  const ANY := Filter(None, None, None)

  function Failing(p: Proof, now: Instant): Op { Settling(p, Failed, None, None, now) }

  /** While the lease runs its holder may report failure. */
  lemma HolderLeaves(s: State, clock: Instant, id: Id) returns (op: Op)
    requires Coherent(s, clock) && id in s.rows && s.rows[id].grant.Some? && s.rows[id].grant.value.expires > clock
    ensures op.now == clock && Ends(op) == clock && Possible(op)
    ensures var t := Step(s, op).0; id in t.rows && t.rows[id].status == Failed
  {
    var row := s.rows[id];
    RowFits(s, clock, id);
    op := Failing(Proof(id, row.fence, row.grant.value.token), clock);
    SettleEnds(s, op.proof, Failed, None, None, clock, "", clock);
  }

  /** From the moment on when the row is due and its session is free. */
  lemma FreeAt(s: State, clock: Instant, id: Id) returns (now: Instant)
    requires Coherent(s, clock) && id in s.rows && Expired(s.rows[id], clock) && Met(s, s.rows[id].request)
    requires !s.rows[id].cancelRequested && !Spent(s.rows[id])
    ensures clock <= now && Eligible(s, ANY, now, s.rows[id])
  {
    var row := s.rows[id];
    var key := KeyOf(row.request);
    now := if row.availableAt > clock then row.availableAt else clock;
    if key in s.leases && s.leases[key].expires > now { now := s.leases[key].expires; }
    forall d | d in row.request.meta.dependsOn
      ensures d in s.rows && s.rows[d].request.tenant == row.request.tenant
              && s.rows[d].request.principal == row.request.principal && !Active(s.rows[d].status)
    {
      assert !Unmet(s, row.request, d);
    }
  }

  function ActiveIds(s: State): set<Id> { set id | id in s.rows && Active(s.rows[id].status) }

  function Asking(now: Instant): Op { Claiming("", "", ANY, now, "") }

  /** Only this row changed, and it is one that was not over. */
  predicate Touches(s: State, t: State, id: Id) {
    && id in s.rows && Active(s.rows[id].status) && id in t.rows && t.rows == s.rows[id := t.rows[id]] && t.ttl == s.ttl
  }

  lemma TouchesTwice(s: State, m: State, t: State, id: Id)
    requires Touches(s, m, id) && id in t.rows && t.rows == m.rows[id := t.rows[id]] && t.ttl == m.ttl
    ensures Touches(s, t, id)
  {
  }

  /** When some row is eligible, a claim for anything takes one. */
  lemma OneTaken(s: State, now: Instant, id: Id) returns (m: State, p: Proof)
    requires Coherent(s, now) && s.ttl > 0 && id in s.rows && Eligible(s, ANY, now, s.rows[id])
    ensures m == Step(s, Asking(now)).0 && Coherent(m, now) && Touches(s, m, p.id) && Holds(m, p, now)
  {
    var i := ClaimTakesFirst(s, "", "", ANY, now, "");
    ClaimChanges(s, "", "", ANY, now, "");
    StepKeeps(s, now, Asking(now));
    ClaimGrants(s, Asking(now), id);
    m := Step(s, Asking(now)).0;
    var item := ClaimWork(s, "", "", ANY, now, "").1.work.value;
    p := Proof(item.id, item.fence, "");
    IssuedHolds(s, m, "", now, "", item, now);
  }

  lemma OneFailed(s: State, m: State, now: Instant, p: Proof) returns (t: State)
    requires Coherent(m, now) && Holds(m, p, now) && Touches(s, m, p.id)
    ensures t == Step(m, Failing(p, now)).0 && Coherent(t, now) && Touches(s, t, p.id) && t.rows[p.id].status == Failed
  {
    SettleEnds(m, p, Failed, None, None, now, "", now);
    StepKeeps(m, now, Failing(p, now));
    t := Step(m, Failing(p, now)).0;
    TouchesTwice(s, m, t, p.id);
  }

  lemma FewerActive(s: State, t: State, id: Id)
    requires Touches(s, t, id) && !Active(t.rows[id].status)
    ensures ActiveIds(t) < ActiveIds(s)
  {
    assert id in ActiveIds(s) && id !in ActiveIds(t);
  }

  /** One row is leased and reported failed, and no other row changes. */
  lemma OneGone(s: State, now: Instant, id: Id) returns (p: Proof, t: State)
    requires Coherent(s, now) && s.ttl > 0 && id in s.rows && Eligible(s, ANY, now, s.rows[id])
    ensures Coherent(Step(s, Asking(now)).0, now) && t == Step(Step(s, Asking(now)).0, Failing(p, now)).0
    ensures Coherent(t, now) && Touches(s, t, p.id) && t.rows[p.id].status == Failed && ActiveIds(t) < ActiveIds(s)
  {
    var m;
    m, p := OneTaken(s, now, id);
    t := OneFailed(s, m, now, p);
    FewerActive(s, t, p.id);
  }

  lemma RunFirst(s: State, clock: Instant, op: Op, rest: seq<Op>)
    requires Coherent(s, clock) && clock <= op.now && Possible(op)
    requires Coherent(Step(s, op).0, Ends(op)) && Timed(Ends(op), rest)
    ensures Timed(clock, [op] + rest) && Run(s, clock, [op] + rest) == Run(Step(s, op).0, Ends(op), rest)
    ensures Clock(clock, [op] + rest) == Clock(Ends(op), rest)
  {
    assert ([op] + rest)[1..] == rest;
  }

  lemma OneGoneRuns(s: State, clock: Instant, now: Instant, p: Proof, t: State, rest: seq<Op>)
    requires Coherent(s, clock) && clock <= now && Coherent(Step(s, Asking(now)).0, now) && Coherent(t, now)
    requires t == Step(Step(s, Asking(now)).0, Failing(p, now)).0 && Timed(now, rest)
    ensures var ops := [Asking(now)] + ([Failing(p, now)] + rest);
            Timed(clock, ops) && Run(s, clock, ops) == Run(t, now, rest)
  {
    RunFirst(Step(s, Asking(now)).0, now, Failing(p, now), rest);
    RunFirst(s, clock, Asking(now), [Failing(p, now)] + rest);
  }

  /** Rows that are served before it are failed one after another, until it is its turn. */
  lemma {:induction false} TurnComes(s: State, clock: Instant, id: Id) returns (ops: seq<Op>)
    requires Coherent(s, clock) && s.ttl > 0 && id in s.rows && Expired(s.rows[id], clock) && Met(s, s.rows[id].request)
    requires !s.rows[id].cancelRequested && !Spent(s.rows[id])
    ensures Timed(clock, ops) && var t := Run(s, clock, ops); id in t.rows && t.rows[id].status == Failed
    decreases ActiveIds(s)
  {
    var now := FreeAt(s, clock, id);
    Later(s, clock, now);
    var p, t := OneGone(s, now, id);
    var rest := [];
    if p.id != id {
      UnmetElsewhere(s, t, p.id, id);
      rest := TurnComes(t, now, id);
    }
    OneGoneRuns(s, clock, now, p, t, rest);
    ops := [Asking(now)] + ([Failing(p, now)] + rest);
  }

  lemma UnmetElsewhere(s: State, t: State, gone: Id, id: Id)
    requires Touches(s, t, gone) && id in s.rows && id != gone && Met(s, s.rows[id].request)
    ensures Met(t, t.rows[id].request)
  {
    forall d | d in t.rows[id].request.meta.dependsOn
      ensures !Unmet(t, t.rows[id].request, d)
    {
      assert !Unmet(s, s.rows[id].request, d);
    }
  }

  /** The row is leased after every further run. */
  ghost predicate LeasedForever(s: State, clock: Instant, id: Id)
    requires Coherent(s, clock)
  {
    forall more :: Timed(clock, more) ==>
      id in Run(s, clock, more).rows && Run(s, clock, more).rows[id].status.Leased?
  }

  lemma LeavesUnlessStranded(s: State, clock: Instant, id: Id)
    requires Coherent(s, clock) && Granted(s, clock) && s.ttl > 0
    requires id in s.rows && s.rows[id].status.Leased? && !Stranded(s.rows[id], clock)
    ensures !LeasedForever(s, clock, id)
  {
    RowFits(s, clock, id);
    GrantAt(s, clock, id);
    if s.rows[id].grant.value.expires > clock {
      var op := HolderLeaves(s, clock, id);
      StepKeeps(s, clock, op);
      RunFirst(s, clock, op, []);
    } else {
      var ops := TurnComes(s, clock, id);
    }
  }

  /**
   * In every run a leased row stays leased whatever is called from then on exactly when its lease ran out and it either
   * has a cancel request or is a memory job that was leased three times; or when the store's leases have no length.
   */
  lemma StrandedExactly(ttl: nat, start: Instant, ops: seq<Op>, id: Id)
    requires Timed(start, ops) && id in Reached(ttl, start, ops).rows && Reached(ttl, start, ops).rows[id].status.Leased?
    ensures var s, clock := Reached(ttl, start, ops), Clock(start, ops);
            LeasedForever(s, clock, id) <==> ttl == 0 || Stranded(s.rows[id], clock)
  {
    InitCoherent(ttl, start);
    GrantedRun(Init(ttl), start, ops);
    var s, clock := Reached(ttl, start, ops), Clock(start, ops);
    if ttl == 0 {
      forall more | Timed(clock, more)
        ensures id in Run(s, clock, more).rows && Run(s, clock, more).rows[id].status.Leased?
      {
        NoTerm(s, clock, more, id);
      }
    } else if Stranded(s.rows[id], clock) {
      forall more | Timed(clock, more)
        ensures id in Run(s, clock, more).rows && Run(s, clock, more).rows[id].status.Leased?
      {
        StrandedForever(s, clock, more, id);
      }
    } else {
      LeavesUnlessStranded(s, clock, id);
    }
  }

  // ---- Runs that strand a row ----

  /** The only row, which has been leased `n` times and would be eligible but for that. */
  predicate Lone(s: State, now: Instant, id: Id, q: Request, n: nat) {
    && s.order == [id] && id in s.rows
    && var row := s.rows[id];
       && row.request == q && row.availableAt <= now && !row.cancelRequested && row.attempts == n
       && (row.status.Queued? || Expired(row, now))
  }

  lemma LoneEligible(s: State, now: Instant, id: Id, q: Request, n: nat)
    requires Coherent(s, now) && Lone(s, now, id, q, n) && q.meta.dependsOn == [] && (Auxiliary(q.kind) ==> n < 3)
    ensures Eligible(s, ANY, now, s.rows[id])
  {
    RowFits(s, now, id);
    if KeyOf(q) in s.leases {
      LockFits(s, now, KeyOf(q));
      assert s.leases[KeyOf(q)].work in s.order;
    }
  }

  /** It is leased once more, and the clock passes the end of that lease. */
  lemma LoneTaken(s: State, now: Instant, id: Id, q: Request, n: nat)
    requires Coherent(s, now) && Lone(s, now, id, q, n) && q.meta.dependsOn == [] && (Auxiliary(q.kind) ==> n < 3)
    ensures var t := Step(s, Asking(now)).0;
            Coherent(t, now) && t.ttl == s.ttl && Lone(t, now + s.ttl, id, q, n + 1) && t.rows[id].status.Leased?
  {
    LoneEligible(s, now, id, q, n);
    var i := ClaimTakesFirst(s, "", "", ANY, now, "");
    ClaimChanges(s, "", "", ANY, now, "");
    ClaimGrants(s, Asking(now), id);
    StepKeeps(s, now, Asking(now));
  }

  lemma LoneEnqueued(ttl: nat, id: Id, q: Request)
    ensures var t := Step(Init(ttl), Enqueuing(id, q, None, 0)).0;
            Coherent(t, 0) && t.ttl == ttl && Lone(t, 0, id, StoredRequest(q), 0)
  {
    InitCoherent(ttl, 0);
    StepKeeps(Init(ttl), 0, Enqueuing(id, q, None, 0));
  }

  /** The worker reads its work after the lease ran out. */
  function TooLate(id: Id, fence: nat, now: Instant): Op { Reading(Proof(id, fence, ""), now) }

  /** The run ends with the row stranded, by a cancel request or without one. Folded: `StrandsUnfolds` says it. */
  ghost predicate Strands(s: State, clock: Instant, ops: seq<Op>, id: Id, cancelled: bool) {
    forall n: nat :: Unfolding(n) ==>
      && Coherent(s, clock) && Timed(clock, ops)
      && var t := Run(s, clock, ops);
         id in t.rows && Stranded(t.rows[id], Clock(clock, ops)) && t.rows[id].cancelRequested == cancelled
  }

  lemma StrandsUnfolds(s: State, clock: Instant, ops: seq<Op>, id: Id, cancelled: bool)
    requires Coherent(s, clock) && Strands(s, clock, ops, id, cancelled)
    ensures Timed(clock, ops) && id in Run(s, clock, ops).rows
    ensures var row := Run(s, clock, ops).rows[id]; Stranded(row, Clock(clock, ops)) && row.cancelRequested == cancelled
  {
    assert Unfolding(0);
  }

  lemma StrandsFirst(s: State, clock: Instant, op: Op, rest: seq<Op>, id: Id, cancelled: bool)
    requires Coherent(s, clock) && clock <= op.now && Possible(op)
    requires Strands(Step(s, op).0, Ends(op), rest, id, cancelled)
    ensures Strands(s, clock, [op] + rest, id, cancelled)
  {
    StepKeeps(s, clock, op);
    StrandsUnfolds(Step(s, op).0, Ends(op), rest, id, cancelled);
    RunFirst(s, clock, op, rest);
  }

  lemma StrandsLast(s: State, clock: Instant, id: Id, fence: nat, now: Instant, cancelled: bool)
    requires Coherent(s, clock) && clock <= now && id in s.rows
    requires Stranded(s.rows[id], now) && s.rows[id].cancelRequested == cancelled
    ensures Strands(s, clock, [TooLate(id, fence, now)], id, cancelled)
  {
    Later(s, clock, now);
    RunFirst(s, clock, TooLate(id, fence, now), []);
    assert [TooLate(id, fence, now)] + [] == [TooLate(id, fence, now)];
  }

  /** Folded, so that a proof need not look at how an operation works. */
  ghost predicate Follows(s: State, op: Op, t: State) {
    forall n: nat :: Unfolding(n) ==> Listed(s) && t == Step(s, op).0
  }

  lemma LoneNext(s: State, clock: Instant, now: Instant, id: Id, q: Request, n: nat) returns (t: State)
    requires Coherent(s, clock) && clock <= now && Lone(s, now, id, q, n) && q.meta.dependsOn == [] && n < 3
    ensures Coherent(t, now) && t.ttl == s.ttl && Lone(t, now + s.ttl, id, q, n + 1) && t.rows[id].status.Leased?
    ensures Follows(s, Asking(now), t)
  {
    Later(s, clock, now);
    LoneTaken(s, now, id, q, n);
    t := Step(s, Asking(now)).0;
  }

  lemma StrandsNext(s: State, clock: Instant, now: Instant, t: State, rest: seq<Op>, id: Id)
    requires Coherent(s, clock) && clock <= now && Follows(s, Asking(now), t) && Strands(t, now, rest, id, false)
    ensures Strands(s, clock, [Asking(now)] + rest, id, false)
  {
    assert Unfolding(0);
    StrandsFirst(s, clock, Asking(now), rest, id, false);
  }

  /** A memory job that was leased `n` times is leased until it was leased three times; no lease is ended. */
  lemma {:induction false} LosesLeases(s: State, clock: Instant, now: Instant, id: Id, q: Request, n: nat)
    returns (ops: seq<Op>)
    requires Coherent(s, clock) && clock <= now && Lone(s, now, id, q, n) && q.meta.dependsOn == [] && Auxiliary(q.kind)
    requires n <= 3 && (n == 3 ==> s.rows[id].status.Leased?)
    ensures Strands(s, clock, ops, id, false)
    decreases 3 - n
  {
    if n == 3 {
      StrandsLast(s, clock, id, n, now, false);
      ops := [TooLate(id, n, now)];
    } else {
      var t := LoneNext(s, clock, now, id, q, n);
      var rest := LosesLeases(t, now, now + s.ttl, id, q, n + 1);
      StrandsNext(s, clock, now, t, rest, id);
      ops := [Asking(now)] + rest;
    }
  }

  /** A memory job whose three leases all run out is stranded, although nobody asked to cancel it. */
  lemma LeasesStrand(ttl: nat, id: Id, q: Request) returns (ops: seq<Op>)
    requires q.meta.dependsOn == [] && Auxiliary(q.kind)
    ensures Timed(0, ops) && id in Reached(ttl, 0, ops).rows && !Reached(ttl, 0, ops).rows[id].cancelRequested
    ensures Stranded(Reached(ttl, 0, ops).rows[id], Clock(0, ops))
  {
    InitCoherent(ttl, 0);
    LoneEnqueued(ttl, id, q);
    var op := Enqueuing(id, q, None, 0);
    var rest := LosesLeases(Step(Init(ttl), op).0, 0, 0, id, StoredRequest(q), 0);
    StrandsFirst(Init(ttl), 0, op, rest, id, false);
    ops := [op] + rest;
    StrandsUnfolds(Init(ttl), 0, ops, id, false);
  }

  /** Leased, asked to cancel, and not finished before the lease runs out. */
  function Abandoning(id: Id, ttl: nat): seq<Op> { [Asking(0)] + ([Cancelling(id, 0)] + [TooLate(id, 1, ttl)]) }

  lemma LoneCancelled(s: State, id: Id, q: Request, n: nat)
    requires Coherent(s, 0) && Lone(s, s.ttl, id, q, n) && s.rows[id].status.Leased?
    ensures Strands(s, 0, [Cancelling(id, 0)] + [TooLate(id, 1, s.ttl)], id, true)
  {
    var op := Cancelling(id, 0);
    StepKeeps(s, 0, op);
    DescendOnlyBelowSelf(s, id);
    StrandsLast(Step(s, op).0, 0, id, 1, s.ttl, true);
    StrandsFirst(s, 0, op, [TooLate(id, 1, s.ttl)], id, true);
  }

  lemma LoneAbandoned(s: State, id: Id, q: Request)
    requires Coherent(s, 0) && Lone(s, 0, id, q, 0) && q.meta.dependsOn == []
    ensures Strands(s, 0, Abandoning(id, s.ttl), id, true)
  {
    LoneTaken(s, 0, id, q, 0);
    LoneCancelled(Step(s, Asking(0)).0, id, q, 1);
    StrandsFirst(s, 0, Asking(0), [Cancelling(id, 0)] + [TooLate(id, 1, s.ttl)], id, true);
  }

  /** A row that is enqueued, leased, cancelled and lost by its worker is stranded, whatever its kind. */
  lemma CancelStrands(ttl: nat, id: Id, q: Request)
    requires q.meta.dependsOn == []
    ensures var ops := [Enqueuing(id, q, None, 0)] + Abandoning(id, ttl);
            && Timed(0, ops) && id in Reached(ttl, 0, ops).rows
            && Reached(ttl, 0, ops).rows[id].cancelRequested && Stranded(Reached(ttl, 0, ops).rows[id], Clock(0, ops))
  {
    InitCoherent(ttl, 0);
    LoneEnqueued(ttl, id, q);
    var op := Enqueuing(id, q, None, 0);
    LoneAbandoned(Step(Init(ttl), op).0, id, StoredRequest(q));
    StrandsFirst(Init(ttl), 0, op, Abandoning(id, ttl), id, true);
    StrandsUnfolds(Init(ttl), 0, [op] + Abandoning(id, ttl), id, true);
  }
}
