/** What no run can undo: refused proofs, settled rows, cancel requests, and stranded leases. */
module LeaseFences {
  import opened Text
  import opened Work
  import opened LeaseStore
  import opened LeaseRuns

  predicate Valid(row: Row, fence: nat, token: Token, clock: Instant) {
    && row.status.Leased? && row.fence == fence
    && row.grant.Some? && row.grant.value.token == token && row.grant.value.expires > clock
  }

  predicate Auxiliary(kind: string) { kind in {"memory_synthesis", "memory_index", "memory_evaluation"} }

  /** A memory job that was leased three times is not leased again. */
  predicate Spent(row: Row) { Auxiliary(row.request.kind) && row.attempts >= 3 }

  predicate Expired(row: Row, clock: Instant) {
    row.status.Leased? && row.grant.Some? && row.grant.value.expires <= clock
  }

  /** An expired lease that no claim may take over. */
  predicate Stranded(row: Row, clock: Instant) { Expired(row, clock) && (row.cancelRequested || Spent(row)) }

  /** The same lease, possibly renewed while it was alive. */
  predicate SameLease(a: Row, b: Row, now: Instant) {
    && a.status.Leased? && a.grant.Some? && b.grant.Some? && b.grant.value.token == a.grant.value.token
    && (b.grant == a.grant || a.grant.value.expires > now)
  }

  /** What one step may do to a row that is already there. */
  predicate Moves(a: Row, b: Row, now: Instant) {
    && b.id == a.id && b.request == a.request && b.createdAt == a.createdAt
    && a.fence <= b.fence && a.attempts <= b.attempts && a.steers <= b.steers
    && (a.cancelRequested ==> b.cancelRequested && b.attempts == a.attempts)
    && (!Active(a.status) ==> b == a)
    && (b.fence == a.fence && b.status.Leased? ==> SameLease(a, b, now))
    && (Expired(a, now) ==> b.status.Leased?)
    && (Stranded(a, now) ==> b.grant == a.grant && b.fence == a.fence && b.attempts == a.attempts)
  }

  lemma StaysMoves(id: Id, row: Row, now: Instant)
    requires RowOk(id, row)
    ensures Moves(row, row, now)
  {
  }

  lemma TakenMoves(id: Id, row: Row, worker: Worker, token: Token, expires: Instant, now: Instant)
    requires RowOk(id, row) && Claimable(row, now) && !row.cancelRequested && !Spent(row)
    ensures Moves(row, Taken(row, worker, token, expires), now)
  {
  }

  lemma RenewedMoves(row: Row, p: Proof, now: Instant, expires: Instant)
    requires Valid(row, p.fence, p.token, now)
    ensures Moves(row, Renewed(row, expires), now)
  {
  }

  lemma YieldedMoves(row: Row, p: Proof, now: Instant, availableAt: Instant)
    requires Valid(row, p.fence, p.token, now)
    ensures Moves(row, Yielded(row, availableAt), now)
  {
  }

  lemma SettledMoves(row: Row, p: Proof, status: Status, error: Option<string>, outcome: Option<Outcome>, now: Instant)
    requires Valid(row, p.fence, p.token, now) && !status.Queued? && !status.Leased?
    ensures Moves(row, Settled(row, status, error, outcome), now)
  {
  }

  lemma FlaggedMoves(id: Id, row: Row, text: string, now: Instant)
    requires RowOk(id, row)
    ensures Moves(row, Stopped(row), now)
    ensures row.status.Leased? ==> Moves(row, row.(preemptRequested := true), now)
    ensures Active(row.status) && !row.cancelRequested ==> Moves(row, Steered(row, text), now)
  {
  }

  /** The rows of the next state: as they were, except that one may have become `row`. */
  predicate OneRow(s: State, t: State, id: Id, row: Row) {
    t.rows == s.rows[id := row] || t.rows == s.rows
  }

  lemma OneRowMoves(s: State, t: State, target: Id, row: Row, now: Instant, id: Id)
    requires Coherent(s, now) && id in s.rows && OneRow(s, t, target, row)
    requires target in s.rows ==> t.rows == s.rows || Moves(s.rows[target], row, now)
    ensures id in t.rows && Moves(s.rows[id], t.rows[id], now)
  {
    RowFits(s, now, id);
    StaysMoves(id, s.rows[id], now);
  }

  lemma TakeRows(s: State, id: Id, worker: Worker, now: Instant, token: Token)
    requires Coherent(s, now) && id in s.rows
    ensures Take(s, s.rows[id], worker, now, token).0.rows == s.rows[id := Taken(s.rows[id], worker, token, now + s.ttl)]
  {
    RowFits(s, now, id);
  }

  lemma ClaimNewRows(s: State, worker: Worker, request: string, f: Filter, now: Instant, token: Token)
    requires Coherent(s, now)
    ensures var t, best := ClaimNew(s, worker, request, f, now, token).0, Best(s, f, worker, now, |s.order|);
            t.rows == if best.None? then s.rows
                      else s.rows[best.value := Taken(s.rows[best.value], worker, token, now + s.ttl)]
  {
    var best := Best(s, f, worker, now, |s.order|);
    if best.Some? { TakeRows(s, best.value, worker, now, token); }
  }

  lemma ClaimNewMoves(s: State, worker: Worker, request: string, f: Filter, now: Instant, token: Token, id: Id)
    requires Coherent(s, now) && id in s.rows
    ensures var t := ClaimNew(s, worker, request, f, now, token).0; id in t.rows && Moves(s.rows[id], t.rows[id], now)
  {
    var t := ClaimNew(s, worker, request, f, now, token).0;
    var best := Best(s, f, worker, now, |s.order|);
    ClaimNewRows(s, worker, request, f, now, token);
    BestReady(s, f, worker, now, |s.order|);
    if best.Some? {
      var row := s.rows[best.value];
      RowFits(s, now, best.value);
      TakenMoves(best.value, row, worker, token, now + s.ttl, now);
      OneRowMoves(s, t, best.value, Taken(row, worker, token, now + s.ttl), now, id);
    } else {
      RowFits(s, now, id);
      StaysMoves(id, s.rows[id], now);
    }
  }

  lemma ClaimMoves(s: State, worker: Worker, request: string, f: Filter, now: Instant, token: Token, id: Id)
    requires Coherent(s, now) && id in s.rows
    ensures var t := ClaimWork(s, worker, request, f, now, token).0; id in t.rows && Moves(s.rows[id], t.rows[id], now)
  {
    PreparedKeeps(s, worker, request, now);
    ClaimNewMoves(Prepared(s, worker, request, now), worker, request, f, now, token, id);
    RowFits(s, now, id);
    StaysMoves(id, s.rows[id], now);
  }

  lemma BeatMoves(s: State, p: Proof, now: Instant, later: Instant, id: Id)
    requires Coherent(s, now) && Holds(s, p, now) && id in s.rows
    ensures var t := Heartbeat(s, p, now, later).0; id in t.rows && Moves(s.rows[id], t.rows[id], now)
  {
    HeartbeatIs(s, p, now, later);
    RenewedMoves(s.rows[p.id], p, now, later + s.ttl);
    OneRowMoves(s, Heartbeat(s, p, now, later).0, p.id, Renewed(s.rows[p.id], later + s.ttl), now, id);
  }

  lemma YieldMoves(s: State, p: Proof, now: Instant, later: Instant, id: Id)
    requires Coherent(s, now) && Holds(s, p, now) && id in s.rows
    ensures var t := YieldWork(s, p, now, later).0; id in t.rows && Moves(s.rows[id], t.rows[id], now)
  {
    var t, row := YieldWork(s, p, now, later).0, Yielded(s.rows[p.id], later + 1_000);
    RowFits(s, now, p.id);
    YieldedMoves(s.rows[p.id], p, now, later + 1_000);
    assert OneRow(s, t, p.id, row);
    OneRowMoves(s, t, p.id, row, now, id);
  }

  lemma SettleMoves(s: State, p: Proof, status: Status, error: Option<string>, outcome: Option<Outcome>,
                    now: Instant, id: Id)
    requires Coherent(s, now) && Holds(s, p, now) && id in s.rows && !status.Queued? && !status.Leased?
    ensures var t := Settle(s, p, status, error, outcome, now).0; id in t.rows && Moves(s.rows[id], t.rows[id], now)
  {
    var t, row := Settle(s, p, status, error, outcome, now).0, Settled(s.rows[p.id], status, error, outcome);
    RowFits(s, now, p.id);
    SettledMoves(s.rows[p.id], p, status, error, outcome, now);
    assert OneRow(s, t, p.id, row);
    OneRowMoves(s, t, p.id, row, now, id);
  }

  lemma ProofMoves(s: State, op: Op, id: Id)
    requires Coherent(s, op.now) && Possible(op) && id in s.rows && (op.Beating? || op.Reading? || op.Yielding? || op.Settling?)
    ensures var t := Step(s, op).0; id in t.rows && Moves(s.rows[id], t.rows[id], op.now)
  {
    RowFits(s, op.now, id);
    StaysMoves(id, s.rows[id], op.now);
    if Holds(s, op.proof, op.now) {
      if op.Beating? { BeatMoves(s, op.proof, op.now, op.later, id); }
      if op.Yielding? { YieldMoves(s, op.proof, op.now, op.later, id); }
      if op.Settling? { SettleMoves(s, op.proof, op.status, op.error, op.outcome, op.now, id); }
    }
  }

  lemma FlagMoves(s: State, op: Op, id: Id)
    requires Coherent(s, op.now) && id in s.rows && (op.Cancelling? || op.Preempting? || op.Steering?)
    ensures var t := Step(s, op).0; id in t.rows && Moves(s.rows[id], t.rows[id], op.now)
  {
    var t, now := Step(s, op).0, op.now;
    RowFits(s, now, id);
    StaysMoves(id, s.rows[id], now);
    FlaggedMoves(id, s.rows[id], "", now);
    if op.id in s.rows && !op.Cancelling? {
      var row := s.rows[op.id];
      RowFits(s, now, op.id);
      FlaggedMoves(op.id, row, if op.Steering? then op.text else "", now);
      OneRowMoves(s, t, op.id, if op.Steering? then Steered(row, op.text) else row.(preemptRequested := true), now, id);
    }
  }

  lemma StepMoves(s: State, clock: Instant, op: Op, id: Id)
    requires Coherent(s, clock) && clock <= op.now && Possible(op) && id in s.rows
    ensures var t := Step(s, op).0; id in t.rows && Moves(s.rows[id], t.rows[id], op.now)
  {
    var now := op.now;
    Later(s, clock, now);
    if op.Enqueuing? {
      RowFits(s, now, id);
      StaysMoves(id, s.rows[id], now);
    } else if op.Claiming? {
      ClaimMoves(s, op.worker, op.requestId, op.filter, now, op.token, id);
    } else if op.Cancelling? || op.Preempting? || op.Steering? {
      FlagMoves(s, op, id);
    } else {
      ProofMoves(s, op, id);
    }
  }

  // ---- Proofs ----

  /** The fence was issued, and the proof does not pass `validLease`. */
  predicate Refused(s: State, p: Proof, clock: Instant) {
    p.id in s.rows && p.fence <= s.rows[p.id].fence && !Holds(s, p, clock)
  }

  lemma RefusalStays(s: State, clock: Instant, op: Op, p: Proof)
    requires Coherent(s, clock) && clock <= op.now && Possible(op) && Refused(s, p, clock)
    ensures Refused(Step(s, op).0, p, Ends(op))
  {
    StepMoves(s, clock, op, p.id);
    Later(s, clock, op.now);
    RowFits(s, op.now, p.id);
  }

  lemma {:induction false} RefusedForever(s: State, clock: Instant, ops: seq<Op>, p: Proof)
    requires Coherent(s, clock) && Timed(clock, ops) && Refused(s, p, clock)
    ensures Refused(Run(s, clock, ops), p, Clock(clock, ops))
    decreases |ops|
  {
    if ops != [] {
      RefusalStays(s, clock, ops[0], p);
      StepKeeps(s, clock, ops[0]);
      RefusedForever(Step(s, ops[0]).0, Ends(ops[0]), ops[1..], p);
    }
  }

  predicate Presents(op: Op, p: Proof) {
    (op.Beating? || op.Reading? || op.Yielding? || op.Settling?) && op.proof == p
  }

  /**
   * A proof that has expired, or was yielded, settled or superseded, is refused by every later call of every run,
   * and the refused call changes nothing.
   */
  lemma DeadProof(s: State, clock: Instant, ops: seq<Op>, op: Op, p: Proof)
    requires Coherent(s, clock) && Timed(clock, ops) && Clock(clock, ops) <= op.now && Refused(s, p, clock)
    requires Presents(op, p)
    ensures Step(Run(s, clock, ops), op) == (Run(s, clock, ops), Answer(false))
  {
    RefusedForever(s, clock, ops, p);
  }

  /** The calls that end a lease. */
  predicate EndsLease(op: Op, id: Id, fence: nat) {
    (op.Yielding? || op.Settling?) && op.proof.id == id && op.proof.fence == fence
  }

  lemma EndedIsRefused(s: State, clock: Instant, op: Op, p: Proof)
    requires Coherent(s, clock) && Possible(op) && EndsLease(op, p.id, p.fence) && Step(s, op).1 == Answer(true)
    ensures Refused(Step(s, op).0, p, Ends(op))
  {
    RowFits(s, clock, p.id);
  }

  /** Of all the calls of a run that could yield or settle one lease, at most one succeeds, whatever the tokens. */
  lemma SettlesOnce(s: State, clock: Instant, first: Op, between: seq<Op>, second: Op, id: Id, fence: nat)
    requires Coherent(s, clock) && Timed(clock, [first] + between + [second])
    requires EndsLease(first, id, fence) && EndsLease(second, id, fence) && Step(s, first).1 == Answer(true)
    ensures Timed(clock, [first] + between)
    ensures var t := Run(s, clock, [first] + between); Step(t, second) == (t, Answer(false))
  {
    var front := [first] + between;
    TimedParts(clock, front, second);
    EndedIsRefused(s, clock, first, second.proof);
    StepKeeps(s, clock, first);
    assert front[1..] == between;
    DeadProof(Step(s, first).0, Ends(first), between, second, second.proof);
  }

  lemma {:induction false} TimedParts(clock: Instant, ops: seq<Op>, last: Op)
    requires Timed(clock, ops + [last])
    ensures Timed(clock, ops) && Clock(clock, ops) <= last.now && Possible(last)
    decreases |ops|
  {
    var all := ops + [last];
    if ops != [] {
      assert all[1..] == ops[1..] + [last];
      TimedParts(Ends(ops[0]), ops[1..], last);
    }
  }

  // ---- Rows ----

  /** What a run may do to a row: it never loses a cancel request, a steer or a fence, and a finished row is frozen. */
  lemma {:induction false} RowHistory(s: State, clock: Instant, ops: seq<Op>, id: Id)
    requires Coherent(s, clock) && Timed(clock, ops) && id in s.rows
    ensures id in Run(s, clock, ops).rows
    ensures var a, b := s.rows[id], Run(s, clock, ops).rows[id];
            && b.request == a.request && a.fence <= b.fence && a.attempts <= b.attempts && a.steers <= b.steers
            && (a.cancelRequested ==> b.cancelRequested && b.attempts == a.attempts)
            && (!Active(a.status) ==> b == a)
    decreases |ops|
  {
    if ops != [] {
      StepMoves(s, clock, ops[0], id);
      StepKeeps(s, clock, ops[0]);
      RowHistory(Step(s, ops[0]).0, Ends(ops[0]), ops[1..], id);
    }
  }

  /** Whatever is called on it, a stranded row keeps the lease that ran out. */
  lemma {:induction false} StrandedForever(s: State, clock: Instant, ops: seq<Op>, id: Id)
    requires Coherent(s, clock) && Timed(clock, ops) && id in s.rows && Stranded(s.rows[id], clock)
    ensures var t := Run(s, clock, ops);
            id in t.rows && Stranded(t.rows[id], Clock(clock, ops)) && t.rows[id].fence == s.rows[id].fence
    decreases |ops|
  {
    if ops != [] {
      StepMoves(s, clock, ops[0], id);
      StepKeeps(s, clock, ops[0]);
      StrandedForever(Step(s, ops[0]).0, Ends(ops[0]), ops[1..], id);
    }
  }

  /**
   * Enqueuing under a taken id never adds a row, however long ago the row was added and whatever became of it. The
   * same request is recognised exactly when its principal is not the empty string, which the store does not keep.
   */
  lemma EnqueueOnce(s: State, clock: Instant, ops: seq<Op>, id: Id, q: Request, at: Option<Instant>,
                    again: Option<Instant>, now: Instant)
    requires Coherent(s, clock) && id !in s.rows && Possible(Enqueuing(id, q, at, clock))
    requires Timed(clock, ops)
    ensures var t := Enqueue(s, id, q, at, clock).0;
            && Coherent(t, clock)
            && var u := Run(t, clock, ops);
               Enqueue(u, id, q, again, now) == (u, if q.principal == Some("") then IdentityReused else Deduplicated)
  {
    EnqueueKeeps(s, id, q, at, clock);
    RowHistory(Enqueue(s, id, q, at, clock).0, clock, ops, id);
  }
}
