/** Enqueuing: what the new row is, and that no worker gets it before it is due. */
module LeaseDue {
  import opened Text
  import opened Work
  import opened LeaseStore
  import opened LeaseRuns
  import opened LeaseFences
  import opened LeaseClaims
  import opened LeaseCounts

  /**
   * A new id adds a row at the end of the order, queued, never leased and due when it was asked for, and touches nothing
   * else; a taken one changes nothing.
   */
  lemma EnqueueExactly(s: State, id: Id, q: Request, due: Option<Instant>, now: Instant)
    requires Coherent(s, now)
    ensures var (t, reply) := Enqueue(s, id, q, due, now);
            if id in s.rows then t == s && reply == if s.rows[id].request == q then Deduplicated else IdentityReused
            else
              var stored := q.(principal := if q.principal == Some("") then None else q.principal);
              && reply == Added
              && t == s.(rows := s.rows[id := Row(id, stored, now, match due case None => now case Some(at) => at,
                                                  Queued, 0, 0, 0, None, None, false, false, [], None, None)],
                         order := s.order + [id])
  {
  }

  /** The row waits for its time, or the time has come. */
  predicate Waits(s: State, clock: Instant, id: Id, due: Instant) {
    id in s.rows && ((!s.rows[id].status.Leased? && s.rows[id].availableAt >= due) || clock >= due)
  }

  lemma ClaimWaits(s: State, op: Op, id: Id, due: Instant)
    requires Coherent(s, op.now) && op.Claiming? && Waits(s, op.now, id, due)
    ensures Waits(Step(s, op).0, op.now, id, due) && (TakesLease(s, op, id) ==> op.now >= due)
  {
    var p := Prepared(s, op.worker, op.requestId, op.now);
    PreparedKeeps(s, op.worker, op.requestId, op.now);
    ClaimNewRows(p, op.worker, op.requestId, op.filter, op.now, op.token);
    BestReady(p, op.filter, op.worker, op.now, |p.order|);
    if Fresh(s, op.requestId) {
      ClaimChanges(s, op.worker, op.requestId, op.filter, op.now, op.token);
      if TakesLease(s, op, id) {
        var i := ClaimTakesFirst(s, op.worker, op.requestId, op.filter, op.now, op.token);
      }
    }
  }

  lemma CancelWaits(s: State, op: Op, id: Id, due: Instant)
    requires Coherent(s, op.now) && op.Cancelling? && Waits(s, op.now, id, due)
    ensures Waits(Step(s, op).0, op.now, id, due)
  {
    CancelMarks(s, op.id);
    assert Marks(s.rows[id], Step(s, op).0.rows[id]);
  }

  lemma ProofWaits(s: State, op: Op, id: Id, due: Instant)
    requires Coherent(s, op.now) && (op.Beating? || op.Yielding? || op.Settling?) && Possible(op) && Waits(s, op.now, id, due)
    ensures Waits(Step(s, op).0, Ends(op), id, due)
  {
    if op.proof.id in s.rows { RowFits(s, op.now, op.proof.id); }
    if op.Beating? && Holds(s, op.proof, op.now) { HeartbeatIs(s, op.proof, op.now, op.later); }
  }

  lemma StepWaits(s: State, clock: Instant, op: Op, id: Id, due: Instant)
    requires Coherent(s, clock) && clock <= op.now && Possible(op) && Waits(s, clock, id, due)
    ensures Waits(Step(s, op).0, Ends(op), id, due) && (TakesLease(s, op, id) ==> op.now >= due)
  {
    Later(s, clock, op.now);
    RowFits(s, op.now, id);
    if op.Claiming? {
      ClaimWaits(s, op, id, due);
    } else if op.Cancelling? {
      CancelWaits(s, op, id, due);
    } else if op.Preempting? || op.Steering? {
      if op.id in s.rows { RowFits(s, op.now, op.id); }
    } else if op.Beating? || op.Yielding? || op.Settling? {
      ProofWaits(s, op, id, due);
    }
  }

  lemma {:induction false} RunWaits(s: State, clock: Instant, ops: seq<Op>, id: Id, due: Instant)
    requires Coherent(s, clock) && Timed(clock, ops) && Waits(s, clock, id, due)
    ensures Waits(Run(s, clock, ops), Clock(clock, ops), id, due)
    decreases |ops|
  {
    if ops != [] {
      StepKeeps(s, clock, ops[0]);
      StepWaits(s, clock, ops[0], id, due);
      RunWaits(Step(s, ops[0]).0, Ends(ops[0]), ops[1..], id, due);
    }
  }

  /** Whatever is called in between, no claim issues a row before the time that it was enqueued for. */
  lemma NotBeforeDue(s: State, clock: Instant, id: Id, q: Request, due: Instant, ops: seq<Op>, op: Op)
    requires Coherent(s, clock) && id !in s.rows && Timed(clock, ops) && Clock(clock, ops) <= op.now && op.Claiming?
    ensures var t := Enqueue(s, id, q, Some(due), clock).0;
            Coherent(t, clock) && (TakesLease(Run(t, clock, ops), op, id) ==> op.now >= due)
  {
    EnqueueKeeps(s, id, q, Some(due), clock);
    var t := Enqueue(s, id, q, Some(due), clock).0;
    RunWaits(t, clock, ops, id, due);
    StepWaits(Run(t, clock, ops), Clock(clock, ops), op, id, due);
  }
}
