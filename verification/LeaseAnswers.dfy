/** Every answer that a run stores for good answers the last revision of its request. */
module LeaseAnswers {
  import opened Folding
  import opened Text
  import opened Work
  import opened LeaseStore
  import opened LeaseRuns
  import opened LeaseFences

  /** The row was settled, or parked, with what its worker takes for a result. */
  predicate HasResult(status: Status) { status.Waiting? || status.Succeeded? || status.Partial? || status.Blocked? }

  predicate AnswerFits(row: Row) {
    && (row.status.Queued? || row.status.Leased? ==> row.outcome.None?)
    && (HasResult(row.status) ==>
          && !row.cancelRequested && (row.request.meta.hasText ==> row.outcome.Some?)
          && (row.outcome.Some? ==> row.outcome.value.requestVersion == |row.steers| + 1))
  }

  /** Folded: a proof that needs it at some row asks `AnsweredAt`. */
  ghost predicate Answered(s: State) {
    forall n: nat :: Unfolding(n) ==> forall id <- s.rows.Keys :: AnswerFits(s.rows[id])
  }

  lemma AnsweredAt(s: State, id: Id)
    requires Answered(s) && id in s.rows
    ensures AnswerFits(s.rows[id])
  {
    assert Unfolding(0);
  }

  lemma ClaimAnswers(s: State, op: Op, id: Id)
    requires Coherent(s, op.now) && Answered(s) && op.Claiming? && id in Step(s, op).0.rows
    ensures AnswerFits(Step(s, op).0.rows[id])
  {
    var p := Prepared(s, op.worker, op.requestId, op.now);
    PreparedKeeps(s, op.worker, op.requestId, op.now);
    ClaimNewRows(p, op.worker, op.requestId, op.filter, op.now, op.token);
    BestReady(p, op.filter, op.worker, op.now, |p.order|);
    if id in s.rows { AnsweredAt(s, id); }
  }

  lemma ProofAnswers(s: State, op: Op, id: Id)
    requires Coherent(s, op.now) && Answered(s) && Possible(op) && (op.Beating? || op.Yielding? || op.Settling?)
    requires id in Step(s, op).0.rows
    ensures AnswerFits(Step(s, op).0.rows[id])
  {
    if op.proof.id in s.rows {
      RowFits(s, op.now, op.proof.id);
      AnsweredAt(s, op.proof.id);
    }
    if id in s.rows { AnsweredAt(s, id); }
    if op.Beating? && Holds(s, op.proof, op.now) { HeartbeatIs(s, op.proof, op.now, op.later); }
  }

  lemma FlagAnswers(s: State, op: Op, id: Id)
    requires Coherent(s, op.now) && Answered(s) && (op.Cancelling? || op.Preempting? || op.Steering?)
    requires id in Step(s, op).0.rows
    ensures AnswerFits(Step(s, op).0.rows[id])
  {
    if op.id in s.rows {
      RowFits(s, op.now, op.id);
      AnsweredAt(s, op.id);
    }
    if id in s.rows { AnsweredAt(s, id); }
  }

  lemma StepAnswers(s: State, clock: Instant, op: Op)
    requires Coherent(s, clock) && clock <= op.now && Possible(op) && Answered(s)
    ensures Answered(Step(s, op).0)
  {
    Later(s, clock, op.now);
    var t := Step(s, op).0;
    forall id | id in t.rows
      ensures AnswerFits(t.rows[id])
    {
      if op.Claiming? {
        ClaimAnswers(s, op, id);
      } else if op.Cancelling? || op.Preempting? || op.Steering? {
        FlagAnswers(s, op, id);
      } else if op.Beating? || op.Yielding? || op.Settling? {
        ProofAnswers(s, op, id);
      } else if id in s.rows {
        AnsweredAt(s, id);
      }
    }
  }

  lemma {:induction false} RunAnswers(s: State, clock: Instant, ops: seq<Op>)
    requires Coherent(s, clock) && Timed(clock, ops) && Answered(s)
    ensures Answered(Run(s, clock, ops))
    decreases |ops|
  {
    if ops != [] {
      StepKeeps(s, clock, ops[0]);
      StepAnswers(s, clock, ops[0]);
      RunAnswers(Step(s, ops[0]).0, Ends(ops[0]), ops[1..]);
    }
  }

  /**
   * In every run a row that is parked or over with a result was not asked to cancel, has an answer if its request has a
   * text, and any answer it has is to the last revision there is; a row still to be worked on has none. Failed and
   * cancelled rows are left out, whose settlements the store does not compare with the revision.
   */
  lemma AnswersLastRevision(ttl: nat, start: Instant, ops: seq<Op>, id: Id)
    requires Timed(start, ops) && id in Reached(ttl, start, ops).rows
    ensures var row := Reached(ttl, start, ops).rows[id];
            match row.status
            case Queued => row.outcome == None
            case Leased => row.outcome == None
            case Failed => true
            case Cancelled => true
            case _ => && !row.cancelRequested && (row.request.meta.hasText ==> row.outcome.Some?)
                      && (row.outcome.Some? ==> row.outcome.value.requestVersion == |row.steers| + 1)
  {
    InitCoherent(ttl, start);
    RunAnswers(Init(ttl), start, ops);
    AnsweredAt(Reached(ttl, start, ops), id);
  }
}
