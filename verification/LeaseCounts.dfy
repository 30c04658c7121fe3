/** The counters of a row count what happened to it in the run. */
module LeaseCounts {
  import opened Work
  import opened LeaseStore
  import opened LeaseRuns
  import opened LeaseClaims

  /** A claim that repeats no earlier one and is answered with the row. */
  predicate TakesLease(s: State, op: Op, id: Id)
    requires Listed(s)
  {
    && op.Claiming? && Fresh(s, op.requestId)
    && var reply := ClaimWork(s, op.worker, op.requestId, op.filter, op.now, op.token).1;
       reply.Issued? && reply.work.Some? && reply.work.value.id == id
  }

  predicate GivesWay(s: State, op: Op, id: Id) {
    op.Yielding? && op.proof.id == id && YieldWork(s, op.proof, op.now, op.later).1
  }

  function One(happens: bool): nat { if happens then 1 else 0 }

  ghost function LeasesTaken(s: State, clock: Instant, ops: seq<Op>, id: Id): nat
    requires Coherent(s, clock) && Timed(clock, ops)
    decreases |ops|
  {
    if ops == [] then 0
    else
      StepKeeps(s, clock, ops[0]);
      One(TakesLease(s, ops[0], id)) + LeasesTaken(Step(s, ops[0]).0, Ends(ops[0]), ops[1..], id)
  }

  ghost function YieldsMade(s: State, clock: Instant, ops: seq<Op>, id: Id): nat
    requires Coherent(s, clock) && Timed(clock, ops)
    decreases |ops|
  {
    if ops == [] then 0
    else
      StepKeeps(s, clock, ops[0]);
      One(GivesWay(s, ops[0], id)) + YieldsMade(Step(s, ops[0]).0, Ends(ops[0]), ops[1..], id)
  }

  function Attempts(s: State, id: Id): nat { if id in s.rows then s.rows[id].attempts else 0 }

  function Preemptions(s: State, id: Id): nat { if id in s.rows then s.rows[id].preemptions else 0 }

  predicate Counts(s: State, t: State, id: Id, taken: bool, yielded: bool) {
    Attempts(t, id) == Attempts(s, id) + One(taken) && Preemptions(t, id) == Preemptions(s, id) + One(yielded)
  }

  lemma ClaimCounts(s: State, op: Op, id: Id)
    requires Coherent(s, op.now) && op.Claiming?
    ensures Counts(s, Step(s, op).0, id, TakesLease(s, op, id), false)
  {
    if Fresh(s, op.requestId) { ClaimChanges(s, op.worker, op.requestId, op.filter, op.now, op.token); }
  }

  lemma ProofCounts(s: State, op: Op, id: Id)
    requires Coherent(s, op.now) && (op.Beating? || op.Yielding? || op.Settling?)
    ensures Counts(s, Step(s, op).0, id, false, GivesWay(s, op, id))
  {
    if op.proof.id in s.rows { RowFits(s, op.now, op.proof.id); }
    if op.Beating? && Holds(s, op.proof, op.now) { HeartbeatIs(s, op.proof, op.now, op.later); }
  }

  lemma FlagCounts(s: State, op: Op, id: Id)
    requires Coherent(s, op.now) && (op.Cancelling? || op.Preempting? || op.Steering?)
    ensures Counts(s, Step(s, op).0, id, false, false)
  {
    if op.Cancelling? { CancelMarks(s, op.id); }
    if op.Preempting? { PreemptMarks(s, op.now, op.id); }
    if op.Steering? { SteerMarks(s, op.now, op.id, op.text); }
    if id in s.rows { assert Marks(s.rows[id], Step(s, op).0.rows[id]); }
  }

  lemma StepCounts(s: State, clock: Instant, op: Op, id: Id)
    requires Coherent(s, clock) && clock <= op.now && Possible(op)
    ensures Counts(s, Step(s, op).0, id, TakesLease(s, op, id), GivesWay(s, op, id))
  {
    Later(s, clock, op.now);
    if op.Claiming? {
      ClaimCounts(s, op, id);
    } else if op.Cancelling? || op.Preempting? || op.Steering? {
      FlagCounts(s, op, id);
    } else if op.Beating? || op.Yielding? || op.Settling? {
      ProofCounts(s, op, id);
    }
  }

  lemma {:induction false} RunCounts(s: State, clock: Instant, ops: seq<Op>, id: Id)
    requires Coherent(s, clock) && Timed(clock, ops)
    ensures Attempts(Run(s, clock, ops), id) == Attempts(s, id) + LeasesTaken(s, clock, ops, id)
    ensures Preemptions(Run(s, clock, ops), id) == Preemptions(s, id) + YieldsMade(s, clock, ops, id)
    decreases |ops|
  {
    if ops != [] {
      StepKeeps(s, clock, ops[0]);
      StepCounts(s, clock, ops[0], id);
      RunCounts(Step(s, ops[0]).0, Ends(ops[0]), ops[1..], id);
    }
  }

  /**
   * In every run a row's attempts are the claims of the run that leased it, replays not counted, its preemptions are the
   * yields of it that worked, and its fence is their sum: nothing else moves it.
   */
  lemma FenceCounts(ttl: nat, start: Instant, ops: seq<Op>, id: Id)
    requires Timed(start, ops) && id in Reached(ttl, start, ops).rows
    ensures Coherent(Init(ttl), start)
    ensures var row, taken := Reached(ttl, start, ops).rows[id], LeasesTaken(Init(ttl), start, ops, id);
            var yielded := YieldsMade(Init(ttl), start, ops, id);
            row.attempts == taken && row.preemptions == yielded && row.fence == taken + yielded
  {
    InitCoherent(ttl, start);
    RunCounts(Init(ttl), start, ops, id);
    RowFits(Reached(ttl, start, ops), Clock(start, ops), id);
  }
}
