/** What the holder of a lease can do with it, and what each call changes. */
module LeaseEffects {
  import opened Text
  import opened Work
  import opened LeaseStore
  import opened LeaseRuns
  import opened LeaseClaims

  /** No row but this one changed, and no session but the row's was locked or unlocked. */
  predicate OnlyRow(s: State, t: State, id: Id) {
    && id in s.rows && id in t.rows && t.rows == s.rows[id := t.rows[id]] && t.rows[id].request == s.rows[id].request
    && t.order == s.order && t.routes == s.routes && t.claims == s.claims
    && t.leases - {KeyOf(s.rows[id].request)} == s.leases - {KeyOf(s.rows[id].request)}
  }

  predicate SameProgress(a: Row, b: Row) {
    b.attempts == a.attempts && b.steers == a.steers && b.cancelRequested == a.cancelRequested && b.createdAt == a.createdAt
  }

  /** A heartbeat works exactly while the lease runs, and makes it and the session's lock run for a whole term again. */
  lemma HeartbeatExtends(s: State, p: Proof, now: Instant, later: Instant, at: Instant)
    requires Coherent(s, now)
    ensures var (t, ok) := Heartbeat(s, p, now, later);
            && (ok <==> Holds(s, p, now)) && (!ok ==> t == s)
            && (ok ==>
                  var a, b := s.rows[p.id], t.rows[p.id];
                  && OnlyRow(s, t, p.id) && SameProgress(a, b) && b.fence == a.fence && b.status == a.status
                  && b.outcome == a.outcome && b.preemptRequested == a.preemptRequested && b.availableAt == a.availableAt
                  && (Holds(t, p, at) <==> at < later + s.ttl)
                  && t.leases == s.leases[KeyOf(a.request) := Lease(p.id, p.fence, later + s.ttl)]
                  && t.seen == match a.leasedBy
                               case None => s.seen
                               case Some(worker) => if worker == "" then s.seen else s.seen[worker := later])
  {
    if Holds(s, p, now) { HeartbeatIs(s, p, now, later); }
  }

  /**
   * A yield works exactly for the holder of a lease that was asked to give way. The row is queued again under a new
   * fence, its session is free at once, and the row itself is not for a second.
   */
  lemma YieldRequeues(s: State, p: Proof, now: Instant, later: Instant, f: Filter, at: Instant)
    requires Coherent(s, now)
    ensures var (t, ok) := YieldWork(s, p, now, later);
            && (ok <==> Holds(s, p, now) && s.rows[p.id].preemptRequested) && (!ok ==> t == s)
            && (ok ==>
                  var a, b := s.rows[p.id], t.rows[p.id];
                  && OnlyRow(s, t, p.id) && SameProgress(a, b) && b.status.Queued? && b.fence == a.fence + 1
                  && b.preemptions == a.preemptions + 1 && !b.preemptRequested && b.leasedBy.None? && b.outcome == a.outcome
                  && t.leases == s.leases - {KeyOf(a.request)} && t.seen == s.seen
                  && (Eligible(t, f, at, b) ==> at >= later + 1_000))
  {
    if Holds(s, p, now) { HeldFits(s, p, now); }
  }

  /** A settlement that works stores the answer, ends the lease for every token, and frees the session. */
  lemma SettleEnds(s: State, p: Proof, status: Status, error: Option<string>, outcome: Option<Outcome>, now: Instant,
                   token: Token, at: Instant)
    requires Coherent(s, now) && !status.Queued? && !status.Leased? && Settle(s, p, status, error, outcome, now).1
    ensures var t := Settle(s, p, status, error, outcome, now).0;
            && OnlyRow(s, t, p.id)
            && var a, b := s.rows[p.id], t.rows[p.id];
               && SameProgress(a, b) && b.status == status && b.error == error && b.fence == a.fence
               && b.outcome == (if outcome == None then a.outcome else outcome)
               && !Holds(t, Proof(p.id, p.fence, token), at)
               && t.leases == s.leases - {KeyOf(a.request)} && t.seen == s.seen
  {
    HeldFits(s, p, now);
  }

  /**
   * A steer works exactly on an active row that nobody asked to cancel. A waiting row is queued again, a leased one
   * keeps its lease, and no answer to an earlier revision is accepted any more.
   */
  lemma SteerSupersedes(s: State, id: Id, text: string, clock: Instant, p: Proof, status: Status,
                        error: Option<string>, outcome: Outcome, at: Instant)
    requires Coherent(s, clock) && p.id == id
    ensures var (t, ok) := AddSteer(s, id, text);
            && (ok <==> id in s.rows && Active(s.rows[id].status) && !s.rows[id].cancelRequested) && (!ok ==> t == s)
            && (ok ==>
                  var a, b := s.rows[id], t.rows[id];
                  && OnlyRow(s, t, id) && t.leases == s.leases && b.steers == a.steers + [text] && b.outcome == None
                  && b.fence == a.fence && b.grant == a.grant && b.attempts == a.attempts
                  && b.status == (if a.status == Waiting then Queued else a.status)
                  && (status != Failed && status != Cancelled && outcome.requestVersion <= |a.steers| + 1 ==>
                        !Settle(t, p, status, error, Some(outcome), at).1))
  {
    if id in s.rows { RowFits(s, clock, id); }
  }

  /** A request to give way needs a lease; it lasts until the yield that answers it. */
  lemma PreemptEnablesYield(s: State, id: Id, p: Proof, now: Instant, later: Instant)
    requires Coherent(s, now) && p.id == id
    ensures var (t, ok) := RequestPreempt(s, id);
            && (ok <==> id in s.rows && s.rows[id].status == Leased) && (!ok ==> t == s)
            && (ok ==> OnlyRow(s, t, id) && t.leases == s.leases && t.rows[id] == s.rows[id].(preemptRequested := true)
                       && (YieldWork(t, p, now, later).1 <==> Holds(s, p, now)))
  {
    if id in s.rows { RowFits(s, now, id); }
  }
}
