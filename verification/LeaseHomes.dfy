/** Home epochs: a worker's session home is never handed to another worker under the same number. */
module LeaseHomes {
  import opened Text
  import opened Work
  import opened LeaseStore
  import opened LeaseRuns
  import opened LeaseClaims

  /** A worker was given work of a session together with this home epoch. */
  datatype Home = Home(key: Key, epoch: nat, worker: Worker)

  function HomeOf(item: Item, worker: Worker): Home { Home(KeyOf(item.request), item.homeEpoch, worker) }

  /** The home that one call hands out, for the first time or again. */
  function Given(op: Op, reply: Reply): set<Home> {
    if op.Claiming? && reply.Claimed? && reply.claim.Issued? && reply.claim.work.Some?
    then {HomeOf(reply.claim.work.value, op.worker)}
    else {}
  }

  /** All the homes that a run hands out. */
  ghost function GivenIn(s: State, clock: Instant, ops: seq<Op>): set<Home>
    requires Coherent(s, clock) && Timed(clock, ops)
    decreases |ops|
  {
    if ops == [] then {}
    else
      StepKeeps(s, clock, ops[0]);
      Given(ops[0], Step(s, ops[0]).1) + GivenIn(Step(s, ops[0]).0, Ends(ops[0]), ops[1..])
  }

  predicate Assigned(s: State, h: Home) {
    && h.key in s.routes && h.epoch <= s.routes[h.key].homeEpoch
    && (h.epoch == s.routes[h.key].homeEpoch ==> h.worker == s.routes[h.key].worker)
  }

  predicate OneWorker(homes: set<Home>) {
    forall g, h :: g in homes && h in homes && g.key == h.key && g.epoch == h.epoch ==> g.worker == h.worker
  }

  ghost predicate Known(s: State, homes: set<Home>) {
    && OneWorker(homes) && (forall h <- homes :: Assigned(s, h))
    && (forall c <- s.claims :: c.work.Some? ==> HomeOf(c.work.value, c.worker) in homes)
  }

  lemma {:induction false} PriorIn(claims: seq<Claim>, request: string)
    ensures var c := Prior(claims, request); c.Some? ==> c.value in claims
    decreases |claims|
  {
    if claims != [] { PriorIn(claims[1..], request); }
  }

  /** The route of the session is its newest home. */
  lemma RouteKnown(s: State, t: State, homes: set<Home>, key: Key, worker: Worker)
    requires Known(s, homes) && t.routes == s.routes[key := NextRoute(s, key, worker)]
    ensures var h := Home(key, NextRoute(s, key, worker).homeEpoch, worker);
            OneWorker(homes + {h}) && forall g <- homes + {h} :: Assigned(t, g)
  {
    var h := Home(key, NextRoute(s, key, worker).homeEpoch, worker);
    forall g | g in homes
      ensures Assigned(t, g)
      ensures g.key == h.key && g.epoch == h.epoch ==> g.worker == h.worker
    {
      assert Assigned(s, g);
    }
  }

  lemma ClaimsGrow(s: State, worker: Worker, request: string, f: Filter, now: Instant, token: Token)
    requires Coherent(s, now) && Fresh(s, request)
    ensures var (t, reply) := ClaimWork(s, worker, request, f, now, token);
            reply.Issued? && forall c <- t.claims :: c in s.claims || (c.worker == worker && c.work == reply.work)
  {
  }

  /** A claim adds the home that it hands out and at most one answer, which names that home. */
  lemma AnswerKnown(s: State, t: State, worker: Worker, now: Instant, token: Token, work: Option<Item>, homes: set<Home>)
    requires Known(s, homes)
    requires if work.None? then t.routes == s.routes else Issues(s, t, worker, now, token, work.value)
    requires forall c <- t.claims :: c in s.claims || (c.worker == worker && c.work == work)
    ensures Known(t, homes + if work.Some? then {HomeOf(work.value, worker)} else {})
  {
    if work.Some? {
      RouteKnown(s, t, homes, KeyOf(s.rows[work.value.id].request), worker);
    } else {
      assert forall h <- homes :: Assigned(s, h) ==> Assigned(t, h);
    }
  }

  lemma FreshClaimKnown(s: State, worker: Worker, request: string, f: Filter, now: Instant, token: Token,
                        homes: set<Home>)
    requires Coherent(s, now) && Known(s, homes) && Fresh(s, request)
    ensures var (t, reply) := ClaimWork(s, worker, request, f, now, token);
            Known(t, homes + if reply.Issued? && reply.work.Some? then {HomeOf(reply.work.value, worker)} else {})
  {
    var (t, reply) := ClaimWork(s, worker, request, f, now, token);
    ClaimChanges(s, worker, request, f, now, token);
    ClaimsGrow(s, worker, request, f, now, token);
    AnswerKnown(s, t, worker, now, token, reply.work, homes);
  }

  lemma ClaimKnown(s: State, worker: Worker, request: string, f: Filter, now: Instant, token: Token, homes: set<Home>)
    requires Coherent(s, now) && Known(s, homes)
    ensures var (t, reply) := ClaimWork(s, worker, request, f, now, token);
            Known(t, homes + if reply.Issued? && reply.work.Some? then {HomeOf(reply.work.value, worker)} else {})
  {
    if Fresh(s, request) {
      FreshClaimKnown(s, worker, request, f, now, token, homes);
    } else {
      PriorIn(s.claims, request);
      var reply := ClaimWork(s, worker, request, f, now, token).1;
      assert homes + (if reply.Issued? && reply.work.Some? then {HomeOf(reply.work.value, worker)} else {}) == homes;
    }
  }

  lemma OthersKeepRoutes(s: State, op: Op)
    requires Listed(s) && !op.Claiming?
    ensures Step(s, op).0.routes == s.routes && Step(s, op).0.claims == s.claims && !Step(s, op).1.Claimed?
  {
  }

  lemma StepKnown(s: State, clock: Instant, op: Op, homes: set<Home>)
    requires Coherent(s, clock) && clock <= op.now && Possible(op) && Known(s, homes)
    ensures var (t, reply) := Step(s, op); Known(t, homes + Given(op, reply))
  {
    Later(s, clock, op.now);
    var (t, reply) := Step(s, op);
    if op.Claiming? {
      ClaimKnown(s, op.worker, op.requestId, op.filter, op.now, op.token, homes);
    } else {
      OthersKeepRoutes(s, op);
      assert homes + {} == homes;
      assert forall h <- homes :: Assigned(s, h) ==> Assigned(t, h);
    }
  }

  lemma {:induction false} RunKnown(s: State, clock: Instant, ops: seq<Op>, homes: set<Home>)
    requires Coherent(s, clock) && Timed(clock, ops) && Known(s, homes)
    ensures Known(Run(s, clock, ops), homes + GivenIn(s, clock, ops))
    decreases |ops|
  {
    if ops == [] {
      assert homes + {} == homes;
    } else {
      StepKeeps(s, clock, ops[0]);
      StepKnown(s, clock, ops[0], homes);
      var (t, reply) := Step(s, ops[0]);
      RunKnown(t, Ends(ops[0]), ops[1..], homes + Given(ops[0], reply));
      var rest := GivenIn(t, Ends(ops[0]), ops[1..]);
      assert homes + (Given(ops[0], reply) + rest) == homes + Given(ops[0], reply) + rest;
    }
  }

  /** All the homes that a run of a new store hands out. */
  ghost function Homes(ttl: nat, start: Instant, ops: seq<Op>): set<Home>
    requires Timed(start, ops)
  {
    InitCoherent(ttl, start);
    GivenIn(Init(ttl), start, ops)
  }

  /** In a whole run, one session and one home epoch belong to one worker, repeated claims included. */
  lemma HomesNeverShared(ttl: nat, start: Instant, ops: seq<Op>, g: Home, h: Home)
    requires Timed(start, ops) && g in Homes(ttl, start, ops) && h in Homes(ttl, start, ops)
    requires g.key == h.key && g.epoch == h.epoch
    ensures g.worker == h.worker
  {
    InitCoherent(ttl, start);
    RunKnown(Init(ttl), start, ops, {});
  }
}
