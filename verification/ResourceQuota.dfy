/** `ResourceQuota`: slots for running operations, with a queue served first come first served within its limits. */
module ResourceQuotas {
  import opened Folding

  datatype Priority = Foreground | Background

  /** A request for a slot; `throws` says that its operation fails as soon as it is started. */
  datatype Request = Request(ticket: nat, priority: Priority, throws: bool)

  /**
   * `running`, `started` and `next` are not kept by the class: the operations that hold a slot, all the requests that
   * were ever started, in that order, and the number of requests so far.
   */
  datatype Quota = Quota(capacity: int, maxQueued: nat, reserved: nat, active: int, background: int,
                         waiters: seq<Request>, running: map<nat, Priority>, started: seq<Request>, next: nat)

  /** What the constructor accepts. */
  predicate Proper(capacity: int, maxQueued: nat, reserved: nat) {
    1 <= capacity <= 1024 && maxQueued <= 1024 && reserved < capacity
  }

  function Empty(capacity: int, maxQueued: nat, reserved: nat): Quota {
    Quota(capacity, maxQueued, reserved, 0, 0, [], map[], [], 0)
  }

  predicate Available(q: Quota, p: Priority) {
    q.active < q.capacity && (p.Foreground? || q.background < q.capacity - q.reserved)
  }

  // ---- Steps ----

  /** A slot is taken. */
  function Begun(q: Quota, r: Request): Quota {
    q.(active := q.active + 1, background := q.background + if r.priority.Background? then 1 else 0,
       running := q.running[r.ticket := r.priority], started := q.started + [r])
  }

  /** A slot is given back. */
  function Ended(q: Quota, ticket: nat, p: Priority): Quota {
    q.(active := q.active - 1, background := q.background - if p.Background? then 1 else 0, running := q.running - {ticket})
  }

  function FirstEligible(q: Quota, i: nat): (k: nat)
    requires i <= |q.waiters|
    ensures i <= k <= |q.waiters| && (k < |q.waiters| ==> Available(q, q.waiters[k].priority))
    ensures forall j :: i <= j < k ==> !Available(q, q.waiters[j].priority)
    decreases |q.waiters| - i
  {
    if i == |q.waiters| || Available(q, q.waiters[i].priority) then i else FirstEligible(q, i + 1)
  }

  function Without(q: Quota, i: nat): Quota
    requires i < |q.waiters|
  {
    q.(waiters := q.waiters[..i] + q.waiters[i + 1..])
  }

  function Drained(q: Quota): Quota
    decreases |q.waiters|
  {
    var i := FirstEligible(q, 0);
    if i == |q.waiters| then q
    else
      var w := q.waiters[i];
      var t := Begun(Without(q, i), w);
      Drained(if w.throws then Ended(t, w.ticket, w.priority) else t)
  }

  function Started(q: Quota, r: Request): Quota {
    var t := Begun(q, r);
    if r.throws then Drained(Ended(t, r.ticket, r.priority)) else t
  }

  datatype Answer = Aborted | Full | Admitted

  /** `run`: `aborted` says that the caller's signal was aborted beforehand. */
  function Run(q: Quota, p: Priority, aborted: bool, throws: bool): (Quota, Answer) {
    var r := Request(q.next, p, throws);
    var t := q.(next := q.next + 1);
    if aborted then (t, Aborted)
    else if Available(q, p) && q.waiters == [] then (Started(t, r), Admitted)
    else if |q.waiters| >= q.maxQueued then (t, Full)
    else (Drained(t.(waiters := t.waiters + [r])), Admitted)
  }

  /** The operation settles, whether or not it was cancelled. */
  function Settled(q: Quota, ticket: nat): Quota {
    if ticket !in q.running then q else Drained(Ended(q, ticket, q.running[ticket]))
  }

  function PlaceOf(waiters: seq<Request>, ticket: nat): (i: nat)
    ensures i <= |waiters| && (i < |waiters| ==> waiters[i].ticket == ticket)
  {
    if waiters == [] || waiters[0].ticket == ticket then 0 else 1 + PlaceOf(waiters[1..], ticket)
  }

  /** The signal of a waiting request is aborted. */
  function Withdrawn(q: Quota, ticket: nat): Quota {
    var i := PlaceOf(q.waiters, ticket);
    if i < |q.waiters| then Without(q, i) else q
  }

  // ---- What every run keeps ----

  function Backgrounds(running: map<nat, Priority>): set<nat> { set t | t in running && running[t].Background? }

  /** The counters count, and stay within capacity. */
  predicate Counted(q: Quota) {
    && Proper(q.capacity, q.maxQueued, q.reserved)
    && q.active == |q.running| <= q.capacity
    && q.background == |Backgrounds(q.running)| <= q.capacity - q.reserved
  }

  /** No request waits while its class has room. */
  predicate Idle(q: Quota) { forall w <- q.waiters :: !Available(q, w.priority) }

  /** `a` may be started before `b`: it came first, or it is a foreground request and `b` is not. */
  predicate MayPrecede(a: Request, b: Request) {
    a.ticket < b.ticket || (a.priority.Foreground? && b.priority.Background?)
  }

  /** The queue is in order of arrival, and nothing was started out of turn. */
  predicate InTurn(q: Quota) {
    && (forall i, j :: 0 <= i < j < |q.waiters| ==> q.waiters[i].ticket < q.waiters[j].ticket)
    && (forall i, j :: 0 <= i < j < |q.started| ==> MayPrecede(q.started[i], q.started[j]))
    && (forall i, j :: 0 <= i < |q.started| && 0 <= j < |q.waiters| ==> MayPrecede(q.started[i], q.waiters[j]))
  }

  predicate Numbered(q: Quota) {
    && (forall w <- q.waiters :: w.ticket < q.next && w.ticket !in q.running)
    && (forall r <- q.started :: r.ticket < q.next)
    && (forall t <- q.running.Keys :: t < q.next)
  }

  predicate AllTidy(q: Quota) { Counted(q) && InTurn(q) && Numbered(q) && |q.waiters| <= q.maxQueued }

  /** All of it but `Idle`, which a drain restores. Folded. */
  ghost predicate Tidy(q: Quota) { forall n: nat :: Unfolding(n) ==> AllTidy(q) }

  lemma TidyIs(q: Quota)
    ensures Tidy(q) <==> AllTidy(q)
  {
    assert Unfolding(0);
  }

  /** The next ticket is nobody's yet. */
  lemma NextFresh(q: Quota)
    requires Tidy(q)
    ensures q.next !in q.running && (forall r <- q.started :: r.ticket < q.next) && (forall w <- q.waiters :: w.ticket < q.next)
  {
    TidyIs(q);
  }

  lemma OneMoreKey(running: map<nat, Priority>, ticket: nat, p: Priority)
    requires ticket !in running
    ensures |running[ticket := p]| == |running| + 1
  {
    assert running[ticket := p].Keys == running.Keys + {ticket};
  }

  lemma OneMoreBackground(running: map<nat, Priority>, ticket: nat, p: Priority)
    requires ticket !in running
    ensures |Backgrounds(running[ticket := p])| == |Backgrounds(running)| + if p.Background? then 1 else 0
  {
    var was, now := Backgrounds(running), Backgrounds(running[ticket := p]);
    var more := if p.Background? then {ticket} else {};
    assert now == was + more;
  }

  lemma BegunCounts(q: Quota, r: Request)
    requires Counted(q) && Available(q, r.priority) && r.ticket !in q.running
    ensures Counted(Begun(q, r))
  {
    OneMoreKey(q.running, r.ticket, r.priority);
    OneMoreBackground(q.running, r.ticket, r.priority);
  }

  lemma EndedCounts(q: Quota, ticket: nat)
    requires Counted(q) && ticket in q.running
    ensures Counted(Ended(q, ticket, q.running[ticket]))
  {
    var t := Ended(q, ticket, q.running[ticket]);
    assert t.running.Keys == q.running.Keys - {ticket};
    assert Backgrounds(t.running) == Backgrounds(q.running) - {ticket};
    assert q.running[ticket].Background? ==> ticket in Backgrounds(q.running);
  }

  lemma EndedTidy(q: Quota, ticket: nat)
    requires Tidy(q) && ticket in q.running
    ensures Tidy(Ended(q, ticket, q.running[ticket]))
  {
    assert Unfolding(0);
    EndedCounts(q, ticket);
  }

  lemma BegunTidy(q: Quota, r: Request)
    requires Tidy(q) && Available(q, r.priority) && r.ticket < q.next && r.ticket !in q.running
    requires forall s <- q.started :: MayPrecede(s, r)
    requires forall w <- q.waiters :: MayPrecede(r, w) && w.ticket != r.ticket
    ensures Tidy(Begun(q, r))
  {
    assert Unfolding(0);
    BegunCounts(q, r);
  }

  lemma WithoutTidy(q: Quota, i: nat)
    requires Tidy(q) && i < |q.waiters|
    ensures Tidy(Without(q, i))
    ensures forall w <- Without(q, i).waiters :: w in q.waiters && w.ticket != q.waiters[i].ticket
  {
    assert Unfolding(0);
    var t := Without(q, i);
    forall j | 0 <= j < |t.waiters|
      ensures t.waiters[j] == q.waiters[if j < i then j else j + 1]
    {
    }
  }

  /** The first eligible request has only background requests before it, and only if it is none itself. */
  lemma ChosenTidy(q: Quota, i: nat)
    requires Tidy(q) && i < |q.waiters| && Available(q, q.waiters[i].priority)
    requires forall j :: 0 <= j < i ==> !Available(q, q.waiters[j].priority)
    ensures Tidy(Begun(Without(q, i), q.waiters[i]))
  {
    assert Unfolding(0);
    WithoutTidy(q, i);
    var t, w := Without(q, i), q.waiters[i];
    forall x | x in t.waiters
      ensures MayPrecede(w, x) && x.ticket != w.ticket
    {
      var j :| 0 <= j < |q.waiters| && q.waiters[j] == x;
    }
    forall s | s in t.started
      ensures MayPrecede(s, w)
    {
      var k :| 0 <= k < |q.started| && q.started[k] == s;
    }
    BegunTidy(t, w);
  }

  predicate SameLimits(q: Quota, t: Quota) {
    t.capacity == q.capacity && t.maxQueued == q.maxQueued && t.reserved == q.reserved
  }

  /** A drain leaves nobody waiting for a slot that is free. */
  lemma {:induction false} DrainedTidy(q: Quota)
    requires Tidy(q)
    ensures Tidy(Drained(q)) && Idle(Drained(q)) && SameLimits(q, Drained(q))
    decreases |q.waiters|
  {
    var i := FirstEligible(q, 0);
    if i < |q.waiters| {
      var w := q.waiters[i];
      ChosenTidy(q, i);
      var t := Begun(Without(q, i), w);
      if w.throws { EndedTidy(t, w.ticket); }
      DrainedTidy(if w.throws then Ended(t, w.ticket, w.priority) else t);
    }
  }

  lemma CountedOn(q: Quota)
    requires Tidy(q)
    ensures var t := q.(next := q.next + 1); Tidy(t) && SameLimits(q, t) && (Idle(q) ==> Idle(t))
  {
    assert Unfolding(0);
  }

  lemma QueuedTidy(q: Quota, r: Request)
    requires Tidy(q) && |q.waiters| < q.maxQueued && r.ticket < q.next && r.ticket !in q.running
    requires (forall s <- q.started :: s.ticket < r.ticket) && forall w <- q.waiters :: w.ticket < r.ticket
    ensures Tidy(q.(waiters := q.waiters + [r]))
  {
    assert Unfolding(0);
  }

  lemma StartedKeeps(q: Quota, r: Request)
    requires Tidy(q) && Idle(q) && q.waiters == [] && Available(q, r.priority) && r.ticket < q.next && r.ticket !in q.running
    requires forall s <- q.started :: MayPrecede(s, r)
    ensures Tidy(Started(q, r)) && Idle(Started(q, r)) && SameLimits(q, Started(q, r))
  {
    BegunTidy(q, r);
    if r.throws {
      EndedTidy(Begun(q, r), r.ticket);
      DrainedTidy(Ended(Begun(q, r), r.ticket, r.priority));
    }
  }

  lemma AskedKeeps(q: Quota, p: Priority, throws: bool)
    requires Tidy(q) && Idle(q) && Available(q, p) && q.waiters == []
    ensures var t := Run(q, p, false, throws).0; Tidy(t) && Idle(t) && SameLimits(q, t)
  {
    CountedOn(q);
    NextFresh(q);
    StartedKeeps(q.(next := q.next + 1), Request(q.next, p, throws));
  }

  lemma QueuedKeeps(q: Quota, p: Priority, throws: bool)
    requires Tidy(q) && !(Available(q, p) && q.waiters == []) && |q.waiters| < q.maxQueued
    ensures var t := Run(q, p, false, throws).0; Tidy(t) && Idle(t) && SameLimits(q, t)
  {
    var r := Request(q.next, p, throws);
    var t := q.(next := q.next + 1);
    CountedOn(q);
    NextFresh(q);
    QueuedTidy(t, r);
    DrainedTidy(t.(waiters := t.waiters + [r]));
  }

  lemma TurnedAwayKeeps(q: Quota, p: Priority, aborted: bool, throws: bool)
    requires Tidy(q) && Idle(q) && (aborted || (!(Available(q, p) && q.waiters == []) && |q.waiters| >= q.maxQueued))
    ensures var t := Run(q, p, aborted, throws).0; Tidy(t) && Idle(t) && SameLimits(q, t)
  {
    CountedOn(q);
  }

  lemma RunKeeps(q: Quota, p: Priority, aborted: bool, throws: bool)
    requires Tidy(q) && Idle(q)
    ensures var t := Run(q, p, aborted, throws).0; Tidy(t) && Idle(t) && SameLimits(q, t)
  {
    if !aborted && Available(q, p) && q.waiters == [] {
      AskedKeeps(q, p, throws);
    } else if !aborted && |q.waiters| < q.maxQueued {
      QueuedKeeps(q, p, throws);
    } else {
      TurnedAwayKeeps(q, p, aborted, throws);
    }
  }

  lemma SettledKeeps(q: Quota, ticket: nat)
    requires Tidy(q) && Idle(q)
    ensures Tidy(Settled(q, ticket)) && Idle(Settled(q, ticket)) && SameLimits(q, Settled(q, ticket))
  {
    if ticket in q.running {
      EndedTidy(q, ticket);
      DrainedTidy(Ended(q, ticket, q.running[ticket]));
    }
  }

  lemma WithdrawnKeeps(q: Quota, ticket: nat)
    requires Tidy(q) && Idle(q)
    ensures Tidy(Withdrawn(q, ticket)) && Idle(Withdrawn(q, ticket))
  {
    var i := PlaceOf(q.waiters, ticket);
    if i < |q.waiters| { WithoutTidy(q, i); }
  }

  // ---- Runs ----

  datatype Event = Asking(priority: Priority, aborted: bool, throws: bool) | Settling(ticket: nat) | Withdrawing(ticket: nat)

  function Step(q: Quota, e: Event): Quota {
    match e
    case Asking(p, aborted, throws) => Run(q, p, aborted, throws).0
    case Settling(ticket) => Settled(q, ticket)
    case Withdrawing(ticket) => Withdrawn(q, ticket)
  }

  function Steps(q: Quota, events: seq<Event>): Quota
    decreases |events|
  {
    if events == [] then q else Steps(Step(q, events[0]), events[1..])
  }

  lemma {:induction false} StepsKeep(q: Quota, events: seq<Event>)
    requires Tidy(q) && Idle(q)
    ensures Tidy(Steps(q, events)) && Idle(Steps(q, events)) && SameLimits(q, Steps(q, events))
    decreases |events|
  {
    if events != [] {
      match events[0] {
        case Asking(p, aborted, throws) => RunKeeps(q, p, aborted, throws);
        case Settling(ticket) => SettledKeeps(q, ticket);
        case Withdrawing(ticket) => WithdrawnKeeps(q, ticket);
      }
      StepsKeep(Step(q, events[0]), events[1..]);
    }
  }

  lemma EmptyTidy(capacity: int, maxQueued: nat, reserved: nat)
    requires Proper(capacity, maxQueued, reserved)
    ensures Tidy(Empty(capacity, maxQueued, reserved)) && Idle(Empty(capacity, maxQueued, reserved))
  {
    assert Backgrounds(map[]) == {};
  }

  /**
   * In every run the counters are the numbers of unsettled operations, within capacity and within the share that is
   * not reserved; nobody waits while there is room for it; and of two requests the later one is started first only if
   * it is a foreground request that passes a background one.
   */
  lemma QuotaHolds(capacity: int, maxQueued: nat, reserved: nat, events: seq<Event>)
    requires Proper(capacity, maxQueued, reserved)
    ensures var q := Steps(Empty(capacity, maxQueued, reserved), events);
            Counted(q) && Idle(q) && InTurn(q) && SameLimits(Empty(capacity, maxQueued, reserved), q)
  {
    EmptyTidy(capacity, maxQueued, reserved);
    StepsKeep(Empty(capacity, maxQueued, reserved), events);
    TidyIs(Steps(Empty(capacity, maxQueued, reserved), events));
  }

  /** A waiting foreground request means that every slot is taken. */
  lemma ForegroundWaitsForSlot(capacity: int, maxQueued: nat, reserved: nat, events: seq<Event>, w: Request)
    requires Proper(capacity, maxQueued, reserved)
    requires w in Steps(Empty(capacity, maxQueued, reserved), events).waiters
    ensures var q := Steps(Empty(capacity, maxQueued, reserved), events);
            && (w.priority.Foreground? ==> q.active == capacity)
            && (w.priority.Background? ==> q.active == capacity || q.background == capacity - reserved)
  {
    QuotaHolds(capacity, maxQueued, reserved, events);
    assert !Available(Steps(Empty(capacity, maxQueued, reserved), events), w.priority);
  }

  /**
   * When a request is refused. A full queue refuses a foreground request although a slot is free for it exactly when
   * everything that waits is in the background and held up by the reservation alone.
   */
  lemma RefusedExactly(q: Quota, p: Priority, throws: bool)
    requires Tidy(q) && Idle(q)
    ensures Run(q, p, false, throws).1 == Full <==> |q.waiters| == q.maxQueued && (q.waiters == [] ==> !Available(q, p))
    ensures Run(q, Foreground, false, throws).1 == Full && Available(q, Foreground)
            <==> && |q.waiters| == q.maxQueued > 0 && q.active < q.capacity && q.background == q.capacity - q.reserved
                 && forall w <- q.waiters :: w.priority.Background?
  {
    TidyIs(q);
    assert q.waiters != [] ==> q.waiters[0] in q.waiters;
  }

  /** It does happen: two slots, one of them reserved, one place in the queue. */
  lemma RefusedWithFreeSlot()
    ensures var q := Steps(Empty(2, 1, 1), [Asking(Background, false, false), Asking(Background, false, false)]);
            q.active == 1 && Available(q, Foreground) && Run(q, Foreground, false, false).1 == Full
  {
    var q0 := Empty(2, 1, 1);
    var q1 := Step(q0, Asking(Background, false, false));
    var q2 := Step(q1, Asking(Background, false, false));
    var e := Asking(Background, false, false);
    assert Steps(q0, [e, e]) == q2 by {
      assert [e, e][1..] == [e];
      assert [e][1..] == [];
      assert Steps(q1, [e]) == Steps(q2, []);
    }
    assert q1.active == 1 && q1.background == 1 && q1.waiters == [];
    assert q2.waiters == [Request(1, Background, false)];
  }

  // ---- What becomes of each request ----

  /** The request still waits, or it was started: then it holds a slot unless its operation threw at once. */
  predicate Served(t: Quota, r: Request) {
    if r in t.waiters then r.ticket !in t.running
    else r in t.started && (if r.throws then r.ticket !in t.running else r.ticket in t.running && t.running[r.ticket] == r.priority)
  }

  /** The operation holds its slot as before, or holds none as before. */
  predicate SameHold(q: Quota, t: Quota, ticket: nat) {
    (ticket in t.running <==> ticket in q.running) && (ticket in q.running ==> t.running[ticket] == q.running[ticket])
  }

  /** The queue after its first eligible request was started. */
  function OneStarted(q: Quota, i: nat): Quota
    requires i < |q.waiters|
  {
    var w := q.waiters[i];
    var t := Begun(Without(q, i), w);
    if w.throws then Ended(t, w.ticket, w.priority) else t
  }

  lemma OneStartedTidy(q: Quota, i: nat)
    requires Tidy(q) && i < |q.waiters| && i == FirstEligible(q, 0)
    ensures Tidy(OneStarted(q, i)) && Drained(q) == Drained(OneStarted(q, i)) && |OneStarted(q, i).waiters| < |q.waiters|
  {
    ChosenTidy(q, i);
    var w := q.waiters[i];
    if w.throws { EndedTidy(Begun(Without(q, i), w), w.ticket); }
  }

  lemma OneStartedLeaves(q: Quota, i: nat, w: Request)
    requires Tidy(q) && i < |q.waiters|
    ensures w in OneStarted(q, i).waiters <==> w in q.waiters && w != q.waiters[i]
  {
    WithoutTidy(q, i);
    if w in q.waiters && w != q.waiters[i] {
      var j :| 0 <= j < |q.waiters| && q.waiters[j] == w;
      assert Without(q, i).waiters[if j < i then j else j - 1] == w;
    }
  }

  predicate Waits(q: Quota, ticket: nat) { exists w <- q.waiters :: w.ticket == ticket }

  /** A drain changes nothing for those that do not wait. */
  lemma {:induction false} DrainedOthers(q: Quota, ticket: nat)
    requires Tidy(q) && !Waits(q, ticket)
    ensures SameHold(q, Drained(q), ticket) && !Waits(Drained(q), ticket)
    decreases |q.waiters|
  {
    var i := FirstEligible(q, 0);
    if i < |q.waiters| {
      OneStartedTidy(q, i);
      var t := OneStarted(q, i);
      assert !Waits(t, ticket) && SameHold(q, t, ticket) by {
        WithoutTidy(q, i);
        assert q.waiters[i] in q.waiters;
      }
      DrainedOthers(t, ticket);
    }
  }

  lemma {:induction false} DrainedAdds(q: Quota)
    ensures q.started <= Drained(q).started && Drained(q).next == q.next
    decreases |q.waiters|
  {
    var i := FirstEligible(q, 0);
    if i < |q.waiters| { DrainedAdds(OneStarted(q, i)); }
  }

  /** A drain loses nobody that waits, and starts nobody twice. */
  lemma {:induction false} DrainedServes(q: Quota, r: Request)
    requires Tidy(q) && r in q.waiters
    ensures Served(Drained(q), r)
    decreases |q.waiters|
  {
    var i := FirstEligible(q, 0);
    if i == |q.waiters| {
      TidyIs(q);
    } else {
      OneStartedTidy(q, i);
      OneStartedLeaves(q, i, r);
      if r == q.waiters[i] { ChosenServed(q, i); } else { DrainedServes(OneStarted(q, i), r); }
    }
  }

  lemma ChosenServed(q: Quota, i: nat)
    requires Tidy(q) && i < |q.waiters| && i == FirstEligible(q, 0)
    ensures Served(Drained(q), q.waiters[i])
  {
    var t, r := OneStarted(q, i), q.waiters[i];
    OneStartedTidy(q, i);
    WithoutTidy(q, i);
    assert !Waits(t, r.ticket);
    DrainedOthers(t, r.ticket);
    DrainedAdds(t);
    assert t.started[|t.started| - 1] == r;
  }

  /** A slot is free for a request of this class. */
  predicate HasRoom(q: Quota, p: Priority) {
    q.active < q.capacity && (p == Background ==> q.background < q.capacity - q.reserved)
  }

  /** Every request that waited is served, and every operation but `ticket` holds what it held. */
  ghost predicate AllServed(q: Quota, t: Quota, ticket: nat) {
    (forall w <- q.waiters :: Served(t, w)) && (forall k <- q.running.Keys :: k != ticket ==> SameHold(q, t, k))
  }

  lemma DrainedAll(q: Quota)
    requires Tidy(q)
    ensures AllServed(q, Drained(q), q.next) && Drained(q).next == q.next
  {
    forall w | w in q.waiters
      ensures Served(Drained(q), w)
    {
      DrainedServes(q, w);
    }
    forall k | k in q.running.Keys
      ensures SameHold(q, Drained(q), k)
    {
      TidyIs(q);
      DrainedOthers(q, k);
    }
    DrainedAdds(q);
  }

  /** Which requests are admitted; one that is turned away changes nothing but the count. */
  lemma AdmitExactly(q: Quota, p: Priority, aborted: bool, throws: bool)
    ensures var (t, answer) := Run(q, p, aborted, throws);
            && answer == (if aborted then Aborted
                          else if HasRoom(q, p) && q.waiters == [] then Admitted
                          else if |q.waiters| >= q.maxQueued then Full
                          else Admitted)
            && (answer != Admitted ==> t == q.(next := q.next + 1))
  {
  }

  lemma StartedServed(q: Quota, r: Request)
    requires Tidy(q) && q.waiters == [] && r.ticket !in q.running
    ensures Served(Started(q, r), r) && AllServed(q, Started(q, r), q.next) && Started(q, r).next == q.next
  {
    var t := Begun(q, r);
    assert t.started[|t.started| - 1] == r;
    assert Drained(Ended(t, r.ticket, r.priority)) == Ended(t, r.ticket, r.priority);
  }

  lemma QueuedServed(q: Quota, r: Request)
    requires Tidy(q.(waiters := q.waiters + [r]))
    ensures var t := Drained(q.(waiters := q.waiters + [r])); Served(t, r) && AllServed(q, t, q.next) && t.next == q.next
  {
    var m := q.(waiters := q.waiters + [r]);
    assert m.waiters[|q.waiters|] == r;
    DrainedAll(m);
    TidyIs(m);
    assert forall w <- q.waiters :: w in m.waiters;
  }

  /** An admitted request is served now or waits, and so does everybody that waited before it. */
  lemma AskServes(q: Quota, p: Priority, throws: bool)
    requires Tidy(q) && Idle(q) && Run(q, p, false, throws).1 == Admitted
    ensures var t := Run(q, p, false, throws).0;
            Served(t, Request(q.next, p, throws)) && AllServed(q, t, q.next) && t.next == q.next + 1
  {
    var r := Request(q.next, p, throws);
    var n := q.(next := q.next + 1);
    CountedOn(q);
    NextFresh(q);
    NextFresh(n);
    var t := Run(q, p, false, throws).0;
    if Available(q, p) && q.waiters == [] {
      StartedServed(n, r);
      assert t == Started(n, r);
    } else {
      QueuedTidy(n, r);
      QueuedServed(n, r);
      assert t == Drained(n.(waiters := n.waiters + [r]));
    }
    Renumbered(q, n, t);
  }

  lemma Renumbered(q: Quota, n: Quota, t: Quota)
    requires n == q.(next := q.next + 1) && AllServed(n, t, n.next) && q.next !in q.running && n.next !in q.running
    ensures AllServed(q, t, q.next)
  {
    forall k | k in q.running.Keys
      ensures SameHold(q, t, k)
    {
      assert k in n.running.Keys && SameHold(n, t, k);
    }
  }

  /** An operation that settles gives up its slot for good; the others keep theirs, and those that waited are served. */
  lemma SettleExactly(q: Quota, ticket: nat)
    requires Tidy(q) && Idle(q)
    ensures var t := Settled(q, ticket);
            if ticket !in q.running then t == q
            else ticket !in t.running && AllServed(q, t, ticket) && t.next == q.next
  {
    if ticket in q.running {
      var m := Ended(q, ticket, q.running[ticket]);
      EndedTidy(q, ticket);
      DrainedAll(m);
      assert !Waits(m, ticket) by { TidyIs(q); }
      DrainedOthers(m, ticket);
      EndedHolds(q, ticket, Drained(m));
    }
  }

  lemma EndedHolds(q: Quota, ticket: nat, t: Quota)
    requires Tidy(q) && ticket in q.running && AllServed(Ended(q, ticket, q.running[ticket]), t, q.next)
    ensures AllServed(q, t, ticket)
  {
    NextFresh(q);
    var m := Ended(q, ticket, q.running[ticket]);
    forall k | k in q.running.Keys && k != ticket
      ensures SameHold(q, t, k)
    {
      assert k in m.running.Keys && SameHold(m, t, k);
    }
  }

  /** An aborted request leaves the queue, where the others keep their places; nothing else changes. */
  lemma WithdrawExactly(q: Quota, ticket: nat)
    requires Tidy(q)
    ensures var t := Withdrawn(q, ticket);
            && t == q.(waiters := t.waiters)
            && (forall w :: w in t.waiters <==> w in q.waiters && w.ticket != ticket)
            && forall i, j :: 0 <= i < j < |t.waiters| ==> t.waiters[i].ticket < t.waiters[j].ticket
  {
    var i := PlaceOf(q.waiters, ticket);
    if i < |q.waiters| {
      WithoutTidy(q, i);
      forall w
        ensures w in Without(q, i).waiters <==> w in q.waiters && w.ticket != ticket
      {
        OneStartedLeaves(q, i, w);
        if w in q.waiters && w.ticket == ticket { OneTicket(q, w, q.waiters[i]); }
      }
      TidyIs(Without(q, i));
    } else {
      TidyIs(q);
      NotThere(q.waiters, ticket);
    }
  }

  lemma OneTicket(q: Quota, a: Request, b: Request)
    requires Tidy(q) && a in q.waiters && b in q.waiters && a.ticket == b.ticket
    ensures a == b
  {
    TidyIs(q);
  }

  lemma {:induction false} NotThere(waiters: seq<Request>, ticket: nat)
    requires PlaceOf(waiters, ticket) == |waiters|
    ensures forall w <- waiters :: w.ticket != ticket
    decreases |waiters|
  {
    if waiters != [] {
      NotThere(waiters[1..], ticket);
      assert waiters == [waiters[0]] + waiters[1..];
    }
  }

  // ---- The class ----

  class ResourceQuota {
    const capacity: int
    const maxQueued: nat
    const reservedForeground: nat
    var active: int
    var background: int
    var waiters: seq<Request>
    ghost var running: map<nat, Priority>
    ghost var started: seq<Request>
    var next: nat

    ghost function Contents(): Quota
      reads this
    {
      Quota(capacity, maxQueued, reservedForeground, active, background, waiters, running, started, next)
    }

    constructor (capacity: int, maxQueued: nat, reservedForeground: nat)
      requires Proper(capacity, maxQueued, reservedForeground)
      ensures Contents() == Empty(capacity, maxQueued, reservedForeground)
    {
      this.capacity, this.maxQueued, this.reservedForeground := capacity, maxQueued, reservedForeground;
      active, background, waiters := 0, 0, [];
      running, started, next := map[], [], 0;
    }

    method IsAvailable(priority: Priority) returns (available: bool)
      ensures available == Available(Contents(), priority)
    {
      return active < capacity && (priority.Foreground? || background < capacity - reservedForeground);
    }

    method FindEligible() returns (index: nat)
      ensures index == FirstEligible(Contents(), 0)
    {
      index := 0;
      while index < |waiters|
        invariant index <= |waiters| && FirstEligible(Contents(), index) == FirstEligible(Contents(), 0)
      {
        var available := IsAvailable(waiters[index].priority);
        if available { return; }
        index := index + 1;
      }
    }

    /** Takes the slot; an operation that throws at once gives it back and drains the queue from inside. */
    method Start(request: Request)
      modifies this
      ensures Contents() == Started(old(Contents()), request)
      decreases |waiters|, 1
    {
      active := active + 1;
      if request.priority.Background? { background := background + 1; }
      running, started := running[request.ticket := request.priority], started + [request];
      if request.throws { Release(request.ticket, request.priority); }
    }

    method Release(ticket: nat, priority: Priority)
      modifies this
      ensures Contents() == Drained(Ended(old(Contents()), ticket, priority))
      decreases |waiters|, 0, 1
    {
      active := active - 1;
      if priority.Background? { background := background - 1; }
      running := running - {ticket};
      ghost var ended := Ended(old(Contents()), ticket, priority);
      assert Contents() == ended;
      Drain();
      assert Contents() == Drained(ended);
    }

    method Drain()
      modifies this
      ensures Contents() == Drained(old(Contents()))
      decreases |waiters|, 0, 0
    {
      var index := FindEligible();
      while index < |waiters|
        invariant index == FirstEligible(Contents(), 0)
        invariant |waiters| <= |old(waiters)|
        invariant Drained(Contents()) == Drained(old(Contents()))
        decreases |waiters|
      {
        var request := waiters[index];
        ghost var before := Contents();
        waiters := waiters[..index] + waiters[index + 1..];
        assert Contents() == Without(before, index);
        Start(request);
        DrainedShrinks(Ended(Begun(Without(before, index), request), request.ticket, request.priority));
        DrainedTwice(Ended(Begun(Without(before, index), request), request.ticket, request.priority));
        index := FindEligible();
      }
    }

    method RunOperation(priority: Priority, aborted: bool, throws: bool) returns (answer: Answer)
      modifies this
      ensures (Contents(), answer) == Run(old(Contents()), priority, aborted, throws)
    {
      var request := Request(next, priority, throws);
      next := next + 1;
      if aborted { return Aborted; }
      var available := IsAvailable(priority);
      if available && |waiters| == 0 {
        Start(request);
        return Admitted;
      }
      if |waiters| >= maxQueued { return Full; }
      waiters := waiters + [request];
      Drain();
      return Admitted;
    }

    method Abort(ticket: nat)
      modifies this`waiters
      ensures Contents() == Withdrawn(old(Contents()), ticket)
    {
      var index := 0;
      while index < |waiters| && waiters[index].ticket != ticket
        invariant index <= |waiters| && PlaceOf(waiters, ticket) == index + PlaceOf(waiters[index..], ticket)
      {
        assert waiters[index..][1..] == waiters[index + 1..];
        index := index + 1;
      }
      if index < |waiters| { waiters := waiters[..index] + waiters[index + 1..]; }
    }
  }

  lemma {:induction false} DrainedShrinks(q: Quota)
    ensures |Drained(q).waiters| <= |q.waiters|
    decreases |q.waiters|
  {
    var i := FirstEligible(q, 0);
    if i < |q.waiters| {
      var w := q.waiters[i];
      var t := Begun(Without(q, i), w);
      DrainedShrinks(if w.throws then Ended(t, w.ticket, w.priority) else t);
    }
  }

  lemma {:induction false} DrainedTwice(q: Quota)
    ensures Drained(Drained(q)) == Drained(q)
    decreases |q.waiters|
  {
    var i := FirstEligible(q, 0);
    if i < |q.waiters| {
      var w := q.waiters[i];
      var t := Begun(Without(q, i), w);
      DrainedTwice(if w.throws then Ended(t, w.ticket, w.priority) else t);
    }
  }
}
