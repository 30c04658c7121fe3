/** The rows, leases and routes that `MemoryWorkStore` keeps, as one value. */
module Work {
  import opened Text

  type Id = string
  type Worker = string
  /** The digest of a lease token; a digest stands for its token. */
  type Token = string
  /** Milliseconds since the epoch. */
  type Instant = int

  datatype Lane = Interactive | Approval | Collaboration | Background

  datatype Class = Conversation | Operation

  datatype Status = Queued | Leased | Waiting | Succeeded | Partial | Blocked | Failed | Cancelled

  predicate Active(status: Status) { status.Queued? || status.Leased? || status.Waiting? }

  /**
   * A JSON field that should hold a string. `shown` is what `String(field)` gives for anything else: "undefined" if it
   * is absent.
   */
  datatype Field = Words(value: string) | Other(shown: string)

  function Shown(f: Field): string { if f.Words? then f.value else f.shown }

  /** The part of `meta` that the store reads; `rest` stands for everything else in it. */
  datatype Meta = Meta(parent: Field, dependsOn: seq<Id>, hasText: bool, class_: Option<Class>, rest: string)

  /** What the caller asked for; it never changes once a row holds it. */
  datatype Request = Request(tenant: string, agent: string, session: string, thread: Option<string>, kind: string,
                             lane: Lane, trigger: string, principal: Option<string>, priority: int, meta: Meta)

  datatype Goal = Satisfied | AwaitingInput | AwaitingApproval | Delegated | PartialGoal | BlockedGoal

  datatype Outcome = Outcome(goal: Goal, requestVersion: int)

  datatype Grant = Grant(token: Token, expires: Instant)

  datatype Row = Row(id: Id, request: Request, createdAt: Instant, availableAt: Instant, status: Status, fence: nat,
                     attempts: nat, preemptions: nat, grant: Option<Grant>, leasedBy: Option<Worker>,
                     cancelRequested: bool, preemptRequested: bool, steers: seq<string>, error: Option<string>,
                     outcome: Option<Outcome>)

  /** `sessionKeyOf`; a JSON array of strings and null determines its items. */
  datatype Key = Key(tenant: string, agent: string, session: string, thread: Option<string>)

  function KeyOf(q: Request): Key { Key(q.tenant, q.agent, q.session, q.thread) }

  datatype Route = Route(worker: Worker, homeEpoch: nat)

  datatype Lease = Lease(work: Id, fence: nat, expires: Instant)

  /** A set stands for the sorted list without repetitions that the store compares. */
  datatype Filter = Filter(kinds: Option<set<string>>, lanes: Option<set<Lane>>, class_: Option<Class>)

  datatype Item = Item(id: Id, fence: nat, homeEpoch: nat, request: Request, createdAt: Instant, availableAt: Instant,
                       attempts: nat, preemptions: nat, token: Token)

  datatype Claim = Claim(request: string, worker: Worker, work: Option<Item>, filter: Filter)

  /** `rows` and `order` together are the insertion-ordered map of rows; `claims` is one, oldest first. */
  datatype State = State(ttl: nat, rows: map<Id, Row>, order: seq<Id>, routes: map<Key, Route>,
                         leases: map<Key, Lease>, seen: map<Worker, Instant>, claims: seq<Claim>)

  datatype Proof = Proof(id: Id, fence: nat, token: Token)

  function LaneRank(lane: Lane): int {
    match lane case Interactive => 4 case Approval => 3 case Collaboration => 2 case Background => 1
  }

  function ClassOf(q: Request): Class {
    if q.meta.class_.Some? then q.meta.class_.value
    else if q.lane.Interactive? || q.lane.Approval? then Conversation
    else Operation
  }

  datatype Ending = Completed | EndedFailed | EndedCancelled

  /** `workStatusOf`. */
  function StatusOf(ending: Ending, outcome: Option<Outcome>): Status {
    match ending
    case EndedFailed => Failed
    case EndedCancelled => Cancelled
    case Completed =>
      if outcome.None? then Succeeded
      else
        match outcome.value.goal
        case AwaitingInput => Waiting
        case AwaitingApproval => Waiting
        case Delegated => Waiting
        case PartialGoal => Partial
        case BlockedGoal => Blocked
        case Satisfied => Succeeded
  }
}
