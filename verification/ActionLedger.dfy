/** `MemoryActionLedger`, and `executeAction` as interleaved calls that may stop at any await. */
module ActionLedgers {
  import opened Text

  type Key = string
  type Print = string

  datatype State = Succeeded | NoEffect | Unknown

  /** What an action came to; `approval` marks one that waits for a decision. */
  datatype Receipt = Receipt(state: State, approval: bool, value: string)

  const NO_RECEIPT := Receipt(Unknown, false, "action intent exists without a receipt; reconcile before retrying")

  /** A digest of key and result names a readback, and stands here for itself; an operator gives a name. */
  datatype ResolutionId = Native(key: Key, result: Receipt) | Given(name: string)

  /** `evidence` stands for who resolved it and on what grounds. */
  datatype Resolution = Resolution(id: ResolutionId, key: Key, result: Receipt, evidence: string)

  datatype Ledger = Ledger(intents: map<Key, Print>, results: map<Key, Receipt>, resolutions: map<Key, seq<Resolution>>,
                           ids: map<ResolutionId, Resolution>)

  datatype Reservation = Started | Existing | Mismatch

  function Reserve(l: Ledger, key: Key, print_: Print): (Ledger, Reservation) {
    if key in l.intents then (l, if l.intents[key] == print_ then Existing else Mismatch)
    else (l.(intents := l.intents[key := print_]), Started)
  }

  /** `effectiveResult`: the last resolution, or else the receipt. */
  function Find(l: Ledger, key: Key): Option<Receipt> {
    if key in l.resolutions && l.resolutions[key] != [] then Some(l.resolutions[key][|l.resolutions[key]| - 1].result)
    else if key in l.results then Some(l.results[key])
    else None
  }

  /** Nothing stands for the error of a receipt without an intent. */
  function Record(l: Ledger, key: Key, r: Receipt): Option<(Ledger, Receipt)> {
    if key !in l.intents then None
    else if key in l.results && !l.results[key].approval then Some((l, l.results[key]))
    else Some((l.(results := l.results[key := r]), r))
  }

  function Resolutions(l: Ledger, key: Key): seq<Resolution> { if key in l.resolutions then l.resolutions[key] else [] }

  datatype Verdict = Recorded | Known | NoIntent | Reused

  function Resolve(l: Ledger, r: Resolution): (Ledger, Verdict) {
    if r.key !in l.intents then (l, NoIntent)
    else if r.id in l.ids then (l, if l.ids[r.id] == r then Known else Reused)
    else (l.(ids := l.ids[r.id := r], resolutions := l.resolutions[r.key := Resolutions(l, r.key) + [r]]), Recorded)
  }

  /** What `reconcileNative` records. */
  function Readback(key: Key, r: Receipt): Resolution { Resolution(Native(key, r), key, r, "native_reconciliation") }

  class MemoryActionLedger {
    var intents: map<Key, Print>
    var results: map<Key, Receipt>
    var resolutions: map<Key, seq<Resolution>>
    var ids: map<ResolutionId, Resolution>

    ghost function Contents(): Ledger
      reads this
    {
      Ledger(intents, results, resolutions, ids)
    }

    constructor ()
      ensures Contents() == Ledger(map[], map[], map[], map[])
    {
      intents, results, resolutions, ids := map[], map[], map[], map[];
    }

    method ReserveIntent(key: Key, print_: Print) returns (reservation: Reservation)
      modifies this`intents
      ensures (Contents(), reservation) == Reserve(old(Contents()), key, print_)
    {
      if key in intents { return if intents[key] == print_ then Existing else Mismatch; }
      intents := intents[key := print_];
      return Started;
    }

    method FindReceipt(key: Key) returns (receipt: Option<Receipt>)
      ensures receipt == Find(Contents(), key)
    {
      if key in resolutions && |resolutions[key]| > 0 { return Some(resolutions[key][|resolutions[key]| - 1].result); }
      return if key in results then Some(results[key]) else None;
    }

    method RecordReceipt(key: Key, receipt: Receipt) returns (recorded: Option<Receipt>)
      modifies this`results
      ensures match Record(old(Contents()), key, receipt)
              case None => recorded == None && Contents() == old(Contents())
              case Some((l, r)) => recorded == Some(r) && Contents() == l
    {
      if key !in intents { return None; }
      if key in results && !results[key].approval { return Some(results[key]); }
      results := results[key := receipt];
      return Some(receipt);
    }

    method RecordResolution(r: Resolution) returns (verdict: Verdict)
      modifies this`resolutions, this`ids
      ensures (Contents(), verdict) == Resolve(old(Contents()), r)
    {
      if r.key !in intents { return NoIntent; }
      if r.id in ids { return if ids[r.id] == r then Known else Reused; }
      ids := ids[r.id := r];
      var prior: seq<Resolution> := if r.key in resolutions then resolutions[r.key] else [];
      resolutions := resolutions[r.key := prior + [r]];
      return Recorded;
    }
  }

  // ---- executeAction, await by await ----

  type Call = nat

  /** Where a call stands; a call that crashed stands nowhere. */
  datatype At =
    | Starting
    | Reserved(first: bool)
    | Reconciling(instead: Receipt)
    | Entering
    | Inside
    | Done(answer: Receipt)

  datatype Frame = Frame(key: Key, print_: Print, at: At)

  /** `entries` lists every entry into the executor; `begun` counts the calls so far. */
  datatype System = System(ledger: Ledger, frames: map<Call, Frame>, entries: seq<(Key, Call)>, begun: nat)

  datatype Event =
    | Begin(key: Key, print_: Print)
    | Reserving(call: Call)
    | Looking(call: Call)
    | ReadingBack(call: Call, found: Option<Receipt>)
    | Enter(call: Call)
    | Leave(call: Call, result: Receipt)
    | Crash(call: Call)
    | Resolving(resolution: Resolution)

  function Move(s: System, call: Call, at: At): System
    requires call in s.frames
  {
    s.(frames := s.frames[call := s.frames[call].(at := at)])
  }

  /** Native readback counts only when it settles the action. */
  predicate Settles(r: Receipt) { !r.approval && !r.state.Unknown? }

  /** `uncertain` says of a key that its tool's effect is uncertain; the tool contract of an intent cannot change. */
  function Step(uncertain: Key -> bool, s: System, e: Event): System {
    match e
    case Begin(key, print_) => s.(frames := s.frames[s.begun := Frame(key, print_, Starting)], begun := s.begun + 1)
    case Crash(call) => s.(frames := s.frames - {call})
    case Reserving(call) =>
      if call !in s.frames || !s.frames[call].at.Starting? then s
      else
        var f := s.frames[call];
        var (l, reservation) := Reserve(s.ledger, f.key, f.print_);
        if reservation.Mismatch? then s.(frames := s.frames - {call})
        else Move(s, call, Reserved(reservation.Started?)).(ledger := l)
    case Looking(call) =>
      if call !in s.frames || !s.frames[call].at.Reserved? then s
      else
        var f := s.frames[call];
        var replayed := Find(s.ledger, f.key);
        if replayed.Some? && !replayed.value.approval then
          Move(s, call, if replayed.value.state.Unknown? then Reconciling(replayed.value) else Done(replayed.value))
        else if !f.at.first && uncertain(f.key) then Move(s, call, Reconciling(NO_RECEIPT))
        else Move(s, call, Entering)
    case ReadingBack(call, found) =>
      if call !in s.frames || !s.frames[call].at.Reconciling? then s
      else
        var f := s.frames[call];
        if found.None? || !Settles(found.value) then Move(s, call, Done(f.at.instead))
        else
          var (l, verdict) := Resolve(s.ledger, Readback(f.key, found.value));
          if verdict.NoIntent? || verdict.Reused? then s.(frames := s.frames - {call})
          else Move(s, call, Done(found.value)).(ledger := l)
    case Enter(call) =>
      if call !in s.frames || !s.frames[call].at.Entering? then s
      else Move(s, call, Inside).(entries := s.entries + [(s.frames[call].key, call)])
    case Leave(call, result) =>
      if call !in s.frames || !s.frames[call].at.Inside? then s
      else
        var r := Record(s.ledger, s.frames[call].key, result);
        if r.None? then s.(frames := s.frames - {call}) else Move(s, call, Done(r.value.1)).(ledger := r.value.0)
    case Resolving(r) => s.(ledger := Resolve(s.ledger, r).0)
  }

  function Run(uncertain: Key -> bool, s: System, events: seq<Event>): System
    decreases |events|
  {
    if events == [] then s else Run(uncertain, Step(uncertain, s, events[0]), events[1..])
  }

  const IDLE := System(Ledger(map[], map[], map[], map[]), map[], [], 0)

  // ---- The invariant ----

  /** The call may still enter the executor because it was the one that reserved the key. */
  predicate MayEnter(f: Frame) { f.at == Reserved(true) || f.at.Entering? }

  predicate Entered(s: System, key: Key) { exists i :: 0 <= i < |s.entries| && s.entries[i].0 == key }

  /** Some resolution of the key says so. */
  predicate Resolved(l: Ledger, key: Key, r: Receipt) {
    exists i :: 0 <= i < |Resolutions(l, key)| && Resolutions(l, key)[i].result == r
  }

  /** What a finished call on an uncertain key answered: the receipt, a resolution, or that it is not known. */
  predicate Explained(l: Ledger, key: Key, r: Receipt) {
    r == NO_RECEIPT || (key in l.results && l.results[key] == r) || Resolved(l, key, r)
  }

  /** The resolutions under a key are its own, and each of them is the one that its id names. */
  predicate ListFits(resolutions: map<Key, seq<Resolution>>, ids: map<ResolutionId, Resolution>, key: Key)
    requires key in resolutions
  {
    && (forall r <- resolutions[key] :: r.key == key && r.id in ids && ids[r.id] == r)
    && (forall i, j :: 0 <= i < j < |resolutions[key]| ==> resolutions[key][i].id != resolutions[key][j].id)
  }

  predicate IdsFit(resolutions: map<Key, seq<Resolution>>, ids: map<ResolutionId, Resolution>) {
    && (forall id <- ids.Keys :: ids[id].id == id && ids[id].key in resolutions && ids[id] in resolutions[ids[id].key])
    && (forall key <- resolutions.Keys :: ListFits(resolutions, ids, key))
  }

  predicate FrameFits(uncertain: Key -> bool, s: System, call: Call)
    requires call in s.frames
  {
    var f := s.frames[call];
    && call < s.begun
    && (!f.at.Starting? ==> f.key in s.ledger.intents)
    && (uncertain(f.key) ==>
          && (MayEnter(f) ==> !Entered(s, f.key))
          && (f.at.Inside? ==> Entered(s, f.key) && f.key !in s.ledger.results)
          && (f.at.Done? ==> Explained(s.ledger, f.key, f.at.answer))
          && (f.at.Reconciling? ==> Explained(s.ledger, f.key, f.at.instead)))
  }

  predicate Holds(f: Frame) { MayEnter(f) || f.at.Inside? }

  /** At most one call holds the right to enter, or is inside, for an uncertain key. */
  predicate OneHolder(uncertain: Key -> bool, s: System) {
    forall a, b :: a in s.frames && b in s.frames && a != b && Holds(s.frames[a]) && Holds(s.frames[b]) ==>
      s.frames[a].key != s.frames[b].key || !uncertain(s.frames[a].key)
  }

  predicate LedgerFits(uncertain: Key -> bool, s: System) {
    && (forall i :: 0 <= i < |s.entries| ==> s.entries[i].0 in s.ledger.intents)
    && (forall key <- s.ledger.results.Keys :: key in s.ledger.intents && (uncertain(key) ==> Entered(s, key)))
    && IdsFit(s.ledger.resolutions, s.ledger.ids)
  }

  predicate OneEntry(uncertain: Key -> bool, s: System) {
    forall i, j :: 0 <= i < j < |s.entries| && s.entries[i].0 == s.entries[j].0 ==> !uncertain(s.entries[i].0)
  }

  ghost predicate Sound(uncertain: Key -> bool, s: System) {
    && (forall call <- s.frames.Keys :: FrameFits(uncertain, s, call))
    && OneHolder(uncertain, s) && LedgerFits(uncertain, s) && OneEntry(uncertain, s)
  }

  /** Receipts of uncertain keys and resolutions only accumulate. */
  predicate Grows(uncertain: Key -> bool, a: Ledger, b: Ledger) {
    && a.intents.Keys <= b.intents.Keys
    && (forall key <- a.results.Keys :: uncertain(key) ==> key in b.results && b.results[key] == a.results[key])
    && (forall key <- a.resolutions.Keys :: key in b.resolutions && a.resolutions[key] <= b.resolutions[key])
  }

  lemma StillExplained(uncertain: Key -> bool, a: Ledger, b: Ledger, key: Key, r: Receipt)
    requires Grows(uncertain, a, b) && uncertain(key) && Explained(a, key, r)
    ensures Explained(b, key, r)
  {
    if Resolved(a, key, r) {
      var i :| 0 <= i < |Resolutions(a, key)| && Resolutions(a, key)[i].result == r;
      assert Resolutions(b, key)[i].result == r;
    }
  }

  /** One call moves on, the ledger may grow, and nothing enters the executor. */
  lemma MoveKeeps(uncertain: Key -> bool, s: System, call: Call, at: At, l: Ledger)
    requires Sound(uncertain, s) && call in s.frames && Grows(uncertain, s.ledger, l) && IdsFit(l.resolutions, l.ids)
    requires forall key <- l.results.Keys :: key in l.intents && (key in s.ledger.results || key == s.frames[call].key)
    requires var t := Move(s, call, at).(ledger := l); FrameFits(uncertain, t, call)
    requires Holds(s.frames[call].(at := at)) ==> Holds(s.frames[call]) || s.frames[call].key !in s.ledger.intents || !uncertain(s.frames[call].key)
    requires s.frames[call].key in l.results && s.frames[call].key !in s.ledger.results ==> s.frames[call].at.Inside? && !at.Inside?
    ensures Sound(uncertain, Move(s, call, at).(ledger := l))
  {
    var t := Move(s, call, at).(ledger := l);
    forall c | c in t.frames
      ensures FrameFits(uncertain, t, c)
    {
      if c != call {
        assert FrameFits(uncertain, s, c);
        var f := t.frames[c];
        if uncertain(f.key) && f.at.Done? { StillExplained(uncertain, s.ledger, l, f.key, f.at.answer); }
        if uncertain(f.key) && f.at.Reconciling? { StillExplained(uncertain, s.ledger, l, f.key, f.at.instead); }
      }
    }
    forall a, b | a in t.frames && b in t.frames && a != b && Holds(t.frames[a]) && Holds(t.frames[b])
      ensures t.frames[a].key != t.frames[b].key || !uncertain(t.frames[a].key)
    {
      assert FrameFits(uncertain, s, a) && FrameFits(uncertain, s, b);
    }
  }

  lemma CrashKeeps(uncertain: Key -> bool, s: System, call: Call)
    requires Sound(uncertain, s)
    ensures Sound(uncertain, s.(frames := s.frames - {call}))
  {
    var t := s.(frames := s.frames - {call});
    forall c | c in t.frames ensures FrameFits(uncertain, t, c) { assert FrameFits(uncertain, s, c); }
  }

  lemma BeginKeeps(uncertain: Key -> bool, s: System, key: Key, print_: Print)
    requires Sound(uncertain, s)
    ensures Sound(uncertain, Step(uncertain, s, Begin(key, print_)))
  {
    var t := Step(uncertain, s, Begin(key, print_));
    forall c | c in t.frames
      ensures FrameFits(uncertain, t, c)
    {
      if c != s.begun { assert FrameFits(uncertain, s, c); }
    }
  }

  lemma ResolveFits(l: Ledger, r: Resolution)
    requires IdsFit(l.resolutions, l.ids)
    ensures var m := Resolve(l, r).0; IdsFit(m.resolutions, m.ids)
  {
    var (m, verdict) := Resolve(l, r);
    if verdict.Recorded? {
      var prior := Resolutions(l, r.key);
      assert m.resolutions[r.key][|prior|] == r;
      forall id | id in m.ids
        ensures m.ids[id].id == id && m.ids[id].key in m.resolutions && m.ids[id] in m.resolutions[m.ids[id].key]
      {
        if id != r.id {
          var i :| 0 <= i < |l.resolutions[l.ids[id].key]| && l.resolutions[l.ids[id].key][i] == l.ids[id];
          assert m.resolutions[l.ids[id].key][i] == l.ids[id];
        }
      }
      forall key | key in m.resolutions
        ensures ListFits(m.resolutions, m.ids, key)
      {
        assert key in l.resolutions ==> ListFits(l.resolutions, l.ids, key);
      }
    }
  }

  lemma ResolveGrows(uncertain: Key -> bool, l: Ledger, r: Resolution)
    requires IdsFit(l.resolutions, l.ids)
    ensures var (m, verdict) := Resolve(l, r);
            && Grows(uncertain, l, m) && m.results == l.results && m.intents == l.intents && IdsFit(m.resolutions, m.ids)
            && (verdict.Recorded? || verdict.Known? ==> Resolved(m, r.key, r.result))
  {
    ResolveFits(l, r);
    var (m, verdict) := Resolve(l, r);
    if verdict.Recorded? {
      assert Resolutions(m, r.key)[|Resolutions(l, r.key)|].result == r.result;
    } else if verdict.Known? {
      var i :| 0 <= i < |l.resolutions[r.key]| && l.resolutions[r.key][i] == r;
      assert Resolutions(m, r.key)[i].result == r.result;
    }
  }

  lemma ResolvingKeeps(uncertain: Key -> bool, s: System, r: Resolution)
    requires Sound(uncertain, s)
    ensures Sound(uncertain, Step(uncertain, s, Resolving(r)))
  {
    var l := Resolve(s.ledger, r).0;
    ResolveGrows(uncertain, s.ledger, r);
    var t := s.(ledger := l);
    forall c | c in t.frames
      ensures FrameFits(uncertain, t, c)
    {
      assert FrameFits(uncertain, s, c);
      var f := t.frames[c];
      if uncertain(f.key) && f.at.Done? { StillExplained(uncertain, s.ledger, l, f.key, f.at.answer); }
      if uncertain(f.key) && f.at.Reconciling? { StillExplained(uncertain, s.ledger, l, f.key, f.at.instead); }
    }
  }

  lemma EnterKeeps(uncertain: Key -> bool, s: System, call: Call)
    requires Sound(uncertain, s)
    ensures Sound(uncertain, Step(uncertain, s, Enter(call)))
  {
    if call in s.frames && s.frames[call].at.Entering? {
      var t, key := Step(uncertain, s, Enter(call)), s.frames[call].key;
      assert FrameFits(uncertain, s, call);
      forall k
        ensures Entered(t, k) <==> Entered(s, k) || k == key
      {
        if k == key { assert t.entries[|s.entries|].0 == key; }
        if Entered(s, k) {
          var i :| 0 <= i < |s.entries| && s.entries[i].0 == k;
          assert t.entries[i].0 == k;
        }
      }
      forall c | c in t.frames
        ensures FrameFits(uncertain, t, c)
      {
        assert FrameFits(uncertain, s, c);
      }
      forall i, j | 0 <= i < j < |t.entries| && t.entries[i].0 == t.entries[j].0
        ensures !uncertain(t.entries[i].0)
      {
        if j == |s.entries| {
          assert s.entries[i].0 == key;
          assert Entered(s, key);
        }
      }
    }
  }

  lemma ReservingKeeps(uncertain: Key -> bool, s: System, call: Call)
    requires Sound(uncertain, s)
    ensures Sound(uncertain, Step(uncertain, s, Reserving(call)))
  {
    if call in s.frames && s.frames[call].at.Starting? {
      var f := s.frames[call];
      var (l, reservation) := Reserve(s.ledger, f.key, f.print_);
      assert FrameFits(uncertain, s, call);
      if reservation.Mismatch? {
        CrashKeeps(uncertain, s, call);
      } else {
        assert Entered(s, f.key) ==> f.key in s.ledger.intents;
        MoveKeeps(uncertain, s, call, Reserved(reservation.Started?), l);
      }
    }
  }

  lemma FoundExplained(l: Ledger, key: Key)
    requires Find(l, key).Some?
    ensures Explained(l, key, Find(l, key).value)
  {
    var resolutions := Resolutions(l, key);
    if resolutions != [] { assert resolutions[|resolutions| - 1].result == Find(l, key).value; }
  }

  lemma LookingKeeps(uncertain: Key -> bool, s: System, call: Call)
    requires Sound(uncertain, s)
    ensures Sound(uncertain, Step(uncertain, s, Looking(call)))
  {
    if call in s.frames && s.frames[call].at.Reserved? {
      assert FrameFits(uncertain, s, call);
      var key := s.frames[call].key;
      if Find(s.ledger, key).Some? { FoundExplained(s.ledger, key); }
      MoveKeeps(uncertain, s, call, Step(uncertain, s, Looking(call)).frames[call].at, s.ledger);
    }
  }

  lemma ReadingBackKeeps(uncertain: Key -> bool, s: System, call: Call, found: Option<Receipt>)
    requires Sound(uncertain, s)
    ensures Sound(uncertain, Step(uncertain, s, ReadingBack(call, found)))
  {
    if call in s.frames && s.frames[call].at.Reconciling? {
      assert FrameFits(uncertain, s, call);
      var f := s.frames[call];
      if found.None? || !Settles(found.value) {
        MoveKeeps(uncertain, s, call, Done(f.at.instead), s.ledger);
      } else {
        var r := Readback(f.key, found.value);
        var (l, verdict) := Resolve(s.ledger, r);
        ResolveGrows(uncertain, s.ledger, r);
        if verdict.Reused? || verdict.NoIntent? {
          CrashKeeps(uncertain, s, call);
        } else {
          MoveKeeps(uncertain, s, call, Done(found.value), l);
        }
      }
    }
  }

  lemma LeaveKeeps(uncertain: Key -> bool, s: System, call: Call, result: Receipt)
    requires Sound(uncertain, s)
    ensures Sound(uncertain, Step(uncertain, s, Leave(call, result)))
  {
    if call in s.frames && s.frames[call].at.Inside? {
      assert FrameFits(uncertain, s, call);
      var (l, recorded) := Record(s.ledger, s.frames[call].key, result).value;
      MoveKeeps(uncertain, s, call, Done(recorded), l);
    }
  }

  lemma {:induction false} StepKeeps(uncertain: Key -> bool, s: System, e: Event)
    requires Sound(uncertain, s)
    ensures Sound(uncertain, Step(uncertain, s, e))
  {
    match e {
      case Begin(key, print_) => BeginKeeps(uncertain, s, key, print_);
      case Reserving(call) => ReservingKeeps(uncertain, s, call);
      case Looking(call) => LookingKeeps(uncertain, s, call);
      case ReadingBack(call, found) => ReadingBackKeeps(uncertain, s, call, found);
      case Enter(call) => EnterKeeps(uncertain, s, call);
      case Leave(call, result) => LeaveKeeps(uncertain, s, call, result);
      case Crash(call) => CrashKeeps(uncertain, s, call);
      case Resolving(r) => ResolvingKeeps(uncertain, s, r);
    }
  }

  lemma {:induction false} RunKeeps(uncertain: Key -> bool, s: System, events: seq<Event>)
    requires Sound(uncertain, s)
    ensures Sound(uncertain, Run(uncertain, s, events))
    decreases |events|
  {
    if events != [] {
      StepKeeps(uncertain, s, events[0]);
      RunKeeps(uncertain, Step(uncertain, s, events[0]), events[1..]);
    }
  }

  // ---- Theorems ----

  /**
   * However the calls interleave and wherever they crash, an action whose effect is uncertain is executed at most
   * once, and never before its intent is stored.
   */
  lemma AtMostOnce(uncertain: Key -> bool, events: seq<Event>, i: nat, j: nat)
    requires var s := Run(uncertain, IDLE, events); i < |s.entries| && j < |s.entries| && s.entries[i].0 == s.entries[j].0
    ensures var s := Run(uncertain, IDLE, events);
            && s.entries[i].0 in s.ledger.intents
            && (uncertain(s.entries[i].0) ==> i == j)
  {
    RunKeeps(uncertain, IDLE, events);
  }

  /**
   * What a call on such an action answers is on record: the receipt of the one execution, a resolution, or that the
   * outcome is not known.
   */
  lemma AnswersOnRecord(uncertain: Key -> bool, events: seq<Event>, call: Call)
    requires var s := Run(uncertain, IDLE, events);
             call in s.frames && s.frames[call].at.Done? && uncertain(s.frames[call].key)
    ensures var s := Run(uncertain, IDLE, events); Explained(s.ledger, s.frames[call].key, s.frames[call].at.answer)
  {
    RunKeeps(uncertain, IDLE, events);
  }

  /** In every run an id names one resolution: wherever two recorded resolutions carry one id, they are the same entry. */
  lemma ResolutionsOnce(uncertain: Key -> bool, events: seq<Event>, a: Key, i: nat, b: Key, j: nat)
    requires var l := Run(uncertain, IDLE, events).ledger;
             && i < |Resolutions(l, a)| && j < |Resolutions(l, b)| && Resolutions(l, a)[i].id == Resolutions(l, b)[j].id
    ensures var l := Run(uncertain, IDLE, events).ledger;
            a == b && i == j && Resolutions(l, a)[i].key == a
  {
    RunKeeps(uncertain, IDLE, events);
    var l := Run(uncertain, IDLE, events).ledger;
    assert ListFits(l.resolutions, l.ids, a) && ListFits(l.resolutions, l.ids, b);
    assert Resolutions(l, a)[i] in Resolutions(l, a) && Resolutions(l, b)[j] in Resolutions(l, b);
  }

  /** A receipt that waits for no approval is never overwritten, whatever the effect of the tool. */
  lemma {:induction false} ReceiptStays(uncertain: Key -> bool, s: System, events: seq<Event>, key: Key)
    requires key in s.ledger.results && !s.ledger.results[key].approval
    ensures var t := Run(uncertain, s, events); key in t.ledger.results && t.ledger.results[key] == s.ledger.results[key]
    decreases |events|
  {
    if events != [] {
      ReceiptStep(uncertain, s, events[0], key);
      ReceiptStays(uncertain, Step(uncertain, s, events[0]), events[1..], key);
    }
  }

  lemma ReceiptStep(uncertain: Key -> bool, s: System, e: Event, key: Key)
    requires key in s.ledger.results && !s.ledger.results[key].approval
    ensures var t := Step(uncertain, s, e); key in t.ledger.results && t.ledger.results[key] == s.ledger.results[key]
  {
  }
}
