/** Shared state: fields with versions of their own, changed by operations that are logged with their results. */
module SharedStates {
  import opened Text
  import JsonReader

  type Name = string
  type Value = JsonReader.Json

  datatype Field = Field(version: nat, value: Option<Value>)

  datatype Snapshot = Snapshot(version: nat, fields: map<Name, Field>)

  /** No value deletes the field. */
  datatype Change = Change(field: Name, expected: nat, value: Option<Value>)

  /** `print_` is the digest of the update and its origin. */
  datatype Update = Update(id: string, print_: string, changes: seq<Change>)

  datatype Outcome = Applied(state: Snapshot) | Conflicting(conflicts: seq<Name>, state: Snapshot)

  datatype Entry = Entry(update: Update, outcome: Outcome)

  datatype Reply = Result(outcome: Outcome, deduplicated: bool) | Invalid | Reused | TooLarge

  const SAFE := 0x1F_FFFF_FFFF_FFFF

  /** The part of `validateStateUpdate` that later steps rely on. */
  predicate ValidChanges(changes: seq<Change>) {
    && 1 <= |changes| <= 64
    && (forall i, j :: 0 <= i < j < |changes| ==> changes[i].field != changes[j].field)
    && forall c <- changes :: c.expected <= SAFE
  }

  function VersionOf(s: Snapshot, field: Name): nat { if field in s.fields then s.fields[field].version else 0 }

  function Conflicts(s: Snapshot, changes: seq<Change>): seq<Name> {
    if changes == [] then []
    else (if VersionOf(s, changes[0].field) != changes[0].expected then [changes[0].field] else []) + Conflicts(s, changes[1..])
  }

  /** The loop over the changes. */
  function Assign(fields: map<Name, Field>, changes: seq<Change>): map<Name, Field> {
    if changes == [] then fields
    else
      var last := changes[|changes| - 1];
      Assign(fields, changes[..|changes| - 1])[last.field := Field(last.expected + 1, last.value)]
  }

  function Next(s: Snapshot, changes: seq<Change>): Snapshot { Snapshot(s.version + 1, Assign(s.fields, changes)) }

  /** The numbers stay exact, there are at most 256 fields, and their text is short enough. */
  predicate Allowed(small: map<Name, Field> -> bool, s: Snapshot, changes: seq<Change>) {
    && s.version + 1 <= SAFE && (forall c <- changes :: c.expected + 1 <= SAFE)
    && |Next(s, changes).fields| <= 256 && small(Next(s, changes).fields)
  }

  function OutcomeOf(s: Snapshot, changes: seq<Change>): Outcome {
    if Conflicts(s, changes) != [] then Conflicting(Conflicts(s, changes), s) else Applied(Next(s, changes))
  }

  function After(o: Outcome): Snapshot { o.state }

  function Logged(log: seq<Entry>, id: string): Option<Entry> {
    if log == [] then None else if log[0].update.id == id then Some(log[0]) else Logged(log[1..], id)
  }

  datatype Store = Store(state: Snapshot, log: seq<Entry>)

  /** `updateSharedState`; an error leaves nothing behind. */
  function UpdateState(small: map<Name, Field> -> bool, s: Store, u: Update): (Store, Reply) {
    if !ValidChanges(u.changes) then (s, Invalid)
    else
      var prior := Logged(s.log, u.id);
      if prior.Some? then (s, if prior.value.update.print_ == u.print_ then Result(prior.value.outcome, true) else Reused)
      else
        var outcome := OutcomeOf(s.state, u.changes);
        if outcome.Applied? && !Allowed(small, s.state, u.changes) then (s, TooLarge)
        else (Store(After(outcome), s.log + [Entry(u, outcome)]), Result(outcome, false))
  }

  function Empty(): Store { Store(Snapshot(0, map[]), []) }

  function Run(small: map<Name, Field> -> bool, s: Store, updates: seq<Update>): Store
    decreases |updates|
  {
    if updates == [] then s else Run(small, UpdateState(small, s, updates[0]).0, updates[1..])
  }

  // ---- The log is the history ----

  /** The successful operations of a log, applied in turn. */
  function Replay(log: seq<Entry>): Snapshot {
    if log == [] then Snapshot(0, map[])
    else
      var front, last := Replay(log[..|log| - 1]), log[|log| - 1];
      if last.outcome.Applied? then Next(front, last.update.changes) else front
  }

  /** The logged result is what the operation comes to in the state that the log before it leaves. */
  predicate ExplainedAt(log: seq<Entry>, i: nat)
    requires i < |log|
  {
    log[i].outcome == OutcomeOf(Replay(log[..i]), log[i].update.changes) && ValidChanges(log[i].update.changes)
  }

  predicate Explained(log: seq<Entry>) { forall i :: 0 <= i < |log| ==> ExplainedAt(log, i) }

  predicate Faithful(s: Store) { s.state == Replay(s.log) && Explained(s.log) }

  lemma FrontExplained(log: seq<Entry>, n: nat)
    requires Explained(log) && n <= |log|
    ensures Explained(log[..n])
  {
    forall i | 0 <= i < n
      ensures ExplainedAt(log[..n], i)
    {
      assert ExplainedAt(log, i);
      assert log[..n][..i] == log[..i];
    }
  }

  lemma LongerExplained(log: seq<Entry>, e: Entry)
    requires Explained(log) && e.outcome == OutcomeOf(Replay(log), e.update.changes) && ValidChanges(e.update.changes)
    ensures Explained(log + [e]) && Replay(log + [e]) == After(e.outcome)
  {
    var longer := log + [e];
    assert longer[..|log|] == log;
    forall i | 0 <= i < |longer|
      ensures ExplainedAt(longer, i)
    {
      if i < |log| {
        assert ExplainedAt(log, i);
        assert longer[..i] == log[..i];
      }
    }
  }

  lemma UpdateKeeps(small: map<Name, Field> -> bool, s: Store, u: Update)
    requires Faithful(s)
    ensures Faithful(UpdateState(small, s, u).0)
  {
    var outcome := OutcomeOf(s.state, u.changes);
    if ValidChanges(u.changes) { LongerExplained(s.log, Entry(u, outcome)); }
  }

  lemma {:induction false} RunKeeps(small: map<Name, Field> -> bool, s: Store, updates: seq<Update>)
    requires Faithful(s)
    ensures Faithful(Run(small, s, updates))
    decreases |updates|
  {
    if updates != [] {
      UpdateKeeps(small, s, updates[0]);
      RunKeeps(small, UpdateState(small, s, updates[0]).0, updates[1..]);
    }
  }

  /** In every run the state is the replay of the successful operations, and every logged result can be recomputed. */
  lemma StateIsReplay(small: map<Name, Field> -> bool, updates: seq<Update>)
    ensures Faithful(Run(small, Empty(), updates))
  {
    RunKeeps(small, Empty(), updates);
  }

  // ---- Versions count ----

  predicate Applies(e: Entry) { e.outcome.Applied? }

  predicate Touches(e: Entry, field: Name) { e.outcome.Applied? && exists c <- e.update.changes :: c.field == field }

  function CountApplied(log: seq<Entry>): nat {
    if log == [] then 0 else CountApplied(log[..|log| - 1]) + if Applies(log[|log| - 1]) then 1 else 0
  }

  function CountTouching(log: seq<Entry>, field: Name): nat {
    if log == [] then 0 else CountTouching(log[..|log| - 1], field) + if Touches(log[|log| - 1], field) then 1 else 0
  }

  lemma {:induction false} NoConflicts(s: Snapshot, changes: seq<Change>)
    ensures Conflicts(s, changes) == [] <==> forall c <- changes :: VersionOf(s, c.field) == c.expected
    ensures forall f :: f in Conflicts(s, changes) <==> exists c <- changes :: c.field == f && VersionOf(s, f) != c.expected
    decreases |changes|
  {
    if changes != [] {
      NoConflicts(s, changes[1..]);
      assert changes == [changes[0]] + changes[1..];
    }
  }

  lemma {:induction false} Assigned(fields: map<Name, Field>, changes: seq<Change>, field: Name)
    requires forall i, j :: 0 <= i < j < |changes| ==> changes[i].field != changes[j].field
    ensures var t := Assign(fields, changes);
            && ((forall c <- changes :: c.field != field) ==>
                  (field in t <==> field in fields) && (field in fields ==> t[field] == fields[field]))
            && (forall c <- changes :: c.field == field ==> field in t && t[field] == Field(c.expected + 1, c.value))
    decreases |changes|
  {
    if changes != [] {
      var front, last := changes[..|changes| - 1], changes[|changes| - 1];
      assert changes == front + [last];
      Assigned(fields, front, field);
      assert forall c <- front :: c.field != last.field;
    }
  }

  /**
   * The state's version counts the successful operations and a field's version those that changed it, deletions
   * included.
   */
  lemma {:induction false} VersionsCount(log: seq<Entry>, field: Name)
    requires Explained(log)
    ensures Replay(log).version == CountApplied(log)
    ensures VersionOf(Replay(log), field) == CountTouching(log, field)
    ensures field in Replay(log).fields <==> CountTouching(log, field) > 0
    decreases |log|
  {
    if log != [] {
      var front, last := log[..|log| - 1], log[|log| - 1];
      FrontExplained(log, |front|);
      assert ExplainedAt(log, |front|);
      VersionsCount(front, field);
      NoConflicts(Replay(front), last.update.changes);
      Assigned(Replay(front).fields, last.update.changes, field);
      if Touches(last, field) {
        var c :| c in last.update.changes && c.field == field;
      }
    }
  }

  // ---- What an operation does ----

  /** One to 64 changes of different fields, none of which expects more than a safe integer. */
  predicate WellFormed(changes: seq<Change>) {
    && 1 <= |changes| <= 64
    && (forall i, j :: 0 <= i < |changes| && 0 <= j < |changes| && changes[i].field == changes[j].field ==> i == j)
    && forall i :: 0 <= i < |changes| ==> changes[i].expected <= 9_007_199_254_740_991
  }

  /** The field is as one of the changes leaves it, or as it was if none is about it. */
  predicate Holds(s: Snapshot, t: Snapshot, changes: seq<Change>, field: Name) {
    if exists c <- changes :: c.field == field
    then field in t.fields && exists c <- changes :: c.field == field && t.fields[field] == Field(c.expected + 1, c.value)
    else (field in t.fields <==> field in s.fields) && (field in s.fields ==> t.fields[field] == s.fields[field])
  }

  /** The version and every expected version can be counted on, and neither fields nor their text become too many. */
  predicate WithinLimits(small: map<Name, Field> -> bool, s: Snapshot, t: Snapshot, changes: seq<Change>) {
    && s.version < 9_007_199_254_740_991 && (forall c <- changes :: c.expected < 9_007_199_254_740_991)
    && |t.fields| <= 256 && small(t.fields)
  }

  /**
   * A new operation is invalid, a conflict, too large or applied. Applied, it raises the version of the state by one,
   * gives each field it names its value and the version after the expected one, and leaves every other field; it is
   * logged with its outcome, and so is a conflict; the others leave no trace.
   */
  lemma UpdateExactly(small: map<Name, Field> -> bool, s: Store, u: Update) returns (next: Snapshot)
    requires forall e <- s.log :: e.update.id != u.id
    ensures next.version == s.state.version + 1
    ensures WellFormed(u.changes) ==> forall field :: Holds(s.state, next, u.changes, field)
    ensures var (t, reply) := UpdateState(small, s, u);
            if !WellFormed(u.changes) then t == s && reply == Invalid
            else if exists c <- u.changes :: (if c.field in s.state.fields then s.state.fields[c.field].version else 0) != c.expected
            then reply.Result? && !reply.deduplicated && reply.outcome.Conflicting? && reply.outcome.state == s.state
                 && t == Store(s.state, s.log + [Entry(u, reply.outcome)])
            else if !WithinLimits(small, s.state, next, u.changes) then t == s && reply == TooLarge
            else reply == Result(Applied(next), false) && t == Store(next, s.log + [Entry(u, Applied(next))])
  {
    next := Next(s.state, u.changes);
    NotLogged(s.log, u.id);
    NoConflicts(s.state, u.changes);
    if WellFormed(u.changes) {
      forall field ensures Holds(s.state, next, u.changes, field) { Assigned(s.state.fields, u.changes, field); }
    }
    WellFormedIs(u.changes);
  }

  lemma WellFormedIs(changes: seq<Change>)
    ensures ValidChanges(changes) <==> WellFormed(changes)
  {
    if ValidChanges(changes) {
      forall i | 0 <= i < |changes| ensures changes[i].expected <= 9_007_199_254_740_991 { assert changes[i] in changes; }
    }
  }

  lemma {:induction false} NotLogged(log: seq<Entry>, id: string)
    requires forall e <- log :: e.update.id != id
    ensures Logged(log, id).None?
    decreases |log|
  {
    if log != [] { NotLogged(log[1..], id); }
  }

  lemma {:induction false} FirstLogged(log: seq<Entry>, id: string, i: nat)
    requires i < |log| && log[i].update.id == id && forall j :: 0 <= j < i ==> log[j].update.id != id
    ensures Logged(log, id) == Some(log[i])
    decreases i
  {
    if i > 0 { FirstLogged(log[1..], id, i - 1); }
  }

  /** A well-formed operation under a logged id gets the logged outcome if it has the same digest, and is refused if not. */
  lemma RepeatExactly(small: map<Name, Field> -> bool, s: Store, u: Update, i: nat)
    requires i < |s.log| && s.log[i].update.id == u.id && forall j :: 0 <= j < i ==> s.log[j].update.id != u.id
    ensures UpdateState(small, s, u) ==
            (s, if !WellFormed(u.changes) then Invalid
                else if s.log[i].update.print_ == u.print_ then Result(s.log[i].outcome, true)
                else Reused)
  {
    WellFormedIs(u.changes);
    FirstLogged(s.log, u.id, i);
  }

  // ---- Retries, conflicts, commuting ----

  lemma {:induction false} LoggedAppended(log: seq<Entry>, e: Entry, id: string)
    ensures Logged(log + [e], id) == if Logged(log, id).Some? then Logged(log, id) else if e.update.id == id then Some(e) else None
    decreases |log|
  {
    if log != [] {
      assert (log + [e])[1..] == log[1..] + [e];
      LoggedAppended(log[1..], e, id);
    }
  }

  lemma {:induction false} LoggedStays(small: map<Name, Field> -> bool, s: Store, updates: seq<Update>, id: string)
    requires Logged(s.log, id).Some?
    ensures Logged(Run(small, s, updates).log, id) == Logged(s.log, id)
    decreases |updates|
  {
    if updates != [] {
      var t := UpdateState(small, s, updates[0]).0;
      if t != s { LoggedAppended(s.log, t.log[|s.log|], id); }
      LoggedStays(small, t, updates[1..], id);
    }
  }

  /**
   * A retried operation gets its first result again, success or conflict, whatever happened in between, and changes
   * nothing.
   */
  lemma RetryGetsFirstResult(small: map<Name, Field> -> bool, s: Store, u: Update, between: seq<Update>)
    requires var (t, reply) := UpdateState(small, s, u); reply.Result?
    ensures var (t, reply) := UpdateState(small, s, u);
            var later := Run(small, t, between);
            UpdateState(small, later, u) == (later, Result(reply.outcome, true))
  {
    var (t, reply) := UpdateState(small, s, u);
    if !reply.deduplicated { LoggedAppended(s.log, t.log[|s.log|], u.id); }
    LoggedStays(small, t, between, u.id);
  }

  /**
   * An operation conflicts exactly when some expected version is not current; it then names those fields and changes
   * nothing.
   */
  lemma ConflictExactly(small: map<Name, Field> -> bool, s: Store, u: Update)
    requires ValidChanges(u.changes) && Logged(s.log, u.id).None?
    ensures var (t, reply) := UpdateState(small, s, u);
            && (reply.Result? && reply.outcome.Conflicting? <==> exists c <- u.changes :: VersionOf(s.state, c.field) != c.expected)
            && (reply.Result? && reply.outcome.Conflicting? ==>
                  t.state == s.state
                  && forall f :: f in reply.outcome.conflicts <==> exists c <- u.changes :: c.field == f && VersionOf(s.state, f) != c.expected)
  {
    NoConflicts(s.state, u.changes);
  }

  /**
   * Of two operations that expect the same version of a common field, the second conflicts once the first is applied.
   */
  lemma NoLostUpdate(small: map<Name, Field> -> bool, s: Store, a: Update, b: Update, c: Change, d: Change)
    requires UpdateState(small, s, a).1.Result? && UpdateState(small, s, a).1.outcome.Applied? && !UpdateState(small, s, a).1.deduplicated
    requires ValidChanges(b.changes) && Logged(UpdateState(small, s, a).0.log, b.id).None?
    requires c in a.changes && d in b.changes && c.field == d.field && c.expected == d.expected
    ensures var reply := UpdateState(small, UpdateState(small, s, a).0, b).1;
            reply.Result? && reply.outcome.Conflicting? && c.field in reply.outcome.conflicts
  {
    var t := UpdateState(small, s, a).0;
    Assigned(s.state.fields, a.changes, c.field);
    NoConflicts(t.state, b.changes);
  }

  predicate Disjoint(a: seq<Change>, b: seq<Change>) { forall c <- a, d <- b :: c.field != d.field }

  lemma AssignCommutes(fields: map<Name, Field>, a: seq<Change>, b: seq<Change>)
    requires ValidChanges(a) && ValidChanges(b) && Disjoint(a, b)
    ensures Assign(Assign(fields, a), b) == Assign(Assign(fields, b), a)
  {
    var ab, ba := Assign(Assign(fields, a), b), Assign(Assign(fields, b), a);
    forall f
      ensures (f in ab <==> f in ba) && (f in ab ==> ab[f] == ba[f])
    {
      Assigned(fields, a, f);
      Assigned(fields, b, f);
      Assigned(Assign(fields, a), b, f);
      Assigned(Assign(fields, b), a, f);
    }
  }

  lemma OtherFieldsKeep(s: Snapshot, a: seq<Change>, b: seq<Change>)
    requires ValidChanges(a) && ValidChanges(b) && Disjoint(a, b)
    ensures Conflicts(Next(s, a), b) == [] <==> Conflicts(s, b) == []
  {
    NoConflicts(Next(s, a), b);
    NoConflicts(s, b);
    forall c | c in b
      ensures VersionOf(Next(s, a), c.field) == VersionOf(s, c.field)
    {
      Assigned(s.fields, a, c.field);
    }
  }

  /** Operations on different fields can be swapped: both succeed in either order, and the state is the same. */
  lemma DisjointCommute(small: map<Name, Field> -> bool, s: Store, a: Update, b: Update)
    requires ValidChanges(a.changes) && ValidChanges(b.changes) && Disjoint(a.changes, b.changes) && a.id != b.id
    requires Logged(s.log, a.id).None? && Logged(s.log, b.id).None?
    requires Conflicts(s.state, a.changes) == [] && Conflicts(s.state, b.changes) == []
    requires Allowed(small, s.state, a.changes) && Allowed(small, Next(s.state, a.changes), b.changes)
    requires Allowed(small, s.state, b.changes) && Allowed(small, Next(s.state, b.changes), a.changes)
    ensures var ab := UpdateState(small, UpdateState(small, s, a).0, b);
            var ba := UpdateState(small, UpdateState(small, s, b).0, a);
            && ab.1.Result? && ab.1.outcome.Applied? && ba.1.Result? && ba.1.outcome.Applied?
            && ab.0.state == ba.0.state && ab.0.state.version == s.state.version + 2
  {
    OtherFieldsKeep(s.state, a.changes, b.changes);
    OtherFieldsKeep(s.state, b.changes, a.changes);
    AssignCommutes(s.state.fields, a.changes, b.changes);
    LoggedAppended(s.log, Entry(a, OutcomeOf(s.state, a.changes)), b.id);
    LoggedAppended(s.log, Entry(b, OutcomeOf(s.state, b.changes)), a.id);
  }

  // ---- The transaction ----

  class SharedState {
    const small: map<Name, Field> -> bool
    var version: nat
    var fields: map<Name, Field>
    var operations: seq<Entry>

    ghost function Contents(): Store
      reads this
    {
      Store(Snapshot(version, fields), operations)
    }

    constructor (small: map<Name, Field> -> bool)
      ensures Contents() == Empty() && this.small == small
    {
      this.small := small;
      version, fields, operations := 0, map[], [];
    }

    method FindConflicts(changes: seq<Change>) returns (conflicts: seq<Name>)
      ensures conflicts == Conflicts(Contents().state, changes)
    {
      conflicts := [];
      var i := 0;
      while i < |changes|
        invariant i <= |changes| && conflicts + Conflicts(Contents().state, changes[i..]) == Conflicts(Contents().state, changes)
      {
        assert changes[i..][1..] == changes[i + 1..];
        var change := changes[i];
        var current := if change.field in fields then fields[change.field].version else 0;
        if current != change.expected { conflicts := conflicts + [change.field]; }
        i := i + 1;
      }
    }

    method AssignFields(changes: seq<Change>) returns (next: map<Name, Field>)
      ensures next == Assign(fields, changes)
    {
      next := fields;
      for i := 0 to |changes|
        invariant next == Assign(fields, changes[..i])
      {
        assert changes[..i + 1][..i] == changes[..i];
        next := next[changes[i].field := Field(changes[i].expected + 1, changes[i].value)];
      }
      assert changes[..|changes|] == changes;
    }

    method Perform(update: Update) returns (reply: Reply)
      modifies this
      ensures (Contents(), reply) == UpdateState(small, old(Contents()), update)
    {
      if !ValidChanges(update.changes) { return Invalid; }
      var prior := Logged(operations, update.id);
      if prior.Some? {
        return if prior.value.update.print_ == update.print_ then Result(prior.value.outcome, true) else Reused;
      }
      var conflicts := FindConflicts(update.changes);
      var outcome: Outcome;
      if conflicts != [] {
        outcome := Conflicting(conflicts, Snapshot(version, fields));
      } else {
        var next := AssignFields(update.changes);
        if version + 1 > SAFE || (exists c <- update.changes :: c.expected + 1 > SAFE) || |next| > 256 || !small(next) {
          return TooLarge;
        }
        fields, version := next, version + 1;
        outcome := Applied(Snapshot(version, fields));
      }
      operations := operations + [Entry(update, outcome)];
      return Result(outcome, false);
    }
  }
}
