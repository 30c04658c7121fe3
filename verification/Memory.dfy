/** Memory documents, their versions and evidence, and what forgetting a scope does to them. */
module Memory {
  import opened Text

  datatype Scope = Scope(tenant: string, kind: string, name: string)

  type WorkId = string
  type Instant = int

  datatype Origin = Origin(tenant: string, createdAt: Instant)

  /** A source may name the work that it was observed in. */
  datatype Source = Source(work: Option<WorkId>, rest: string)

  /** The digest of what a document was created for. */
  datatype DocId = DocId(scope: Scope, epoch: nat, action: string, index: nat)

  datatype Status = Active | Expired | Retired

  /** `rest` stands for title, description, body, layer, kind and expiry. */
  datatype Content = Content(path: string, rest: string)

  datatype Doc = Doc(scope: Scope, version: nat, status: Status, content: Content, sources: set<Source>, explicit: bool,
                     locked: bool)

  datatype Epoch = Epoch(epoch: nat, forgottenAt: Option<Instant>)

  datatype Evidence = Evidence(scopes: set<Scope>, hasText: bool)

  datatype Command = Command(scope: Scope, epoch: nat, action: string)

  datatype Store = Store(works: map<WorkId, Origin>, scopes: map<Scope, Epoch>, docs: map<DocId, Doc>,
                         versions: map<(DocId, nat), Doc>, evidence: map<WorkId, Evidence>, commands: map<Command, string>)

  function EpochOf(s: Store, scope: Scope): Epoch { if scope in s.scopes then s.scopes[scope] else Epoch(0, None) }

  // ---- Forgetting ----

  /** `currentMemoryScopes` for one scope: the work is the tenant's and began after the scope was last forgotten. */
  predicate Current(s: Store, scope: Scope, work: WorkId) {
    && work in s.works && s.works[work].tenant == scope.tenant
    && var at := EpochOf(s, scope).forgottenAt; (at.Some? ==> s.works[work].createdAt > at.value)
  }

  function Superseded(s: Store, scope: Scope): map<WorkId, Evidence> {
    map w | w in s.evidence :: if scope in s.evidence[w].scopes then s.evidence[w].(hasText := false) else s.evidence[w]
  }

  function Purged(s: Store, scope: Scope): Store {
    s.(docs := map id | id in s.docs && s.docs[id].scope != scope :: s.docs[id],
       versions := map v | v in s.versions && v.0 in s.docs && s.docs[v.0].scope != scope :: s.versions[v])
  }

  /** `forgetMemoryScope`; the versions of a deleted document go with it. */
  function Forget(s: Store, scope: Scope, purge: bool, now: Instant): Store {
    var epoch := Epoch(EpochOf(s, scope).epoch + 1, Some(now));
    var commands := map c | c in s.commands && c.scope != scope :: s.commands[c];
    var t := s.(scopes := s.scopes[scope := epoch], evidence := Superseded(s, scope), commands := commands);
    if purge then Purged(t, scope) else t
  }

  // ---- Evidence ----

  /** `captureMemoryEvidence`; evidence of a run that is there already is left alone. */
  function Capture(s: Store, work: WorkId, scopes: set<Scope>): Option<Store> {
    if work !in s.works then None
    else
      var current := set scope | scope in scopes && Current(s, scope, work);
      if current == {} || work in s.evidence then Some(s)
      else Some(s.(evidence := s.evidence[work := Evidence(current, true)]))
  }

  // ---- Changes ----

  datatype Versioned = Versioned(id: DocId, expected: nat)

  /** `renewed` says that the new content has an expiry and rests on evidence from after the document lapsed. */
  datatype Change =
    | Create(content: Content, lock: Option<bool>)
    | Update(target: Versioned, content: Content, lock: Option<bool>, renewed: bool)
    | Move(target: Versioned, path: string, renewed: bool)
    | Expire(target: Versioned)
    | Merge(target: Versioned, content: Content, lock: Option<bool>, from: seq<Versioned>, renewed: bool)
    | Delete(target: Versioned)

  datatype Context = Context(epoch: nat, action: string, print_: string, sources: set<Source>, explicit: bool)

  const MANY := 64

  /** Nothing stands for an error, which undoes the whole transaction. */
  function Get(s: Store, scope: Scope, c: Context, v: Versioned): Option<Doc> {
    if v.id !in s.docs || s.docs[v.id].scope != scope || s.docs[v.id].version != v.expected then None
    else if !c.explicit && (s.docs[v.id].explicit || s.docs[v.id].locked) then None
    else Some(s.docs[v.id])
  }

  /** An update that raises the version archives the document as it was. */
  function Replace(s: Store, id: DocId, doc: Doc): Store
    requires id in s.docs
  {
    s.(docs := s.docs[id := doc], versions := s.versions[(id, s.docs[id].version) := s.docs[id]])
  }

  function Remove(s: Store, id: DocId): Store {
    s.(docs := s.docs - {id}, versions := map v | v in s.versions && v.0 != id :: s.versions[v])
  }

  /** The donors of a merge are retired one by one, and lend their sources. */
  function Retire(s: Store, scope: Scope, c: Context, from: seq<Versioned>, sources: set<Source>)
    : Option<(Store, set<Source>)>
    decreases |from|
  {
    if from == [] then Some((s, sources))
    else
      var donor := Get(s, scope, c, from[0]);
      if donor.None? || |donor.value.sources + c.sources| > MANY then None
      else
        var retired := donor.value.(status := Retired, version := donor.value.version + 1, sources := donor.value.sources + c.sources);
        Retire(Replace(s, from[0].id, retired), scope, c, from[1..], sources + donor.value.sources)
  }

  /** Writes the content to a new document or over the current one. */
  function Save(s: Store, scope: Scope, c: Context, index: nat, current: Option<Versioned>, content: Content,
                lock: Option<bool>, sources: set<Source>): Option<Store>
  {
    if |sources| > MANY || (!c.explicit && lock == Some(true)) then None
    else if current.None? then
      var id := DocId(scope, c.epoch, c.action, index);
      if id in s.docs then None
      else Some(s.(docs := s.docs[id := Doc(scope, 1, Active, content, sources, c.explicit, lock == Some(true))]))
    else if current.value.id !in s.docs then None
    else
      var doc := s.docs[current.value.id];
      Some(Replace(s, current.value.id, doc.(status := Active, version := doc.version + 1, content := content, sources := sources,
                                             explicit := c.explicit, locked := if lock.Some? then lock.value else doc.locked)))
  }

  /** A lapsed document is not revived without new evidence. */
  predicate Lapsed(doc: Doc, renewed: bool) { doc.status.Expired? && !renewed }

  function ApplyOne(s: Store, scope: Scope, c: Context, index: nat, change: Change): Option<Store> {
    if change.Create? then Save(s, scope, c, index, None, change.content, change.lock, c.sources)
    else
      var current := Get(s, scope, c, change.target);
      if current.None? || |current.value.sources + c.sources| > MANY then None
      else
        var sources := current.value.sources + c.sources;
        match change
        case Delete(target) => if c.explicit then Some(Remove(s, target.id)) else None
        case Expire(target) =>
          Some(Replace(s, target.id, current.value.(status := Expired, version := current.value.version + 1, sources := sources)))
        case Update(target, content, lock, renewed) =>
          if Lapsed(current.value, renewed) then None else Save(s, scope, c, index, Some(target), content, lock, sources)
        case Move(target, path, renewed) =>
          if Lapsed(current.value, renewed) then None
          else Save(s, scope, c, index, Some(target), current.value.content.(path := path), Some(current.value.locked), sources)
        case Merge(target, content, lock, from, renewed) =>
          var r := Retire(s, scope, c, from, sources);
          if r.None? || Lapsed(current.value, renewed) then None
          else Save(r.value.0, scope, c, index, Some(target), content, lock, r.value.1)
  }

  /** The loop over the batch. */
  function ApplyAll(s: Store, scope: Scope, c: Context, changes: seq<Change>): Option<Store> {
    if changes == [] then Some(s)
    else
      var front := ApplyAll(s, scope, c, changes[..|changes| - 1]);
      if front.None? then None else ApplyOne(front.value, scope, c, |changes| - 1, changes[|changes| - 1])
  }

  /** The loops of the transaction: over the donors of a merge, and over the batch. */
  method RetireDonors(s: Store, scope: Scope, c: Context, from: seq<Versioned>,
                      sources: set<Source>) returns (r: Option<(Store, set<Source>)>)
    ensures r == Retire(s, scope, c, from, sources)
  {
    var store, all := s, sources;
    var i := 0;
    while i < |from|
      invariant i <= |from| && Retire(store, scope, c, from[i..], all) == Retire(s, scope, c, from, sources)
    {
      assert from[i..][0] == from[i] && from[i..][1..] == from[i + 1..];
      var donor := Get(store, scope, c, from[i]);
      if donor.None? { return None; }
      all := all + donor.value.sources;
      var own := donor.value.sources + c.sources;
      if |own| > MANY { return None; }
      store := Replace(store, from[i].id, donor.value.(status := Retired, version := donor.value.version + 1, sources := own));
      i := i + 1;
    }
    return Some((store, all));
  }

  method ApplyBatch(s: Store, scope: Scope, c: Context, changes: seq<Change>) returns (r: Option<Store>)
    ensures r == ApplyAll(s, scope, c, changes)
  {
    var store := s;
    for index := 0 to |changes|
      invariant ApplyAll(s, scope, c, changes[..index]) == Some(store)
    {
      assert changes[..index + 1][..index] == changes[..index];
      var next := ApplyOne(store, scope, c, index, changes[index]);
      if next.None? {
        StaysFailed(s, scope, c, changes, index + 1);
        return None;
      }
      store := next.value;
    }
    assert changes[..|changes|] == changes;
    return Some(store);
  }

  /** A batch fails as a whole. */
  lemma {:induction false} StaysFailed(s: Store, scope: Scope, c: Context, changes: seq<Change>, n: nat)
    requires n <= |changes| && ApplyAll(s, scope, c, changes[..n]).None?
    ensures ApplyAll(s, scope, c, changes).None?
    decreases |changes|
  {
    if n < |changes| {
      assert changes[..|changes| - 1][..n] == changes[..n];
      StaysFailed(s, scope, c, changes[..|changes| - 1], n);
    } else {
      assert changes[..n] == changes;
    }
  }

  function References(change: Change): seq<DocId> {
    match change
    case Create(_, _) => []
    case Merge(target, _, _, from, _) => [target.id] + seq(|from|, i requires 0 <= i < |from| => from[i].id)
    case _ => [change.target.id]
  }

  function AllReferences(changes: seq<Change>): seq<DocId> {
    if changes == [] then [] else References(changes[0]) + AllReferences(changes[1..])
  }

  predicate DistinctIds(ids: seq<DocId>) { forall i, j :: 0 <= i < j < |ids| ==> ids[i] != ids[j] }

  /** At most twelve changes, merges of one to twelve documents, and no document named twice. */
  predicate ValidBatch(changes: seq<Change>) {
    && |changes| <= 12
    && (forall c <- changes :: c.Merge? ==> 1 <= |c.from| <= 12)
    && DistinctIds(AllReferences(changes))
  }

  /** The write belongs to the scope's epoch, and each work among its sources began after the last forgetting. */
  predicate MayWrite(s: Store, scope: Scope, c: Context) {
    && c.sources != {} && |c.sources| <= MANY && EpochOf(s, scope).epoch == c.epoch
    && forall x <- c.sources :: x.work.Some? ==> Current(s, scope, x.work.value)
  }

  /** A deletion forgets what the scope has learnt so far; the write is recorded in the epoch that is then current. */
  function Committed(s: Store, scope: Scope, c: Context, deletes: bool, now: Instant): Store {
    var u := if deletes then Forget(s, scope, false, now) else s;
    u.(commands := u.commands[Command(scope, EpochOf(u, scope).epoch, c.action) := c.print_])
  }

  /** `applyMemoryChanges`. */
  function Apply(s: Store, scope: Scope, c: Context, changes: seq<Change>, now: Instant): Option<Store> {
    var key := Command(scope, c.epoch, c.action);
    if !ValidBatch(changes) || !MayWrite(s, scope, c) then None
    else if key in s.commands then if s.commands[key] == c.print_ then Some(s) else None
    else
      var t := ApplyAll(s, scope, c, changes);
      if t.None? then None else Some(Committed(t.value, scope, c, exists x <- changes :: x.Delete?, now))
  }

  /** `restoreMemory`: an update with the content of a version that is on record. */
  function Restore(s: Store, scope: Scope, v: Versioned, version: nat, renewed: bool, c: Context, now: Instant): Option<Store> {
    if v.id !in s.docs || s.docs[v.id].scope != scope then None
    else
      var current := s.docs[v.id];
      var target := if current.version == version then Some(current)
                    else if (v.id, version) in s.versions then Some(s.versions[(v.id, version)]) else None;
      if target.None? || !target.value.status.Active? then None
      else Apply(s, scope, c, [Update(v, target.value.content, Some(target.value.locked), renewed)], now)
  }

  // ---- Runs ----

  datatype Event =
    | Working(work: WorkId, origin: Origin)
    | Capturing(work: WorkId, scopes: set<Scope>)
    | Applying(scope: Scope, context: Context, changes: seq<Change>, now: Instant)
    | Restoring(scope: Scope, target: Versioned, version: nat, renewed: bool, context: Context, now: Instant)
    | Forgetting(scope: Scope, purge: bool, now: Instant)

  function OrElse(r: Option<Store>, s: Store): Store { if r.Some? then r.value else s }

  function Step(s: Store, e: Event): Store {
    match e
    case Working(work, origin) => if work in s.works then s else s.(works := s.works[work := origin])
    case Capturing(work, scopes) => OrElse(Capture(s, work, scopes), s)
    case Applying(scope, c, changes, now) => OrElse(Apply(s, scope, c, changes, now), s)
    case Restoring(scope, v, version, renewed, c, now) => OrElse(Restore(s, scope, v, version, renewed, c, now), s)
    case Forgetting(scope, purge, now) => Forget(s, scope, purge, now)
  }

  function Run(s: Store, events: seq<Event>): Store
    decreases |events|
  {
    if events == [] then s else Run(Step(s, events[0]), events[1..])
  }

  predicate Timed(clock: Instant, events: seq<Event>)
    decreases |events|
  {
    events == [] ||
    var e := events[0];
    if e.Working? || e.Capturing? then Timed(clock, events[1..]) else clock <= e.now && Timed(e.now, events[1..])
  }

  const NOTHING := Store(map[], map[], map[], map[], map[], map[])
}
