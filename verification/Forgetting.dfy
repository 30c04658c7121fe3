/** Forgetting is permanent: what a purged scope holds later was all observed later. */
module Forgetting {
  import opened Folding
  import opened Text
  import opened Memory

  // ---- The invariant ----

  /** Every work that is named among the sources began after t. */
  predicate Later(works: map<WorkId, Origin>, t: Instant, sources: set<Source>) {
    forall x <- sources :: x.work.Some? ==> x.work.value in works && works[x.work.value].createdAt > t
  }

  predicate DocFits(works: map<WorkId, Origin>, scope: Option<Scope>, t: Instant, doc: Doc) {
    scope == Some(doc.scope) ==> Later(works, t, doc.sources)
  }

  /** An archived version is an older state of a document that still exists, which has kept all its sources. */
  predicate VersionFits(docs: map<DocId, Doc>, id: DocId, n: nat, old_: Doc) {
    && id in docs && old_.scope == docs[id].scope && old_.sources <= docs[id].sources && n < docs[id].version
  }

  predicate DocsFit(s: Store, scope: Option<Scope>, t: Instant) {
    && (forall id <- s.docs.Keys :: DocFits(s.works, scope, t, s.docs[id]))
    && (forall v <- s.versions.Keys :: VersionFits(s.docs, v.0, v.1, s.versions[v]))
  }

  predicate EvidenceFits(s: Store, scope: Scope, t: Instant) {
    forall w <- s.evidence.Keys ::
      scope in s.evidence[w].scopes && s.evidence[w].hasText ==> w in s.works && s.works[w].createdAt > t
  }

  /** Folded. */
  ghost predicate Documents(s: Store, scope: Option<Scope>, t: Instant) {
    forall n: nat :: Unfolding(n) ==> DocsFit(s, scope, t)
  }

  /** Without a scope it speaks of the archive alone. */
  ghost predicate Clean(s: Store, scope: Option<Scope>, t: Instant) {
    && Documents(s, scope, t)
    && (scope.Some? ==>
          && EvidenceFits(s, scope.value, t)
          && EpochOf(s, scope.value).forgottenAt.Some? && EpochOf(s, scope.value).forgottenAt.value >= t)
  }

  lemma DocAt(s: Store, scope: Option<Scope>, t: Instant, id: DocId)
    requires Documents(s, scope, t) && id in s.docs
    ensures DocFits(s.works, scope, t, s.docs[id])
  {
    assert Unfolding(0);
  }

  lemma VersionAt(s: Store, scope: Option<Scope>, t: Instant, v: (DocId, nat))
    requires Documents(s, scope, t) && v in s.versions
    ensures VersionFits(s.docs, v.0, v.1, s.versions[v])
  {
    assert Unfolding(0);
  }

  // ---- Writes ----

  /** Everything but documents and versions is as it was. */
  predicate SameRest(s: Store, t: Store) {
    t.works == s.works && t.scopes == s.scopes && t.evidence == s.evidence && t.commands == s.commands
  }

  lemma ReplaceKeeps(s: Store, scope: Option<Scope>, t: Instant, id: DocId, doc: Doc)
    requires Documents(s, scope, t) && id in s.docs && DocFits(s.works, scope, t, doc)
    requires doc.scope == s.docs[id].scope && doc.version > s.docs[id].version && s.docs[id].sources <= doc.sources
    ensures Documents(Replace(s, id, doc), scope, t) && SameRest(s, Replace(s, id, doc))
  {
    var r := Replace(s, id, doc);
    forall k | k in r.docs
      ensures DocFits(r.works, scope, t, r.docs[k])
    {
      if k != id { DocAt(s, scope, t, k); }
    }
    forall v | v in r.versions
      ensures VersionFits(r.docs, v.0, v.1, r.versions[v])
    {
      if v in s.versions { VersionAt(s, scope, t, v); }
    }
  }

  lemma CreateKeeps(s: Store, scope: Option<Scope>, t: Instant, id: DocId, doc: Doc)
    requires Documents(s, scope, t) && id !in s.docs && DocFits(s.works, scope, t, doc)
    ensures Documents(s.(docs := s.docs[id := doc]), scope, t)
  {
    var r := s.(docs := s.docs[id := doc]);
    forall k | k in r.docs
      ensures DocFits(r.works, scope, t, r.docs[k])
    {
      if k != id { DocAt(s, scope, t, k); }
    }
    forall v | v in r.versions
      ensures VersionFits(r.docs, v.0, v.1, r.versions[v])
    {
      VersionAt(s, scope, t, v);
    }
  }

  lemma RemoveKeeps(s: Store, scope: Option<Scope>, t: Instant, id: DocId)
    requires Documents(s, scope, t)
    ensures Documents(Remove(s, id), scope, t) && SameRest(s, Remove(s, id))
  {
    var r := Remove(s, id);
    forall k | k in r.docs
      ensures DocFits(r.works, scope, t, r.docs[k])
    {
      DocAt(s, scope, t, k);
    }
    forall v | v in r.versions
      ensures VersionFits(r.docs, v.0, v.1, r.versions[v])
    {
      VersionAt(s, scope, t, v);
    }
  }

  /** If the write is in the scope, its sources are all later. */
  predicate SourcesFit(s: Store, scope: Option<Scope>, t: Instant, target: Scope, sources: set<Source>) {
    scope == Some(target) ==> Later(s.works, t, sources)
  }

  /** The document as `Save` writes it over the old one. */
  function Saved(doc: Doc, c: Context, content: Content, lock: Option<bool>, sources: set<Source>): Doc {
    doc.(status := Active, version := doc.version + 1, content := content, sources := sources,
         explicit := c.explicit, locked := if lock.Some? then lock.value else doc.locked)
  }

  lemma SaveOverKeeps(s: Store, scope: Option<Scope>, t: Instant, target: Scope, c: Context, id: DocId,
                      content: Content, lock: Option<bool>, sources: set<Source>)
    requires Documents(s, scope, t) && SourcesFit(s, scope, t, target, sources)
    requires id in s.docs && s.docs[id].scope == target && s.docs[id].sources <= sources
    ensures var r := Replace(s, id, Saved(s.docs[id], c, content, lock, sources)); Documents(r, scope, t) && SameRest(s, r)
  {
    ReplaceKeeps(s, scope, t, id, Saved(s.docs[id], c, content, lock, sources));
  }

  lemma SaveKeeps(s: Store, scope: Option<Scope>, t: Instant, target: Scope, c: Context, index: nat,
                  current: Option<Versioned>,
                  content: Content, lock: Option<bool>, sources: set<Source>)
    requires Documents(s, scope, t) && SourcesFit(s, scope, t, target, sources)
    requires current.Some? && current.value.id in s.docs ==>
               s.docs[current.value.id].scope == target && s.docs[current.value.id].sources <= sources
    requires Save(s, target, c, index, current, content, lock, sources).Some?
    ensures var r := Save(s, target, c, index, current, content, lock, sources).value; Documents(r, scope, t) && SameRest(s, r)
  {
    if current.None? {
      var id := DocId(target, c.epoch, c.action, index);
      CreateKeeps(s, scope, t, id, Doc(target, 1, Active, content, sources, c.explicit, lock == Some(true)));
    } else {
      SaveOverKeeps(s, scope, t, target, c, current.value.id, content, lock, sources);
    }
  }

  /** Documents may gain the write's sources, and stay in their scopes. */
  predicate Retired_(s: Store, t: Store, extra: set<Source>) {
    t.docs.Keys == s.docs.Keys &&
    forall id <- s.docs.Keys :: t.docs[id].scope == s.docs[id].scope && t.docs[id].sources <= s.docs[id].sources + extra
  }

  lemma {:induction false} RetireKeeps(s: Store, scope: Option<Scope>, t: Instant, target: Scope, c: Context,
                                       from: seq<Versioned>, sources: set<Source>)
    requires Documents(s, scope, t) && SourcesFit(s, scope, t, target, c.sources) && SourcesFit(s, scope, t, target, sources)
    requires Retire(s, target, c, from, sources).Some?
    ensures var (r, all) := Retire(s, target, c, from, sources).value;
            && Documents(r, scope, t) && SameRest(s, r) && Retired_(s, r, c.sources)
            && SourcesFit(s, scope, t, target, all) && sources <= all
    decreases |from|
  {
    if from != [] {
      var donor := s.docs[from[0].id];
      DocAt(s, scope, t, from[0].id);
      var retired := donor.(status := Retired, version := donor.version + 1, sources := donor.sources + c.sources);
      ReplaceKeeps(s, scope, t, from[0].id, retired);
      RetireKeeps(Replace(s, from[0].id, retired), scope, t, target, c, from[1..], sources + donor.sources);
    }
  }

  lemma MergeKeeps(s: Store, scope: Option<Scope>, t: Instant, target: Scope, c: Context, index: nat, change: Change)
    requires Documents(s, scope, t) && SourcesFit(s, scope, t, target, c.sources) && change.Merge?
    requires ApplyOne(s, target, c, index, change).Some?
    ensures var r := ApplyOne(s, target, c, index, change).value; Documents(r, scope, t) && SameRest(s, r)
  {
    var id := change.target.id;
    DocAt(s, scope, t, id);
    var sources := s.docs[id].sources + c.sources;
    RetireKeeps(s, scope, t, target, c, change.from, sources);
    var (m, all) := Retire(s, target, c, change.from, sources).value;
    SaveKeeps(m, scope, t, target, c, index, Some(change.target), change.content, change.lock, all);
  }

  lemma OverKeeps(s: Store, scope: Option<Scope>, t: Instant, target: Scope, c: Context, index: nat, v: Versioned,
                  content: Content, lock: Option<bool>)
    requires Documents(s, scope, t) && SourcesFit(s, scope, t, target, c.sources)
    requires v.id in s.docs && s.docs[v.id].scope == target
    requires Save(s, target, c, index, Some(v), content, lock, s.docs[v.id].sources + c.sources).Some?
    ensures var r := Save(s, target, c, index, Some(v), content, lock, s.docs[v.id].sources + c.sources).value;
            Documents(r, scope, t) && SameRest(s, r)
  {
    DocAt(s, scope, t, v.id);
    SaveKeeps(s, scope, t, target, c, index, Some(v), content, lock, s.docs[v.id].sources + c.sources);
  }

  function LetLapse(doc: Doc, c: Context): Doc {
    doc.(status := Expired, version := doc.version + 1, sources := doc.sources + c.sources)
  }

  lemma LapseFits(works: map<WorkId, Origin>, scope: Option<Scope>, t: Instant, doc: Doc, c: Context)
    requires DocFits(works, scope, t, doc) && (scope == Some(doc.scope) ==> Later(works, t, c.sources))
    ensures DocFits(works, scope, t, LetLapse(doc, c))
    ensures LetLapse(doc, c).scope == doc.scope && LetLapse(doc, c).version > doc.version && doc.sources <= LetLapse(doc, c).sources
  {
  }

  lemma ExpireKeeps(s: Store, scope: Option<Scope>, t: Instant, target: Scope, c: Context, id: DocId)
    requires Documents(s, scope, t) && SourcesFit(s, scope, t, target, c.sources) && id in s.docs && s.docs[id].scope == target
    ensures var r := Replace(s, id, LetLapse(s.docs[id], c)); Documents(r, scope, t) && SameRest(s, r)
  {
    DocAt(s, scope, t, id);
    LapseFits(s.works, scope, t, s.docs[id], c);
    ReplaceKeeps(s, scope, t, id, LetLapse(s.docs[id], c));
  }

  lemma ApplyOneKeeps(s: Store, scope: Option<Scope>, t: Instant, target: Scope, c: Context, index: nat, change: Change)
    requires Documents(s, scope, t) && SourcesFit(s, scope, t, target, c.sources)
    requires ApplyOne(s, target, c, index, change).Some?
    ensures var r := ApplyOne(s, target, c, index, change).value; Documents(r, scope, t) && SameRest(s, r)
  {
    if change.Create? {
      SaveKeeps(s, scope, t, target, c, index, None, change.content, change.lock, c.sources);
    } else if change.Merge? {
      MergeKeeps(s, scope, t, target, c, index, change);
    } else if change.Delete? {
      RemoveKeeps(s, scope, t, change.target.id);
    } else if change.Expire? {
      ExpireKeeps(s, scope, t, target, c, change.target.id);
    } else {
      var doc := s.docs[change.target.id];
      var lock := if change.Move? then Some(doc.locked) else change.lock;
      var content := if change.Move? then doc.content.(path := change.path) else change.content;
      OverKeeps(s, scope, t, target, c, index, change.target, content, lock);
    }
  }

  lemma {:induction false} ApplyAllKeeps(s: Store, scope: Option<Scope>, t: Instant, target: Scope, c: Context,
                                         changes: seq<Change>)
    requires Documents(s, scope, t) && SourcesFit(s, scope, t, target, c.sources)
    requires ApplyAll(s, target, c, changes).Some?
    ensures var r := ApplyAll(s, target, c, changes).value; Documents(r, scope, t) && SameRest(s, r)
    decreases |changes|
  {
    if changes != [] {
      var front := changes[..|changes| - 1];
      ApplyAllKeeps(s, scope, t, target, c, front);
      ApplyOneKeeps(ApplyAll(s, target, c, front).value, scope, t, target, c, |front|, changes[|front|]);
    }
  }

  // ---- Forgetting ----

  predicate Before(s: Store, scope: Option<Scope>, now: Instant) {
    scope.Some? && EpochOf(s, scope.value).forgottenAt.Some? ==> EpochOf(s, scope.value).forgottenAt.value <= now
  }

  lemma ForgetKeeps(s: Store, scope: Option<Scope>, t: Instant, other: Scope, purge: bool, now: Instant)
    requires Clean(s, scope, t) && Before(s, scope, now)
    ensures Clean(Forget(s, other, purge, now), scope, t)
  {
    var r := Forget(s, other, purge, now);
    forall id | id in r.docs
      ensures DocFits(r.works, scope, t, r.docs[id])
    {
      DocAt(s, scope, t, id);
    }
    forall v | v in r.versions
      ensures VersionFits(r.docs, v.0, v.1, r.versions[v])
    {
      VersionAt(s, scope, t, v);
    }
  }

  /** A purge leaves nothing of the scope: no document, no version, no evidence text. */
  lemma PurgeCleans(s: Store, scope: Scope, now: Instant)
    requires Clean(s, None, 0)
    ensures Clean(Forget(s, scope, true, now), Some(scope), now)
    ensures var r := Forget(s, scope, true, now);
            && (forall id <- r.docs.Keys :: r.docs[id].scope != scope)
            && (forall w <- r.evidence.Keys :: scope in r.evidence[w].scopes ==> !r.evidence[w].hasText)
            && EpochOf(r, scope).epoch == EpochOf(s, scope).epoch + 1
  {
    assert Unfolding(0);
    var r := Forget(s, scope, true, now);
    forall v | v in r.versions
      ensures VersionFits(r.docs, v.0, v.1, r.versions[v])
    {
      assert VersionFits(s.docs, v.0, v.1, s.versions[v]);
    }
  }

  // ---- Every transaction ----

  lemma WriterFits(s: Store, scope: Option<Scope>, t: Instant, target: Scope, c: Context)
    requires Clean(s, scope, t) && MayWrite(s, target, c)
    ensures SourcesFit(s, scope, t, target, c.sources)
  {
  }

  lemma ApplyKeeps(s: Store, scope: Option<Scope>, t: Instant, target: Scope, c: Context, changes: seq<Change>,
                   now: Instant)
    requires Clean(s, scope, t) && Before(s, scope, now)
    ensures Clean(OrElse(Apply(s, target, c, changes, now), s), scope, t)
  {
    var r := Apply(s, target, c, changes, now);
    if r.Some? && Command(target, c.epoch, c.action) !in s.commands {
      WriterFits(s, scope, t, target, c);
      ApplyAllKeeps(s, scope, t, target, c, changes);
      var u := ApplyAll(s, target, c, changes).value;
      ForgetKeeps(u, scope, t, target, false, now);
      CommandsDoNotMatter(if exists x <- changes :: x.Delete? then Forget(u, target, false, now) else u, r.value.commands, scope, t);
    }
  }

  lemma CommandsDoNotMatter(s: Store, commands: map<Command, string>, scope: Option<Scope>, t: Instant)
    requires Clean(s, scope, t)
    ensures Clean(s.(commands := commands), scope, t)
  {
    var r := s.(commands := commands);
    forall id | id in r.docs ensures DocFits(r.works, scope, t, r.docs[id]) { DocAt(s, scope, t, id); }
    forall v | v in r.versions ensures VersionFits(r.docs, v.0, v.1, r.versions[v]) { VersionAt(s, scope, t, v); }
  }

  lemma CaptureKeeps(s: Store, scope: Option<Scope>, t: Instant, work: WorkId, scopes: set<Scope>)
    requires Clean(s, scope, t)
    ensures Clean(OrElse(Capture(s, work, scopes), s), scope, t)
  {
    var r := OrElse(Capture(s, work, scopes), s);
    forall id | id in r.docs ensures DocFits(r.works, scope, t, r.docs[id]) { DocAt(s, scope, t, id); }
    forall v | v in r.versions ensures VersionFits(r.docs, v.0, v.1, r.versions[v]) { VersionAt(s, scope, t, v); }
  }

  lemma WorkKeeps(s: Store, scope: Option<Scope>, t: Instant, work: WorkId, origin: Origin)
    requires Clean(s, scope, t) && work !in s.works
    ensures Clean(s.(works := s.works[work := origin]), scope, t)
  {
    var r := s.(works := s.works[work := origin]);
    forall id | id in r.docs
      ensures DocFits(r.works, scope, t, r.docs[id])
    {
      DocAt(s, scope, t, id);
    }
    forall v | v in r.versions ensures VersionFits(r.docs, v.0, v.1, r.versions[v]) { VersionAt(s, scope, t, v); }
  }

  predicate InTime(s: Store, scope: Option<Scope>, e: Event) { e.Working? || e.Capturing? || Before(s, scope, e.now) }

  lemma StepKeeps(s: Store, scope: Option<Scope>, t: Instant, e: Event)
    requires Clean(s, scope, t) && InTime(s, scope, e)
    ensures Clean(Step(s, e), scope, t)
  {
    match e {
      case Working(work, origin) => if work !in s.works { WorkKeeps(s, scope, t, work, origin); }
      case Capturing(work, scopes) => CaptureKeeps(s, scope, t, work, scopes);
      case Applying(target, c, changes, now) => ApplyKeeps(s, scope, t, target, c, changes, now);
      case Restoring(target, v, version, renewed, c, now) =>
        if Restore(s, target, v, version, renewed, c, now).Some? {
          var doc := s.docs[v.id];
          var old_ := if doc.version == version then doc else s.versions[(v.id, version)];
          ApplyKeeps(s, scope, t, target, c, [Update(v, old_.content, Some(old_.locked), renewed)], now);
        }
      case Forgetting(other, purge, now) => ForgetKeeps(s, scope, t, other, purge, now);
    }
  }

  // ---- Runs ----

  function After(clock: Instant, e: Event): Instant { if e.Working? || e.Capturing? then clock else e.now }

  /** Nothing was forgotten later than the clock. */
  lemma ForgottenInTime(s: Store, scope: Option<Scope>, t: Instant, clock: Instant, e: Event)
    requires Clean(s, scope, t) && Before(s, scope, clock) && clock <= After(clock, e)
    ensures Before(Step(s, e), scope, After(clock, e)) && InTime(s, scope, e)
    ensures scope.Some? ==> EpochOf(Step(s, e), scope.value).epoch >= EpochOf(s, scope.value).epoch
  {
    match e {
      case Applying(target, c, changes, now) => ApplyScopes(s, scope, t, target, c, changes, now);
      case Restoring(target, v, version, renewed, c, now) =>
        if Restore(s, target, v, version, renewed, c, now).Some? {
          var doc := s.docs[v.id];
          var old_ := if doc.version == version then doc else s.versions[(v.id, version)];
          ApplyScopes(s, scope, t, target, c, [Update(v, old_.content, Some(old_.locked), renewed)], now);
        }
      case _ =>
    }
  }

  predicate ScopesAfter(s: Store, r: Store, target: Scope, now: Instant) {
    r.scopes == s.scopes || r.scopes == s.scopes[target := Epoch(EpochOf(s, target).epoch + 1, Some(now))]
  }

  lemma ApplyScopes(s: Store, scope: Option<Scope>, t: Instant, target: Scope, c: Context, changes: seq<Change>,
                    now: Instant)
    requires Clean(s, scope, t)
    ensures ScopesAfter(s, OrElse(Apply(s, target, c, changes, now), s), target, now)
  {
    if MayWrite(s, target, c) && ApplyAll(s, target, c, changes).Some? {
      WriterFits(s, scope, t, target, c);
      ApplyAllKeeps(s, scope, t, target, c, changes);
    }
    ScopesFrom(s, target, c, changes, now);
  }

  lemma ScopesFrom(s: Store, target: Scope, c: Context, changes: seq<Change>, now: Instant)
    requires var m := ApplyAll(s, target, c, changes); MayWrite(s, target, c) && m.Some? ==> m.value.scopes == s.scopes
    ensures ScopesAfter(s, OrElse(Apply(s, target, c, changes, now), s), target, now)
  {
    var r, m := Apply(s, target, c, changes, now), ApplyAll(s, target, c, changes);
    var deletes := exists x <- changes :: x.Delete?;
    if r.Some? && r.value != s {
      assert m.Some? && MayWrite(s, target, c) && r == Some(Committed(m.value, target, c, deletes, now));
      CommittedScopes(m.value, target, c, deletes, now);
      SameScopes(s, m.value, r.value, target, now);
    }
  }

  lemma SameScopes(s: Store, m: Store, r: Store, target: Scope, now: Instant)
    requires m.scopes == s.scopes && ScopesAfter(m, r, target, now)
    ensures ScopesAfter(s, r, target, now)
  {
  }

  lemma CommittedScopes(s: Store, target: Scope, c: Context, deletes: bool, now: Instant)
    ensures ScopesAfter(s, Committed(s, target, c, deletes, now), target, now)
  {
  }

  lemma {:induction false} RunKeeps(s: Store, scope: Option<Scope>, t: Instant, clock: Instant, events: seq<Event>)
    requires Clean(s, scope, t) && Before(s, scope, clock) && Timed(clock, events)
    ensures Clean(Run(s, events), scope, t)
    ensures scope.Some? ==> EpochOf(Run(s, events), scope.value).epoch >= EpochOf(s, scope.value).epoch
    decreases |events|
  {
    if events != [] {
      var e := events[0];
      ForgottenInTime(s, scope, t, clock, e);
      StepKeeps(s, scope, t, e);
      RunKeeps(Step(s, e), scope, t, After(clock, e), events[1..]);
    }
  }

  lemma NothingClean()
    ensures Clean(NOTHING, None, 0)
  {
  }

  /** The store after a run from nothing, and one in which a scope was purged on the way. */
  function PurgedRun(before: seq<Event>, scope: Scope, now: Instant, after: seq<Event>): Store {
    Run(Forget(Run(NOTHING, before), scope, true, now), after)
  }

  lemma PurgedRunClean(start: Instant, before: seq<Event>, scope: Scope, now: Instant, after: seq<Event>)
    requires Timed(start, before) && Timed(now, after)
    ensures Clean(PurgedRun(before, scope, now, after), Some(scope), now)
    ensures EpochOf(PurgedRun(before, scope, now, after), scope).epoch > EpochOf(Run(NOTHING, before), scope).epoch
  {
    NothingClean();
    RunKeeps(NOTHING, None, 0, start, before);
    PurgeCleans(Run(NOTHING, before), scope, now);
    RunKeeps(Forget(Run(NOTHING, before), scope, true, now), Some(scope), now, now, after);
  }

  /**
   * Once a scope was purged at some instant, no document of it, no archived version and no evidence ever again rests
   * on a work that began at or before that instant, whether it was created, updated, merged, moved or restored.
   */
  lemma ForgettingIsPermanent(start: Instant, before: seq<Event>, scope: Scope, now: Instant, after: seq<Event>)
    requires Timed(start, before) && Timed(now, after)
    ensures var s := PurgedRun(before, scope, now, after);
            && (forall id <- s.docs.Keys :: s.docs[id].scope == scope ==> Later(s.works, now, s.docs[id].sources))
            && (forall v <- s.versions.Keys :: s.versions[v].scope == scope ==> Later(s.works, now, s.versions[v].sources))
            && (forall w <- s.evidence.Keys :: scope in s.evidence[w].scopes && s.evidence[w].hasText ==>
                  w in s.works && s.works[w].createdAt > now)
  {
    PurgedRunClean(start, before, scope, now, after);
    var s := PurgedRun(before, scope, now, after);
    forall id | id in s.docs && s.docs[id].scope == scope
      ensures Later(s.works, now, s.docs[id].sources)
    {
      DocAt(s, Some(scope), now, id);
    }
    forall v | v in s.versions && s.versions[v].scope == scope
      ensures Later(s.works, now, s.versions[v].sources)
    {
      VersionAt(s, Some(scope), now, v);
      DocAt(s, Some(scope), now, v.0);
    }
  }

  /** A write that was prepared before the scope was forgotten is refused ever after. */
  lemma StaleWriteRefused(start: Instant, before: seq<Event>, scope: Scope, now: Instant, after: seq<Event>,
                          c: Context, changes: seq<Change>, at: Instant)
    requires Timed(start, before) && Timed(now, after)
    requires c.epoch <= EpochOf(Run(NOTHING, before), scope).epoch
    ensures Apply(PurgedRun(before, scope, now, after), scope, c, changes, at).None?
  {
    PurgedRunClean(start, before, scope, now, after);
  }

  /** In every run a document keeps the sources of all its archived versions, so restoring one hides no provenance. */
  lemma ProvenanceKept(start: Instant, events: seq<Event>, v: (DocId, nat))
    requires Timed(start, events) && v in Run(NOTHING, events).versions
    ensures var s := Run(NOTHING, events);
            && v.0 in s.docs && s.versions[v].sources <= s.docs[v.0].sources
            && s.versions[v].scope == s.docs[v.0].scope && v.1 < s.docs[v.0].version
  {
    NothingClean();
    RunKeeps(NOTHING, None, 0, start, events);
    VersionAt(Run(NOTHING, events), None, 0, v);
  }
}
