/** When a batch of memory changes is accepted, and what it leaves of every document. */
module MemoryEffects {
  import opened Text
  import opened Memory

  // ---- One change ----

  /** The id that a creation takes. */
  function CreatedId(scope: Scope, c: Context, index: nat): DocId { DocId(scope, c.epoch, c.action, index) }

  /** The document is there in the version that was named, and a synthesis leaves what a user wrote or locked alone. */
  predicate Open(s: Store, scope: Scope, c: Context, v: Versioned) {
    && v.id in s.docs
    && s.docs[v.id].scope == scope && s.docs[v.id].version == v.expected
    && (c.explicit || (!s.docs[v.id].explicit && !s.docs[v.id].locked))
    && |s.docs[v.id].sources + c.sources| <= 64
  }

  /** The sources that the donors of a merge lend. */
  function Lent(s: Store, from: seq<Versioned>): set<Source> {
    set d, x | d in from && d.id in s.docs && x in s.docs[d.id].sources :: x
  }

  /** What a change has to meet. */
  predicate Admissible(s: Store, scope: Scope, c: Context, index: nat, change: Change) {
    match change
    case Create(_, lock) =>
      CreatedId(scope, c, index) !in s.docs && |c.sources| <= 64 && (c.explicit || lock != Some(true))
    case Update(v, _, lock, renewed) =>
      Open(s, scope, c, v) && (c.explicit || lock != Some(true)) && (s.docs[v.id].status == Expired ==> renewed)
    case Move(v, _, renewed) => Open(s, scope, c, v) && (s.docs[v.id].status == Expired ==> renewed)
    case Expire(v) => Open(s, scope, c, v)
    case Delete(v) => Open(s, scope, c, v) && c.explicit
    case Merge(v, _, lock, from, renewed) =>
      && Open(s, scope, c, v) && (c.explicit || lock != Some(true)) && (s.docs[v.id].status == Expired ==> renewed)
      && (forall d <- from :: Open(s, scope, c, d))
      && |s.docs[v.id].sources + c.sources + Lent(s, from)| <= 64
  }

  /** A document as a change leaves it: one version on, with the sources of the change, open to everyone or the user's. */
  function Next(old_: Doc, c: Context, status: Status, content: Content, sources: set<Source>, locked: bool): Doc {
    Doc(old_.scope, old_.version + 1, status, content, sources, c.explicit, locked)
  }

  /** Still the user's if it was, and out of use. */
  function Shelved(old_: Doc, c: Context, status: Status): Doc {
    Doc(old_.scope, old_.version + 1, status, old_.content, old_.sources + c.sources, old_.explicit, old_.locked)
  }

  predicate IsDoc(t: Store, id: DocId, doc: Doc) { id in t.docs && t.docs[id] == doc }

  /** The document that the change was of is on record as it was. */
  predicate Archived(s: Store, t: Store, id: DocId) {
    id in s.docs && (id, s.docs[id].version) in t.versions && t.versions[(id, s.docs[id].version)] == s.docs[id]
  }

  /** What the change leaves of the documents it names. */
  predicate Leaves(s: Store, t: Store, scope: Scope, c: Context, index: nat, change: Change) {
    match change
    case Create(content, lock) =>
      IsDoc(t, CreatedId(scope, c, index), Doc(scope, 1, Active, content, c.sources, c.explicit, lock == Some(true)))
    case Delete(v) => v.id !in t.docs
    case Update(v, content, lock, _) =>
      Archived(s, t, v.id) &&
      IsDoc(t, v.id, Next(s.docs[v.id], c, Active, content, s.docs[v.id].sources + c.sources,
                          match lock case None => s.docs[v.id].locked case Some(l) => l))
    case Move(v, path, _) =>
      Archived(s, t, v.id) &&
      IsDoc(t, v.id, Next(s.docs[v.id], c, Active, Content(path, s.docs[v.id].content.rest),
                          s.docs[v.id].sources + c.sources, s.docs[v.id].locked))
    case Expire(v) => Archived(s, t, v.id) && IsDoc(t, v.id, Shelved(s.docs[v.id], c, Expired))
    case Merge(v, content, lock, from, _) =>
      && Archived(s, t, v.id)
      && IsDoc(t, v.id, Next(s.docs[v.id], c, Active, content, s.docs[v.id].sources + c.sources + Lent(s, from),
                             match lock case None => s.docs[v.id].locked case Some(l) => l))
      && forall d <- from :: Archived(s, t, d.id) && IsDoc(t, d.id, Shelved(s.docs[d.id], c, Retired))
  }

  /** The documents that a change names, and the one that it creates. */
  predicate Touches(scope: Scope, c: Context, index: nat, change: Change, id: DocId) {
    match change
    case Create(_, _) => id == CreatedId(scope, c, index)
    case Merge(v, _, _, from, _) => id == v.id || IsDonor(from, id)
    case _ => id == change.target.id
  }

  predicate IsDonor(from: seq<Versioned>, id: DocId) { exists d <- from :: d.id == id }

  /** The document and its history are as they were. */
  ghost predicate Untouched(s: Store, t: Store, id: DocId) {
    && (id in t.docs <==> id in s.docs) && (id in s.docs ==> t.docs[id] == s.docs[id])
    && forall n: nat :: ((id, n) in t.versions <==> (id, n) in s.versions)
                        && ((id, n) in s.versions ==> t.versions[(id, n)] == s.versions[(id, n)])
  }

  predicate DistinctDonors(from: seq<Versioned>) { forall i, j :: 0 <= i < j < |from| ==> from[i].id != from[j].id }

  // ---- The donors of a merge ----

  lemma LentCons(s: Store, from: seq<Versioned>)
    requires from != [] && from[0].id in s.docs
    ensures Lent(s, from) == s.docs[from[0].id].sources + Lent(s, from[1..])
  {
    assert from == [from[0]] + from[1..];
  }

  lemma LentSame(s: Store, t: Store, from: seq<Versioned>)
    requires forall d <- from :: Untouched(s, t, d.id)
    ensures Lent(t, from) == Lent(s, from)
  {
  }

  lemma OpenSame(s: Store, t: Store, scope: Scope, c: Context, d: Versioned)
    requires Untouched(s, t, d.id)
    ensures Open(t, scope, c, d) <==> Open(s, scope, c, d)
  {
  }

  lemma ReplaceLeaves(s: Store, id: DocId, doc: Doc, k: DocId)
    requires id in s.docs
    ensures var t := Replace(s, id, doc);
            if k == id then Archived(s, t, id) && IsDoc(t, id, doc) else Untouched(s, t, k)
  {
  }

  /** The store after the first donor was retired. */
  function FirstRetired(s: Store, c: Context, from: seq<Versioned>): Store
    requires from != [] && from[0].id in s.docs
  {
    Replace(s, from[0].id, Shelved(s.docs[from[0].id], c, Retired))
  }

  lemma RetireCons(s: Store, scope: Scope, c: Context, from: seq<Versioned>, sources: set<Source>)
    requires from != []
    ensures Retire(s, scope, c, from, sources) ==
            if !Open(s, scope, c, from[0]) then None
            else Retire(FirstRetired(s, c, from), scope, c, from[1..], sources + s.docs[from[0].id].sources)
  {
  }

  lemma OthersUntouched(s: Store, c: Context, from: seq<Versioned>)
    requires from != [] && from[0].id in s.docs && DistinctDonors(from)
    ensures forall d <- from[1..] :: d.id != from[0].id && Untouched(s, FirstRetired(s, c, from), d.id)
  {
    forall d | d in from[1..]
      ensures d.id != from[0].id && Untouched(s, FirstRetired(s, c, from), d.id)
    {
      var i :| 0 <= i < |from[1..]| && from[1..][i] == d;
      assert from[i + 1] == d;
      ReplaceLeaves(s, from[0].id, Shelved(s.docs[from[0].id], c, Retired), d.id);
    }
  }

  lemma {:induction false} RetiresWhen(s: Store, scope: Scope, c: Context, from: seq<Versioned>, sources: set<Source>)
    requires DistinctDonors(from)
    ensures Retire(s, scope, c, from, sources).Some? <==> forall d <- from :: Open(s, scope, c, d)
    decreases |from|
  {
    if from != [] {
      assert from == [from[0]] + from[1..];
      RetireCons(s, scope, c, from, sources);
      if Open(s, scope, c, from[0]) {
        var m := FirstRetired(s, c, from);
        OthersUntouched(s, c, from);
        RetiresWhen(m, scope, c, from[1..], sources + s.docs[from[0].id].sources);
        forall d | d in from[1..] ensures Open(m, scope, c, d) <==> Open(s, scope, c, d) { OpenSame(s, m, scope, c, d); }
      }
    }
  }

  lemma {:induction false} RetireLends(s: Store, scope: Scope, c: Context, from: seq<Versioned>, sources: set<Source>)
    requires DistinctDonors(from) && Retire(s, scope, c, from, sources).Some?
    ensures Retire(s, scope, c, from, sources).value.1 == sources + Lent(s, from)
    decreases |from|
  {
    if from != [] {
      RetireCons(s, scope, c, from, sources);
      var m := FirstRetired(s, c, from);
      OthersUntouched(s, c, from);
      RetireLends(m, scope, c, from[1..], sources + s.docs[from[0].id].sources);
      LentSame(s, m, from[1..]);
      LentCons(s, from);
    }
  }

  lemma DonorCons(from: seq<Versioned>, id: DocId)
    requires from != []
    ensures IsDonor(from, id) <==> from[0].id == id || IsDonor(from[1..], id)
  {
    assert from == [from[0]] + from[1..];
  }

  lemma {:induction false} RetireLeaves(s: Store, scope: Scope, c: Context, from: seq<Versioned>, sources: set<Source>, id: DocId)
    requires DistinctDonors(from) && Retire(s, scope, c, from, sources).Some?
    ensures var t := Retire(s, scope, c, from, sources).value.0;
            if IsDonor(from, id) then Archived(s, t, id) && IsDoc(t, id, Shelved(s.docs[id], c, Retired)) else Untouched(s, t, id)
    decreases |from|
  {
    if from != [] {
      RetireCons(s, scope, c, from, sources);
      DonorCons(from, id);
      var m := FirstRetired(s, c, from);
      ReplaceLeaves(s, from[0].id, Shelved(s.docs[from[0].id], c, Retired), id);
      OthersUntouched(s, c, from);
      RetireLeaves(m, scope, c, from[1..], sources + s.docs[from[0].id].sources, id);
    }
  }

  // ---- One change after another ----

  /** A merge names its documents once. */
  predicate NamesOnce(change: Change) {
    change.Merge? ==> DistinctDonors(change.from) && !IsDonor(change.from, change.target.id)
  }

  lemma SavesOver(s: Store, scope: Scope, c: Context, index: nat, v: Versioned, content: Content, lock: Option<bool>,
                  sources: set<Source>, k: DocId)
    requires v.id in s.docs
    ensures var r := Save(s, scope, c, index, Some(v), content, lock, sources);
            && (r.Some? <==> |sources| <= 64 && (c.explicit || lock != Some(true)))
            && (r.Some? ==>
                  if k == v.id
                  then Archived(s, r.value, k)
                       && IsDoc(r.value, k, Next(s.docs[k], c, Active, content, sources,
                                                 match lock case None => s.docs[k].locked case Some(l) => l))
                  else Untouched(s, r.value, k))
  {
  }

  lemma MergeLeaves(s: Store, scope: Scope, c: Context, index: nat, change: Change, k: DocId)
    requires change.Merge? && NamesOnce(change) && ApplyOne(s, scope, c, index, change).Some?
    ensures var v, t := change.target, ApplyOne(s, scope, c, index, change).value;
            && v.id in s.docs
            && if k == v.id
               then Archived(s, t, k)
                    && IsDoc(t, k, Next(s.docs[k], c, Active, change.content, s.docs[k].sources + c.sources + Lent(s, change.from),
                                        match change.lock case None => s.docs[k].locked case Some(l) => l))
               else if IsDonor(change.from, k) then Archived(s, t, k) && IsDoc(t, k, Shelved(s.docs[k], c, Retired))
               else Untouched(s, t, k)
  {
    var v := change.target;
    var sources := s.docs[v.id].sources + c.sources;
    RetireLends(s, scope, c, change.from, sources);
    RetireLeaves(s, scope, c, change.from, sources, v.id);
    RetireLeaves(s, scope, c, change.from, sources, k);
    var (m, all) := Retire(s, scope, c, change.from, sources).value;
    SavesOver(m, scope, c, index, v, change.content, change.lock, all, k);
    if k != v.id && IsDonor(change.from, k) { StaysArchived(s, m, ApplyOne(s, scope, c, index, change).value, k); }
  }

  lemma StaysArchived(s: Store, m: Store, t: Store, k: DocId)
    requires Archived(s, m, k) && Untouched(m, t, k)
    ensures Archived(s, t, k)
  {
  }

  /** The merge works if its target is open, its donors can be retired, and the whole can be saved. */
  lemma MergeIs(s: Store, scope: Scope, c: Context, index: nat, change: Change, sources: set<Source>)
    requires change.Merge? && NamesOnce(change) && Open(s, scope, c, change.target)
    requires sources == s.docs[change.target.id].sources + c.sources
    ensures ApplyOne(s, scope, c, index, change).Some? <==>
            && Retire(s, scope, c, change.from, sources).Some? && (s.docs[change.target.id].status == Expired ==> change.renewed)
            && |sources + Lent(s, change.from)| <= 64 && (c.explicit || change.lock != Some(true))
  {
    var v := change.target;
    if Retire(s, scope, c, change.from, sources).Some? {
      RetireLends(s, scope, c, change.from, sources);
      RetireLeaves(s, scope, c, change.from, sources, v.id);
      var (m, all) := Retire(s, scope, c, change.from, sources).value;
      assert v.id in m.docs;
      SavesOver(m, scope, c, index, v, change.content, change.lock, all, v.id);
    }
  }

  lemma MergeWhen(s: Store, scope: Scope, c: Context, index: nat, change: Change)
    requires change.Merge? && NamesOnce(change)
    ensures ApplyOne(s, scope, c, index, change).Some? <==> Admissible(s, scope, c, index, change)
  {
    if Open(s, scope, c, change.target) {
      var sources := s.docs[change.target.id].sources + c.sources;
      MergeIs(s, scope, c, index, change, sources);
      RetiresWhen(s, scope, c, change.from, sources);
    }
  }

  lemma OneWhen(s: Store, scope: Scope, c: Context, index: nat, change: Change)
    requires NamesOnce(change)
    ensures ApplyOne(s, scope, c, index, change).Some? <==> Admissible(s, scope, c, index, change)
  {
    if change.Merge? {
      MergeWhen(s, scope, c, index, change);
    } else if !change.Create? && Open(s, scope, c, change.target) {
      assert Get(s, scope, c, change.target) == Some(s.docs[change.target.id]);
    }
  }

  lemma OneLeaves(s: Store, scope: Scope, c: Context, index: nat, change: Change)
    requires NamesOnce(change) && ApplyOne(s, scope, c, index, change).Some?
    ensures Leaves(s, ApplyOne(s, scope, c, index, change).value, scope, c, index, change)
  {
    if change.Merge? {
      var t := ApplyOne(s, scope, c, index, change).value;
      MergeLeaves(s, scope, c, index, change, change.target.id);
      forall d | d in change.from
        ensures Archived(s, t, d.id) && IsDoc(t, d.id, Shelved(s.docs[d.id], c, Retired))
      {
        MergeLeaves(s, scope, c, index, change, d.id);
      }
    }
  }

  lemma OneSpares(s: Store, scope: Scope, c: Context, index: nat, change: Change, k: DocId)
    requires NamesOnce(change) && ApplyOne(s, scope, c, index, change).Some? && !Touches(scope, c, index, change, k)
    ensures Untouched(s, ApplyOne(s, scope, c, index, change).value, k)
  {
    if change.Merge? { MergeLeaves(s, scope, c, index, change, k); }
  }

  // ---- A batch ----

  predicate Names(change: Change, id: DocId) {
    match change
    case Create(_, _) => false
    case Merge(v, _, _, from, _) => id == v.id || IsDonor(from, id)
    case _ => id == change.target.id
  }

  /** At most twelve changes, one to twelve donors to a merge, and nothing named twice. */
  ghost predicate WellFormed(changes: seq<Change>) {
    && |changes| <= 12
    && (forall i :: 0 <= i < |changes| ==> changes[i].Merge? ==> 1 <= |changes[i].from| <= 12)
    && AllApart(changes)
  }

  ghost predicate AllApart(changes: seq<Change>) {
    && (forall i :: 0 <= i < |changes| ==> NamesOnce(changes[i]))
    && (forall i: nat, j: nat, id :: i < j < |changes| && Names(changes[i], id) ==> !Names(changes[j], id))
  }

  lemma InReferences(change: Change, id: DocId)
    ensures id in References(change) <==> Names(change, id)
  {
    var refs := References(change);
    if change.Merge? {
      if Names(change, id) && id != change.target.id {
        var i :| 0 <= i < |change.from| && change.from[i].id == id;
        assert refs[i + 1] == id;
      }
      if id in refs {
        var k :| 0 <= k < |refs| && refs[k] == id;
        if k > 0 { assert change.from[k - 1].id == id; }
      }
    }
  }

  lemma OnceExactly(change: Change)
    ensures DistinctIds(References(change)) <==> NamesOnce(change)
  {
    if change.Merge? {
      var refs, from := References(change), change.from;
      assert forall k :: 0 < k < |refs| ==> refs[k] == from[k - 1].id;
      if DistinctIds(refs) {
        forall k | 0 <= k < |from| ensures from[k].id != change.target.id { assert refs[0] != refs[k + 1]; }
        forall k, l | 0 <= k < l < |from| ensures from[k].id != from[l].id { assert refs[k + 1] != refs[l + 1]; }
      }
    }
  }

  lemma DistinctSplit(a: seq<DocId>, b: seq<DocId>)
    ensures DistinctIds(a + b) <==> DistinctIds(a) && DistinctIds(b) && forall id :: id in a ==> id !in b
  {
    var all := a + b;
    assert forall i :: 0 <= i < |a| ==> all[i] == a[i];
    assert forall j :: 0 <= j < |b| ==> all[|a| + j] == b[j];
    if DistinctIds(all) {
      forall id | id in a
        ensures id !in b
      {
        var i :| 0 <= i < |a| && a[i] == id;
        forall j | 0 <= j < |b| ensures b[j] != id { assert all[i] != all[|a| + j]; }
      }
      forall i, j | 0 <= i < j < |b| ensures b[i] != b[j] { assert all[|a| + i] != all[|a| + j]; }
    }
    if DistinctIds(a) && DistinctIds(b) && forall id :: id in a ==> id !in b {
      forall i, j | 0 <= i < j < |all|
        ensures all[i] != all[j]
      {
        if i < |a| <= j { assert a[i] in a && b[j - |a|] in b; }
      }
    }
  }

  lemma {:induction false} InAllReferences(changes: seq<Change>, id: DocId)
    ensures id in AllReferences(changes) <==> exists i :: 0 <= i < |changes| && Names(changes[i], id)
    decreases |changes|
  {
    if changes != [] {
      InReferences(changes[0], id);
      InAllReferences(changes[1..], id);
      if exists i :: 0 <= i < |changes[1..]| && Names(changes[1..][i], id) {
        var i :| 0 <= i < |changes[1..]| && Names(changes[1..][i], id);
        assert Names(changes[i + 1], id);
      }
      if exists i :: 0 < i < |changes| && Names(changes[i], id) {
        var i :| 0 < i < |changes| && Names(changes[i], id);
        assert Names(changes[1..][i - 1], id);
      }
    }
  }

  /** The first change is apart from the others, and they are apart from each other. */
  lemma ApartCons(changes: seq<Change>)
    requires changes != []
    ensures AllApart(changes) <==>
            && NamesOnce(changes[0]) && AllApart(changes[1..])
            && forall id :: Names(changes[0], id) ==> !exists i :: 0 <= i < |changes[1..]| && Names(changes[1..][i], id)
  {
    var rest := changes[1..];
    assert forall i :: 0 <= i < |rest| ==> rest[i] == changes[i + 1];
    if AllApart(changes) {
      forall i: nat, j: nat, id | i < j < |rest| && Names(rest[i], id) ensures !Names(rest[j], id) { assert Names(changes[i + 1], id); }
      forall id, i | Names(changes[0], id) && 0 <= i < |rest| ensures !Names(rest[i], id) { assert !Names(changes[i + 1], id); }
    }
    if NamesOnce(changes[0]) && AllApart(rest) && (forall id :: Names(changes[0], id) ==> !exists i :: 0 <= i < |rest| && Names(rest[i], id)) {
      forall i | 0 <= i < |changes| ensures NamesOnce(changes[i]) { if i > 0 { assert NamesOnce(rest[i - 1]); } }
      forall i: nat, j: nat, id | i < j < |changes| && Names(changes[i], id)
        ensures !Names(changes[j], id)
      {
        assert changes[j] == rest[j - 1];
        if i > 0 { assert Names(rest[i - 1], id); }
      }
    }
  }

  lemma {:induction false} ApartExactly(changes: seq<Change>)
    ensures DistinctIds(AllReferences(changes)) <==> AllApart(changes)
    decreases |changes|
  {
    if changes != [] {
      var rest := changes[1..];
      DistinctSplit(References(changes[0]), AllReferences(rest));
      OnceExactly(changes[0]);
      ApartExactly(rest);
      ApartCons(changes);
      forall id
        ensures id in References(changes[0]) <==> Names(changes[0], id)
        ensures id in AllReferences(rest) <==> exists i :: 0 <= i < |rest| && Names(rest[i], id)
      {
        InReferences(changes[0], id);
        InAllReferences(rest, id);
      }
    }
  }

  lemma ValidExactly(changes: seq<Change>)
    ensures ValidBatch(changes) <==> WellFormed(changes)
  {
    ApartExactly(changes);
    if WellFormed(changes) {
      forall x | x in changes && x.Merge?
        ensures 1 <= |x.from| <= 12
      {
        var i :| 0 <= i < |changes| && changes[i] == x;
      }
    }
  }

  /** A valid batch names no document twice. */
  lemma NamedApart(changes: seq<Change>, i: nat, j: nat, id: DocId)
    requires ValidBatch(changes) && i < j < |changes| && Names(changes[i], id)
    ensures !Names(changes[j], id)
  {
    ValidExactly(changes);
  }

  lemma NamedOnce(changes: seq<Change>, i: nat)
    requires ValidBatch(changes) && i < |changes|
    ensures NamesOnce(changes[i])
  {
    ValidExactly(changes);
  }

  /** No other change of the batch is about a document of this one. */
  ghost predicate Alone(scope: Scope, c: Context, changes: seq<Change>, i: nat)
    requires i < |changes|
  {
    forall j: nat, id :: j < |changes| && j != i && Touches(scope, c, j, changes[j], id) ==> !Touches(scope, c, i, changes[i], id)
  }

  /** A change names a document that the batch itself creates. */
  predicate NamesCreated(scope: Scope, c: Context, changes: seq<Change>) {
    exists i, j :: 0 <= i < |changes| && 0 <= j < |changes| && changes[j].Create? && Names(changes[i], CreatedId(scope, c, j))
  }

  lemma AloneUnless(scope: Scope, c: Context, changes: seq<Change>, i: nat)
    requires ValidBatch(changes) && !NamesCreated(scope, c, changes) && i < |changes|
    ensures Alone(scope, c, changes, i)
  {
    forall j: nat, id | j < |changes| && j != i && Touches(scope, c, j, changes[j], id)
      ensures !Touches(scope, c, i, changes[i], id)
    {
      if Names(changes[i], id) && Names(changes[j], id) {
        if i < j { NamedApart(changes, i, j, id); } else { NamedApart(changes, j, i, id); }
      }
    }
  }

  /** The store before the n-th change. */
  function After(s: Store, scope: Scope, c: Context, changes: seq<Change>, n: nat): Option<Store>
    requires n <= |changes|
  {
    ApplyAll(s, scope, c, changes[..n])
  }

  lemma AfterNext(s: Store, scope: Scope, c: Context, changes: seq<Change>, n: nat)
    requires n < |changes|
    ensures After(s, scope, c, changes, n + 1) ==
            if After(s, scope, c, changes, n).None? then None
            else ApplyOne(After(s, scope, c, changes, n).value, scope, c, n, changes[n])
  {
    assert changes[..n + 1][..n] == changes[..n];
  }

  lemma UntouchedTwice(s: Store, m: Store, t: Store, k: DocId)
    requires Untouched(s, m, k) && Untouched(m, t, k)
    ensures Untouched(s, t, k)
  {
  }

  /** From one point of the batch to a later one, a document that no change in between is about stays as it is. */
  lemma {:induction false} BatchSpares(s: Store, scope: Scope, c: Context, changes: seq<Change>, a: nat, b: nat, k: DocId)
    requires ValidBatch(changes) && a <= b <= |changes| && After(s, scope, c, changes, b).Some?
    requires forall j: nat :: a <= j < b ==> !Touches(scope, c, j, changes[j], k)
    ensures After(s, scope, c, changes, a).Some?
    ensures Untouched(After(s, scope, c, changes, a).value, After(s, scope, c, changes, b).value, k)
    decreases b - a
  {
    if a < b {
      AfterNext(s, scope, c, changes, b - 1);
      BatchSpares(s, scope, c, changes, a, b - 1, k);
      NamedOnce(changes, b - 1);
      var m := After(s, scope, c, changes, b - 1).value;
      OneSpares(m, scope, c, b - 1, changes[b - 1], k);
      UntouchedTwice(After(s, scope, c, changes, a).value, m, After(s, scope, c, changes, b).value, k);
    }
  }

  lemma Whole(s: Store, scope: Scope, c: Context, changes: seq<Change>)
    ensures After(s, scope, c, changes, 0) == Some(s) && After(s, scope, c, changes, |changes|) == ApplyAll(s, scope, c, changes)
  {
    assert changes[..|changes|] == changes;
  }

  /** What a change leaves depends on the documents it is about alone. */
  lemma LeavesSame(s: Store, m: Store, t: Store, u: Store, scope: Scope, c: Context, index: nat, change: Change)
    requires Leaves(m, t, scope, c, index, change) && NamesOnce(change)
    requires forall id :: Touches(scope, c, index, change, id) ==> Untouched(s, m, id) && Untouched(t, u, id)
    ensures Leaves(s, u, scope, c, index, change)
  {
    if change.Merge? {
      assert Touches(scope, c, index, change, change.target.id);
      forall d | d in change.from
        ensures Touches(scope, c, index, change, d.id)
      {
      }
      LentSame(s, m, change.from);
    } else if change.Create? {
      assert Touches(scope, c, index, change, CreatedId(scope, c, index));
    } else {
      assert Touches(scope, c, index, change, change.target.id);
    }
  }

  /**
   * What an accepted batch leaves, kind by kind: said of the documents before it, for every change whose documents no
   * other change of the batch is about.
   */
  lemma BatchLeaves(s: Store, scope: Scope, c: Context, changes: seq<Change>, i: nat)
    requires ValidBatch(changes) && ApplyAll(s, scope, c, changes).Some? && i < |changes| && Alone(scope, c, changes, i)
    ensures Leaves(s, ApplyAll(s, scope, c, changes).value, scope, c, i, changes[i])
  {
    Whole(s, scope, c, changes);
    var change := changes[i];
    forall id | Touches(scope, c, i, change, id)
      ensures After(s, scope, c, changes, i).Some? && After(s, scope, c, changes, i + 1).Some?
      ensures Untouched(s, After(s, scope, c, changes, i).value, id)
      ensures Untouched(After(s, scope, c, changes, i + 1).value, ApplyAll(s, scope, c, changes).value, id)
    {
      BatchSpares(s, scope, c, changes, i + 1, |changes|, id);
      AfterNext(s, scope, c, changes, i);
      BatchSpares(s, scope, c, changes, 0, i, id);
    }
    assert exists id :: Touches(scope, c, i, change, id) by {
      assert Touches(scope, c, i, change, if change.Create? then CreatedId(scope, c, i) else change.target.id);
    }
    AfterNext(s, scope, c, changes, i);
    NamedOnce(changes, i);
    var m := After(s, scope, c, changes, i).value;
    OneLeaves(m, scope, c, i, change);
    LeavesSame(s, m, After(s, scope, c, changes, i + 1).value, ApplyAll(s, scope, c, changes).value, scope, c, i, change);
  }

  lemma AdmissibleSame(s: Store, m: Store, scope: Scope, c: Context, index: nat, change: Change)
    requires forall id :: Touches(scope, c, index, change, id) ==> Untouched(s, m, id)
    ensures Admissible(m, scope, c, index, change) <==> Admissible(s, scope, c, index, change)
  {
    if change.Merge? {
      assert Touches(scope, c, index, change, change.target.id);
      forall d | d in change.from
        ensures Untouched(s, m, d.id) && (Open(m, scope, c, d) <==> Open(s, scope, c, d))
      {
        assert Touches(scope, c, index, change, d.id);
      }
      LentSame(s, m, change.from);
    } else if change.Create? {
      assert Touches(scope, c, index, change, CreatedId(scope, c, index));
    } else {
      assert Touches(scope, c, index, change, change.target.id);
    }
  }

  lemma {:induction false} AcceptedUpTo(s: Store, scope: Scope, c: Context, changes: seq<Change>, n: nat)
    requires ValidBatch(changes) && !NamesCreated(scope, c, changes) && n <= |changes|
    ensures After(s, scope, c, changes, n).Some? <==> forall i :: 0 <= i < n ==> Admissible(s, scope, c, i, changes[i])
    decreases n
  {
    Whole(s, scope, c, changes);
    if n > 0 {
      var k := n - 1;
      AcceptedUpTo(s, scope, c, changes, k);
      AfterNext(s, scope, c, changes, k);
      if After(s, scope, c, changes, k).Some? {
        var m := After(s, scope, c, changes, k).value;
        NamedOnce(changes, k);
        OneWhen(m, scope, c, k, changes[k]);
        AloneUnless(scope, c, changes, k);
        forall id | Touches(scope, c, k, changes[k], id)
          ensures Untouched(s, m, id)
        {
          BatchSpares(s, scope, c, changes, 0, k, id);
        }
        AdmissibleSame(s, m, scope, c, k, changes[k]);
      }
    }
  }

  /** The change meets what it has to meet in the store that the changes before it leave. */
  predicate AdmissibleThere(s: Store, scope: Scope, c: Context, changes: seq<Change>, i: nat)
    requires i < |changes|
  {
    var m := After(s, scope, c, changes, i);
    m.Some? && Admissible(m.value, scope, c, i, changes[i])
  }

  lemma NextWhen(s: Store, scope: Scope, c: Context, changes: seq<Change>, i: nat)
    requires ValidBatch(changes) && i < |changes|
    ensures After(s, scope, c, changes, i + 1).Some? <==> AdmissibleThere(s, scope, c, changes, i)
    ensures After(s, scope, c, changes, i + 1).Some? ==> After(s, scope, c, changes, i).Some?
  {
    AfterNext(s, scope, c, changes, i);
    NamedOnce(changes, i);
    if After(s, scope, c, changes, i).Some? { OneWhen(After(s, scope, c, changes, i).value, scope, c, i, changes[i]); }
  }

  lemma {:induction false} AcceptedBefore(s: Store, scope: Scope, c: Context, changes: seq<Change>, n: nat, i: nat)
    requires ValidBatch(changes) && i < n <= |changes| && After(s, scope, c, changes, n).Some?
    ensures AdmissibleThere(s, scope, c, changes, i)
    decreases n
  {
    NextWhen(s, scope, c, changes, n - 1);
    if i < n - 1 { AcceptedBefore(s, scope, c, changes, n - 1, i); }
  }

  lemma AcceptedStepwise(s: Store, scope: Scope, c: Context, changes: seq<Change>, n: nat)
    requires ValidBatch(changes) && n <= |changes|
    ensures After(s, scope, c, changes, n).Some? <==> forall i: nat :: i < n ==> AdmissibleThere(s, scope, c, changes, i)
  {
    if n == 0 {
      Whole(s, scope, c, changes);
    } else {
      NextWhen(s, scope, c, changes, n - 1);
      if After(s, scope, c, changes, n).Some? {
        forall i: nat | i < n ensures AdmissibleThere(s, scope, c, changes, i) { AcceptedBefore(s, scope, c, changes, n, i); }
      }
    }
  }

  // ---- Evidence and forgetting ----

  /** The work is there, of the scope's tenant, and began after the scope was last forgotten. */
  predicate Fresh(s: Store, scope: Scope, work: WorkId) {
    && work in s.works && s.works[work].tenant == scope.tenant
    && (scope in s.scopes && s.scopes[scope].forgottenAt.Some? ==> s.works[work].createdAt > s.scopes[scope].forgottenAt.value)
  }

  /** Evidence is recorded once for a run, for those scopes alone that were not forgotten since the run began. */
  lemma CaptureExactly(s: Store, work: WorkId, scopes: set<Scope>)
    ensures var r := Capture(s, work, scopes);
            && (r == None <==> work !in s.works)
            && (r.Some? ==>
                  if work in s.evidence || forall scope <- scopes :: !Fresh(s, scope, work) then r.value == s
                  else && r.value == s.(evidence := r.value.evidence)
                       && r.value.evidence.Keys == s.evidence.Keys + {work} && r.value.evidence[work].hasText
                       && (forall w <- s.evidence.Keys :: r.value.evidence[w] == s.evidence[w])
                       && forall scope :: scope in r.value.evidence[work].scopes <==> scope in scopes && Fresh(s, scope, work))
  {
    assert forall scope <- scopes :: Current(s, scope, work) <==> Fresh(s, scope, work);
  }

  /** The scope's epoch rises, and the evidence for it loses its text. */
  ghost predicate Forgotten(s: Store, t: Store, scope: Scope, now: Instant) {
    && t.scopes == s.scopes[scope := Epoch((if scope in s.scopes then s.scopes[scope].epoch else 0) + 1, Some(now))]
    && t.evidence.Keys == s.evidence.Keys
    && forall w <- s.evidence.Keys ::
         t.evidence[w] == Evidence(s.evidence[w].scopes, s.evidence[w].hasText && scope !in s.evidence[w].scopes)
  }

  /** What forgetting removes: the scope's write records and, in a purge, its documents with their versions. */
  lemma ForgetExactly(s: Store, scope: Scope, purge: bool, now: Instant)
    ensures var t := Forget(s, scope, purge, now);
            && t.works == s.works && Forgotten(s, t, scope, now)
            && (forall k :: k in t.commands <==> k in s.commands && k.scope != scope)
            && (forall k <- t.commands.Keys :: t.commands[k] == s.commands[k])
            && (forall id :: id in t.docs <==> id in s.docs && !(purge && s.docs[id].scope == scope))
            && (forall id <- t.docs.Keys :: t.docs[id] == s.docs[id])
            && (forall v :: v in t.versions <==> v in s.versions && (purge ==> v.0 in t.docs))
            && (forall v <- t.versions.Keys :: t.versions[v] == s.versions[v])
  {
  }

  // ---- The whole transaction ----

  /** The write names its sources, comes in the scope's own epoch, and rests on no work from before the last forgetting. */
  predicate Timely(s: Store, scope: Scope, c: Context) {
    && 1 <= |c.sources| <= 64
    && c.epoch == (if scope in s.scopes then s.scopes[scope].epoch else 0)
    && forall x <- c.sources :: x.work.Some? ==> Fresh(s, scope, x.work.value)
  }

  /** Of the scope's write records only that of this write is left, in the epoch that it began. */
  ghost predicate OnlyWrite(s: Store, t: Store, scope: Scope, c: Context) {
    var key := Command(scope, c.epoch + 1, c.action);
    && (forall k :: k in t.commands <==> k == key || (k in s.commands && k.scope != scope))
    && forall k <- t.commands.Keys :: t.commands[k] == if k == key then c.print_ else s.commands[k]
  }

  predicate Repeated(s: Store, scope: Scope, c: Context) { Command(scope, c.epoch, c.action) in s.commands }

  /**
   * A write is accepted exactly if the batch is well formed and the write timely, and it either repeats itself, when it
   * changes nothing, or each of its changes is admissible: in the store that the changes before it leave, which makes no
   * difference unless the batch names what it creates itself.
   */
  lemma ApplyExactly(s: Store, scope: Scope, c: Context, changes: seq<Change>, now: Instant)
    ensures var r, key := Apply(s, scope, c, changes, now), Command(scope, c.epoch, c.action);
            && (r.Some? <==>
                  && WellFormed(changes) && Timely(s, scope, c)
                  && if key in s.commands then s.commands[key] == c.print_ else forall i: nat :: i < |changes| ==> AdmissibleThere(s, scope, c, changes, i))
            && (r.Some? && key in s.commands ==> r.value == s)
    ensures WellFormed(changes) && !NamesCreated(scope, c, changes) ==>
              ((forall i: nat :: i < |changes| ==> AdmissibleThere(s, scope, c, changes, i))
               <==> forall i :: 0 <= i < |changes| ==> Admissible(s, scope, c, i, changes[i]))
  {
    ValidExactly(changes);
    TimelyIs(s, scope, c);
    if ValidBatch(changes) {
      Whole(s, scope, c, changes);
      AcceptedStepwise(s, scope, c, changes, |changes|);
      if !NamesCreated(scope, c, changes) { AcceptedUpTo(s, scope, c, changes, |changes|); }
    }
  }

  /**
   * What an accepted write that does not repeat itself leaves: its documents kind by kind, every other document as it
   * was, a new epoch after a deletion, and otherwise nothing but the record of the write.
   */
  lemma ApplyLeaves(s: Store, scope: Scope, c: Context, changes: seq<Change>, now: Instant)
    requires !Repeated(s, scope, c) && Apply(s, scope, c, changes, now).Some?
    ensures var t, key := Apply(s, scope, c, changes, now).value, Command(scope, c.epoch, c.action);
            && (forall i: nat :: i < |changes| && Alone(scope, c, changes, i) ==> Leaves(s, t, scope, c, i, changes[i]))
            && (forall id :: NoneTouches(scope, c, changes, id) ==> Untouched(s, t, id))
            && t.works == s.works
            && (if exists x <- changes :: x.Delete?
                then Forgotten(s, t, scope, now) && OnlyWrite(s, t, scope, c)
                else t.scopes == s.scopes && t.evidence == s.evidence && t.commands == s.commands[key := c.print_])
  {
    Whole(s, scope, c, changes);
    ApplyRest(s, scope, c, changes, now);
    var m, t := ApplyAll(s, scope, c, changes).value, Apply(s, scope, c, changes, now).value;
    forall i: nat | i < |changes| && Alone(scope, c, changes, i)
      ensures Leaves(s, t, scope, c, i, changes[i])
    {
      BatchLeaves(s, scope, c, changes, i);
      SameDocs(s, m, t, scope, c, i, changes[i]);
    }
    forall id | NoneTouches(scope, c, changes, id)
      ensures Untouched(s, t, id)
    {
      BatchSpares(s, scope, c, changes, 0, |changes|, id);
      SameHistory(s, m, t, id);
    }
  }

  predicate NoneTouches(scope: Scope, c: Context, changes: seq<Change>, id: DocId) {
    forall i :: 0 <= i < |changes| ==> !Touches(scope, c, i, changes[i], id)
  }

  lemma SameHistory(s: Store, m: Store, t: Store, id: DocId)
    requires Untouched(s, m, id) && t.docs == m.docs && t.versions == m.versions
    ensures Untouched(s, t, id)
  {
  }

  lemma ApplyRest(s: Store, scope: Scope, c: Context, changes: seq<Change>, now: Instant)
    requires !Repeated(s, scope, c) && Apply(s, scope, c, changes, now).Some?
    ensures ValidBatch(changes) && ApplyAll(s, scope, c, changes).Some?
    ensures var m, t := ApplyAll(s, scope, c, changes).value, Apply(s, scope, c, changes, now).value;
            && t.docs == m.docs && t.versions == m.versions && t.works == s.works
            && (if exists x <- changes :: x.Delete?
                then Forgotten(s, t, scope, now) && OnlyWrite(s, t, scope, c)
                else t.scopes == s.scopes && t.evidence == s.evidence
                     && t.commands == s.commands[Command(scope, c.epoch, c.action) := c.print_])
  {
    BatchRest(s, scope, c, changes);
    if exists x <- changes :: x.Delete? { DeletionRest(s, scope, c, changes, now); }
  }

  lemma DeletionRest(s: Store, scope: Scope, c: Context, changes: seq<Change>, now: Instant)
    requires !Repeated(s, scope, c) && Apply(s, scope, c, changes, now).Some? && exists x <- changes :: x.Delete?
    requires SameRest(s, ApplyAll(s, scope, c, changes).value)
    ensures var t := Apply(s, scope, c, changes, now).value; Forgotten(s, t, scope, now) && OnlyWrite(s, t, scope, c)
  {
    var m := ApplyAll(s, scope, c, changes).value;
    var u := Forget(m, scope, false, now);
    ForgetExactly(m, scope, false, now);
    assert EpochOf(u, scope).epoch == c.epoch + 1;
  }

  lemma TimelyIs(s: Store, scope: Scope, c: Context)
    ensures MayWrite(s, scope, c) <==> Timely(s, scope, c)
  {
  }

  lemma SameDocs(s: Store, m: Store, t: Store, scope: Scope, c: Context, i: nat, change: Change)
    requires Leaves(s, m, scope, c, i, change) && t.docs == m.docs && t.versions == m.versions
    ensures Leaves(s, t, scope, c, i, change)
  {
  }

  predicate SameRest(s: Store, t: Store) {
    t.works == s.works && t.scopes == s.scopes && t.evidence == s.evidence && t.commands == s.commands
  }

  lemma {:induction false} RetireRest(s: Store, scope: Scope, c: Context, from: seq<Versioned>, sources: set<Source>)
    ensures var r := Retire(s, scope, c, from, sources); r.Some? ==> SameRest(s, r.value.0)
    decreases |from|
  {
    if from != [] && Open(s, scope, c, from[0]) {
      RetireCons(s, scope, c, from, sources);
      RetireRest(FirstRetired(s, c, from), scope, c, from[1..], sources + s.docs[from[0].id].sources);
    }
  }

  lemma {:induction false} BatchRest(s: Store, scope: Scope, c: Context, changes: seq<Change>)
    requires ApplyAll(s, scope, c, changes).Some?
    ensures SameRest(s, ApplyAll(s, scope, c, changes).value)
    decreases |changes|
  {
    if changes != [] {
      var front, last := changes[..|changes| - 1], changes[|changes| - 1];
      BatchRest(s, scope, c, front);
      var m := ApplyAll(s, scope, c, front).value;
      if last.Merge? { RetireRest(m, scope, c, last.from, m.docs[last.target.id].sources + c.sources); }
    }
  }

  /** The version is the current one or an archived one, and was active. */
  predicate OnRecord(s: Store, id: DocId, version: nat) {
    && id in s.docs
    && if s.docs[id].version == version then s.docs[id].status == Active
       else (id, version) in s.versions && s.versions[(id, version)].status == Active
  }

  function Asked(s: Store, id: DocId, version: nat): Doc
    requires OnRecord(s, id, version)
  {
    if s.docs[id].version == version then s.docs[id] else s.versions[(id, version)]
  }

  lemma RestoreIs(s: Store, scope: Scope, v: Versioned, version: nat, renewed: bool, c: Context, now: Instant)
    ensures Restore(s, scope, v, version, renewed, c, now) ==
            if OnRecord(s, v.id, version) && s.docs[v.id].scope == scope
            then var asked := Asked(s, v.id, version);
                 Apply(s, scope, c, [Update(v, asked.content, Some(asked.locked), renewed)], now)
            else None
  {
  }

  lemma Single(s: Store, scope: Scope, c: Context, change: Change)
    requires change.Update?
    ensures WellFormed([change]) && !NamesCreated(scope, c, [change]) && Alone(scope, c, [change], 0)
  {
    ValidExactly([change]);
    assert AllReferences([change]) == [change.target.id] + AllReferences([]);
  }

  /** When a restore is accepted. */
  lemma RestoreExactly(s: Store, scope: Scope, v: Versioned, version: nat, renewed: bool, c: Context, now: Instant)
    ensures var key := Command(scope, c.epoch, c.action);
            Restore(s, scope, v, version, renewed, c, now).Some? <==>
              && OnRecord(s, v.id, version) && s.docs[v.id].scope == scope && Timely(s, scope, c)
              && if key in s.commands then s.commands[key] == c.print_
                 else && Open(s, scope, c, v) && (c.explicit || !Asked(s, v.id, version).locked)
                      && (s.docs[v.id].status == Expired ==> renewed)
  {
    RestoreIs(s, scope, v, version, renewed, c, now);
    if OnRecord(s, v.id, version) && s.docs[v.id].scope == scope {
      var asked := Asked(s, v.id, version);
      var change := Update(v, asked.content, Some(asked.locked), renewed);
      Single(s, scope, c, change);
      ApplyExactly(s, scope, c, [change], now);
      assert Admissible(s, scope, c, 0, [change][0]) <==>
        Open(s, scope, c, v) && (c.explicit || !asked.locked) && (s.docs[v.id].status == Expired ==> renewed);
    }
  }

  /** A restore leaves the content and the lock of the version that was asked for, and raises the version. */
  lemma RestoreLeaves(s: Store, scope: Scope, v: Versioned, version: nat, renewed: bool, c: Context, now: Instant)
    requires !Repeated(s, scope, c) && Restore(s, scope, v, version, renewed, c, now).Some?
    ensures var t := Restore(s, scope, v, version, renewed, c, now).value;
            && OnRecord(s, v.id, version) && s.docs[v.id].version == v.expected && Archived(s, t, v.id)
            && var asked := Asked(s, v.id, version);
               IsDoc(t, v.id, Next(s.docs[v.id], c, Active, asked.content, s.docs[v.id].sources + c.sources, asked.locked))
  {
    RestoreIs(s, scope, v, version, renewed, c, now);
    RestoreExactly(s, scope, v, version, renewed, c, now);
    var asked := Asked(s, v.id, version);
    var change := Update(v, asked.content, Some(asked.locked), renewed);
    Single(s, scope, c, change);
    ApplyLeaves(s, scope, c, [change], now);
    assert Leaves(s, Apply(s, scope, c, [change], now).value, scope, c, 0, [change][0]);
  }
}
