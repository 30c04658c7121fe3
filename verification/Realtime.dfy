/** Draft previews: frames assembled by `receive`, polled and sent as snapshots and deltas, put together by a reader. */
module Realtime {
  import opened Text

  datatype Kind = Reset | Words(text: Str)

  /** `fence` is that of the upload that carries the frame. */
  datatype Frame = Frame(fence: nat, version: nat, attempt: string, seq_: nat, kind: Kind)

  datatype Snapshot = Snapshot(fence: nat, version: nat, attempt: string, seq_: nat, draft: Str)

  datatype Owner = Owner(fence: nat, token: string)

  /**
   * `parts` are the frames that the snapshot was made of and `permitted` all the frames so far that were for the last
   * version and that the host allowed; the server keeps neither.
   */
  datatype Server = Server(snapshot: Option<Snapshot>, owner: Option<Owner>, parts: seq<Frame>, permitted: seq<Frame>)

  const LIMIT := 100_000

  predicate Owns(s: Server, token: string) { s.owner.Some? && s.owner.value.token == token }

  function Cleared(s: Server): Server { s.(snapshot := None, parts := []) }

  function ResetOwned(s: Server, token: string): Server { if Owns(s, token) then Cleared(s) else s }

  /** Before a frame is looked at, its upload takes the run over, unless another one of no lower fence has it. */
  function TakeOver(s: Server, token: string, fence: nat): (Server, bool) {
    if s.owner.Some? && s.owner.value.fence >= fence && s.owner.value.token != token then (s, false)
    else (s.(owner := Some(Owner(fence, token))), true)
  }

  predicate Outdated(prior: Snapshot, f: Frame) {
    prior.fence > f.fence || prior.version > f.version || (prior.fence == f.fence && prior.seq_ >= f.seq_)
  }

  predicate Continues(prior: Snapshot, f: Frame) {
    && f.kind.Words? && prior.fence == f.fence && prior.version == f.version && prior.attempt == f.attempt
    && f.seq_ == prior.seq_ + 1 && |prior.draft| + |f.kind.text| <= LIMIT
  }

  /** `current` says that the frame is for the request's last version and that the host allows drafts of it. */
  function Accept(s: Server, token: string, f: Frame, current: bool): Server {
    if !current then ResetOwned(s, token)
    else
      var t := s.(permitted := s.permitted + [f]);
      if s.snapshot.Some? && Outdated(s.snapshot.value, f) then t
      else if f.kind.Reset? then t.(snapshot := Some(Snapshot(f.fence, f.version, f.attempt, f.seq_, [])), parts := [f])
      else if s.snapshot.Some? && Continues(s.snapshot.value, f) then
        var prior := s.snapshot.value;
        t.(snapshot := Some(prior.(seq_ := f.seq_, draft := prior.draft + f.kind.text)), parts := s.parts + [f])
      else ResetOwned(t, token)
  }

  function Finish(s: Server, token: string): Server {
    var t := ResetOwned(s, token);
    if Owns(t, token) then t.(owner := None) else t
  }

  // ---- The reader's side ----

  datatype Message = Gone | Whole(snapshot: Snapshot) | Delta(fence: nat, version: nat, attempt: string, seq_: nat, from: nat, delta: Str)

  /** What the stream sent last: nothing yet, that there is nothing, or a snapshot. */
  datatype Last = Unset | Hidden | Shown(snapshot: Snapshot)

  predicate Extends(last: Snapshot, p: Snapshot) {
    last.attempt == p.attempt && last.fence == p.fence && last.version == p.version && last.draft <= p.draft
  }

  /** One turn of the stream's loop: what it sends for the preview that it finds. */
  function Poll(last: Last, preview: Option<Snapshot>): (Option<Message>, Last) {
    if preview.None? then if last.Hidden? then (None, last) else (Some(Gone), Hidden)
    else
      var p := preview.value;
      if last.Shown? && p.seq_ == last.snapshot.seq_ && p.fence == last.snapshot.fence then (None, last)
      else if last.Shown? && Extends(last.snapshot, p) then
        (Some(Delta(p.fence, p.version, p.attempt, p.seq_, last.snapshot.seq_, p.draft[|last.snapshot.draft|..])), Shown(p))
      else (Some(Whole(p)), Shown(p))
  }

  /** A reader applies the messages; a delta goes after the draft that it holds. */
  function Apply(view: Option<Snapshot>, m: Message): Option<Snapshot> {
    match m
    case Gone => None
    case Whole(p) => Some(p)
    case Delta(fence, version, attempt, seq_, _, delta) =>
      if view.None? then None else Some(Snapshot(fence, version, attempt, seq_, view.value.draft + delta))
  }

  // ---- Runs ----

  datatype System = System(server: Server, last: Last, view: Option<Snapshot>)

  datatype Event =
    | TakingOver(token: string, fence: nat)
    | Accepting(token: string, frame: Frame, current: bool)
    | Finishing(token: string)
    | Dropping
    | Polling(visible: bool)

  /**
   * `visible` says that the run is leased under the snapshot's fence and version, and that the draft is allowed and
   * recent.
   */
  function Step(s: System, e: Event): System {
    match e
    case TakingOver(token, fence) => s.(server := TakeOver(s.server, token, fence).0)
    case Accepting(token, frame, current) => s.(server := Accept(s.server, token, frame, current))
    case Finishing(token) => s.(server := Finish(s.server, token))
    case Dropping => s.(server := Cleared(s.server))
    case Polling(visible) =>
      var (m, last) := Poll(s.last, if visible then s.server.snapshot else None);
      s.(last := last, view := if m.Some? then Apply(s.view, m.value) else s.view)
  }

  function Run(s: System, events: seq<Event>): System
    decreases |events|
  {
    if events == [] then s else Run(Step(s, events[0]), events[1..])
  }

  const START := System(Server(None, None, [], []), Unset, None)

  // ---- What a draft is made of ----

  /** A reset and the texts after it, of one upload attempt and without a gap. */
  predicate IsAttempt(parts: seq<Frame>) {
    && parts != [] && parts[0].kind.Reset?
    && forall i :: 0 <= i < |parts| ==>
         && (i > 0 ==> parts[i].kind.Words?)
         && parts[i].fence == parts[0].fence && parts[i].version == parts[0].version
         && parts[i].attempt == parts[0].attempt && parts[i].seq_ == parts[0].seq_ + i
  }

  function Draft(parts: seq<Frame>): Str {
    if parts == [] then []
    else
      var last := parts[|parts| - 1];
      Draft(parts[..|parts| - 1]) + if last.kind.Words? then last.kind.text else []
  }

  function Assembled(parts: seq<Frame>): Snapshot
    requires parts != []
  {
    var last := parts[|parts| - 1];
    Snapshot(last.fence, last.version, last.attempt, last.seq_, Draft(parts))
  }

  predicate From(parts: seq<Frame>, permitted: seq<Frame>) { forall f <- parts :: f in permitted }

  /** The snapshot is an attempt's frames put together, all of which were permitted. */
  ghost predicate Genuine(p: Snapshot, permitted: seq<Frame>) {
    exists parts :: IsAttempt(parts) && From(parts, permitted) && p == Assembled(parts)
  }

  predicate Built(s: Server) {
    s.snapshot.Some? ==> IsAttempt(s.parts) && From(s.parts, s.permitted) && s.snapshot.value == Assembled(s.parts)
  }

  ghost predicate Sound(s: System) {
    && Built(s.server)
    && (s.view.Some? <==> s.last.Shown?)
    && (s.last.Shown? ==> s.view == Some(s.last.snapshot) && Genuine(s.last.snapshot, s.server.permitted))
  }

  lemma StillGenuine(p: Snapshot, a: seq<Frame>, b: seq<Frame>)
    requires Genuine(p, a) && forall f <- a :: f in b
    ensures Genuine(p, b)
  {
    var parts :| IsAttempt(parts) && From(parts, a) && p == Assembled(parts);
    assert From(parts, b);
  }

  lemma Longer(parts: seq<Frame>, f: Frame)
    requires IsAttempt(parts) && f.kind.Words? && Continues(Assembled(parts), f)
    ensures IsAttempt(parts + [f])
    ensures Assembled(parts + [f]) == Assembled(parts).(seq_ := f.seq_, draft := Assembled(parts).draft + f.kind.text)
  {
    var longer := parts + [f];
    assert longer[..|parts|] == parts;
    var last := parts[|parts| - 1];
    assert last.fence == parts[0].fence && last.seq_ == parts[0].seq_ + |parts| - 1;
  }

  lemma ResetAlone(f: Frame)
    requires f.kind.Reset?
    ensures IsAttempt([f]) && Assembled([f]) == Snapshot(f.fence, f.version, f.attempt, f.seq_, [])
  {
    assert [f][..0] == [] && Draft([f]) == Draft([f][..0]) + [];
  }

  lemma StillFrom(parts: seq<Frame>, permitted: seq<Frame>, f: Frame)
    requires From(parts, permitted)
    ensures From(parts, permitted + [f]) && From([f], permitted + [f]) && From(parts + [f], permitted + [f])
  {
  }

  lemma AcceptBuilds(s: Server, token: string, f: Frame, current: bool)
    requires Built(s)
    ensures Built(Accept(s, token, f, current))
  {
    if current {
      StillFrom(if s.snapshot.Some? then s.parts else [], s.permitted, f);
      if f.kind.Reset? {
        ResetAlone(f);
      } else if s.snapshot.Some? && Continues(s.snapshot.value, f) {
        Longer(s.parts, f);
      }
    }
  }

  lemma AcceptPermits(s: Server, token: string, f: Frame, current: bool)
    ensures forall g <- s.permitted :: g in Accept(s, token, f, current).permitted
  {
  }

  lemma AcceptKeeps(s: System, token: string, f: Frame, current: bool)
    requires Sound(s)
    ensures Sound(s.(server := Accept(s.server, token, f, current)))
  {
    var t := Accept(s.server, token, f, current);
    AcceptBuilds(s.server, token, f, current);
    AcceptPermits(s.server, token, f, current);
    if s.last.Shown? { StillGenuine(s.last.snapshot, s.server.permitted, t.permitted); }
  }

  /** What the reader holds when it has everything that was sent. */
  function Seen(last: Last): Option<Snapshot> { if last.Shown? then Some(last.snapshot) else None }

  predicate SamePlace(a: Option<Snapshot>, b: Option<Snapshot>) {
    a.Some? && b.Some? && a.value.fence == b.value.fence && a.value.seq_ == b.value.seq_
  }

  /** One turn: the reader goes on to hold the preview itself, or has one with its fence and sequence number already. */
  lemma PollDelivers(last: Last, preview: Option<Snapshot>)
    ensures var (m, next) := Poll(last, preview);
            var view := if m.Some? then Apply(Seen(last), m.value) else Seen(last);
            && view == Seen(next) && (!next.Unset? || last.Unset?)
            && view == (if SamePlace(Seen(last), preview) then Seen(last) else preview)
            && (m.Some? && m.value.Delta? ==>
                  Seen(last).Some? && preview.Some? && m.value.from == Seen(last).value.seq_
                  && Seen(last).value.draft + m.value.delta == preview.value.draft)
  {
    if preview.Some? && last.Shown? && Extends(last.snapshot, preview.value) {
      var p := preview.value;
      assert last.snapshot.draft + p.draft[|last.snapshot.draft|..] == p.draft;
    }
  }

  lemma PollKeeps(s: System, visible: bool)
    requires Sound(s)
    ensures Sound(Step(s, Polling(visible)))
  {
    if visible && s.server.snapshot.Some? {
      var p := s.server.snapshot.value;
      assert Genuine(p, s.server.permitted);
    }
    PollDelivers(s.last, if visible then s.server.snapshot else None);
  }

  lemma StepKeeps(s: System, e: Event)
    requires Sound(s)
    ensures Sound(Step(s, e))
  {
    match e {
      case Accepting(token, f, current) => AcceptKeeps(s, token, f, current);
      case TakingOver(token, fence) =>
      case Finishing(token) =>
      case Dropping =>
      case Polling(visible) => PollKeeps(s, visible);
    }
  }

  lemma {:induction false} RunKeeps(s: System, events: seq<Event>)
    requires Sound(s)
    ensures Sound(Run(s, events))
    decreases |events|
  {
    if events != [] {
      StepKeeps(s, events[0]);
      RunKeeps(Step(s, events[0]), events[1..]);
    }
  }

  /** The poll found the snapshot, which the server had just then put together from permitted frames. */
  ghost predicate Had(events: seq<Event>, k: nat, p: Snapshot) {
    && k < |events| && events[k] == Polling(true)
    && var server := Run(START, events[..k]).server;
       && server.snapshot == Some(p) && IsAttempt(server.parts) && From(server.parts, server.permitted)
       && p == Assembled(server.parts)
  }

  lemma {:induction false} RunLast(s: System, events: seq<Event>, last: Event)
    ensures Run(s, events + [last]) == Step(Run(s, events), last)
    decreases |events|
  {
    var all := events + [last];
    if events == [] {
      assert all[1..] == [];
    } else {
      assert all[1..] == events[1..] + [last];
      RunLast(Step(s, events[0]), events[1..], last);
    }
  }

  lemma StillHad(events: seq<Event>, last: Event, k: nat, p: Snapshot)
    requires Had(events, k, p)
    ensures Had(events + [last], k, p)
  {
    assert (events + [last])[..k] == events[..k];
  }

  /**
   * Whatever uploads, resets and polls come in whatever order, a reader that holds a draft holds a snapshot that one of
   * the polls found on the server: the texts of one attempt without a gap since its reset, every one of them permitted.
   */
  lemma {:induction false} ViewIsGenuine(events: seq<Event>)
    ensures var s := Run(START, events); s.view.Some? ==> exists k: nat :: Had(events, k, s.view.value)
    decreases |events|
  {
    if events != [] {
      var front, last := events[..|events| - 1], events[|events| - 1];
      assert events == front + [last];
      RunLast(START, front, last);
      RunKeeps(START, front);
      ViewIsGenuine(front);
      var s, t := Run(START, front), Run(START, events);
      if last.Polling? { PollDelivers(s.last, if last.visible then s.server.snapshot else None); }
      if t.view == s.view {
        if s.view.Some? {
          var k: nat :| Had(front, k, s.view.value);
          StillHad(front, last, k, s.view.value);
        }
      } else if t.view.Some? {
        assert events[..|front|] == front;
        assert Had(events, |front|, t.view.value);
      }
    }
  }

  // ---- One stream ----

  datatype Stream = Stream(last: Last, view: Option<Snapshot>)

  /** The stream finds one preview after another and the reader applies what it sends. */
  function Watch(r: Stream, previews: seq<Option<Snapshot>>): Stream
    decreases |previews|
  {
    if previews == [] then r
    else
      var (m, last) := Poll(r.last, previews[0]);
      Watch(Stream(last, if m.Some? then Apply(r.view, m.value) else r.view), previews[1..])
  }

  lemma {:induction false} WatchLast(r: Stream, previews: seq<Option<Snapshot>>, p: Option<Snapshot>)
    ensures var before := Watch(r, previews);
            var (m, last) := Poll(before.last, p);
            Watch(r, previews + [p]) == Stream(last, if m.Some? then Apply(before.view, m.value) else before.view)
    decreases |previews|
  {
    var all := previews + [p];
    if previews == [] {
      assert all[1..] == [];
    } else {
      assert all[1..] == previews[1..] + [p];
      var (m, last) := Poll(r.last, previews[0]);
      WatchLast(Stream(last, if m.Some? then Apply(r.view, m.value) else r.view), previews[1..], p);
    }
  }

  /** The last preview, or one after which only previews of its fence and sequence number came. */
  predicate Stands(previews: seq<Option<Snapshot>>, j: nat) {
    j < |previews| && forall i :: j < i < |previews| ==> SamePlace(previews[j], previews[i])
  }

  /**
   * Whatever previews a stream finds, what it sends leaves the reader with the last of them, or with one after which
   * only previews of its fence and sequence number came; with none if the last is none. So deltas lose nothing.
   */
  lemma {:induction false} StreamDelivers(previews: seq<Option<Snapshot>>) returns (j: nat)
    requires previews != []
    ensures Stands(previews, j) && Watch(Stream(Unset, None), previews).view == previews[j]
    ensures Watch(Stream(Unset, None), previews).view == Seen(Watch(Stream(Unset, None), previews).last)
    decreases |previews|
  {
    var front, p := previews[..|previews| - 1], previews[|previews| - 1];
    assert previews == front + [p];
    WatchLast(Stream(Unset, None), front, p);
    j := |front|;
    if front != [] {
      var i := StreamDelivers(front);
      if SamePlace(front[i], p) { j := i; }
    }
    PollDelivers(Watch(Stream(Unset, None), front).last, p);
  }

  // ---- When the reader is up to date ----

  /** No two permitted frames share a fence and a sequence number. */
  predicate Numbered(permitted: seq<Frame>) {
    forall f, g :: f in permitted && g in permitted && f.fence == g.fence && f.seq_ == g.seq_ ==> f == g
  }

  lemma Front(parts: seq<Frame>)
    requires IsAttempt(parts)
    ensures |parts| == 1 <==> parts[|parts| - 1].kind.Reset?
    ensures |parts| > 1 ==>
              var front, last := parts[..|parts| - 1], parts[|parts| - 1];
              IsAttempt(front) && front[|front| - 1].fence == last.fence && front[|front| - 1].seq_ == last.seq_ - 1
  {
  }

  /** Numbered frames make one attempt at most that ends at a given place. */
  lemma {:induction false} SameParts(a: seq<Frame>, b: seq<Frame>, permitted: seq<Frame>)
    requires IsAttempt(a) && IsAttempt(b) && From(a, permitted) && From(b, permitted) && Numbered(permitted)
    requires a[|a| - 1].fence == b[|b| - 1].fence && a[|a| - 1].seq_ == b[|b| - 1].seq_
    ensures a == b
    decreases |a|
  {
    var f, g := a[|a| - 1], b[|b| - 1];
    assert f in permitted && g in permitted;
    Front(a);
    Front(b);
    if |a| > 1 { SameParts(a[..|a| - 1], b[..|b| - 1], permitted); }
    assert a == a[..|a| - 1] + [f] && b == b[..|b| - 1] + [g];
  }

  /** If uploads number their frames without reuse, a reader that was just polled holds the server's own snapshot. */
  lemma ViewIsCurrent(events: seq<Event>, visible: bool)
    requires Numbered(Run(START, events).server.permitted)
    ensures var s := Step(Run(START, events), Polling(visible));
            s.view == if visible then s.server.snapshot else None
  {
    var s := Run(START, events);
    RunKeeps(START, events);
    PollKeeps(s, visible);
    if visible && s.server.snapshot.Some? && s.last.Shown? {
      var p := s.server.snapshot.value;
      if p.seq_ == s.last.snapshot.seq_ && p.fence == s.last.snapshot.fence {
        var parts :| IsAttempt(parts) && From(parts, s.server.permitted) && s.last.snapshot == Assembled(parts);
        SameParts(parts, s.server.parts, s.server.permitted);
      }
    }
  }

  /** What was shown last differs in fence or sequence number from what a poll would find, or is equal to it. */
  predicate Tellable(shown: Option<Snapshot>, found: Option<Snapshot>) { SamePlace(shown, found) ==> shown == found }

  /**
   * However frames are numbered, a poll leaves the reader with the server's own snapshot exactly when the number of what
   * was shown last tells the two apart.
   */
  lemma CurrentExactly(events: seq<Event>, visible: bool)
    ensures var s := Run(START, events);
            var found := if visible then s.server.snapshot else None;
            Step(s, Polling(visible)).view == found <==> Tellable(Seen(s.last), found)
  {
    RunKeeps(START, events);
    var s := Run(START, events);
    PollDelivers(s.last, if visible then s.server.snapshot else None);
  }

  /** An upload of one unit, numbered from one. */
  function Upload(token: string, attempt: string, u: Unit): seq<Event> {
    [TakingOver(token, 1), Accepting(token, Frame(1, 1, attempt, 1, Reset), true),
     Accepting(token, Frame(1, 1, attempt, 2, Words([u])), true)]
  }

  /** Between two polls an upload ends and another under the same fence comes as far. */
  function Replacing(u: Unit, v: Unit): seq<Event> {
    Upload("a", "first", u) + ([Polling(true), Finishing("a")] + (Upload("b", "second", v) + [Polling(true)]))
  }

  lemma {:induction false} RunSplit(s: System, a: seq<Event>, b: seq<Event>)
    ensures Run(s, a + b) == Run(Run(s, a), b)
    decreases |a|
  {
    if a == [] {
      assert a + b == b;
    } else {
      assert (a + b)[1..] == a[1..] + b;
      RunSplit(Step(s, a[0]), a[1..], b);
    }
  }

  /** An upload that finds no snapshot and no owner ends with its unit as the draft. */
  lemma Uploaded(s: System, token: string, attempt: string, u: Unit)
    requires s.server.snapshot.None? && s.server.owner.None?
    ensures var t := Run(s, Upload(token, attempt, u));
            && t.server.snapshot == Some(Snapshot(1, 1, attempt, 2, [u])) && t.server.owner == Some(Owner(1, token))
            && t.last == s.last && t.view == s.view
  {
    var events := Upload(token, attempt, u);
    var last := [events[2]];
    assert events[1..] == [events[1]] + last && ([events[1]] + last)[1..] == last && last[1..] == [];
    var a := Step(s, events[0]);
    var b := Step(a, events[1]);
    var c := Step(b, events[2]);
    assert Run(c, []) == c && Run(b, last) == c && Run(a, events[1..]) == c;
    assert [] + [u] == [u];
  }

  /** The other case is reached: the reader keeps the draft of the first upload while the server has the second. */
  lemma StaleDraft(u: Unit, v: Unit)
    requires u != v
    ensures var s := Run(START, Replacing(u, v));
            && s.server.snapshot == Some(Snapshot(1, 1, "second", 2, [v]))
            && s.view == Some(Snapshot(1, 1, "first", 2, [u])) != s.server.snapshot
  {
    var first, turn, second := Upload("a", "first", u), [Polling(true), Finishing("a")], Upload("b", "second", v);
    var polled := [Polling(true)];
    Uploaded(START, "a", "first", u);
    var a := Run(START, first);
    RunSplit(START, first, turn + (second + polled));
    RunSplit(a, turn, second + polled);
    var b := Step(a, Polling(true));
    assert turn[1..] == [Finishing("a")] && turn[1..][1..] == [];
    var c := Step(b, Finishing("a"));
    assert Run(a, turn) == Run(b, turn[1..]) == c;
    Uploaded(c, "b", "second", v);
    RunSplit(c, second, polled);
    var d := Run(c, second);
    assert polled[1..] == [];
    assert Run(d, polled) == Step(d, Polling(true));
  }
}
