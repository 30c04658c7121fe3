/** What an upload of draft frames does to the snapshot, and that a whole attempt arrives at the reader. */
module RealtimeUploads {
  import opened Text
  import opened Realtime

  /** The upload owns the run. */
  predicate Mine(s: Server, token: string) { s.owner.Some? && s.owner.value.token == token }

  /** The snapshot is of a later fence or version, or has come as far under the same fence. */
  predicate Outranks(p: Snapshot, fence: nat, version: nat, number: nat) {
    p.fence > fence || p.version > version || (p.fence == fence && p.seq_ >= number)
  }

  /** A run is taken over unless another upload of the same or a higher fence has it. */
  lemma TakeOverExactly(s: Server, token: string, fence: nat)
    ensures var (t, ok) := TakeOver(s, token, fence);
            && ok == (s.owner == None || s.owner.value.token == token || s.owner.value.fence < fence)
            && t == if ok then s.(owner := Some(Owner(fence, token))) else s
  {
  }

  /**
   * What a frame does: one that is not allowed hides the upload's own draft; one that is outranked does nothing; a reset
   * starts an empty draft; a text goes on with the draft that it continues, within 100,000 units; any other text hides
   * the upload's own draft.
   */
  lemma AcceptExactly(s: Server, token: string, f: Frame, current: bool)
    ensures var t := Accept(s, token, f, current);
            var hidden := if Mine(s, token) then None else s.snapshot;
            && t.owner == s.owner
            && t.snapshot ==
               if !current then hidden
               else if s.snapshot.Some? && Outranks(s.snapshot.value, f.fence, f.version, f.seq_) then s.snapshot
               else
                 match f.kind
                 case Reset => Some(Snapshot(f.fence, f.version, f.attempt, f.seq_, []))
                 case Words(text) =>
                   if s.snapshot == None then hidden
                   else
                     var p := s.snapshot.value;
                     if (p.fence, p.version, p.attempt, p.seq_ + 1) == (f.fence, f.version, f.attempt, f.seq_)
                        && |p.draft + text| <= 100_000
                     then Some(Snapshot(f.fence, f.version, f.attempt, f.seq_, p.draft + text))
                     else hidden
  {
  }

  /** When an upload ends, its own draft is hidden and the run is free; another's is left alone. */
  lemma FinishExactly(s: Server, token: string)
    ensures var t := Finish(s, token);
            if Mine(s, token) then t.snapshot == None && t.owner == None else t == s
  {
  }

  predicate Short(s: Server) { s.snapshot.Some? ==> |s.snapshot.value.draft| <= 100_000 }

  lemma {:induction false} RunShort(s: System, events: seq<Event>)
    requires Short(s.server)
    ensures Short(Run(s, events).server)
    decreases |events|
  {
    if events != [] {
      if events[0].Accepting? { AcceptExactly(s.server, events[0].token, events[0].frame, events[0].current); }
      RunShort(Step(s, events[0]), events[1..]);
    }
  }

  /** No draft that a reader ever holds is longer than 100,000 units. */
  lemma ViewIsShort(events: seq<Event>)
    ensures var s := Run(START, events); s.view.Some? ==> |s.view.value.draft| <= 100_000
  {
    ViewIsGenuine(events);
    if Run(START, events).view.Some? {
      var k: nat :| Had(events, k, Run(START, events).view.value);
      RunShort(START, events[..k]);
    }
  }

  // ---- A whole attempt ----

  /** The frames of an attempt, one after another, all of them allowed. */
  function Sent(token: string, frames: seq<Frame>): seq<Event> {
    if frames == [] then []
    else Sent(token, frames[..|frames| - 1]) + [Accepting(token, frames[|frames| - 1], true)]
  }

  lemma DraftGrows(frames: seq<Frame>)
    requires frames != []
    ensures |Draft(frames[..|frames| - 1])| <= |Draft(frames)|
  {
  }

  /** Nothing is lost of frames that follow each other, as long as they make no more than 100,000 units. */
  lemma {:induction false} SentArrives(s: System, token: string, frames: seq<Frame>)
    requires IsAttempt(frames) && |Draft(frames)| <= 100_000
    requires s.server.snapshot.Some? ==> !Outranks(s.server.snapshot.value, frames[0].fence, frames[0].version, frames[0].seq_)
    ensures var t := Run(s, Sent(token, frames));
            && t.server.snapshot == Some(Assembled(frames)) && t.server.owner == s.server.owner
            && t.last == s.last && t.view == s.view
    decreases |frames|
  {
    var front, f := frames[..|frames| - 1], frames[|frames| - 1];
    RunLast(s, Sent(token, front), Accepting(token, f, true));
    DraftGrows(frames);
    if front == [] {
      assert Run(s, Sent(token, front)) == s;
      assert Draft(frames) == Draft(front) + [];
      AcceptExactly(s.server, token, f, true);
    } else {
      SentArrives(s, token, front);
      Front(frames);
      AcceptExactly(Run(s, Sent(token, front)).server, token, f, true);
    }
  }

  /**
   * An upload that may take the run over and is not outranked brings its whole attempt to a reader that is then polled:
   * the texts since the reset put together, unless the reader holds another draft of that very number.
   */
  lemma UploadShows(events: seq<Event>, token: string, frames: seq<Frame>)
    requires IsAttempt(frames) && |Draft(frames)| <= 100_000
    requires var s := Run(START, events);
             && (s.server.owner == None || s.server.owner.value.token == token || s.server.owner.value.fence < frames[0].fence)
             && (s.server.snapshot.Some? ==> !Outranks(s.server.snapshot.value, frames[0].fence, frames[0].version, frames[0].seq_))
             && !SamePlace(s.view, Some(Assembled(frames)))
    ensures Run(START, events + ([TakingOver(token, frames[0].fence)] + Sent(token, frames) + [Polling(true)])).view
            == Some(Assembled(frames))
  {
    var s := Run(START, events);
    var first, sent := TakingOver(token, frames[0].fence), Sent(token, frames);
    RunKeeps(START, events);
    var t := Step(s, first);
    SentArrives(t, token, frames);
    RunSplit(START, events, [first] + sent + [Polling(true)]);
    RunLast(s, [first] + sent, Polling(true));
    assert ([first] + sent)[1..] == sent;
    assert Run(s, [first] + sent) == Run(t, sent);
    PollDelivers(s.last, Some(Assembled(frames)));
  }
}
