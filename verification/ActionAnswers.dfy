/** What a call of `executeAction` comes to: executed, replayed, read back or refused. */
module ActionAnswers {
  import opened Text
  import opened ActionLedgers

  /** What is known of an action: its last resolution, or else its receipt. */
  datatype Known = Nothing | Last(resolution: Resolution) | Only(receipt: Receipt)

  predicate IsKnown(l: Ledger, key: Key, k: Known) {
    var resolved := key in l.resolutions && |l.resolutions[key]| > 0;
    match k
    case Last(r) => resolved && l.resolutions[key][|l.resolutions[key]| - 1] == r
    case Only(r) => !resolved && key in l.results && l.results[key] == r
    case Nothing => !resolved && key !in l.results
  }

  /** The call that begins next, up to where it has looked for what is known. */
  function Opening(s: System, key: Key, print_: Print): seq<Event> {
    [Begin(key, print_), Reserving(s.begun), Looking(s.begun)]
  }

  lemma RunThree(uncertain: Key -> bool, s: System, a: Event, b: Event, c: Event)
    ensures Run(uncertain, s, [a, b, c]) == Step(uncertain, Step(uncertain, Step(uncertain, s, a), b), c)
  {
    assert [a, b, c][1..] == [b, c] && [b, c][1..] == [c] && [c][1..] == [];
    var t := Step(uncertain, s, a);
    var u := Step(uncertain, t, b);
    assert Run(uncertain, u, [c]) == Step(uncertain, u, c);
    assert Run(uncertain, t, [b, c]) == Run(uncertain, u, [c]);
  }

  /**
   * A call under a key that was never used stores its intent and goes on to the executor; once it is inside, it was
   * entered once more, and what it leaves with is the receipt and the answer.
   */
  lemma FirstCallExecutes(uncertain: Key -> bool, s: System, key: Key, print_: Print, result: Receipt)
    requires key !in s.ledger.intents && IsKnown(s.ledger, key, Nothing)
    ensures var call := s.begun;
            var looked := Run(uncertain, s, Opening(s, key, print_));
            && looked.ledger == s.ledger.(intents := s.ledger.intents[key := print_])
            && call in looked.frames && looked.frames[call].at == Entering && looked.entries == s.entries
            && var done := Step(uncertain, Step(uncertain, looked, Enter(call)), Leave(call, result));
               && call in done.frames && done.frames[call].at == Done(result)
               && done.entries == s.entries + [(key, call)]
               && done.ledger == looked.ledger.(results := looked.ledger.results[key := result])
  {
    RunThree(uncertain, s, Begin(key, print_), Reserving(s.begun), Looking(s.begun));
  }

  /**
   * A call under a key that was used: with other parameters it is refused; with a final answer on record it gives that
   * answer; an answer that leaves the outcome open is read back, and so is a missing or pending one if the effect is
   * uncertain; otherwise the action is executed again. So far nothing is recorded and nothing executed.
   */
  lemma RepeatedCallAnswers(uncertain: Key -> bool, s: System, key: Key, print_: Print, known: Known)
    requires key in s.ledger.intents && IsKnown(s.ledger, key, known)
    ensures var call := s.begun;
            var t := Run(uncertain, s, Opening(s, key, print_));
            && t.ledger == s.ledger && t.entries == s.entries
            && if s.ledger.intents[key] != print_ then call !in t.frames
               else
                 var r := match known case Last(r) => Some(r.result) case Only(r) => Some(r) case Nothing => None;
                 && call in t.frames
                 && t.frames[call] == Frame(key, print_,
                      if r.Some? && !r.value.approval && r.value.state in {Succeeded, NoEffect} then Done(r.value)
                      else if r.Some? && !r.value.approval then Reconciling(r.value)
                      else if uncertain(key) then Reconciling(NO_RECEIPT)
                      else Entering)
  {
    RunThree(uncertain, s, Begin(key, print_), Reserving(s.begun), Looking(s.begun));
  }

  /**
   * Reading back gives what was found if that settles the action, and records it once under its own name; otherwise the
   * call answers what it had.
   */
  lemma ReadbackAnswers(uncertain: Key -> bool, s: System, call: Call, instead: Receipt, found: Option<Receipt>)
    requires call in s.frames && s.frames[call].at == Reconciling(instead) && s.frames[call].key in s.ledger.intents
    requires found.Some? ==> Native(s.frames[call].key, found.value) !in s.ledger.ids
    ensures var t, key := Step(uncertain, s, ReadingBack(call, found)), s.frames[call].key;
            && call in t.frames && t.entries == s.entries
            && if found.Some? && !found.value.approval && found.value.state in {Succeeded, NoEffect}
               then t.frames[call].at == Done(found.value)
                    && exists r: Resolution :: r.key == key && r.result == found.value && IsKnown(t.ledger, key, Last(r))
               else t.frames[call].at == Done(instead) && t.ledger == s.ledger
  {
    var key := s.frames[call].key;
    if found.Some? && Settles(found.value) {
      var r := Readback(key, found.value);
      assert IsKnown(Step(uncertain, s, ReadingBack(call, found)).ledger, key, Last(r));
    }
  }

  /** A second receipt replaces one that waits for approval and no other; the call answers what is then on record. */
  lemma LeaveRecords(uncertain: Key -> bool, s: System, call: Call, result: Receipt)
    requires call in s.frames && s.frames[call].at == Inside && s.frames[call].key in s.ledger.intents
    ensures var t, key := Step(uncertain, s, Leave(call, result)), s.frames[call].key;
            && call in t.frames && key in t.ledger.results && t.frames[call].at == Done(t.ledger.results[key])
            && t.ledger.results == s.ledger.results[key := t.ledger.results[key]]
            && t.ledger.results[key] == if key in s.ledger.results && !s.ledger.results[key].approval
                                        then s.ledger.results[key] else result
  {
  }

  /**
   * A resolution under a new id becomes the last word on its action; one that comes back under its id is recognised, one
   * with other evidence under a known id is refused, and so is one without an intent. Nothing else changes.
   */
  lemma ResolvingTells(l: Ledger, r: Resolution, key: Key, known: Known)
    requires IsKnown(l, key, known)
    ensures var (t, verdict) := Resolve(l, r);
            && verdict == (if r.key !in l.intents then NoIntent
                           else if r.id !in l.ids then Recorded
                           else if l.ids[r.id] == r then Known
                           else Reused)
            && t.intents == l.intents && t.results == l.results && (verdict != Recorded ==> t == l)
            && IsKnown(t, key, if verdict == Recorded && key == r.key then Last(r) else known)
  {
  }
}
