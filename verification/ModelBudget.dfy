/** The token and cost budget of a root task: reservations, settlements, and what they add up to. */
module ModelBudgets {
  import opened Text

  /** A worker names its provider calls by task, fence, purpose, sequence number and attempt. */
  datatype CallId = CallId(work: string, fence: nat, space: string, sequence: nat, attempt: nat)

  datatype Usage = Usage(tokens: nat, cost: nat)

  /**
   * A call that was admitted. `input` and `output` split the reserved tokens; the store keeps their sum. A settled
   * call has a usage.
   */
  datatype Call = Call(id: CallId, input: nat, output: nat, cost: nat, usage: Option<Usage>)

  /** `calls` is an insertion-ordered map. */
  datatype Budget = Budget(maxCalls: nat, maxTokens: nat, maxCost: nat, deadline: int, calls: seq<Call>, tokens: int, cost: int)

  datatype Limits = Limits(maxCalls: nat, maxTokens: nat, maxCost: nat, deadline: int)

  function Opened(l: Limits): Budget { Budget(l.maxCalls, l.maxTokens, l.maxCost, l.deadline, [], 0, 0) }

  function PlaceOf(calls: seq<Call>, id: CallId): (i: nat)
    ensures i <= |calls| && (i < |calls| ==> calls[i].id == id)
    ensures forall j :: 0 <= j < i ==> calls[j].id != id
  {
    if calls == [] || calls[0].id == id then 0 else 1 + PlaceOf(calls[1..], id)
  }

  predicate Has(b: Budget, id: CallId) { PlaceOf(b.calls, id) < |b.calls| }

  predicate Fits(b: Budget, tokens: nat, cost: nat, now: int) {
    now < b.deadline && |b.calls| < b.maxCalls && b.tokens + tokens <= b.maxTokens && b.cost + cost <= b.maxCost
  }

  function Reserve(b: Budget, id: CallId, input: nat, output: nat, cost: nat, now: int): (Budget, bool) {
    if Has(b, id) then (b, true)
    else if !Fits(b, input + output, cost, now) then (b, false)
    else (b.(calls := b.calls + [Call(id, input, output, cost, None)], tokens := b.tokens + input + output, cost := b.cost + cost), true)
  }

  /** Nothing stands for the error of a call that was never reserved. */
  function Record(b: Budget, id: CallId, input: nat, output: nat, cost: nat): Option<Budget> {
    var i := PlaceOf(b.calls, id);
    if i == |b.calls| then None
    else if b.calls[i].usage.Some? then Some(b)
    else
      var c := b.calls[i];
      Some(b.(calls := b.calls[i := c.(usage := Some(Usage(input + output, cost)))],
              tokens := b.tokens + input + output - (c.input + c.output), cost := b.cost + cost - c.cost))
  }

  // ---- Conservation ----

  /** What a call counts for: its usage once it is settled, its reservation until then. */
  function Counts(c: Call): Usage { if c.usage.Some? then c.usage.value else Usage(c.input + c.output, c.cost) }

  function Sum(calls: seq<Call>): Usage {
    if calls == [] then Usage(0, 0)
    else
      var rest, last := Sum(calls[..|calls| - 1]), Counts(calls[|calls| - 1]);
      Usage(rest.tokens + last.tokens, rest.cost + last.cost)
  }

  lemma {:induction false} SumReplaced(calls: seq<Call>, i: nat, c: Call)
    requires i < |calls|
    ensures var a, b := Sum(calls), Sum(calls[i := c]);
            && b.tokens == a.tokens - Counts(calls[i]).tokens + Counts(c).tokens
            && b.cost == a.cost - Counts(calls[i]).cost + Counts(c).cost
    decreases |calls|
  {
    var n := |calls| - 1;
    if i < n {
      assert calls[i := c][..n] == calls[..n][i := c];
      SumReplaced(calls[..n], i, c);
    } else {
      assert calls[i := c][..n] == calls[..n];
    }
  }

  /** The totals are those of the calls, each call is there once, and there are not too many. */
  predicate Balanced(b: Budget) {
    && b.tokens == Sum(b.calls).tokens && b.cost == Sum(b.calls).cost && |b.calls| <= b.maxCalls
    && forall i, j :: 0 <= i < j < |b.calls| ==> b.calls[i].id != b.calls[j].id
  }

  lemma ReserveBalanced(b: Budget, id: CallId, input: nat, output: nat, cost: nat, now: int)
    requires Balanced(b)
    ensures Balanced(Reserve(b, id, input, output, cost, now).0)
  {
    var t := Reserve(b, id, input, output, cost, now).0;
    if t != b { assert t.calls[..|t.calls| - 1] == b.calls; }
  }

  lemma RecordBalanced(b: Budget, id: CallId, input: nat, output: nat, cost: nat)
    requires Balanced(b) && Record(b, id, input, output, cost).Some?
    ensures Balanced(Record(b, id, input, output, cost).value)
  {
    var i := PlaceOf(b.calls, id);
    if b.calls[i].usage.None? {
      SumReplaced(b.calls, i, b.calls[i].(usage := Some(Usage(input + output, cost))));
    }
  }

  // ---- The price list of the service ----

  datatype Prices = Prices(input: nat, output: nat)

  const MILLION := 1_000_000

  function CeilDiv(a: nat, b: nat): nat
    requires b > 0
  {
    (a + b - 1) / b
  }

  /** Micros per million tokens, rounded up to whole micros. */
  function Price(p: Prices, input: nat, output: nat): nat { CeilDiv(input * p.input + output * p.output, MILLION) }

  lemma PriceMonotone(p: Prices, i: nat, o: nat, input: nat, output: nat)
    requires i <= input && o <= output
    ensures Price(p, i, o) <= Price(p, input, output)
  {
    assert i * p.input <= input * p.input;
    assert o * p.output <= output * p.output;
    DivMonotone(i * p.input + o * p.output + MILLION - 1, input * p.input + output * p.output + MILLION - 1);
  }

  lemma DivMonotone(a: nat, b: nat)
    requires a <= b
    ensures a / MILLION <= b / MILLION
  {
  }

  // ---- Runs ----

  /** With a price list the service computes the cost itself; without one it takes the caller's. */
  datatype Act =
    | Reserving(id: CallId, input: nat, output: nat, cost: nat, now: int)
    | Recording(id: CallId, input: nat, output: nat, cost: nat)

  function CostOf(prices: Option<Prices>, a: Act): nat {
    if prices.Some? then Price(prices.value, a.input, a.output) else a.cost
  }

  function Step(prices: Option<Prices>, b: Budget, a: Act): Budget {
    match a
    case Reserving(id, input, output, _, now) => Reserve(b, id, input, output, CostOf(prices, a), now).0
    case Recording(id, input, output, _) =>
      var r := Record(b, id, input, output, CostOf(prices, a));
      if r.Some? then r.value else b
  }

  function Run(prices: Option<Prices>, b: Budget, acts: seq<Act>): Budget
    decreases |acts|
  {
    if acts == [] then b else Run(prices, Step(prices, b, acts[0]), acts[1..])
  }

  predicate SameLimits(a: Budget, b: Budget) {
    b.maxCalls == a.maxCalls && b.maxTokens == a.maxTokens && b.maxCost == a.maxCost && b.deadline == a.deadline
  }

  lemma {:induction false} RunBalanced(prices: Option<Prices>, b: Budget, acts: seq<Act>)
    requires Balanced(b)
    ensures Balanced(Run(prices, b, acts)) && SameLimits(b, Run(prices, b, acts))
    decreases |acts|
  {
    if acts != [] {
      var a := acts[0];
      if a.Reserving? {
        ReserveBalanced(b, a.id, a.input, a.output, CostOf(prices, a), a.now);
      } else if Record(b, a.id, a.input, a.output, CostOf(prices, a)).Some? {
        RecordBalanced(b, a.id, a.input, a.output, CostOf(prices, a));
      }
      RunBalanced(prices, Step(prices, b, a), acts[1..]);
    }
  }

  /** In every run the totals are the sums over the calls, settled or reserved, and the calls stay within the limit. */
  lemma TotalsAreSums(prices: Option<Prices>, l: Limits, acts: seq<Act>)
    ensures var b := Run(prices, Opened(l), acts);
            b.tokens == Sum(b.calls).tokens && b.cost == Sum(b.calls).cost && |b.calls| <= l.maxCalls
  {
    RunBalanced(prices, Opened(l), acts);
  }

  /**
   * A repeated reservation is granted again for nothing, and a repeated settlement changes nothing, whatever it says.
   */
  lemma ReplaysAreFree(b: Budget, id: CallId, input: nat, output: nat, cost: nat, now: int)
    ensures var (t, granted) := Reserve(b, id, input, output, cost, now);
            granted ==> Has(t, id) && forall i: nat, o: nat, c: nat, later: int :: Reserve(t, id, i, o, c, later) == (t, true)
    ensures var r := Record(b, id, input, output, cost);
            r.Some? ==> forall i: nat, o: nat, c: nat :: Record(r.value, id, i, o, c) == r
  {
    var (t, granted) := Reserve(b, id, input, output, cost, now);
    if granted && !Has(b, id) { PlaceAppended(b.calls, t.calls[|b.calls|]); }
    var r := Record(b, id, input, output, cost);
    if r.Some? && r.value != b { PlaceKept(b.calls, PlaceOf(b.calls, id), r.value.calls[PlaceOf(b.calls, id)], id); }
  }

  lemma {:induction false} PlaceAppended(calls: seq<Call>, c: Call)
    requires PlaceOf(calls, c.id) == |calls|
    ensures PlaceOf(calls + [c], c.id) == |calls|
    decreases |calls|
  {
    if calls != [] {
      assert (calls + [c])[1..] == calls[1..] + [c];
      PlaceAppended(calls[1..], c);
    }
  }

  lemma {:induction false} PlaceKept(calls: seq<Call>, i: nat, c: Call, id: CallId)
    requires i < |calls| && c.id == calls[i].id
    ensures PlaceOf(calls[i := c], id) == PlaceOf(calls, id)
    decreases |calls|
  {
    if i > 0 {
      assert calls[i := c][1..] == calls[1..][i - 1 := c];
      PlaceKept(calls[1..], i - 1, c, id);
    } else {
      assert calls[i := c][1..] == calls[1..];
    }
  }

  // ---- When a reservation is granted ----

  /** A call under this name was admitted. */
  predicate Admitted(b: Budget, id: CallId) { exists c <- b.calls :: c.id == id }

  /** Room for one more call of this size, before the deadline. */
  predicate RoomFor(l: Limits, b: Budget, tokens: nat, cost: nat, now: int) {
    && now < l.deadline && |b.calls| + 1 <= l.maxCalls
    && Sum(b.calls).tokens + tokens <= l.maxTokens && Sum(b.calls).cost + cost <= l.maxCost
  }

  /**
   * In every run a reservation is granted exactly if its call was admitted before, when it takes nothing, or if there is
   * room for it under the limits that the budget was opened with; it then adds one unsettled call of that size, and a
   * refused one changes nothing.
   */
  lemma GrantExactly(prices: Option<Prices>, l: Limits, acts: seq<Act>, id: CallId, input: nat, output: nat, cost: nat, now: int)
    ensures var b := Run(prices, Opened(l), acts);
            var (t, granted) := Reserve(b, id, input, output, cost, now);
            && (granted <==> Admitted(b, id) || RoomFor(l, b, input + output, cost, now))
            && t == if granted && !Admitted(b, id)
                    then b.(calls := b.calls + [Call(id, input, output, cost, None)],
                            tokens := b.tokens + input + output, cost := b.cost + cost)
                    else b
  {
    RunBalanced(prices, Opened(l), acts);
    var b := Run(prices, Opened(l), acts);
    var i := PlaceOf(b.calls, id);
    if Admitted(b, id) {
      var k :| 0 <= k < |b.calls| && b.calls[k].id == id;
    }
    assert i < |b.calls| ==> b.calls[i] in b.calls;
  }

  /** A settlement without a reservation is an error; the first one replaces what the call counts for, a later one does not. */
  lemma SettleExactly(b: Budget, id: CallId, input: nat, output: nat, cost: nat, k: nat)
    requires Balanced(b) && k < |b.calls|
    ensures var r := Record(b, id, input, output, cost);
            && (r.None? <==> !Admitted(b, id))
            && (r.Some? ==>
                  && |r.value.calls| == |b.calls| && SameLimits(b, r.value)
                  && r.value.calls[k] == if b.calls[k].id == id && b.calls[k].usage == None
                                         then b.calls[k].(usage := Some(Usage(input + output, cost))) else b.calls[k])
  {
    var i := PlaceOf(b.calls, id);
    if Admitted(b, id) {
      var j :| 0 <= j < |b.calls| && b.calls[j].id == id;
    }
    assert i < |b.calls| ==> b.calls[i] in b.calls;
  }

  /** The price is the least number of whole micros that covers the tokens at so much a million. */
  lemma PriceExactly(p: Prices, input: nat, output: nat, price: nat)
    ensures Price(p, input, output) <= price <==> input * p.input + output * p.output <= price * 1_000_000
  {
    var a := input * p.input + output * p.output;
    assert a >= 0;
    CeilExactly(a, price);
  }

  lemma CeilExactly(a: nat, price: nat)
    ensures CeilDiv(a, MILLION) <= price <==> a <= price * 1_000_000
  {
  }

  // ---- Staying within the maxima ----

  /** Calls cost what their tokens cost, and no settled call took more than it had reserved. */
  predicate Modest(p: Prices, c: Call) {
    && c.cost == Price(p, c.input, c.output)
    && (c.usage.Some? ==> c.usage.value.tokens <= c.input + c.output && c.usage.value.cost <= c.cost)
  }

  predicate Within(p: Prices, b: Budget) {
    b.tokens <= b.maxTokens && b.cost <= b.maxCost && forall c <- b.calls :: Modest(p, c)
  }

  /** The settlement reports no more input and no more output than was reserved for the call. */
  predicate Frugal(b: Budget, a: Act) {
    a.Recording? && Has(b, a.id) ==>
      var c := b.calls[PlaceOf(b.calls, a.id)]; a.input <= c.input && a.output <= c.output
  }

  predicate AllFrugal(p: Prices, b: Budget, acts: seq<Act>)
    decreases |acts|
  {
    acts == [] || (Frugal(b, acts[0]) && AllFrugal(p, Step(Some(p), b, acts[0]), acts[1..]))
  }

  lemma StepWithin(p: Prices, b: Budget, a: Act)
    requires Within(p, b) && Frugal(b, a)
    ensures Within(p, Step(Some(p), b, a))
  {
    var i := PlaceOf(b.calls, a.id);
    if a.Recording? && i < |b.calls| {
      assert Modest(p, b.calls[i]);
      PriceMonotone(p, a.input, a.output, b.calls[i].input, b.calls[i].output);
    }
  }

  /** If no settlement exceeds its reservation, the totals never exceed the maxima: not even between the calls. */
  lemma {:induction false} NeverOverspent(p: Prices, b: Budget, acts: seq<Act>)
    requires Within(p, b) && AllFrugal(p, b, acts)
    ensures Within(p, Run(Some(p), b, acts))
    decreases |acts|
  {
    if acts != [] {
      StepWithin(p, b, acts[0]);
      NeverOverspent(p, Step(Some(p), b, acts[0]), acts[1..]);
    }
  }
}
