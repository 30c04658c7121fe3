/** `MemoryModelBudgetStore`, and the retry loop of `modelExecution` that spends from it. */
module ModelExecutions {
  import opened Text
  import opened ModelBudgets

  class MemoryModelBudgetStore {
    var budgets: map<string, Budget>

    constructor ()
      ensures budgets == map[]
    {
      budgets := map[];
    }

    function BudgetOf(root: string, limits: Limits): Budget
      reads this
    {
      if root in budgets then budgets[root] else Opened(limits)
    }

    /** The first reservation of a root task fixes its limits. */
    method Reserve(root: string, id: CallId, limits: Limits, input: nat, output: nat, cost: nat,
                   now: int) returns (allowed: bool)
      modifies this
      ensures var (b, ok) := ModelBudgets.Reserve(old(BudgetOf(root, limits)), id, input, output, cost, now);
              allowed == ok && budgets == old(budgets)[root := b]
    {
      if root !in budgets { budgets := budgets[root := Opened(limits)]; }
      var budget := budgets[root];
      if Has(budget, id) { return true; }
      if now >= budget.deadline || |budget.calls| >= budget.maxCalls { return false; }
      if budget.tokens + input + output > budget.maxTokens || budget.cost + cost > budget.maxCost { return false; }
      budget := budget.(calls := budget.calls + [Call(id, input, output, cost, None)]);
      budget := budget.(tokens := budget.tokens + input + output, cost := budget.cost + cost);
      budgets := budgets[root := budget];
      return true;
    }

    /** False stands for the error of a missing reservation. */
    method Record(root: string, id: CallId, input: nat, output: nat, cost: nat) returns (ok: bool)
      modifies this
      ensures var r := if root in old(budgets) then ModelBudgets.Record(old(budgets)[root], id, input, output, cost) else None;
              ok == r.Some? && budgets == if r.Some? then old(budgets)[root := r.value] else old(budgets)
    {
      if root !in budgets { return false; }
      var budget := budgets[root];
      var i := PlaceOf(budget.calls, id);
      if i == |budget.calls| { return false; }
      if budget.calls[i].usage.Some? { return true; }
      var call := budget.calls[i];
      budget := budget.(calls := budget.calls[i := call.(usage := Some(Usage(input + output, cost)))]);
      budget := budget.(tokens := budget.tokens + (input + output - (call.input + call.output)), cost := budget.cost + (cost - call.cost));
      budgets := budgets[root := budget];
      return true;
    }
  }

  datatype Measured = Measured(input: nat, output: nat)

  /** How one provider call ends; usage may be missing. */
  datatype Ending = Answered(usage: Option<Measured>) | Transient | Fatal

  /** What the clock and the provider do during one attempt. */
  datatype Attempt = Attempt(late: bool, now: int, remaining: int, ending: Ending)

  /** What an attempt takes: what was measured if it answered and said so, and what was reserved otherwise. */
  function Taken(a: Attempt, input: nat, output: nat): Measured {
    match a.ending case Answered(Some(usage)) => usage case _ => Measured(input, output)
  }

  /** What the first n attempts took, in tokens and in money. */
  function TakenBy(attempts: seq<Attempt>, n: nat, input: nat, output: nat, prices: Prices): Usage
    requires n <= |attempts|
  {
    if n == 0 then Usage(0, 0)
    else
      var rest, last := TakenBy(attempts, n - 1, input, output, prices), Taken(attempts[n - 1], input, output);
      Usage(rest.tokens + last.input + last.output, rest.cost + Price(prices, last.input, last.output))
  }

  datatype Result = Success | Failure | Exhausted | OutOfTime

  /** Calls of an execution carry a sequence number given out before, or an attempt of the last one. */
  predicate Unused(calls: seq<Call>, work: string, fence: nat, space: string, sequence: nat, used: nat) {
    forall c <- calls :: c.id.work == work && c.id.fence == fence && c.id.space == space ==>
      c.id.sequence < sequence || (c.id.sequence == sequence && c.id.attempt <= used)
  }

  lemma NameIsNew(calls: seq<Call>, id: CallId)
    requires id.attempt > 0 && Unused(calls, id.work, id.fence, id.space, id.sequence, id.attempt - 1)
    ensures PlaceOf(calls, id) == |calls|
  {
    forall i | 0 <= i < |calls|
      ensures calls[i].id != id
    {
      assert calls[i] in calls;
    }
  }

  lemma NamesGrow(before: seq<Call>, after: seq<Call>, id: CallId)
    requires id.attempt > 0 && Unused(before, id.work, id.fence, id.space, id.sequence, id.attempt - 1)
    requires after == before || (|after| == |before| + 1 && after[..|before|] == before && after[|before|].id == id)
    ensures forall used: nat :: used >= id.attempt ==> Unused(after, id.work, id.fence, id.space, id.sequence, used)
    ensures after == before ==> Unused(after, id.work, id.fence, id.space, id.sequence, id.attempt - 1)
  {
    assert after == before || after == before + [after[|before|]];
  }

  /** Where every id is there once, the last call is found last. */
  lemma {:induction false} LastPlace(calls: seq<Call>)
    requires calls != [] && forall i, j :: 0 <= i < j < |calls| ==> calls[i].id != calls[j].id
    ensures PlaceOf(calls, calls[|calls| - 1].id) == |calls| - 1
  {
    var i := PlaceOf(calls, calls[|calls| - 1].id);
    assert i <= |calls| - 1;
    assert calls[i].id == calls[|calls| - 1].id;
  }

  class ModelExecution {
    const store: MemoryModelBudgetStore
    const root: string
    const work: string
    const fence: nat
    const space: string
    const limits: Limits
    const prices: Prices
    var sequence: nat
    var calls: nat
    var tokens: int
    var cost: int

    constructor (store: MemoryModelBudgetStore, root: string, work: string, fence: nat, space: string, limits: Limits, prices: Prices)
      ensures this.store == store && this.root == root && this.limits == limits && this.prices == prices
      ensures this.work == work && this.fence == fence && this.space == space
      ensures sequence == 0 && calls == 0 && tokens == 0 && cost == 0
    {
      this.store, this.root, this.limits, this.prices := store, root, limits, prices;
      this.work, this.fence, this.space := work, fence, space;
      sequence, calls, tokens, cost := 0, 0, 0, 0;
    }

    ghost function Spent(): Budget
      reads store
    {
      store.BudgetOf(root, limits)
    }

    /** No call of the root task bears a name that this execution has yet to give out. */
    ghost predicate NamesUnused(sequence: nat, used: nat)
      reads store
    {
      Unused(Spent().calls, work, fence, space, sequence, used)
    }

    /** Nothing changed in the budgets of other root tasks. */
    twostate predicate OthersKept()
      reads store
    {
      forall k <- store.budgets.Keys :: k != root ==> k in old(store.budgets) && store.budgets[k] == old(store.budgets)[k]
    }

    /** The counters moved as the store's totals did, but for what is left standing in the store. */
    twostate predicate InStep(calls_: nat, tokens_: int, cost_: int)
      reads this, store
    {
      && |Spent().calls| - |old(Spent()).calls| == calls - old(calls) + calls_
      && Spent().tokens - old(Spent()).tokens == tokens - old(tokens) + tokens_
      && Spent().cost - old(Spent()).cost == cost - old(cost) + cost_
    }

    /** The budget has one more call, of this name. */
    twostate predicate OneMore(id: CallId)
      reads store
    {
      var n := |old(Spent()).calls|;
      |Spent().calls| == n + 1 && Spent().calls[..n] == old(Spent()).calls && Spent().calls[n].id == id
    }

    /** The counters and the root task's budget leave room for one more attempt, and no time is up. */
    ghost predicate MayTry(input: nat, output: nat, attempt: Attempt)
      reads this, store
    {
      var price, b := Price(prices, input, output), Spent();
      && !attempt.late && attempt.now < b.deadline
      && calls + 1 <= limits.maxCalls && |b.calls| + 1 <= b.maxCalls
      && tokens + input + output <= limits.maxTokens && b.tokens + input + output <= b.maxTokens
      && cost + price <= limits.maxCost && b.cost + price <= b.maxCost
    }

    /** What the newest call took is settled, in the store and in the counters alike. */
    method SettleCall(call: Call, usage: Measured)
      requires root in store.budgets && Balanced(Spent()) && call.usage == None
      requires |Spent().calls| > 0 && Spent().calls[|Spent().calls| - 1] == call
      modifies this`tokens, this`cost, store
      ensures Balanced(Spent()) && OthersKept() && InStep(0, 0, 0) && root in store.budgets
      ensures tokens == old(tokens) + (usage.input + usage.output) - (call.input + call.output)
      ensures cost == old(cost) + Price(prices, usage.input, usage.output) - call.cost
      ensures var n := |old(Spent()).calls|;
              |Spent().calls| == n && Spent().calls[..n - 1] == old(Spent()).calls[..n - 1] && Spent().calls[n - 1].id == call.id
    {
      var costMicros := Price(prices, usage.input, usage.output);
      tokens := tokens + (usage.input + usage.output - call.input - call.output);
      cost := cost + (costMicros - call.cost);
      LastPlace(Spent().calls);
      RecordBalanced(Spent(), call.id, usage.input, usage.output, costMicros);
      var recorded := store.Record(root, call.id, usage.input, usage.output, costMicros);
    }

    /** What the attempt may take at most is reserved, if the counters and the store allow it. */
    method ReserveCall(id: CallId, input: nat, output: nat, attempt: Attempt) returns (allowed: bool)
      requires Balanced(Spent()) && !Has(Spent(), id)
      modifies store
      ensures Balanced(Spent()) && OthersKept() && (allowed <==> old(MayTry(input, output, attempt)))
      ensures if !allowed then Spent() == old(Spent()) && InStep(0, 0, 0)
              else root in store.budgets && InStep(1, input + output, Price(prices, input, output))
                   && Spent().calls == old(Spent()).calls + [Call(id, input, output, Price(prices, input, output), None)]
    {
      var reservedCost := Price(prices, input, output);
      if calls >= limits.maxCalls || tokens + input + output > limits.maxTokens || cost + reservedCost > limits.maxCost || attempt.late {
        return false;
      }
      ReserveBalanced(Spent(), id, input, output, reservedCost, attempt.now);
      allowed := store.Reserve(root, id, limits, input, output, reservedCost, attempt.now);
    }

    /** One attempt: reserved, made and settled, unless it is refused or its time is up. */
    method Try(id: CallId, input: nat, output: nat, attempt: Attempt) returns (result: Result)
      requires Balanced(Spent()) && !Has(Spent(), id)
      modifies this`calls, this`tokens, this`cost, store
      ensures Balanced(Spent()) && OthersKept()
      ensures calls == old(calls) + if result.Success? || result.Failure? then 1 else 0
      ensures if result.OutOfTime? then InStep(1, input + output, Price(prices, input, output)) else InStep(0, 0, 0)
      ensures if result.Exhausted? then Spent() == old(Spent()) else OneMore(id)
      ensures result == if !old(MayTry(input, output, attempt)) then Exhausted
                        else if attempt.remaining <= 0 then OutOfTime
                        else if attempt.ending.Answered? then Success
                        else Failure
      ensures var taken := Taken(attempt, input, output);
              if result.Success? || result.Failure?
              then tokens == old(tokens) + taken.input + taken.output
                   && cost == old(cost) + Price(prices, taken.input, taken.output)
              else tokens == old(tokens) && cost == old(cost)
    {
      ghost var before := Spent().calls;
      var allowed := ReserveCall(id, input, output, attempt);
      if !allowed { return Exhausted; }
      ghost var reserved := Spent().calls;
      assert reserved[..|before|] == before;
      if attempt.remaining <= 0 { return OutOfTime; }
      calls, tokens, cost := calls + 1, tokens + (input + output), cost + Price(prices, input, output);
      var usage := Measured(input, output);
      if attempt.ending.Answered? && attempt.ending.usage.Some? { usage := attempt.ending.usage.value; }
      SettleCall(Call(id, input, output, Price(prices, input, output), None), usage);
      return if attempt.ending.Answered? then Success else Failure;
    }

    /** The next attempt of the last logical call, under its own name. */
    method TryNext(used: nat, input: nat, output: nat, attempt: Attempt) returns (result: Result)
      requires Balanced(Spent()) && NamesUnused(sequence, used) && used < 3
      modifies this`calls, this`tokens, this`cost, store
      ensures Balanced(Spent()) && OthersKept() && NamesUnused(sequence, 3)
      ensures NamesUnused(sequence, if result.Success? || result.Failure? then used + 1 else 3)
      ensures calls == old(calls) + if result.Success? || result.Failure? then 1 else 0
      ensures if result.OutOfTime? then InStep(1, input + output, Price(prices, input, output)) else InStep(0, 0, 0)
      ensures result == if !old(MayTry(input, output, attempt)) then Exhausted
                        else if attempt.remaining <= 0 then OutOfTime
                        else if attempt.ending.Answered? then Success
                        else Failure
      ensures result.Exhausted? ==> !MayTry(input, output, attempt)
      ensures var taken := Taken(attempt, input, output);
              if result.Success? || result.Failure?
              then tokens == old(tokens) + taken.input + taken.output
                   && cost == old(cost) + Price(prices, taken.input, taken.output)
              else tokens == old(tokens) && cost == old(cost)
    {
      var id := CallId(work, fence, space, sequence, used + 1);
      ghost var before := Spent().calls;
      NameIsNew(before, id);
      result := Try(id, input, output, attempt);
      NamesGrow(before, Spent().calls, id);
    }

    /**
     * One logical call with up to three attempts. The counters of the execution move exactly as the totals of the
     * store do, except that a reservation whose time is already up is left standing in the store.
     */
    method Invoke(input: nat, output: nat, attempts: seq<Attempt>) returns (result: Result, used: nat)
      requires |attempts| == 3 && NamesUnused(sequence, 3) && Balanced(Spent())
      modifies this, store
      ensures sequence == old(sequence) + 1 && NamesUnused(sequence, 3) && Balanced(Spent()) && OthersKept()
      ensures used <= 3 && calls == old(calls) + used
      ensures if result.OutOfTime? then InStep(1, input + output, Price(prices, input, output)) else InStep(0, 0, 0)
      ensures forall k: nat :: k + 1 < used ==> attempts[k].ending.Transient?
      ensures forall k: nat :: k < used ==> attempts[k].remaining > 0
      ensures match result
              case Success => used > 0 && attempts[used - 1].ending.Answered?
              case Failure => used > 0 && (attempts[used - 1].ending.Fatal? || (used == 3 && attempts[2].ending.Transient?))
              case OutOfTime => used < 3 && attempts[used].remaining <= 0 && (used > 0 ==> attempts[used - 1].ending.Transient?)
              case Exhausted => used < 3 && !MayTry(input, output, attempts[used]) && (used > 0 ==> attempts[used - 1].ending.Transient?)
      ensures tokens == old(tokens) + TakenBy(attempts, used, input, output, prices).tokens
      ensures cost == old(cost) + TakenBy(attempts, used, input, output, prices).cost
    {
      sequence := sequence + 1;
      used := 0;
      while true
        invariant used < 3 && sequence == old(sequence) + 1 && Balanced(Spent()) && OthersKept()
        invariant calls == old(calls) + used && InStep(0, 0, 0)
        invariant forall k: nat :: k < used ==> attempts[k].ending.Transient? && attempts[k].remaining > 0
        invariant tokens == old(tokens) + TakenBy(attempts, used, input, output, prices).tokens
        invariant cost == old(cost) + TakenBy(attempts, used, input, output, prices).cost
        invariant NamesUnused(sequence, used)
        decreases 3 - used
      {
        result := TryNext(used, input, output, attempts[used]);
        if result.Exhausted? || result.OutOfTime? { return; }
        used := used + 1;
        if result.Success? || attempts[used - 1].ending.Fatal? || used >= 3 { return; }
      }
    }

  }
}
