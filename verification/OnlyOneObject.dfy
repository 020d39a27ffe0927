/** The object: each thing a call of Compute does to the shared map and the entries is a step
    of the protocol in module OnlyOne, whatever the other calls have done. */
module OnlyOneObject {
  import opened OnlyOne

  // ----- one call as a run of the protocol -----

  ghost predicate Reachable(s: State) {
    exists steps :: After(steps) == s
  }

  lemma ReachOn(s: State, step: Step)
    requires Reachable(s)
    ensures Reachable(Next(s, step))
  {
    var steps :| After(steps) == s;
    var more := Run(steps, step);
  }

  lemma ReachableInv(s: State)
    requires Reachable(s)
    ensures Inv(s)
  {
    var steps :| After(steps) == s;
    InvAlways(steps);
  }

  lemma CalledHasNoEntry(steps: seq<Step>, s: State, c: nat)
    requires s == After(steps) && Is(s, c, Called)
    ensures c !in s.entries
  {
    InvAlways(steps);
    assert c in s.entries ==> GoodEntry(s, c);
  }

  /** One call more than before, which has returned r, from its own entry or another's; the
      map and the entries of the others are as they were. */
  ghost predicate CallReturned(s: State, t: State, k: string, r: Result, own: bool) {
    && |t.calls| == |s.calls| + 1 && t.calls[..|s.calls|] == s.calls && t.m == s.m
    && (forall o :: o in s.entries ==> o in t.entries && t.entries[o] == s.entries[o])
    && var c := t.calls[|s.calls|];
      c.key == k && c.pc.Returned? && c.pc.result == r && (c.pc.owner == |s.calls| <==> own)
  }

  /** The run of a call that finds the key. */
  function Joining(s: State, k: string): State {
    Next(Next(Next(s, OnlyOne.Compute(k)), LoadOrStore(|s.calls|)), Receive(|s.calls|))
  }

  lemma JoiningReturns(s: State, k: string)
    requires Reachable(s) && k in s.m && s.m[k] in s.entries && s.entries[s.m[k]].closed
    ensures Reachable(Joining(s, k)) && CallReturned(s, Joining(s, k), k, s.entries[s.m[k]].result, false)
  {
    var s1 := Next(s, OnlyOne.Compute(k));
    ReachableInv(s);
    ReachOn(s, OnlyOne.Compute(k));
    ReachOn(s1, LoadOrStore(|s.calls|));
    ReachOn(Next(s1, LoadOrStore(|s.calls|)), Receive(|s.calls|));
  }

  /** The run of a call that does not find it: until fn is called, and from then on. */
  function Storing(s: State, k: string): State {
    Next(Next(Next(s, OnlyOne.Compute(k)), LoadOrStore(|s.calls|)), StartFn(|s.calls|))
  }

  function Finishing(s: State, c: nat, r: Result): State {
    Next(Next(Next(s, FnReturns(c, r)), Close(c)), Delete(c))
  }

  /** The new call is the owner of its key, inside fn. */
  ghost predicate InsideFn(s: State, t: State, k: string) {
    var c := |s.calls|;
    && |t.calls| == c + 1 && t.calls[..c] == s.calls && t.calls[c].key == k && t.calls[c].pc == Running
    && c in t.entries && c !in s.entries && k !in s.m && t.m == s.m[k := c]
    && (forall o :: o in s.entries ==> o in t.entries && t.entries[o] == s.entries[o])
  }

  lemma StoringRuns(s: State, k: string)
    requires Reachable(s) && k !in s.m
    ensures Reachable(Storing(s, k)) && InsideFn(s, Storing(s, k), k)
  {
    var s1 := Next(s, OnlyOne.Compute(k));
    ReachableInv(s);
    assert |s.calls| in s.entries ==> GoodEntry(s, |s.calls|);
    ReachOn(s, OnlyOne.Compute(k));
    ReachOn(s1, LoadOrStore(|s.calls|));
    ReachOn(Next(s1, LoadOrStore(|s.calls|)), StartFn(|s.calls|));
  }

  lemma FinishingReturns(s: State, t: State, k: string, r: Result)
    requires Reachable(t) && InsideFn(s, t, k)
    ensures Reachable(Finishing(t, |s.calls|, r)) && CallReturned(s, Finishing(t, |s.calls|, r), k, r, true)
  {
    var c := |s.calls|;
    ReachOn(t, FnReturns(c, r));
    ReachOn(Next(t, FnReturns(c, r)), Close(c));
    ReachOn(Next(Next(t, FnReturns(c, r)), Close(c)), Delete(c));
    assert s.m[k := c] - {k} == s.m;
  }

  /** A call that has the protocol to itself, from its lookup to its return. */
  function OneCall(s: State, k: string, r: Result): State {
    if k in s.m then Joining(s, k) else Finishing(Storing(s, k), |s.calls|, r)
  }

  lemma OneCallReturns(s: State, k: string, r: Result)
    requires Reachable(s) && (k in s.m ==> s.m[k] in s.entries && s.entries[s.m[k]].closed && s.entries[s.m[k]].result == r)
    ensures Reachable(OneCall(s, k, r)) && CallReturned(s, OneCall(s, k, r), k, r, k !in s.m)
  {
    if k in s.m {
      JoiningReturns(s, k);
    } else {
      StoringRuns(s, k);
      FinishingReturns(s, Storing(s, k), k, r);
    }
  }

  /** The steps of one call. */
  function StepsOf(s: State, k: string, r: Result): seq<Step> {
    var c := |s.calls|;
    if k in s.m then [OnlyOne.Compute(k), LoadOrStore(c), Receive(c)]
    else [OnlyOne.Compute(k), LoadOrStore(c), StartFn(c), FnReturns(c, r), Close(c), Delete(c)]
  }

  predicate SameStep(a: Step, b: Step) {
    a == b
  }

  /** The step leads from one state to another. */
  ghost predicate Leads(s: State, step: Step, t: State) {
    forall x :: SameStep(x, step) ==> Next(s, x) == t
  }

  lemma LookupStores(s: State, c: nat, k: string) returns (t: State)
    requires Is(s, c, Called) && s.calls[c].key == k && k !in s.m
    ensures Leads(s, LoadOrStore(c), t)
    ensures Is(t, c, Stored) && t.calls[c].key == k && t.m == s.m[k := c]
    ensures t.entries == s.entries[c := Entry(k, false, ZERO, s.clock, Never, Never)]
  {
    t := Next(s, LoadOrStore(c));
  }

  lemma DeleteReturns(s: State, c: nat, k: string) returns (t: State)
    requires Is(s, c, Closed) && s.calls[c].key == k && c in s.entries
    ensures Leads(s, Delete(c), t)
    ensures Is(t, c, Returned(c, s.entries[c].result)) && t.calls[c].key == k && t.m == s.m - {k}
    ensures t.entries == s.entries[c := s.entries[c].(deletedAt := AtTime(s.clock))]
  {
    t := Next(s, Delete(c));
  }

  /** What an owner does once it has stored its entry. */
  function Evaluated(c: nat, r: Result): seq<Step> {
    [StartFn(c), FnReturns(c, r), Close(c), Delete(c)]
  }

  lemma AfterOneMore(steps: seq<Step>, step: Step)
    ensures After(steps + [step]) == Next(After(steps), step)
  {
    assert (steps + [step])[..|steps|] == steps;
  }

  lemma {:induction false} AfterMore(steps: seq<Step>, more: seq<Step>)
    ensures After(steps + more) == NextAll(After(steps), more)
    decreases |more|
  {
    if more == [] {
      assert steps + more == steps;
    } else {
      AfterOneMore(steps, more[0]);
      AfterMore(steps + [more[0]], more[1..]);
      assert steps + [more[0]] + more[1..] == steps + more;
    }
  }

  function NextAll(s: State, more: seq<Step>): State
    decreases |more|
  {
    if more == [] then s else NextAll(Next(s, more[0]), more[1..])
  }

  lemma NextThree(s: State, a: Step, b: Step, c: Step)
    ensures NextAll(s, [a, b, c]) == Next(Next(Next(s, a), b), c)
  {
    assert [a, b, c][1..] == [b, c] && [b, c][1..] == [c] && [c][1..] == [];
    assert NextAll(Next(Next(s, a), b), [c]) == Next(Next(Next(s, a), b), c);
    assert NextAll(Next(s, a), [b, c]) == NextAll(Next(Next(s, a), b), [c]);
  }

  lemma NextAllJoins(s: State, more: seq<Step>, others: seq<Step>)
    ensures NextAll(s, more + others) == NextAll(NextAll(s, more), others)
    decreases |more|
  {
    if more == [] {
      assert more + others == others;
    } else {
      assert (more + others)[1..] == more[1..] + others;
      NextAllJoins(Next(s, more[0]), more[1..], others);
    }
  }

  /** Taking them one after another makes the call and returns. */
  lemma StepsMakeTheCall(steps: seq<Step>, k: string, r: Result)
    requires var s := After(steps); k in s.m ==> s.m[k] in s.entries && s.entries[s.m[k]].closed && s.entries[s.m[k]].result == r
    ensures var s, t := After(steps), After(steps + StepsOf(After(steps), k, r));
      t == OneCall(s, k, r) && CallReturned(s, t, k, r, k !in s.m)
  {
    var s := After(steps);
    var c := |s.calls|;
    AfterMore(steps, StepsOf(s, k, r));
    if k in s.m {
      NextThree(s, OnlyOne.Compute(k), LoadOrStore(c), Receive(c));
    } else {
      var first, second := [OnlyOne.Compute(k), LoadOrStore(c), StartFn(c)], [FnReturns(c, r), Close(c), Delete(c)];
      assert StepsOf(s, k, r) == first + second;
      NextAllJoins(s, first, second);
      NextThree(s, OnlyOne.Compute(k), LoadOrStore(c), StartFn(c));
      NextThree(Storing(s, k), FnReturns(c, r), Close(c), Delete(c));
    }
    OneCallReturns(s, k, r);
  }

  // ----- the objects -----

  class ChanAndResult {
    var closed: bool
    var result: Result

    constructor ()
      ensures !closed && result == ZERO
    {
      closed, result := false, ZERO;
    }
  }

  datatype Part = StepsTaken | MapOfState | EntriesOfState | EntriesApart

  class ChanOnlyOne {
    var m: map<string, ChanAndResult>
    /** The steps that all calls have taken, the state they lead to, and the entries stored. */
    ghost var steps: seq<Step>
    ghost var state: State
    ghost var entries: map<nat, ChanAndResult>

    ghost predicate Holds(part: Part)
      reads this, entries.Values
    {
      match part
      case StepsTaken => state == After(steps)
      case MapOfState => m.Keys == state.m.Keys && forall k :: k in m ==> state.m[k] in entries && m[k] == entries[state.m[k]]
      case EntriesOfState =>
        && entries.Keys == state.entries.Keys
        && forall c :: c in entries ==> entries[c].closed == state.entries[c].closed && entries[c].result == state.entries[c].result
      case EntriesApart => forall c, d :: c in entries && d in entries && entries[c] == entries[d] ==> c == d
    }

    /** The map and all entries, in it or not, are those of the protocol's state. */
    ghost predicate Valid()
      reads this, entries.Values
    {
      forall part :: Holds(part)
    }

    lemma Parts()
      ensures Valid() <==> Holds(StepsTaken) && Holds(MapOfState) && Holds(EntriesOfState) && Holds(EntriesApart)
    {
    }

    constructor ()
      ensures Valid() && m == map[] && steps == [] && entries == map[]
    {
      m, steps, state, entries := map[], [], INIT, map[];
      new;
      Parts();
    }

    /** The call has come this far. */
    ghost predicate At(c: nat, k: string, pc: Pc)
      reads this
    {
      Is(state, c, pc) && state.calls[c].key == k
    }

    /** The call has come this far, and owns this entry. */
    ghost predicate Owns(c: nat, k: string, stop: ChanAndResult, pc: Pc)
      reads this
    {
      At(c, k, pc) && c in entries && entries[c] == stop
    }

    /** The call waits for this entry of another. */
    ghost predicate Joins(c: nat, k: string, owner: nat, actual: ChanAndResult)
      reads this
    {
      At(c, k, Joined(owner)) && owner in entries && entries[owner] == actual
    }

    ghost method Take(step: Step)
      requires state == After(steps)
      modifies this`steps, this`state
      ensures steps == old(steps) + [step] && state == After(steps) == Next(old(state), step)
    {
      AfterOneMore(steps, step);
      steps := steps + [step];
      state := Next(state, step);
    }

    ghost method TakeTo(step: Step, t: State)
      requires state == After(steps) && Leads(state, step, t)
      modifies this`steps, this`state
      ensures steps == old(steps) + [step] && state == After(steps) == t
    {
      AfterOneMore(steps, step);
      assert SameStep(step, step);
      steps := steps + [step];
      state := t;
    }

    /** A goroutine calls Compute. */
    ghost method Begin(k: string) returns (c: nat)
      requires Valid()
      modifies this`steps, this`state
      ensures Valid() && c == |old(state).calls| && At(c, k, Called)
      ensures steps == old(steps) + [OnlyOne.Compute(k)]
    {
      Parts();
      c := |state.calls|;
      Take(OnlyOne.Compute(k));
      Parts();
    }

    /** m.LoadOrStore. */
    method LoadOrStore(ghost c: nat, k: string, stop: ChanAndResult) returns (actual: ChanAndResult, inFlight: bool, ghost owner: nat)
      requires Valid() && At(c, k, Called)
      requires stop !in entries.Values && !stop.closed && stop.result == ZERO
      modifies this
      ensures Valid() && steps == old(steps) + [OnlyOne.LoadOrStore(c)]
      ensures inFlight <==> k in old(m)
      ensures inFlight ==> actual == old(m)[k] && m == old(m) && entries == old(entries) && Joins(c, k, owner, actual)
      ensures !inFlight ==> actual == stop && m == old(m)[k := stop] && entries == old(entries)[c := stop] && Owns(c, k, stop, Stored)
    {
      inFlight := k in m;
      owner := c;
      if inFlight {
        actual, owner := Load(c, k);
      } else {
        actual := stop;
        Store(c, k, stop);
      }
    }

    method Load(ghost c: nat, k: string) returns (actual: ChanAndResult, ghost owner: nat)
      requires Valid() && At(c, k, Called) && k in m
      modifies this`steps, this`state
      ensures Valid() && steps == old(steps) + [OnlyOne.LoadOrStore(c)]
      ensures actual == m[k] && Joins(c, k, owner, actual)
    {
      Parts();
      actual := m[k];
      owner := state.m[k];
      Take(OnlyOne.LoadOrStore(c));
      Parts();
    }

    method Store(ghost c: nat, k: string, stop: ChanAndResult)
      requires Valid() && At(c, k, Called) && k !in m
      requires stop !in entries.Values && !stop.closed && stop.result == ZERO
      modifies this
      ensures Valid() && steps == old(steps) + [OnlyOne.LoadOrStore(c)]
      ensures m == old(m)[k := stop] && entries == old(entries)[c := stop] && Owns(c, k, stop, Stored)
    {
      Parts();
      CalledHasNoEntry(steps, state, c);
      ghost var t := LookupStores(state, c, k);
      m := m[k := stop];
      entries := entries[c := stop];
      TakeTo(OnlyOne.LoadOrStore(c), t);
      forall part
        ensures Holds(part)
      {
        match part
        case StepsTaken =>
        case MapOfState =>
        case EntriesOfState =>
        case EntriesApart =>
      }
    }

    /** The owner calls fn. */
    ghost method StartFn(c: nat, k: string, stop: ChanAndResult)
      requires Valid() && Owns(c, k, stop, Stored)
      modifies this`steps, this`state
      ensures Valid() && Owns(c, k, stop, Running) && steps == old(steps) + [OnlyOne.StartFn(c)]
    {
      Parts();
      Take(OnlyOne.StartFn(c));
      Parts();
    }

    /** The owner assigns what fn has returned. */
    method Assign(ghost c: nat, ghost k: string, stop: ChanAndResult, r: Result)
      requires Valid() && Owns(c, k, stop, Running)
      modifies this`steps, this`state, stop
      ensures Valid() && Owns(c, k, stop, Filled) && steps == old(steps) + [FnReturns(c, r)]
      ensures stop.result == r && stop.closed == old(stop.closed)
    {
      Parts();
      stop.result := r;
      Take(FnReturns(c, r));
      Parts();
    }

    /** The owner closes the channel: whoever waits for the entry can go on. */
    method Close(ghost c: nat, ghost k: string, stop: ChanAndResult)
      requires Valid() && Owns(c, k, stop, Filled)
      modifies this`steps, this`state, stop
      ensures Valid() && Owns(c, k, stop, Closed) && steps == old(steps) + [OnlyOne.Close(c)]
      ensures stop.closed && stop.result == old(stop.result)
    {
      Parts();
      stop.closed := true;
      Take(OnlyOne.Close(c));
      Parts();
    }

    /** The owner deletes the key and returns its result. */
    method Delete(ghost c: nat, k: string, stop: ChanAndResult) returns (r: Result)
      requires Valid() && Owns(c, k, stop, Closed)
      modifies this`steps, this`state, this`m
      ensures Valid() && steps == old(steps) + [OnlyOne.Delete(c)] && m == old(m) - {k}
      ensures r == stop.result && At(c, k, Returned(c, r))
    {
      Parts();
      ghost var t := DeleteReturns(state, c, k);
      r := stop.result;
      assert r == state.entries[c].result;
      m := m - {k};
      TakeTo(OnlyOne.Delete(c), t);
      DeletedHolds(old(state), old(m), c, k);
    }

    lemma DeletedHolds(s: State, before: map<string, ChanAndResult>, c: nat, k: string)
      requires state == After(steps) && c in s.entries && m == before - {k}
      requires state.m == s.m - {k} && state.entries == s.entries[c := s.entries[c].(deletedAt := AtTime(s.clock))]
      requires before.Keys == s.m.Keys && forall x :: x in before ==> s.m[x] in entries && before[x] == entries[s.m[x]]
      requires entries.Keys == s.entries.Keys
      requires forall d :: d in entries ==> entries[d].closed == s.entries[d].closed && entries[d].result == s.entries[d].result
      requires forall d, e :: d in entries && e in entries && entries[d] == entries[e] ==> d == e
      ensures Valid()
    {
      forall part
        ensures Holds(part)
      {
        match part
        case StepsTaken =>
        case MapOfState =>
        case EntriesOfState =>
        case EntriesApart =>
      }
    }

    /** A call that has waited for the entry returns its result. */
    method Receive(ghost c: nat, ghost k: string, ghost owner: nat, actual: ChanAndResult) returns (r: Result)
      requires Valid() && Joins(c, k, owner, actual) && actual.closed
      modifies this`steps, this`state
      ensures Valid() && steps == old(steps) + [OnlyOne.Receive(c)]
      ensures r == actual.result && At(c, k, Returned(owner, r))
    {
      Parts();
      r := actual.result;
      Take(OnlyOne.Receive(c));
      Parts();
    }

    /** What the owner does from the store on. */
    method Evaluate(ghost c: nat, k: string, stop: ChanAndResult, fn: () -> Result) returns (r: Result)
      requires Valid() && Owns(c, k, stop, Stored)
      modifies this`steps, this`state, this`m, stop
      ensures Valid() && m == old(m) - {k} && r == fn() && At(c, k, Returned(c, r))
      ensures steps == old(steps) + Evaluated(c, r)
    {
      StartFn(c, k, stop);
      var value := fn();
      Assign(c, k, stop, value);
      Close(c, k, stop);
      r := Delete(c, k, stop);
    }

    lemma CallIsRun(k: string, r: Result)
      requires Valid() && (k in m ==> m[k].closed && m[k].result == r)
      ensures k in m <==> k in state.m
      ensures CallReturned(state, After(steps + StepsOf(state, k, r)), k, r, k !in m)
    {
      Parts();
      StepsMakeTheCall(steps, k, r);
    }

    lemma StateIsAfter()
      requires Valid()
      ensures state == After(steps)
    {
      Parts();
    }

    /** One call that is not interrupted. While another call owns the key, the receive blocks
        until the entry is closed; from then on the caller shares the owner's result and
        leaves the map alone. Otherwise it evaluates fn itself, and its entry is gone when it
        returns. The call is a run of the protocol and returns what the protocol says. */
    method Compute(k: string, fn: () -> Result) returns (r: Result)
      requires Valid() && (k in m ==> m[k].closed)
      modifies this
      ensures Valid() && m == old(m)
      ensures r == if k in old(m) then old(m[k].result) else fn()
      ensures steps == old(steps) + StepsOf(old(state), k, r)
      ensures CallReturned(old(state), state, k, r, k !in old(m))
    {
      ghost var before, taken := state, steps;
      CallIsRun(k, if k in m then m[k].result else fn());
      var stop := new ChanAndResult();
      if k in m {
        r := Share(k, stop);
      } else {
        r := ComputeNew(k, stop, fn);
      }
      assert steps == taken + StepsOf(before, k, r);
      StateIsAfter();
    }

    method Share(k: string, stop: ChanAndResult) returns (r: Result)
      requires Valid() && k in m && m[k].closed
      requires stop !in entries.Values && !stop.closed && stop.result == ZERO
      modifies this
      ensures Valid() && m == old(m) && r == old(m[k].result)
      ensures steps == old(steps) + [OnlyOne.Compute(k), OnlyOne.LoadOrStore(|old(state).calls|), OnlyOne.Receive(|old(state).calls|)]
    {
      ghost var c := Begin(k);
      var actualStop, inFlight, owner := LoadOrStore(c, k, stop);
      r := Receive(c, k, owner, actualStop);
    }

    method ComputeNew(k: string, stop: ChanAndResult, fn: () -> Result) returns (r: Result)
      requires Valid() && k !in m
      requires stop !in entries.Values && !stop.closed && stop.result == ZERO
      modifies this, stop
      ensures Valid() && m == old(m) && r == fn()
      ensures steps == old(steps) + [OnlyOne.Compute(k), OnlyOne.LoadOrStore(|old(state).calls|)] + Evaluated(|old(state).calls|, r)
    {
      ghost var c := Begin(k);
      var actualStop, inFlight, owner := LoadOrStore(c, k, stop);
      r := Evaluate(c, k, actualStop, fn);
      assert m == old(m);
    }
  }
}
