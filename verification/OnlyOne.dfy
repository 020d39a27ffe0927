/**
ChanOnlyOne.Compute: at most one evaluation of a keyed expression at a time, shared by all
callers that find it in the map, as a protocol over every interleaving of its atomic steps.
*/
module OnlyOne {

  datatype Result = Result(value: int, err: string)

  /** Where a call of Compute is. A call that stores its own entry is the owner of it. */
  datatype Pc =
    | Called                                // before LoadOrStore
    | Stored                                // owner, about to call fn
    | Running                               // owner, inside fn
    | Filled                                // owner, result assigned, channel open
    | Closed                                // owner, channel closed, entry still in the map
    | Joined(owner: nat)                    // receiving from the owner's channel
    | Returned(owner: nat, result: Result)

  datatype Call = Call(key: string, pc: Pc, lookedUpAt: nat)

  datatype Moment = Never | AtTime(t: nat)

  /** chanAndResult, with the times that matter for freshness; named by its owner's call. */
  datatype Entry = Entry(key: string, closed: bool, result: Result,
                         storedAt: nat, filledAt: Moment, deletedAt: Moment)

  /** `fnCalls` lists the completed evaluations: owner and result. */
  datatype State = State(
    clock: nat,
    calls: seq<Call>,
    entries: map<nat, Entry>,
    m: map<string, nat>,
    fnCalls: seq<(nat, Result)>)

  const INIT := State(0, [], map[], map[], [])
  const ZERO := Result(0, "")

  datatype Step =
    | Compute(key: string)
    | LoadOrStore(c: nat)
    | StartFn(c: nat)
    | FnReturns(c: nat, result: Result)
    | Close(c: nat)
    | Delete(c: nat)
    | Receive(c: nat)

  predicate Is(s: State, c: nat, pc: Pc) {
    c < |s.calls| && s.calls[c].pc == pc
  }

  predicate Enabled(s: State, step: Step) {
    match step
    case Compute(_) => true
    case LoadOrStore(c) => Is(s, c, Called)
    case StartFn(c) => Is(s, c, Stored)
    case FnReturns(c, _) => Is(s, c, Running) && c in s.entries
    case Close(c) => Is(s, c, Filled) && c in s.entries
    case Delete(c) => Is(s, c, Closed) && c in s.entries
    case Receive(c) =>
      && c < |s.calls| && s.calls[c].pc.Joined?
      && s.calls[c].pc.owner in s.entries && s.entries[s.calls[c].pc.owner].closed
  }

  function SetPc(s: State, c: nat, pc: Pc): State
    requires c < |s.calls|
  {
    s.(calls := s.calls[c := s.calls[c].(pc := pc)])
  }

  function Effect(s: State, step: Step): State
    requires Enabled(s, step)
  {
    match step
    case Compute(k) => s.(calls := s.calls + [Call(k, Called, 0)])
    case LoadOrStore(c) =>
      var k := s.calls[c].key;
      if k in s.m then
        s.(calls := s.calls[c := Call(k, Joined(s.m[k]), s.clock)])
      else
        s.(calls := s.calls[c := Call(k, Stored, s.clock)],
           m := s.m[k := c],
           entries := s.entries[c := Entry(k, false, ZERO, s.clock, Never, Never)])
    case StartFn(c) => SetPc(s, c, Running)
    case FnReturns(c, r) =>
      SetPc(s, c, Filled).(
        entries := s.entries[c := s.entries[c].(result := r, filledAt := AtTime(s.clock))],
        fnCalls := s.fnCalls + [(c, r)])
    case Close(c) =>
      SetPc(s, c, Closed).(entries := s.entries[c := s.entries[c].(closed := true)])
    case Delete(c) =>
      // the delete names the key, whoever's entry is there
      SetPc(s, c, Returned(c, s.entries[c].result)).(
        m := s.m - {s.calls[c].key},
        entries := s.entries[c := s.entries[c].(deletedAt := AtTime(s.clock))])
    case Receive(c) =>
      var owner := s.calls[c].pc.owner;
      SetPc(s, c, Returned(owner, s.entries[owner].result))
  }

  function Next(s: State, step: Step): State {
    if Enabled(s, step) then Effect(s, step).(clock := s.clock + 1) else s
  }

  /** The state after the given steps; a step that is not enabled does nothing. */
  function After(steps: seq<Step>): State {
    if steps == [] then INIT else Next(After(steps[..|steps| - 1]), steps[|steps| - 1])
  }

  // ----- the invariant -----

  predicate Owning(pc: Pc) {
    pc.Stored? || pc.Running? || pc.Filled? || pc.Closed?
  }

  /** The map holds, per key, the entry of the one call that owns an unfinished evaluation. */
  ghost predicate MapIsOwners(s: State) {
    && (forall k :: k in s.m ==>
          s.m[k] < |s.calls| && s.calls[s.m[k]].key == k && Owning(s.calls[s.m[k]].pc))
    && (forall c :: 0 <= c < |s.calls| && Owning(s.calls[c].pc) ==>
          s.calls[c].key in s.m && s.m[s.calls[c].key] == c)
  }

  /** An entry mirrors the progress of its owner. */
  predicate GoodEntry(s: State, o: nat) {
    o in s.entries && o < |s.calls| &&
    var e := s.entries[o];
    var pc := s.calls[o].pc;
    && e.key == s.calls[o].key
    && (Owning(pc) || (pc.Returned? && pc.owner == o))
    && (e.closed <==> pc.Closed? || pc.Returned?)
    && (e.filledAt.AtTime? <==> !pc.Stored? && !pc.Running?)
    && (e.deletedAt.AtTime? <==> pc.Returned?)
    && e.storedAt < s.clock && e.storedAt == s.calls[o].lookedUpAt
    && (e.filledAt.AtTime? ==> e.storedAt < e.filledAt.t < s.clock)
    && (e.deletedAt.AtTime? ==> e.filledAt.AtTime? && e.filledAt.t < e.deletedAt.t < s.clock)
  }

  /** A caller refers to a good entry for its key that was in the map when it looked. */
  predicate Found(s: State, c: nat, o: nat)
    requires c < |s.calls|
  {
    && GoodEntry(s, o) && s.entries[o].key == s.calls[c].key
    && s.entries[o].storedAt <= s.calls[c].lookedUpAt
    && (s.entries[o].deletedAt.AtTime? ==> s.calls[c].lookedUpAt < s.entries[o].deletedAt.t)
  }

  predicate GoodCall(s: State, c: nat)
    requires c < |s.calls|
  {
    && s.calls[c].lookedUpAt <= s.clock
    && match s.calls[c].pc
       case Called => c !in s.entries
       case Joined(o) => c !in s.entries && s.calls[c].lookedUpAt < s.clock && Found(s, c, o)
       case Returned(o, r) =>
         && s.calls[c].lookedUpAt < s.clock
         && (c in s.entries <==> o == c)
         && Found(s, c, o) && s.entries[o].closed && s.entries[o].result == r
       case _ => GoodEntry(s, c)
  }

  /** fn was evaluated at most once per entry, and exactly once for a filled one. */
  ghost predicate GoodFnCalls(s: State) {
    && (forall i :: 0 <= i < |s.fnCalls| ==>
          var (o, r) := s.fnCalls[i];
          o in s.entries && s.entries[o].filledAt.AtTime? && s.entries[o].result == r)
    && (forall i, j :: 0 <= i < j < |s.fnCalls| ==> s.fnCalls[i].0 != s.fnCalls[j].0)
    && (forall o :: o in s.entries && s.entries[o].filledAt.AtTime? ==> (o, s.entries[o].result) in s.fnCalls)
  }

  ghost predicate Inv(s: State) {
    && MapIsOwners(s)
    && (forall o :: o in s.entries ==> GoodEntry(s, o))
    && (forall c :: 0 <= c < |s.calls| ==> GoodCall(s, c))
    && GoodFnCalls(s)
  }

  lemma OwnersKept(s: State, step: Step, c: nat)
    requires MapIsOwners(s) && Enabled(s, step)
    requires c < |Next(s, step).calls| && Owning(Next(s, step).calls[c].pc)
    ensures var t := Next(s, step); t.calls[c].key in t.m && t.m[t.calls[c].key] == c
  {}

  lemma MapKept(s: State, step: Step)
    requires MapIsOwners(s) && Enabled(s, step)
    ensures MapIsOwners(Next(s, step))
  {
    var t := Next(s, step);
    forall c | 0 <= c < |t.calls| && Owning(t.calls[c].pc)
      ensures t.calls[c].key in t.m && t.m[t.calls[c].key] == c
    {
      OwnersKept(s, step, c);
    }
    forall k | k in t.m
      ensures t.m[k] < |t.calls| && t.calls[t.m[k]].key == k && Owning(t.calls[t.m[k]].pc)
    {
      assert k in s.m || (step.LoadOrStore? && k == s.calls[step.c].key);
    }
  }

  lemma EntryKept(s: State, step: Step, o: nat)
    requires Enabled(s, step) && o in Next(s, step).entries
    requires o in s.entries ==> GoodEntry(s, o)
    ensures GoodEntry(Next(s, step), o)
  {}

  /** Entries only gain information: what was found stays found. */
  lemma FoundKept(s: State, step: Step, c: nat, o: nat)
    requires Enabled(s, step) && c < |s.calls|
    requires Found(s, c, o) && s.calls[c].lookedUpAt < s.clock
    requires Next(s, step).calls[c].lookedUpAt == s.calls[c].lookedUpAt
    ensures Found(Next(s, step), c, o)
    ensures s.entries[o].closed ==>
      Next(s, step).entries[o].closed && Next(s, step).entries[o].result == s.entries[o].result
  {
    assert o in Next(s, step).entries;
    EntryKept(s, step, o);
  }

  /** The call that moves. */
  lemma MoverKept(s: State, step: Step, c: nat)
    requires Inv(s) && Enabled(s, step) && !step.Compute? && step.c == c
    ensures c < |Next(s, step).calls| && GoodCall(Next(s, step), c)
  {
    var t := Next(s, step);
    assert GoodCall(s, c);
    if step.LoadOrStore? && s.calls[c].key in s.m {
      var o := s.m[s.calls[c].key];
      assert GoodCall(s, o);
      EntryKept(s, step, o);
    } else if step.Receive? {
      FoundKept(s, step, c, s.calls[c].pc.owner);
    } else {
      assert c in t.entries;
      EntryKept(s, step, c);
    }
  }

  lemma OthersStay(s: State, step: Step, c: nat)
    requires Enabled(s, step) && c < |s.calls| && (step.Compute? || step.c != c)
    ensures c < |Next(s, step).calls| && Next(s, step).calls[c] == s.calls[c]
    ensures c in Next(s, step).entries <==> c in s.entries
    ensures Next(s, step).clock == s.clock + 1
  {}

  /** A call that does not move in this step. */
  lemma BystanderKept(s: State, step: Step, c: nat)
    requires Inv(s) && Enabled(s, step) && c < |s.calls| && (step.Compute? || step.c != c)
    ensures c < |Next(s, step).calls| && GoodCall(Next(s, step), c)
  {
    assert GoodCall(s, c);
    OthersStay(s, step, c);
    match s.calls[c].pc
    case Called =>
    case Joined(o) => FoundKept(s, step, c, o);
    case Returned(o, _) => FoundKept(s, step, c, o);
    case _ => EntryKept(s, step, c);
  }

  lemma CallKept(s: State, step: Step, c: nat)
    requires Inv(s) && Enabled(s, step) && c < |Next(s, step).calls|
    ensures GoodCall(Next(s, step), c)
  {
    if c == |s.calls| {
      assert forall o :: o in s.entries ==> GoodEntry(s, o);
    } else if !step.Compute? && step.c == c {
      MoverKept(s, step, c);
    } else {
      BystanderKept(s, step, c);
    }
  }

  lemma FnCallsKept(s: State, step: Step)
    requires Inv(s) && Enabled(s, step)
    ensures GoodFnCalls(Next(s, step))
  {
    var t := Next(s, step);
    if step.FnReturns? {
      assert GoodEntry(s, step.c);
      assert t.fnCalls[|s.fnCalls|] == (step.c, step.result);
    }
    forall o | o in t.entries && t.entries[o].filledAt.AtTime?
      ensures (o, t.entries[o].result) in t.fnCalls
    {
      if !(step.FnReturns? && step.c == o) {
        assert o in s.entries && (o, s.entries[o].result) in s.fnCalls;
        assert t.entries[o].result == s.entries[o].result;
        assert forall x :: x in s.fnCalls ==> x in t.fnCalls;
      }
    }
  }

  lemma {:induction false} InvAlways(steps: seq<Step>)
    ensures Inv(After(steps))
  {
    if steps != [] {
      var s := After(steps[..|steps| - 1]);
      var step := steps[|steps| - 1];
      InvAlways(steps[..|steps| - 1]);
      if Enabled(s, step) {
        MapKept(s, step);
        forall o | o in Next(s, step).entries
          ensures GoodEntry(Next(s, step), o)
        {
          EntryKept(s, step, o);
        }
        forall c | 0 <= c < |Next(s, step).calls|
          ensures GoodCall(Next(s, step), c)
        {
          CallKept(s, step, c);
        }
        FnCallsKept(s, step);
      }
    }
  }

  // ----- theorems about every reachable state -----

  /** At most one fn runs at a time for a key. */
  lemma OneEvaluationPerKey(steps: seq<Step>, c: nat, d: nat)
    requires Is(After(steps), c, Running) && Is(After(steps), d, Running)
    requires After(steps).calls[c].key == After(steps).calls[d].key
    ensures c == d
  {
    InvAlways(steps);
  }

  /** Only the owner of an entry removes it from the map. */
  lemma OwnerDeletesItsOwnEntry(steps: seq<Step>, c: nat)
    requires Enabled(After(steps), Delete(c))
    ensures After(steps).calls[c].key in After(steps).m && After(steps).m[After(steps).calls[c].key] == c
  {
    InvAlways(steps);
  }

  /** What a caller returns is the result of one completed evaluation for its key, made by
      the owner of the entry it found; no entry is evaluated twice. */
  lemma ReturnsOneEvaluation(steps: seq<Step>, c: nat)
    requires c < |After(steps).calls| && After(steps).calls[c].pc.Returned?
    ensures var s := After(steps); var o := s.calls[c].pc.owner;
      && o < |s.calls| && s.calls[o].key == s.calls[c].key
      && (exists i :: 0 <= i < |s.fnCalls| && s.fnCalls[i] == (o, s.calls[c].pc.result)
            && (forall j :: 0 <= j < |s.fnCalls| && s.fnCalls[j].0 == o ==> j == i))
  {
    InvAlways(steps);
    var s := After(steps);
    assert GoodCall(s, c);
    var x := (s.calls[c].pc.owner, s.calls[c].pc.result);
    assert x in s.fnCalls;
    var i :| 0 <= i < |s.fnCalls| && s.fnCalls[i] == x;
    forall j | 0 <= j < |s.fnCalls| && s.fnCalls[j].0 == x.0
      ensures j == i
    {
      if j < i {} else if i < j {}
    }
  }

  /** The entry a caller returns from was stored before, and deleted after, its lookup: a
      call made after the owner's delete never sees the old result. */
  lemma LookupIsInsideTheWindow(steps: seq<Step>, c: nat)
    requires c < |After(steps).calls| && After(steps).calls[c].pc.Returned?
    ensures var s := After(steps); var o := s.calls[c].pc.owner;
      && o in s.entries
      && s.entries[o].storedAt <= s.calls[c].lookedUpAt
      && (s.entries[o].deletedAt.AtTime? ==> s.calls[c].lookedUpAt < s.entries[o].deletedAt.t)
  {
    InvAlways(steps);
    assert GoodCall(After(steps), c);
  }

  /** A joiner never waits in vain: its channel is closed, or the owner has yet to close it. */
  lemma JoinersAreReleased(steps: seq<Step>, c: nat)
    requires c < |After(steps).calls| && After(steps).calls[c].pc.Joined?
    ensures var s := After(steps); var o := s.calls[c].pc.owner;
      Enabled(s, Receive(c)) || Enabled(s, StartFn(o)) || Enabled(s, Close(o))
      || (Is(s, o, Running) && forall r :: Enabled(s, FnReturns(o, r)))
  {
    InvAlways(steps);
    assert GoodCall(After(steps), c);
  }

  /** A caller that found another's entry, which it waits on or has returned from. */
  predicate Joiner(s: State, c: nat) {
    c < |s.calls| && (s.calls[c].pc.Joined? || (s.calls[c].pc.Returned? && s.calls[c].pc.owner != c))
  }

  function OwnerOf(s: State, c: nat): nat
    requires Joiner(s, c)
  {
    s.calls[c].pc.owner
  }

  /** fn had returned for the entry before the caller looked the key up. */
  predicate OlderThanLookup(s: State, c: nat)
    requires Joiner(s, c) && OwnerOf(s, c) in s.entries
  {
    s.entries[OwnerOf(s, c)].filledAt.AtTime? && s.entries[OwnerOf(s, c)].filledAt.t < s.calls[c].lookedUpAt
  }

  /** The n-th step is the caller's lookup, which finds this owner past its evaluation or not. */
  ghost predicate LookedUp(steps: seq<Step>, n: nat, c: nat, owner: nat, finished: bool)
    requires n < |steps|
  {
    var s := After(steps[..n]);
    && steps[n] == LoadOrStore(c) && Enabled(s, steps[n])
    && s.calls[c].key in s.m && s.m[s.calls[c].key] == owner < |s.calls|
    && finished == (s.calls[owner].pc.Filled? || s.calls[owner].pc.Closed?)
  }

  /** Exactly when a result is older than the lookup that gets it: a joiner in any reachable
      state made one lookup, and the result it gets was complete by then if and only if at that
      step the owner had assigned it, whether or not it had closed the channel already. */
  lemma {:induction false} OlderIff(steps: seq<Step>, c: nat) returns (n: nat)
    requires Joiner(After(steps), c)
    ensures OwnerOf(After(steps), c) in After(steps).entries && n < |steps|
    ensures LookedUp(steps, n, c, OwnerOf(After(steps), c), OlderThanLookup(After(steps), c))
  {
    var init, step := steps[..|steps| - 1], steps[|steps| - 1];
    InvAlways(init);
    InvAlways(steps);
    var s, t := After(init), After(steps);
    assert GoodCall(t, c);
    if Enabled(s, step) && step == LoadOrStore(c) {
      n := |steps| - 1;
      assert steps[..n] == init;
      LookupIsNow(s, c);
    } else {
      JoinerStays(s, step, c);
      n := OlderIff(init, c);
      assert steps[..n] == init[..n] && steps[n] == init[n];
    }
  }

  /** At the lookup itself the entry is as old as its owner says. */
  lemma LookupIsNow(s: State, c: nat)
    requires Inv(s) && Enabled(s, LoadOrStore(c)) && Joiner(Next(s, LoadOrStore(c)), c)
    ensures var t, k := Next(s, LoadOrStore(c)), s.calls[c].key;
      && k in s.m && s.m[k] == OwnerOf(t, c) < |s.calls| && OwnerOf(t, c) in t.entries
      && (OlderThanLookup(t, c) <==> s.calls[s.m[k]].pc.Filled? || s.calls[s.m[k]].pc.Closed?)
  {
    var k := s.calls[c].key;
    if k in s.m {
      assert GoodCall(s, s.m[k]);
    }
  }

  lemma JoinerWas(s: State, step: Step, c: nat)
    requires Inv(s) && Joiner(Next(s, step), c) && !(Enabled(s, step) && step == LoadOrStore(c))
    ensures Joiner(s, c) && OwnerOf(s, c) == OwnerOf(Next(s, step), c) && OwnerOf(s, c) in s.entries
    ensures s.calls[c].lookedUpAt == Next(s, step).calls[c].lookedUpAt < s.clock
  {
    assert c < |s.calls| ==> GoodCall(s, c);
  }

  /** Any other step leaves a joiner a joiner, and does not make its entry older. */
  lemma JoinerStays(s: State, step: Step, c: nat)
    requires Inv(s) && Joiner(Next(s, step), c) && !(Enabled(s, step) && step == LoadOrStore(c))
    ensures var t := Next(s, step);
      && Joiner(s, c) && OwnerOf(s, c) == OwnerOf(t, c)
      && OwnerOf(s, c) in s.entries && OwnerOf(t, c) in t.entries
      && (OlderThanLookup(t, c) <==> OlderThanLookup(s, c))
  {
    JoinerWas(s, step, c);
    EntryStays(s, step, OwnerOf(s, c));
  }

  /** An entry's fill time is set once, to the time of the step. */
  lemma EntryStays(s: State, step: Step, o: nat)
    requires Inv(s) && o in s.entries
    ensures o in Next(s, step).entries
    ensures var f, g := s.entries[o].filledAt, Next(s, step).entries[o].filledAt; g == f || (f == Never && g == AtTime(s.clock))
  {
    assert GoodEntry(s, o);
  }

  /** It happens: a joiner that looks the key up between the owner's close and delete is given
      a result that was complete before it called. */
  lemma LateJoinerGetsFinishedResult(k: string, r: Result) returns (steps: seq<Step>)
    ensures Is(After(steps), 1, Returned(0, r)) && 0 in After(steps).entries
    ensures var e := After(steps).entries[0];
      e.filledAt.AtTime? && e.filledAt.t < After(steps).calls[1].lookedUpAt
  {
    steps := Run([], Compute(k));
    steps := Run(steps, LoadOrStore(0));
    steps := Run(steps, StartFn(0));
    steps := Run(steps, FnReturns(0, r));
    steps := Run(steps, Close(0));
    steps := Run(steps, Compute(k));
    steps := Run(steps, LoadOrStore(1));
    steps := Run(steps, Receive(1));
  }

  lemma Run(steps: seq<Step>, step: Step) returns (more: seq<Step>)
    ensures After(more) == Next(After(steps), step)
  {
    more := steps + [step];
    assert more[..|more| - 1] == steps;
  }
}
