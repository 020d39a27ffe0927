/**
The request/timer/exec/shutdown protocol of the batching executor, as a state machine
whose steps are the atomic actions of the goroutines involved: callers of BatchFor, the
single Run loop, one timer goroutine per new key and one goroutine per dispatched batch.

Every theorem is stated for `After(steps)` with an arbitrary sequence of steps, that is,
for every reachable state of every interleaving.
*/
module Batch {

  /** Capacity of the `requests` and `execs` channels. */
  const REQUEST_BUFFER_SIZE := 131072

  /** One call of BatchFor. `sentAt` is the time its send on `requests` completed and
      `tracker` tells whether its Executer also implements Tracker. */
  datatype Request = Request(id: nat, key: string, tracker: bool, sentAt: nat)

  datatype Response = Response(v: int, err: string)

  const CONTEXT_DONE := Response(0, "context canceled")

  /** Progress of the goroutine of one dispatched batch. */
  datatype BatchPhase =
    | Spawned
    | Executing(startedAt: nat)
    | Replying(startedAt: nat, result: Response)

  /** A dispatched batch: its waiters, and how many of them were sent the result. */
  datatype Batch = Batch(requests: seq<Request>, phase: BatchPhase, sent: nat)

  datatype Origin = FromBatch(batch: nat) | FromShutdown

  /** A response received by the caller of `request`. */
  datatype Delivery = Delivery(request: Request, response: Response, origin: Origin)

  /** Progress of Run. While notifying, `todo` holds the keys whose waiters are still to be
      told, in the iteration order of the map, and `next` the next waiter of `todo[0]`. */
  datatype RunPhase =
    | Live
    | Notifying(todo: seq<string>, next: nat)
    | Draining
    | Stopped(stoppedAt: nat)

  datatype State = State(
    clock: nat,
    issued: seq<Request>,
    requests: seq<Request>,
    waitingOnKey: map<string, seq<Request>>,
    timers: multiset<string>,
    execs: seq<string>,
    batches: seq<Batch>,
    log: seq<Delivery>,
    batched: set<nat>,
    phase: RunPhase)

  const INIT := State(0, [], [], map[], multiset{}, [], [], [], {}, Live)

  datatype Step =
    | Send(key: string, tracker: bool)            // BatchFor completes its send
    | Accept                                      // Run: case waitFor := <-e.requests
    | TimerFires(key: string)                     // a timer goroutine sends on e.execs
    | Dispatch                                    // Run: case execKey := <-e.execs
    | Execute(batch: nat)                         // a batch goroutine calls Execute
    | ExecuteReturns(batch: nat, result: Response)
    | Reply(batch: nat)                           // it answers its next waiter
    | Cancel(order: seq<string>)                  // Run: case <-ctx.Done(), map order chosen
    | Notify                                      // Run answers one pending waiter
    | NextWaiters                                 // Run moves to the next map entry
    | DrainOne                                    // Run answers a request still in the channel
    | Return                                      // the channel is empty: Run returns

  predicate NoDuplicates<T(==)>(s: seq<T>) {
    forall i, j :: 0 <= i < j < |s| ==> s[i] != s[j]
  }

  predicate Enabled(s: State, step: Step) {
    match step
    case Send(_, _) => |s.requests| < REQUEST_BUFFER_SIZE
    case Accept => s.phase.Live? && s.requests != []
    case TimerFires(k) => k in s.timers && |s.execs| < REQUEST_BUFFER_SIZE
    case Dispatch => s.phase.Live? && s.execs != []
    case Execute(b) => b < |s.batches| && s.batches[b].phase.Spawned?
    case ExecuteReturns(b, _) => b < |s.batches| && s.batches[b].phase.Executing?
    case Reply(b) =>
      b < |s.batches| && s.batches[b].phase.Replying? && s.batches[b].sent < |s.batches[b].requests|
    case Cancel(order) =>
      && s.phase.Live? && NoDuplicates(order)
      && (forall k :: k in order ==> k in s.waitingOnKey)
      && (forall k :: k in s.waitingOnKey ==> k in order)
    case Notify =>
      && s.phase.Notifying? && s.phase.todo != [] && s.phase.todo[0] in s.waitingOnKey
      && s.phase.next < |s.waitingOnKey[s.phase.todo[0]]|
    case NextWaiters =>
      && s.phase.Notifying?
      && (s.phase.todo == [] ||
          (s.phase.todo[0] in s.waitingOnKey && s.phase.next >= |s.waitingOnKey[s.phase.todo[0]]|))
    case DrainOne => s.phase.Draining? && s.requests != []
    case Return => s.phase.Draining? && s.requests == []
  }

  /** The waiters the map lookup returns; a missing key yields Go's nil. */
  function Waiters(s: State, key: string): seq<Request> {
    if key in s.waitingOnKey then s.waitingOnKey[key] else []
  }

  function AcceptRequest(s: State, req: Request): State {
    if req.key !in s.waitingOnKey then
      s.(waitingOnKey := s.waitingOnKey[req.key := [req]],
         timers := s.timers + multiset{req.key})
    else
      s.(waitingOnKey := s.waitingOnKey[req.key := s.waitingOnKey[req.key] + [req]],
         batched := if req.tracker then s.batched + {req.id} else s.batched)
  }

  /** The effect of an enabled step, without the passing of time. */
  function Effect(s: State, step: Step): State
    requires Enabled(s, step)
  {
    match step
    case Send(k, tracker) =>
      var req := Request(|s.issued|, k, tracker, s.clock);
      s.(issued := s.issued + [req], requests := s.requests + [req])
    case Accept => AcceptRequest(s, s.requests[0]).(requests := s.requests[1..])
    case TimerFires(k) => s.(timers := s.timers - multiset{k}, execs := s.execs + [k])
    case Dispatch =>
      var k := s.execs[0];
      s.(execs := s.execs[1..],
         batches := s.batches + [Batch(Waiters(s, k), Spawned, 0)],
         waitingOnKey := s.waitingOnKey - {k})
    case Execute(b) =>
      s.(batches := s.batches[b := s.batches[b].(phase := Executing(s.clock))])
    case ExecuteReturns(b, result) =>
      s.(batches := s.batches[b := s.batches[b].(phase := Replying(s.batches[b].phase.startedAt, result))])
    case Reply(b) =>
      var batch := s.batches[b];
      s.(batches := s.batches[b := batch.(sent := batch.sent + 1)],
         log := s.log + [Delivery(batch.requests[batch.sent], batch.phase.result, FromBatch(b))])
    case Cancel(order) => s.(phase := Notifying(order, 0))
    case Notify =>
      var req := s.waitingOnKey[s.phase.todo[0]][s.phase.next];
      s.(phase := Notifying(s.phase.todo, s.phase.next + 1),
         log := s.log + [Delivery(req, CONTEXT_DONE, FromShutdown)])
    case NextWaiters =>
      s.(phase := if s.phase.todo == [] then Draining else Notifying(s.phase.todo[1..], 0))
    case DrainOne =>
      s.(requests := s.requests[1..],
         log := s.log + [Delivery(s.requests[0], CONTEXT_DONE, FromShutdown)])
    case Return => s.(phase := Stopped(s.clock))
  }

  function Next(s: State, step: Step): State {
    if Enabled(s, step) then Effect(s, step).(clock := s.clock + 1) else s
  }

  /** The state after the given steps; a step that is not enabled does nothing. */
  function AfterFrom(s: State, steps: seq<Step>): State {
    if steps == [] then s
    else Next(AfterFrom(s, steps[..|steps| - 1]), steps[|steps| - 1])
  }

  function After(steps: seq<Step>): State {
    AfterFrom(INIT, steps)
  }

  // ----- where a request can be -----

  /** A place that can hold one request. */
  datatype Place =
    | Queued(i: nat)
    | Waiting(key: string, i: nat)
    | Undelivered(batch: nat, i: nat)
    | Answered(i: nat)

  /** Run still has to answer or dispatch the waiter at this position of the table. */
  predicate Pending(s: State, key: string, i: nat) {
    match s.phase
    case Live => true
    case Notifying(todo, next) => key in todo && (key == todo[0] ==> i >= next)
    case _ => false
  }

  predicate At(s: State, place: Place, r: Request) {
    match place
    case Queued(i) => i < |s.requests| && s.requests[i] == r
    case Waiting(k, i) =>
      k in s.waitingOnKey && i < |s.waitingOnKey[k]| && s.waitingOnKey[k][i] == r && Pending(s, k, i)
    case Undelivered(b, i) =>
      b < |s.batches| && s.batches[b].sent <= i < |s.batches[b].requests| && s.batches[b].requests[i] == r
    case Answered(i) => i < |s.log| && s.log[i].request == r
  }

  ghost predicate Somewhere(s: State, r: Request) {
    exists place :: At(s, place, r)
  }

  ghost predicate OnePlace(s: State) {
    && (forall p, q, r :: At(s, p, r) && At(s, q, r) ==> p == q)
    && (forall p, r :: At(s, p, r) ==> r.id < |s.issued| && s.issued[r.id] == r)
    && (forall i :: 0 <= i < |s.issued| ==> s.issued[i].id == i && Somewhere(s, s.issued[i]))
  }

  /** Where an enabled step takes the request found at `p`. */
  function Move(s: State, step: Step, p: Place): Place
    requires Enabled(s, step)
  {
    match step
    case Accept =>
      if p == Queued(0) then Waiting(s.requests[0].key, |Waiters(s, s.requests[0].key)|)
      else if p.Queued? && p.i > 0 then Queued(p.i - 1) else p
    case Dispatch =>
      if p.Waiting? && p.key == s.execs[0] then Undelivered(|s.batches|, p.i) else p
    case Reply(b) =>
      if p == Undelivered(b, s.batches[b].sent) then Answered(|s.log|) else p
    case Notify =>
      if p == Waiting(s.phase.todo[0], s.phase.next) then Answered(|s.log|) else p
    case DrainOne =>
      if p == Queued(0) then Answered(|s.log|)
      else if p.Queued? && p.i > 0 then Queued(p.i - 1) else p
    case _ => p
  }

  /** The place from which an enabled step filled `p`. */
  function Back(s: State, step: Step, p: Place): Place
    requires Enabled(s, step)
  {
    match step
    case Accept =>
      if p == Waiting(s.requests[0].key, |Waiters(s, s.requests[0].key)|) then Queued(0)
      else if p.Queued? then Queued(p.i + 1) else p
    case Dispatch =>
      if p.Undelivered? && p.batch == |s.batches| then Waiting(s.execs[0], p.i) else p
    case Reply(b) =>
      if p == Answered(|s.log|) then Undelivered(b, s.batches[b].sent) else p
    case Notify =>
      if p == Answered(|s.log|) then Waiting(s.phase.todo[0], s.phase.next) else p
    case DrainOne =>
      if p == Answered(|s.log|) then Queued(0)
      else if p.Queued? then Queued(p.i + 1) else p
    case _ => p
  }

  // ----- the inductive invariant -----

  function TokensFor(s: State, key: string): nat {
    s.timers[key] + multiset(s.execs)[key]
  }

  /** A key has a table entry exactly when one timer or exec token is outstanding for it. */
  ghost predicate OneTokenPerKey(s: State) {
    forall k: string :: TokensFor(s, k) == if k in s.waitingOnKey then 1 else 0
  }

  /** How many requests Run has taken off the channel. */
  function Taken(s: State): int {
    |s.issued| - |s.requests|
  }

  /** The channel holds the most recently issued requests, in order. */
  ghost predicate Fifo(s: State) {
    && Taken(s) >= 0
    && s.requests == s.issued[Taken(s)..]
    && (forall i :: 0 <= i < |s.issued| ==> s.issued[i].id == i && s.issued[i].sentAt < s.clock)
  }

  /** Waiters of one key all asked for that key, and only the joiners were told so. */
  predicate GoodWaiters(s: State, key: string, waiters: seq<Request>) {
    && waiters != []
    && forall i :: 0 <= i < |waiters| ==>
         && waiters[i].key == key
         && waiters[i].id < Taken(s)
         && waiters[i].sentAt < s.clock
         && (waiters[i].id in s.batched <==> i > 0 && waiters[i].tracker)
  }

  predicate GoodBatch(s: State, b: Batch) {
    && b.requests != []
    && GoodWaiters(s, b.requests[0].key, b.requests)
    && b.sent <= |b.requests|
    && (b.sent > 0 ==> b.phase.Replying?)
    && (!b.phase.Spawned? ==>
          forall i :: 0 <= i < |b.requests| ==> b.requests[i].sentAt < b.phase.startedAt)
  }

  ghost predicate GoodTables(s: State) {
    && (forall k :: k in s.waitingOnKey ==> GoodWaiters(s, k, s.waitingOnKey[k]))
    && (forall b :: 0 <= b < |s.batches| ==> GoodBatch(s, s.batches[b]))
    && (forall id :: id in s.batched ==> id < Taken(s))
  }

  /** A delivery either carries the result of the batch its request was in, or the
      cancellation of the context. */
  predicate GoodDelivery(s: State, d: Delivery) {
    match d.origin
    case FromBatch(b) =>
      && b < |s.batches| && s.batches[b].phase.Replying?
      && d.request in s.batches[b].requests && d.response == s.batches[b].phase.result
    case FromShutdown => !s.phase.Live? && d.response == CONTEXT_DONE
  }

  /** The batch's goroutine handed its result to the waiter at position i. */
  ghost predicate Handed(s: State, b: nat, i: nat)
    requires b < |s.batches| && i < |s.batches[b].requests|
  {
    && s.batches[b].phase.Replying?
    && Delivery(s.batches[b].requests[i], s.batches[b].phase.result, FromBatch(b)) in s.log
  }

  ghost predicate SentMeansHanded(s: State) {
    forall b, i :: 0 <= b < |s.batches| && 0 <= i < s.batches[b].sent <= |s.batches[b].requests| ==>
      Handed(s, b, i)
  }

  predicate GoodPhase(s: State) {
    match s.phase
    case Live => true
    case Notifying(todo, next) =>
      && NoDuplicates(todo)
      && (forall k :: k in todo ==> k in s.waitingOnKey)
      && (todo != [] ==> next <= |s.waitingOnKey[todo[0]]|)
    case Draining => true
    case Stopped(at) =>
      && at < s.clock
      && forall i :: 0 <= i < |s.requests| ==> s.requests[i].sentAt >= at
  }

  ghost predicate Inv(s: State) {
    && Fifo(s)
    && OnePlace(s)
    && OneTokenPerKey(s)
    && GoodTables(s)
    && (forall i :: 0 <= i < |s.log| ==> GoodDelivery(s, s.log[i]))
    && SentMeansHanded(s)
    && GoodPhase(s)
  }

  // ----- the invariant is kept -----

  lemma AcceptMoves(s: State, p: Place, r: Request)
    requires Enabled(s, Accept)
    ensures At(s, p, r) ==> At(Next(s, Accept), Move(s, Accept, p), r)
  {}

  lemma AcceptMovesBack(s: State, p: Place, r: Request)
    requires GoodPhase(s) && Enabled(s, Accept) && At(Next(s, Accept), p, r)
    ensures At(s, Back(s, Accept, p), r) && Move(s, Accept, Back(s, Accept, p)) == p
  {}

  lemma DispatchMoves(s: State, p: Place, r: Request)
    requires Enabled(s, Dispatch)
    ensures At(s, p, r) ==> At(Next(s, Dispatch), Move(s, Dispatch, p), r)
  {}

  lemma DispatchMovesBack(s: State, p: Place, r: Request)
    requires GoodPhase(s) && Enabled(s, Dispatch) && At(Next(s, Dispatch), p, r) && s.execs[0] in s.waitingOnKey
    ensures At(s, Back(s, Dispatch, p), r) && Move(s, Dispatch, Back(s, Dispatch, p)) == p
  {}

  lemma DrainOneMoves(s: State, p: Place, r: Request)
    requires Enabled(s, DrainOne)
    ensures At(s, p, r) ==> At(Next(s, DrainOne), Move(s, DrainOne, p), r)
  {}

  lemma DrainOneMovesBack(s: State, p: Place, r: Request)
    requires GoodPhase(s) && Enabled(s, DrainOne) && At(Next(s, DrainOne), p, r)
    ensures At(s, Back(s, DrainOne, p), r) && Move(s, DrainOne, Back(s, DrainOne, p)) == p
  {}

  lemma NotifyMoves(s: State, p: Place, r: Request)
    requires Enabled(s, Notify)
    ensures At(s, p, r) ==> At(Next(s, Notify), Move(s, Notify, p), r)
  {}

  lemma NotifyMovesBack(s: State, p: Place, r: Request)
    requires GoodPhase(s) && Enabled(s, Notify) && At(Next(s, Notify), p, r)
    ensures At(s, Back(s, Notify, p), r) && Move(s, Notify, Back(s, Notify, p)) == p
  {}

  lemma ReplyMoves(s: State, b: nat, p: Place, r: Request)
    requires Enabled(s, Reply(b))
    ensures At(s, p, r) ==> At(Next(s, Reply(b)), Move(s, Reply(b), p), r)
  {}

  lemma ReplyMovesBack(s: State, b: nat, p: Place, r: Request)
    requires Enabled(s, Reply(b)) && At(Next(s, Reply(b)), p, r)
    ensures At(s, Back(s, Reply(b), p), r) && Move(s, Reply(b), Back(s, Reply(b), p)) == p
  {}

  lemma MoveIsSound(s: State, step: Step, p: Place, r: Request)
    requires Enabled(s, step) && At(s, p, r)
    ensures At(Next(s, step), Move(s, step, p), r)
  {
    match step
    case Accept => AcceptMoves(s, p, r);
    case Dispatch => DispatchMoves(s, p, r);
    case DrainOne => DrainOneMoves(s, p, r);
    case Notify => NotifyMoves(s, p, r);
    case Reply(b) => ReplyMoves(s, b, p, r);
    case Send(_, _) =>
    case TimerFires(_) =>
    case Execute(_) =>
    case ExecuteReturns(_, _) =>
    case Cancel(_) =>
    case NextWaiters =>
    case Return =>
  }

  predicate OnlyPhaseMoves(step: Step) {
    step.Cancel? || step.NextWaiters? || step.Return?
  }

  /** Steps of the shutdown loops that send nothing: no place changes hands. */
  lemma PhaseMovesBack(s: State, step: Step, p: Place, r: Request)
    requires GoodPhase(s) && Enabled(s, step) && OnlyPhaseMoves(step) && At(Next(s, step), p, r)
    ensures At(s, p, r)
  {}

  lemma ArrivalMovesBack(s: State, step: Step, p: Place, r: Request)
    requires Enabled(s, step) && (step.Send? || step.TimerFires?) && At(Next(s, step), p, r)
    ensures !(step.Send? && p == Queued(|s.requests|)) ==> At(s, p, r)
  {}

  lemma ExecutionMovesBack(s: State, step: Step, p: Place, r: Request)
    requires Enabled(s, step) && (step.Execute? || step.ExecuteReturns?) && At(Next(s, step), p, r)
    ensures At(s, p, r)
  {}

  lemma BackIsSound(s: State, step: Step, p: Place, r: Request)
    requires GoodPhase(s) && Enabled(s, step) && At(Next(s, step), p, r)
    requires step.Dispatch? ==> s.execs[0] in s.waitingOnKey
    ensures !(step.Send? && p == Queued(|s.requests|)) ==>
              At(s, Back(s, step, p), r) && Move(s, step, Back(s, step, p)) == p
  {
    match step
    case Accept => AcceptMovesBack(s, p, r);
    case Dispatch => DispatchMovesBack(s, p, r);
    case DrainOne => DrainOneMovesBack(s, p, r);
    case Notify => NotifyMovesBack(s, p, r);
    case Reply(b) => ReplyMovesBack(s, b, p, r);
    case Execute(_) => ExecutionMovesBack(s, step, p, r);
    case ExecuteReturns(_, _) => ExecutionMovesBack(s, step, p, r);
    case Send(_, _) => ArrivalMovesBack(s, step, p, r);
    case TimerFires(_) => ArrivalMovesBack(s, step, p, r);
    case _ => PhaseMovesBack(s, step, p, r);
  }

  /** The lookup on dispatch never yields nil: the key has a non-empty waiter list. */
  lemma DispatchFindsWaiters(s: State)
    requires Inv(s) && Enabled(s, Dispatch)
    ensures s.execs[0] in s.waitingOnKey && s.waitingOnKey[s.execs[0]] != []
    ensures TokensFor(s, s.execs[0]) == 1
  {
    var k := s.execs[0];
    assert k in s.execs && k in multiset(s.execs);
    assert TokensFor(s, k) >= 1;
    assert GoodWaiters(s, k, s.waitingOnKey[k]);
  }

  lemma OnePlaceKept(s: State, step: Step)
    requires Inv(s) && Enabled(s, step)
    ensures OnePlace(Next(s, step))
  {
    var t := Next(s, step);
    forall p, r | At(t, p, r)
      ensures r.id < |t.issued| && t.issued[r.id] == r
    {
      BackIsSound(s, step, p, r);
    }
    forall p, q, r | At(t, p, r) && At(t, q, r)
      ensures p == q
    {
      BackIsSound(s, step, p, r);
      BackIsSound(s, step, q, r);
    }
    forall i | 0 <= i < |t.issued|
      ensures t.issued[i].id == i && Somewhere(t, t.issued[i])
    {
      if i < |s.issued| {
        assert Somewhere(s, s.issued[i]);
        var p :| At(s, p, s.issued[i]);
        MoveIsSound(s, step, p, s.issued[i]);
      } else {
        assert At(t, Queued(|s.requests|), t.issued[i]);
      }
    }
  }

  lemma FifoKept(s: State, step: Step)
    requires Fifo(s) && Enabled(s, step)
    ensures Fifo(Next(s, step))
  {}

  lemma TokensKeptFor(s: State, step: Step, k: string)
    requires Enabled(s, step) && TokensFor(s, k) == if k in s.waitingOnKey then 1 else 0
    requires step.Dispatch? ==> s.execs[0] in s.waitingOnKey
    ensures var t := Next(s, step); TokensFor(t, k) == if k in t.waitingOnKey then 1 else 0
  {
    if step.Dispatch? {
      assert s.execs == [s.execs[0]] + s.execs[1..];
    }
  }

  lemma TokensKept(s: State, step: Step)
    requires Inv(s) && Enabled(s, step)
    ensures OneTokenPerKey(Next(s, step))
  {
    if step.Dispatch? {
      DispatchFindsWaiters(s);
    }
    forall k: string
      ensures TokensFor(Next(s, step), k) == if k in Next(s, step).waitingOnKey then 1 else 0
    {
      TokensKeptFor(s, step, k);
    }
  }

  /** What stays true of old waiters: only requests just taken can be told they joined. */
  lemma GoodWaitersStay(s: State, t: State, key: string, waiters: seq<Request>)
    requires GoodWaiters(s, key, waiters)
    requires s.clock <= t.clock && Taken(s) <= Taken(t)
    requires forall id :: id < Taken(s) ==> (id in s.batched <==> id in t.batched)
    ensures GoodWaiters(t, key, waiters)
  {}

  lemma StepGrows(s: State, step: Step)
    requires Fifo(s) && Enabled(s, step)
    ensures var t := Next(s, step);
      s.clock <= t.clock && Taken(s) <= Taken(t)
      && forall id :: id < Taken(s) ==> (id in s.batched <==> id in t.batched)
  {}

  lemma WaitersKept(s: State, step: Step, k: string)
    requires Inv(s) && Enabled(s, step) && k in Next(s, step).waitingOnKey
    ensures GoodWaiters(Next(s, step), k, Next(s, step).waitingOnKey[k])
  {
    StepGrows(s, step);
    if k in s.waitingOnKey {
      GoodWaitersStay(s, Next(s, step), k, s.waitingOnKey[k]);
    }
  }

  lemma BatchKept(s: State, step: Step, b: nat)
    requires Inv(s) && Enabled(s, step) && b < |Next(s, step).batches|
    ensures GoodBatch(Next(s, step), Next(s, step).batches[b])
  {
    StepGrows(s, step);
    if b < |s.batches| {
      assert GoodBatch(s, s.batches[b]);
      GoodWaitersStay(s, Next(s, step), s.batches[b].requests[0].key, s.batches[b].requests);
    } else {
      DispatchFindsWaiters(s);
      GoodWaitersStay(s, Next(s, step), s.execs[0], s.waitingOnKey[s.execs[0]]);
    }
  }

  lemma TablesKept(s: State, step: Step)
    requires Inv(s) && Enabled(s, step)
    ensures GoodTables(Next(s, step))
  {
    var t := Next(s, step);
    forall k | k in t.waitingOnKey
      ensures GoodWaiters(t, k, t.waitingOnKey[k])
    {
      WaitersKept(s, step, k);
    }
    forall b | 0 <= b < |t.batches|
      ensures GoodBatch(t, t.batches[b])
    {
      BatchKept(s, step, b);
    }
  }

  lemma LogKept(s: State, step: Step, i: nat)
    requires Inv(s) && Enabled(s, step) && i < |Next(s, step).log|
    ensures GoodDelivery(Next(s, step), Next(s, step).log[i])
  {
    if i < |s.log| {
      assert GoodDelivery(s, s.log[i]);
    }
  }

  lemma HandedKept(s: State, step: Step)
    requires Inv(s) && Enabled(s, step)
    ensures SentMeansHanded(Next(s, step))
  {
    var t := Next(s, step);
    forall b, i | 0 <= b < |t.batches| && 0 <= i < t.batches[b].sent <= |t.batches[b].requests|
      ensures Handed(t, b, i)
    {
      assert b < |s.batches| && GoodBatch(s, s.batches[b]);
      if i < s.batches[b].sent {
        assert Handed(s, b, i);
      } else {
        assert t.log[|s.log|] == Delivery(t.batches[b].requests[i], t.batches[b].phase.result, FromBatch(b));
      }
    }
  }

  lemma PhaseKept(s: State, step: Step)
    requires Inv(s) && Enabled(s, step)
    ensures GoodPhase(Next(s, step))
  {}

  lemma InvKept(s: State, step: Step)
    requires Inv(s)
    ensures Inv(Next(s, step))
  {
    if Enabled(s, step) {
      FifoKept(s, step);
      OnePlaceKept(s, step);
      TokensKept(s, step);
      TablesKept(s, step);
      forall i | 0 <= i < |Next(s, step).log|
        ensures GoodDelivery(Next(s, step), Next(s, step).log[i])
      {
        LogKept(s, step, i);
      }
      HandedKept(s, step);
      PhaseKept(s, step);
    }
  }

  lemma {:induction false} InvAlways(steps: seq<Step>)
    ensures Inv(After(steps))
  {
    if steps != [] {
      InvAlways(steps[..|steps| - 1]);
      InvKept(After(steps[..|steps| - 1]), steps[|steps| - 1]);
    }
  }

  // ----- theorems about every reachable state -----

  /** Every issued request is in exactly one place: queued, waiting on its key, undelivered
      in one dispatched batch, or answered. Nothing else is in any of these places. */
  lemma EachRequestInOnePlace(steps: seq<Step>, r: Request)
    ensures r in After(steps).issued <==> Somewhere(After(steps), r)
    ensures forall p, q :: At(After(steps), p, r) && At(After(steps), q, r) ==> p == q
  {
    InvAlways(steps);
    var s := After(steps);
    if r in s.issued {
      var i :| 0 <= i < |s.issued| && s.issued[i] == r;
      assert Somewhere(s, s.issued[i]);
    }
  }

  /** No request is answered twice. */
  lemma NoSecondAnswer(steps: seq<Step>, i: nat, j: nat)
    requires i < |After(steps).log| && j < |After(steps).log|
    requires After(steps).log[i].request.id == After(steps).log[j].request.id
    ensures i == j
  {
    InvAlways(steps);
    var s := After(steps);
    assert At(s, Answered(i), s.log[i].request);
    assert At(s, Answered(j), s.log[j].request);
  }

  /** A key is in the table exactly when one timer or exec token is outstanding for it, and
      then its waiter list is non-empty. */
  lemma TokenIffWaiting(steps: seq<Step>, key: string)
    ensures key in After(steps).waitingOnKey <==> TokensFor(After(steps), key) == 1
    ensures key !in After(steps).waitingOnKey <==> TokensFor(After(steps), key) == 0
    ensures key in After(steps).waitingOnKey ==> After(steps).waitingOnKey[key] != []
  {
    InvAlways(steps);
    assert TokensFor(After(steps), key) == if key in After(steps).waitingOnKey then 1 else 0;
    assert key in After(steps).waitingOnKey ==> GoodWaiters(After(steps), key, After(steps).waitingOnKey[key]);
  }

  /** Dispatch never starts a batch without waiters. */
  lemma DispatchNeverNil(steps: seq<Step>)
    requires Enabled(After(steps), Dispatch)
    ensures Waiters(After(steps), After(steps).execs[0]) != []
  {
    InvAlways(steps);
    DispatchFindsWaiters(After(steps));
  }

  /** A value that reaches a caller was computed for the caller's own key by an Execute that
      started after the caller's request was enqueued. */
  lemma ResultsAreFresh(steps: seq<Step>, i: nat)
    requires i < |After(steps).log| && After(steps).log[i].origin.FromBatch?
    ensures var s := After(steps); var d := s.log[i];
      && d.origin.batch < |s.batches|
      && var b := s.batches[d.origin.batch];
      && b.phase.Replying? && b.requests != [] && d.response == b.phase.result
      && b.requests[0].key == d.request.key
      && b.phase.startedAt > d.request.sentAt
  {
    InvAlways(steps);
    var s := After(steps);
    assert GoodDelivery(s, s.log[i]);
    assert GoodBatch(s, s.batches[s.log[i].origin.batch]);
  }

  /** Same waiters; a started execution keeps its start, and a result stays. */
  predicate Continues(b: Batch, c: Batch) {
    && c.requests == b.requests
    && (!b.phase.Spawned? ==> !c.phase.Spawned? && c.phase.startedAt == b.phase.startedAt)
    && (b.phase.Replying? ==> c.phase == b.phase)
  }

  lemma BatchContinues(s: State, step: Step, b: nat)
    requires b < |s.batches|
    ensures b < |Next(s, step).batches| && Continues(s.batches[b], Next(s, step).batches[b])
  {}

  /** The waiters of a dispatched batch never change, and neither does a result. */
  lemma {:induction false} BatchesAreFrozen(s: State, more: seq<Step>, b: nat)
    requires b < |s.batches|
    ensures b < |AfterFrom(s, more).batches| && Continues(s.batches[b], AfterFrom(s, more).batches[b])
  {
    if more != [] {
      BatchesAreFrozen(s, more[..|more| - 1], b);
      BatchContinues(AfterFrom(s, more[..|more| - 1]), more[|more| - 1], b);
    }
  }

  lemma {:induction false} AfterContinues(s: State, steps: seq<Step>, more: seq<Step>)
    ensures AfterFrom(s, steps + more) == AfterFrom(AfterFrom(s, steps), more)
  {
    if more == [] {
      assert steps + more == steps;
    } else {
      var init := more[..|more| - 1];
      AfterContinues(s, steps, init);
      assert (steps + more)[..|steps + more| - 1] == steps + init;
    }
  }

  /** A request still queued when batch `b` is already dispatched is never part of `b`, nor
      answered by it: it goes to a later batch. */
  lemma LateRequestsGoToLaterBatches(steps: seq<Step>, more: seq<Step>, b: nat, r: Request)
    requires b < |After(steps).batches|
    requires r in After(steps + more).issued && r.id >= Taken(After(steps))
    ensures b < |After(steps + more).batches| && r !in After(steps + more).batches[b].requests
    ensures forall d :: d in After(steps + more).log && d.request == r ==> d.origin != FromBatch(b)
  {
    InvAlways(steps);
    InvAlways(steps + more);
    AfterContinues(INIT, steps, more);
    BatchesAreFrozen(After(steps), more, b);
    assert GoodBatch(After(steps), After(steps).batches[b]);
    var t := After(steps + more);
    forall d | d in t.log && d.request == r
      ensures d.origin != FromBatch(b)
    {
      var i :| 0 <= i < |t.log| && t.log[i] == d;
      assert GoodDelivery(t, t.log[i]);
    }
  }

  /** A request belongs to at most one dispatched batch, at one position. */
  lemma OneBatchPerRequest(steps: seq<Step>, b: nat, i: nat, c: nat, j: nat)
    requires b < |After(steps).batches| && i < |After(steps).batches[b].requests|
    requires c < |After(steps).batches| && j < |After(steps).batches[c].requests|
    requires After(steps).batches[b].requests[i] == After(steps).batches[c].requests[j]
    ensures b == c
  {
    InvAlways(steps);
    var s := After(steps);
    var p := BatchPlace(steps, b, i);
    var q := BatchPlace(steps, c, j);
    assert p == q;
  }

  /** Where the i-th waiter of batch `b` is: handed out waiters are in the log. */
  lemma BatchPlace(steps: seq<Step>, b: nat, i: nat) returns (p: Place)
    requires b < |After(steps).batches| && i < |After(steps).batches[b].requests|
    ensures At(After(steps), p, After(steps).batches[b].requests[i])
    ensures if i >= After(steps).batches[b].sent then p == Undelivered(b, i)
            else p.Answered? && After(steps).log[p.i].origin == FromBatch(b)
  {
    InvAlways(steps);
    var s := After(steps);
    assert GoodBatch(s, s.batches[b]);
    if i >= s.batches[b].sent {
      p := Undelivered(b, i);
    } else {
      assert Handed(s, b, i);
      var k :| 0 <= k < |s.log| && s.log[k] == Delivery(s.batches[b].requests[i], s.batches[b].phase.result, FromBatch(b));
      p := Answered(k);
    }
  }

  /** Batched is called on the joiners of a batch that can track it, and on no other request. */
  lemma JoinersAreTold(steps: seq<Step>, b: nat, i: nat)
    requires b < |After(steps).batches| && i < |After(steps).batches[b].requests|
    ensures var r := After(steps).batches[b].requests[i];
      r.id in After(steps).batched <==> i > 0 && r.tracker
  {
    InvAlways(steps);
    assert GoodBatch(After(steps), After(steps).batches[b]);
  }

  /** Once Run has returned, every request it took off the channel was answered or belongs
      to a dispatched batch, and whatever is left in the channel was sent after that. */
  lemma ShutdownLosesNothing(steps: seq<Step>, r: Request)
    requires After(steps).phase.Stopped? && r in After(steps).issued
    ensures r.id < Taken(After(steps)) ==>
      || (exists i :: 0 <= i < |After(steps).log| && After(steps).log[i].request == r)
      || (exists b :: 0 <= b < |After(steps).batches| && r in After(steps).batches[b].requests)
    ensures r.id >= Taken(After(steps)) ==> r.sentAt >= After(steps).phase.stoppedAt
  {
    InvAlways(steps);
    var s := After(steps);
    EachRequestInOnePlace(steps, r);
    var p :| At(s, p, r);
    assert p.Queued? ==> s.issued[Taken(s)..][p.i].id == Taken(s) + p.i;
    assert r.id >= Taken(s) ==> s.requests[r.id - Taken(s)] == r;
  }

  /** Who is not answered by a batch is told of a cancellation, and only after the context is
      done: the answer is an error and carries no value. */
  lemma OthersGetAnError(steps: seq<Step>, i: nat)
    requires i < |After(steps).log| && After(steps).log[i].origin.FromShutdown?
    ensures !After(steps).phase.Live? && After(steps).log[i].response == Response(0, "context canceled")
  {
    InvAlways(steps);
    assert GoodDelivery(After(steps), After(steps).log[i]);
  }

  /** Neither channel ever holds more than its buffer. */
  lemma {:induction false} BuffersAreBounded(steps: seq<Step>)
    ensures |After(steps).requests| <= 131072 && |After(steps).execs| <= 131072
  {
    if steps != [] {
      BuffersAreBounded(steps[..|steps| - 1]);
    }
  }
}
