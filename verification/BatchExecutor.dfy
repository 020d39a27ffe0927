/**
The executor object: the arms of Run's select statement and BatchFor's send as methods on
its fields, each proved to be a step of the protocol in module Batch.
*/
module BatchExecutor {
  import opened Batch

  /** The log after each of `reqs` was told, in order, that the context is done. */
  function Told(log: seq<Delivery>, reqs: seq<Request>): seq<Delivery> {
    if reqs == [] then log
    else Told(log, reqs[..|reqs| - 1]) + [Delivery(reqs[|reqs| - 1], CONTEXT_DONE, FromShutdown)]
  }

  /** The log after the waiters of each of `keys` were told, key after key. */
  function ToldKeys(log: seq<Delivery>, table: map<string, seq<Request>>, keys: seq<string>): seq<Delivery>
    requires forall k :: k in keys ==> k in table
  {
    if keys == [] then log
    else Told(ToldKeys(log, table, keys[..|keys| - 1]), table[keys[|keys| - 1]])
  }

  lemma ToldOneMore(log: seq<Delivery>, reqs: seq<Request>, i: nat)
    requires i < |reqs|
    ensures Told(log, reqs[..i + 1]) == Told(log, reqs[..i]) + [Delivery(reqs[i], CONTEXT_DONE, FromShutdown)]
  {
    assert reqs[..i + 1][..i] == reqs[..i];
  }

  /** Telling a list appends one cancellation per request, in the list's order. */
  lemma {:induction false} ToldAppends(log: seq<Delivery>, reqs: seq<Request>)
    ensures Told(log, reqs)
         == log + seq(|reqs|, i requires 0 <= i < |reqs| => Delivery(reqs[i], CONTEXT_DONE, FromShutdown))
  {
    if reqs != [] {
      ToldAppends(log, reqs[..|reqs| - 1]);
    }
  }

  /** Every waiter of every listed key is told. */
  lemma {:induction false} ToldKeysTellsAll(log: seq<Delivery>, table: map<string, seq<Request>>, keys: seq<string>,
                                            key: string, r: Request)
    requires forall k :: k in keys ==> k in table
    requires key in keys && r in table[key]
    ensures Delivery(r, CONTEXT_DONE, FromShutdown) in ToldKeys(log, table, keys)
  {
    var init := keys[..|keys| - 1];
    var rest := table[keys[|keys| - 1]];
    ToldAppends(ToldKeys(log, table, init), rest);
    if key in init {
      ToldKeysTellsAll(log, table, init, key, r);
    } else {
      var i :| 0 <= i < |rest| && rest[i] == r;
      assert ToldKeys(log, table, keys)[|ToldKeys(log, table, init)| + i] == Delivery(r, CONTEXT_DONE, FromShutdown);
    }
  }

  /** Some run leads from `s` to `t`. */
  ghost predicate Leads(s: State, t: State) {
    exists steps :: AfterFrom(s, steps) == t
  }

  lemma LeadsNowhere(s: State)
    ensures Leads(s, s)
  {
    assert AfterFrom(s, []) == s;
  }

  lemma LeadsOn(s: State, t: State, x: Step)
    requires Leads(s, t)
    ensures Leads(s, Next(t, x))
  {
    var steps :| AfterFrom(s, steps) == t;
    assert (steps + [x])[..|steps|] == steps;
    assert AfterFrom(s, steps + [x]) == Next(t, x);
  }

  /** One send to the next pending waiter. */
  lemma LeadsByNotify(s: State, t: State, u: State)
    requires Leads(s, t) && Enabled(t, Notify)
    requires u == t.(phase := Notifying(t.phase.todo, t.phase.next + 1), clock := t.clock + 1,
                     log := t.log + [Delivery(t.waitingOnKey[t.phase.todo[0]][t.phase.next], CONTEXT_DONE, FromShutdown)])
    ensures Leads(s, u)
  {
    LeadsOn(s, t, Notify);
  }

  /** The map iteration moves on, or ends. */
  lemma LeadsByNextWaiters(s: State, t: State, u: State)
    requires Leads(s, t) && Enabled(t, NextWaiters)
    requires u == t.(phase := if t.phase.todo == [] then Draining else Notifying(t.phase.todo[1..], 0),
                     clock := t.clock + 1)
    ensures Leads(s, u)
  {
    LeadsOn(s, t, NextWaiters);
  }

  /** One send to the head of the channel. */
  lemma LeadsByDrain(s: State, t: State, u: State)
    requires Leads(s, t) && t.phase == Draining && t.requests != []
    requires u == t.(requests := t.requests[1..], clock := t.clock + 1,
                     log := t.log + [Delivery(t.requests[0], CONTEXT_DONE, FromShutdown)])
    ensures Leads(s, u)
  {
    LeadsOn(s, t, DrainOne);
  }

  /** The first `taken` of the queued requests were told, by steps of the protocol. */
  ghost predicate Drained(start: State, s: State, taken: nat) {
    && taken <= |start.requests| && s.requests == start.requests[taken..] && s.phase == Draining
    && Leads(start, s) && s.log == Told(start.log, start.requests[..taken])
  }

  lemma DrainedOneMore(start: State, s: State, u: State, taken: nat)
    requires Drained(start, s, taken) && s.requests != []
    requires u == s.(requests := s.requests[1..], clock := s.clock + 1,
                     log := s.log + [Delivery(s.requests[0], CONTEXT_DONE, FromShutdown)])
    ensures Drained(start, u, taken + 1)
  {
    ToldOneMore(start.log, start.requests, taken);
    LeadsByDrain(start, s, u);
  }

  lemma DrainedAll(start: State, s: State, taken: nat)
    requires Drained(start, s, taken) && s.requests == []
    ensures Leads(start, s.(phase := Stopped(s.clock), clock := s.clock + 1))
    ensures s.log == Told(start.log, start.requests)
  {
    assert start.requests[..taken] == start.requests;
    LeadsOn(start, s, Return);
  }

  lemma LeadsFurther(s: State, t: State, u: State)
    requires Leads(s, t) && Leads(t, u)
    ensures Leads(s, u)
  {
    var steps :| AfterFrom(s, steps) == t;
    var more :| AfterFrom(t, more) == u;
    AfterContinues(s, steps, more);
  }

  lemma LeadsKeepsInv(s: State, t: State)
    requires Leads(s, t) && Inv(s)
    ensures Inv(t)
  {
    var steps :| AfterFrom(s, steps) == t;
    InvKeptByRuns(s, steps);
  }

  class Executor {
    var requests: seq<Request>
    var execs: seq<string>
    var waitingOnKey: map<string, seq<Request>>
    // what the other goroutines and the callers have done so far
    var clock: nat
    var issued: seq<Request>
    ghost var timers: multiset<string>
    ghost var batches: seq<Batch>
    ghost var log: seq<Delivery>
    ghost var batched: set<nat>
    var phase: RunPhase

    ghost function View(): State
      reads this
    {
      State(clock, issued, requests, waitingOnKey, timers, execs, batches, log, batched, phase)
    }

    constructor ()
      ensures View() == INIT
    {
      requests, execs, waitingOnKey := [], [], map[];
      clock, issued, timers, batches, log, batched, phase := 0, [], multiset{}, [], [], {}, Live;
    }

    /** BatchFor: the send on the requests channel, which blocks while the channel is full. */
    method SendRequest(key: string, tracker: bool) returns (req: Request)
      requires Inv(View()) && Enabled(View(), Send(key, tracker))
      modifies this
      ensures View() == Next(old(View()), Send(key, tracker)) && Inv(View())
      ensures req in issued && req !in old(issued) && At(View(), Queued(|old(requests)|), req)
    {
      InvKept(View(), Send(key, tracker));
      req := Request(|issued|, key, tracker, clock);
      requests := requests + [req];
      issued := issued + [req];
      clock := clock + 1;
      assert issued[|issued| - 1] == req;
    }

    /** Run: case waitFor := <-e.requests. */
    method HandleRequest()
      requires Inv(View()) && Enabled(View(), Accept)
      modifies this
      ensures View() == Next(old(View()), Accept) && Inv(View())
    {
      InvKept(View(), Accept);
      TakeRequest();
    }

    /** The arm itself: a new key gets a table entry and a timer, a known one a joiner. */
    method TakeRequest()
      requires Enabled(View(), Accept)
      modifies this
      ensures View() == Next(old(View()), Accept)
    {
      var req := requests[0];
      requests := requests[1..];
      if req.key !in waitingOnKey {
        waitingOnKey := waitingOnKey[req.key := [req]];
        timers := timers + multiset{req.key};
      } else {
        if req.tracker {
          batched := batched + {req.id};
        }
        waitingOnKey := waitingOnKey[req.key := waitingOnKey[req.key] + [req]];
      }
      clock := clock + 1;
    }

    /** Run: case execKey := <-e.execs. */
    method HandleExec() returns (waiters: seq<Request>)
      requires Inv(View()) && Enabled(View(), Dispatch)
      modifies this
      ensures View() == Next(old(View()), Dispatch) && Inv(View())
      ensures waiters != [] && batches == old(batches) + [Batch(waiters, Spawned, 0)]
    {
      InvKept(View(), Dispatch);
      DispatchFindsWaiters(View());
      var execKey := execs[0];
      execs := execs[1..];
      waiters := waitingOnKey[execKey];
      waitingOnKey := waitingOnKey - {execKey};
      batches := batches + [Batch(waiters, Spawned, 0)];
      clock := clock + 1;
    }

    /** One send of the shutdown loops: the caller of `req` learns that the context is done. */
    method Tell(req: Request)
      modifies this`log, this`clock
      ensures log == old(log) + [Delivery(req, CONTEXT_DONE, FromShutdown)]
      ensures clock == old(clock) + 1
    {
      log := log + [Delivery(req, CONTEXT_DONE, FromShutdown)];
      clock := clock + 1;
    }

    /** Run, on shutdown: the loop over the waiters of one key. */
    method NotifyWaiters()
      requires phase.Notifying? && phase.todo != [] && phase.todo[0] in waitingOnKey && phase.next == 0
      modifies this`log, this`phase, this`clock
      ensures Leads(old(View()), View())
      ensures phase == Notifying(old(phase).todo[1..], 0)
      ensures log == Told(old(log), waitingOnKey[old(phase).todo[0]])
    {
      ghost var start := View();
      LeadsNowhere(start);
      var todo := phase.todo;
      var waiters := waitingOnKey[todo[0]];
      var i := 0;
      while i < |waiters|
        invariant 0 <= i <= |waiters|
        invariant phase == Notifying(todo, i)
        invariant Leads(start, View())
        invariant log == Told(old(log), waiters[..i])
      {
        ghost var before := View();
        ToldOneMore(old(log), waiters, i);
        Tell(waiters[i]);
        phase := Notifying(todo, i + 1);
        i := i + 1;
        LeadsByNotify(start, before, View());
      }
      assert waiters[..|waiters|] == waiters;
      ghost var before := View();
      phase := Notifying(todo[1..], 0);
      clock := clock + 1;
      LeadsByNextWaiters(start, before, View());
    }

    /** Run, on shutdown: the loop over the waiter table, in a map iteration order. */
    method NotifyAll(order: seq<string>)
      requires phase == Notifying(order, 0) && forall k :: k in order ==> k in waitingOnKey
      modifies this`log, this`phase, this`clock
      ensures Leads(old(View()), View()) && phase == Draining
      ensures log == ToldKeys(old(log), waitingOnKey, order)
    {
      ghost var start := View();
      LeadsNowhere(start);
      var k := 0;
      while k < |order|
        invariant 0 <= k <= |order|
        invariant phase == Notifying(order[k..], 0)
        invariant Leads(start, View())
        invariant log == ToldKeys(old(log), waitingOnKey, order[..k])
      {
        ghost var before := View();
        assert order[k..][0] == order[k] && order[k..][1..] == order[k + 1..];
        assert order[..k + 1][..k] == order[..k];
        NotifyWaiters();
        LeadsFurther(start, before, View());
        k := k + 1;
      }
      assert order[..k] == order;
      ghost var before := View();
      phase := Draining;
      clock := clock + 1;
      LeadsByNextWaiters(start, before, View());
    }

    /** Run, on shutdown: the loop that drains the requests channel, then the return. */
    method DrainRequests()
      requires phase == Draining
      modifies this`log, this`phase, this`clock, this`requests
      ensures Leads(old(View()), View()) && phase.Stopped? && requests == []
      ensures log == Told(old(log), old(requests))
    {
      ghost var start := View();
      LeadsNowhere(start);
      ghost var taken := 0;
      while requests != []
        invariant Drained(start, View(), taken)
        decreases |requests|
      {
        ghost var before := View();
        Tell(requests[0]);
        requests := requests[1..];
        DrainedOneMore(start, before, View(), taken);
        taken := taken + 1;
      }
      DrainedAll(start, View(), taken);
      phase := Stopped(clock);
      clock := clock + 1;
    }

    /** Run: case <-ctx.Done(), with the other goroutines quiet: all pending waiters, then
        all queued requests are told that the context is done, and Run returns. */
    method HandleDone(order: seq<string>)
      requires Inv(View()) && Enabled(View(), Cancel(order))
      modifies this
      ensures Leads(old(View()), View()) && Inv(View())
      ensures phase.Stopped? && requests == []
      ensures log == Told(ToldKeys(old(log), old(waitingOnKey), order), old(requests))
    {
      ghost var start := View();
      LeadsNowhere(start);
      LeadsOn(start, start, Cancel(order));
      phase := Notifying(order, 0);
      clock := clock + 1;
      ghost var before := View();
      NotifyAll(order);
      LeadsFurther(start, before, View());
      before := View();
      DrainRequests();
      LeadsFurther(start, before, View());
      LeadsKeepsInv(start, View());
    }
  }

  lemma {:induction false} InvKeptByRuns(s: State, steps: seq<Step>)
    requires Inv(s)
    ensures Inv(AfterFrom(s, steps))
  {
    if steps != [] {
      InvKeptByRuns(s, steps[..|steps| - 1]);
      InvKept(AfterFrom(s, steps[..|steps| - 1]), steps[|steps| - 1]);
    }
  }
}
