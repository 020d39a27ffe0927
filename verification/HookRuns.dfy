/** The hooks of one event: the tasks of an action run one after the other, the actions run
    concurrently, and the results are gathered in a manifest. */
module HookRuns {
  import opened Options
  import opened Kv
  import opened HookRunIds
  import opened Manifests

  datatype ActionHook = ActionHook(id: string, ifExpr: string, kind: string)
  datatype Action = Action(name: string, hooks: seq<ActionHook>)

  datatype TaskError = NoError | IfError | HookError

  datatype Task = Task(
    runID: string, hookRunID: string, actionName: string, hookID: string, ifExpr: string,
    err: TaskError, startTime: nat, endTime: nat)

  predicate Started(t: Task) {
    t.startTime > 0
  }

  /** Neither its hook nor the evaluation of its expression left a trace. */
  predicate Untouched(t: Task) {
    t.err == NoError && t.startTime == 0 && t.endTime == 0
  }

  /** The hook itself was called. */
  predicate HookCalled(t: Task) {
    Started(t) && t.err != IfError
  }

  // ----- allocation -----

  function NewTask(runID: string, action: Action, a: nat, h: nat): Task
    requires h < |action.hooks|
  {
    Task(runID, NewHookRunID(a, h), action.name, action.hooks[h].id, action.hooks[h].ifExpr, NoError, 0, 0)
  }

  function Row(runID: string, action: Action, a: nat): seq<Task> {
    seq(|action.hooks|, h requires 0 <= h < |action.hooks| => NewTask(runID, action, a, h))
  }

  /** One row for each of the first n actions that has hooks. */
  function Rows(runID: string, actions: seq<Action>, n: nat): seq<seq<Task>>
    requires n <= |actions|
  {
    if n == 0 then []
    else
      var before := Rows(runID, actions, n - 1);
      if actions[n - 1].hooks == [] then before else before + [Row(runID, actions[n - 1], n - 1)]
  }

  predicate Buildable(newHook: ActionHook -> bool, action: Action) {
    forall h :: 0 <= h < |action.hooks| ==> newHook(action.hooks[h])
  }

  /** allocateTasks: a task for every hook, or an error when a hook cannot be made. */
  method AllocateTasks(newHook: ActionHook -> bool, runID: string, actions: seq<Action>)
    returns (tasks: Option<seq<seq<Task>>>)
    ensures tasks.Some? <==> forall a :: 0 <= a < |actions| ==> Buildable(newHook, actions[a])
    ensures tasks.Some? ==> tasks.value == Rows(runID, actions, |actions|)
    ensures tasks.Some? ==> ForAllHooks(Flatten(tasks.value), runID, actions, |actions|)
  {
    var rows: seq<seq<Task>> := [];
    for a := 0 to |actions|
      invariant rows == Rows(runID, actions, a)
      invariant forall i :: 0 <= i < a ==> Buildable(newHook, actions[i])
    {
      var actionTasks := AllocateAction(newHook, runID, actions[a], a);
      if actionTasks.None? {
        return None;
      }
      if |actionTasks.value| > 0 {
        rows := rows + [actionTasks.value];
      }
    }
    AllocatedIsFlattened(runID, actions, |actions|);
    AllocatedForHooks(runID, actions, |actions|);
    tasks := Some(rows);
  }

  method AllocateAction(newHook: ActionHook -> bool, runID: string, action: Action, a: nat)
    returns (tasks: Option<seq<Task>>)
    ensures tasks.Some? <==> Buildable(newHook, action)
    ensures tasks.Some? ==> tasks.value == Row(runID, action, a)
  {
    var actionTasks: seq<Task> := [];
    for h := 0 to |action.hooks|
      invariant actionTasks == Row(runID, action, a)[..h]
      invariant forall i :: 0 <= i < h ==> newHook(action.hooks[i])
    {
      if !newHook(action.hooks[h]) {
        return None;
      }
      actionTasks := actionTasks + [NewTask(runID, action, a, h)];
    }
    tasks := Some(actionTasks);
  }

  function Flatten<T>(rows: seq<seq<T>>): seq<T> {
    if rows == [] then [] else Flatten(rows[..|rows| - 1]) + rows[|rows| - 1]
  }

  /** The tasks of the first n actions, in order. */
  function Allocated(runID: string, actions: seq<Action>, n: nat): seq<Task>
    requires n <= |actions|
  {
    if n == 0 then [] else Allocated(runID, actions, n - 1) + Row(runID, actions[n - 1], n - 1)
  }

  lemma FlattenSnoc<T>(rows: seq<seq<T>>, row: seq<T>)
    ensures Flatten(rows + [row]) == Flatten(rows) + row
  {
    assert (rows + [row])[..|rows|] == rows;
  }

  lemma {:induction false} AllocatedIsFlattened(runID: string, actions: seq<Action>, n: nat)
    requires n <= |actions|
    ensures Flatten(Rows(runID, actions, n)) == Allocated(runID, actions, n)
  {
    if n > 0 {
      AllocatedIsFlattened(runID, actions, n - 1);
      FlattenSnoc(Rows(runID, actions, n - 1), Row(runID, actions[n - 1], n - 1));
    }
  }

  ghost predicate AllocatedAt(runID: string, actions: seq<Action>, t: Task, a: nat, h: nat) {
    a < |actions| && h < |actions[a].hooks| && t == NewTask(runID, actions[a], a, h)
  }

  lemma {:induction false} AllocatedBelow(runID: string, actions: seq<Action>, n: nat, i: nat) returns (a: nat, h: nat)
    requires n <= |actions| && i < |Allocated(runID, actions, n)|
    ensures a < n && AllocatedAt(runID, actions, Allocated(runID, actions, n)[i], a, h)
  {
    var before := Allocated(runID, actions, n - 1);
    if i < |before| {
      a, h := AllocatedBelow(runID, actions, n - 1, i);
    } else {
      a, h := n - 1, i - |before|;
    }
  }

  /** A task that nothing has happened to yet, for one hook of one action: it carries the ID of
      the run, an ID made of both indices, the action's name, and the hook's ID and expression. */
  predicate ForHook(t: Task, runID: string, actions: seq<Action>, a: nat, h: nat) {
    && a < |actions| && h < |actions[a].hooks|
    && t.runID == runID && t.hookRunID == NewHookRunID(a, h)
    && t.actionName == actions[a].name && t.hookID == actions[a].hooks[h].id && t.ifExpr == actions[a].hooks[h].ifExpr
    && t.err == NoError && t.startTime == 0 && t.endTime == 0
  }

  ghost predicate ForSomeHook(t: Task, runID: string, actions: seq<Action>, n: nat) {
    exists a: nat, h: nat :: ForHook(t, runID, actions, a, h) && a < n
  }

  ghost predicate HasTask(tasks: seq<Task>, runID: string, actions: seq<Action>, a: nat, h: nat) {
    exists i :: 0 <= i < |tasks| && ForHook(tasks[i], runID, actions, a, h)
  }

  /** The tasks of the first n actions are those of their hooks, each of which has one. */
  ghost predicate ForAllHooks(tasks: seq<Task>, runID: string, actions: seq<Action>, n: nat)
    requires n <= |actions|
  {
    && (forall i :: 0 <= i < |tasks| ==> ForSomeHook(tasks[i], runID, actions, n))
    && forall a, h :: 0 <= a < n && 0 <= h < |actions[a].hooks| ==> HasTask(tasks, runID, actions, a, h)
  }

  lemma AllocatedForHooks(runID: string, actions: seq<Action>, n: nat)
    requires n <= |actions|
    ensures ForAllHooks(Allocated(runID, actions, n), runID, actions, n)
  {
    var tasks := Allocated(runID, actions, n);
    forall i | 0 <= i < |tasks|
      ensures ForSomeHook(tasks[i], runID, actions, n)
    {
      var a, h := AllocatedBelow(runID, actions, n, i);
      assert ForHook(tasks[i], runID, actions, a, h);
    }
    forall a, h | 0 <= a < n && 0 <= h < |actions[a].hooks|
      ensures HasTask(tasks, runID, actions, a, h)
    {
      var i := AllocatedFor(runID, actions, n, a, h);
      assert ForHook(tasks[i], runID, actions, a, h);
    }
  }

  lemma {:induction false} AllocatedFor(runID: string, actions: seq<Action>, n: nat, a: nat, h: nat) returns (i: nat)
    requires a < n <= |actions| && h < |actions[a].hooks|
    ensures i < |Allocated(runID, actions, n)| && Allocated(runID, actions, n)[i] == NewTask(runID, actions[a], a, h)
  {
    if a == n - 1 {
      i := |Allocated(runID, actions, n - 1)| + h;
    } else {
      i := AllocatedFor(runID, actions, n - 1, a, h);
    }
  }

  predicate IdOrder(t: Task, u: Task) {
    Less(t.hookRunID, u.hookRunID)
  }

  predicate TasksInOrder(ts: seq<Task>) {
    forall i, j :: 0 <= i < j < |ts| ==> IdOrder(ts[i], ts[j])
  }

  lemma TaskOrder(runID: string, actions: seq<Action>, t: Task, a: nat, h: nat, u: Task, a': nat, h': nat)
    requires AllocatedAt(runID, actions, t, a, h) && AllocatedAt(runID, actions, u, a', h')
    requires a < 10000 && h < 10000 && a' < 10000 && h' < 10000 && PairLess(a, h, a', h')
    ensures IdOrder(t, u)
  {
    HookRunIdOrder(a, h, a', h');
  }

  ghost predicate Small(actions: seq<Action>) {
    |actions| <= 10000 && forall a :: 0 <= a < |actions| ==> |actions[a].hooks| <= 10000
  }

  /** While the indices stay below 10000 the IDs come in byte order. */
  lemma {:induction false} AllocatedInOrder(runID: string, actions: seq<Action>, n: nat)
    requires n <= |actions| && Small(actions)
    ensures TasksInOrder(Allocated(runID, actions, n))
  {
    if n > 0 {
      AllocatedInOrder(runID, actions, n - 1);
      var ts, before := Allocated(runID, actions, n), Allocated(runID, actions, n - 1);
      assert TasksInOrder(before);
      forall i, j | 0 <= i < j < |ts|
        ensures IdOrder(ts[i], ts[j])
      {
        if j < |before| {
          assert ts[i] == before[i] && ts[j] == before[j];
        } else {
          AllocatedPair(runID, actions, n, i, j);
        }
      }
    }
  }

  lemma AllocatedPair(runID: string, actions: seq<Action>, n: nat, i: nat, j: nat)
    requires 0 < n <= |actions| && Small(actions)
    requires i < j < |Allocated(runID, actions, n)| && |Allocated(runID, actions, n - 1)| <= j
    ensures IdOrder(Allocated(runID, actions, n)[i], Allocated(runID, actions, n)[j])
  {
    var ts, m := Allocated(runID, actions, n), |Allocated(runID, actions, n - 1)|;
    assert AllocatedAt(runID, actions, ts[j], n - 1, j - m);
    if i < m {
      var a, h := AllocatedBelow(runID, actions, n - 1, i);
      TaskOrder(runID, actions, ts[i], a, h, ts[j], n - 1, j - m);
    } else {
      TaskOrder(runID, actions, ts[i], n - 1, i - m, ts[j], n - 1, j - m);
    }
  }

  // ----- the if expression -----

  datatype EvalOutcome = EvalError | NotBool | Bool(value: bool)
  datatype IfOutcome = Run | Skip | Fail

  /** runHookIfEval: without an expression a hook runs while its action has not failed. The
      expression language is the parameter eval; it sees whether the action has failed. */
  function RunHookIfEval(eval: (string, bool) -> EvalOutcome, ifExpr: string, failed: bool): IfOutcome {
    if ifExpr == "" then
      if failed then Skip else Run
    else
      match eval(ifExpr, failed)
      case EvalError => Fail
      case NotBool => Fail
      case Bool(b) => if b then Run else Skip
  }

  // ----- one action -----

  ghost predicate FailedBefore(tasks: seq<Task>, n: nat)
    requires n <= |tasks|
  {
    exists i :: 0 <= i < n && tasks[i].err != NoError
  }

  /** Task j has had its turn: it was skipped, could not be decided, or its hook ran, and
      which of the three follows from its expression and the tasks before it. */
  ghost predicate HadTurn(eval: (string, bool) -> EvalOutcome, tasks: seq<Task>, j: nat)
    requires j < |tasks|
  {
    Fits(RunHookIfEval(eval, tasks[j].ifExpr, FailedBefore(tasks, j)), tasks[j])
  }

  /** What a decision leaves of a task. */
  predicate Fits(decided: IfOutcome, t: Task) {
    match decided
    case Skip => Untouched(t)
    case Fail => t.err == IfError && Started(t)
    case Run => t.err != IfError && Started(t)
  }

  /** What became of a task, in terms of its expression. Without one its hook was called
      unless an earlier task of the action had failed. With one, which sees whether an earlier
      task had failed, it was called if the expression was true, left alone if it was false,
      and given an error if the expression had no truth value. */
  ghost predicate DecidedByExpression(eval: (string, bool) -> EvalOutcome, tasks: seq<Task>, j: nat)
    requires j < |tasks|
  {
    var t, failed := tasks[j], exists i :: 0 <= i < j && tasks[i].err != NoError;
    if t.ifExpr == "" then
      && (t.startTime > 0 && t.err != IfError <==> !failed)
      && (t.err == NoError && t.startTime == 0 && t.endTime == 0 <==> failed)
    else
      && (t.startTime > 0 && t.err != IfError <==> eval(t.ifExpr, failed) == Bool(true))
      && (t.err == NoError && t.startTime == 0 && t.endTime == 0 <==> eval(t.ifExpr, failed) == Bool(false))
      && (t.err == IfError <==> eval(t.ifExpr, failed) == EvalError || eval(t.ifExpr, failed) == NotBool)
  }

  lemma TurnFollowsExpression(eval: (string, bool) -> EvalOutcome, tasks: seq<Task>, j: nat)
    requires j < |tasks| && HadTurn(eval, tasks, j)
    ensures DecidedByExpression(eval, tasks, j)
  {}

  /** How far an action has come: the first n tasks had their turn and ended, the others not. */
  ghost predicate Processed(eval: (string, bool) -> EvalOutcome, tasks: seq<Task>, n: nat)
    requires n <= |tasks|
  {
    && (forall j :: 0 <= j < n ==> HadTurn(eval, tasks, j) && (Started(tasks[j]) <==> tasks[j].endTime > 0))
    && (forall j :: n <= j < |tasks| ==> Untouched(tasks[j]))
  }

  lemma AllFollowExpressions(eval: (string, bool) -> EvalOutcome, tasks: seq<Task>, n: nat)
    requires n <= |tasks| && Processed(eval, tasks, n)
    ensures forall j :: 0 <= j < n ==> DecidedByExpression(eval, tasks, j)
  {
    forall j | 0 <= j < n
      ensures DecidedByExpression(eval, tasks, j)
    {
      TurnFollowsExpression(eval, tasks, j);
    }
  }

  /** What the surroundings do during the turn of a task. */
  datatype Turn = Turn(start: nat, end: nat, hookFails: bool, logFails: bool)

  datatype ActionResult = ActionPassed | ActionFailed | LogFailed(at: nat)

  lemma ChangeOne(eval: (string, bool) -> EvalOutcome, tasks: seq<Task>, j: nat, t: Task)
    requires j < |tasks| && Processed(eval, tasks, j)
    requires t.ifExpr == tasks[j].ifExpr && (Started(t) <==> t.endTime > 0)
    requires Fits(RunHookIfEval(eval, t.ifExpr, FailedBefore(tasks, j)), t)
    ensures Processed(eval, tasks[j := t], j + 1)
    ensures FailedBefore(tasks[j := t], j + 1) <==> FailedBefore(tasks, j) || t.err != NoError
  {
    var after := tasks[j := t];
    forall i: nat | i <= j
      ensures FailedBefore(after, i) <==> FailedBefore(tasks, i)
    {
      assert forall k :: 0 <= k < i ==> after[k] == tasks[k];
    }
    forall i: nat | i < j
      ensures HadTurn(eval, after, i)
    {
      assert after[i] == tasks[i] && HadTurn(eval, tasks, i);
    }
    if FailedBefore(tasks, j) {
      var i :| 0 <= i < j && tasks[i].err != NoError;
      assert after[i].err != NoError;
    }
    if t.err != NoError {
      assert after[j].err != NoError;
    }
  }

  /** The first j tasks had their turns, with these surroundings, and all logs were written. */
  ghost predicate Progress(eval: (string, bool) -> EvalOutcome, given: seq<Task>, tasks: seq<Task>, turns: seq<Turn>, j: nat) {
    && |tasks| == |given| == |turns| && j <= |tasks|
    && Processed(eval, tasks, j)
    && (forall i :: 0 <= i < |tasks| ==> SameTask(tasks[i], given[i]))
    && (forall i :: 0 <= i < j && Started(tasks[i]) ==> FollowsTurn(tasks[i], turns[i]))
  }

  /** The task after its turn. */
  function AfterTurn(eval: (string, bool) -> EvalOutcome, t: Task, failed: bool, w: Turn): Task {
    match RunHookIfEval(eval, t.ifExpr, failed)
    case Skip => t
    case Fail => t.(err := IfError, startTime := w.start, endTime := w.end)
    case Run => t.(err := if w.hookFails then HookError else NoError, startTime := w.start, endTime := w.end)
  }

  lemma ProgressStep(eval: (string, bool) -> EvalOutcome, given: seq<Task>, tasks: seq<Task>, turns: seq<Turn>, j: nat)
    requires Progress(eval, given, tasks, turns, j) && j < |tasks|
    requires turns[j].start > 0 && turns[j].end > 0
    ensures var t := AfterTurn(eval, tasks[j], FailedBefore(tasks, j), turns[j]);
      && Progress(eval, given, tasks[j := t], turns, j + 1)
      && (FailedBefore(tasks[j := t], j + 1) <==> FailedBefore(tasks, j) || t.err != NoError)
  {
    ChangeOne(eval, tasks, j, AfterTurn(eval, tasks[j], FailedBefore(tasks, j), turns[j]));
  }

  /** One turn in the goroutine of an action, up to the log. */
  method RunTask(eval: (string, bool) -> EvalOutcome, tasks: array<Task>, j: nat, failed: bool, w: Turn) returns (skipped: bool)
    requires j < tasks.Length && tasks[j].err == NoError
    modifies tasks
    ensures tasks[..] == old(tasks[..])[j := AfterTurn(eval, old(tasks[j]), failed, w)]
    ensures skipped <==> RunHookIfEval(eval, tasks[j].ifExpr, failed) == Skip
  {
    var runs := RunHookIfEval(eval, tasks[j].ifExpr, failed);
    if runs == Skip {
      return true;
    }
    tasks[j] := tasks[j].(err := if runs == Fail then IfError else NoError);
    tasks[j] := tasks[j].(startTime := w.start);
    if tasks[j].err == NoError && w.hookFails {
      tasks[j] := tasks[j].(err := HookError);
    }
    tasks[j] := tasks[j].(endTime := w.end);
    skipped := false;
  }

  /** The goroutine after j turns, all logs written; it got there by its own steps. */
  ghost predicate Underway(eval: (string, bool) -> EvalOutcome, given: seq<Task>, tasks: seq<Task>, turns: seq<Turn>, j: nat, failed: bool) {
    && Progress(eval, given, tasks, turns, j) && (failed <==> FailedBefore(tasks, j))
    && LogsWritten(tasks, turns, j)
    && RowLeads(eval, StartRow(given), RowState(tasks, j, Deciding, failed, None))
  }

  ghost predicate LogsWritten(tasks: seq<Task>, turns: seq<Turn>, n: nat)
    requires n <= |tasks| == |turns|
  {
    forall i :: 0 <= i < n && Started(tasks[i]) ==> !turns[i].logFails
  }

  predicate GoodTurns(turns: seq<Turn>) {
    forall j :: 0 <= j < |turns| ==> turns[j].start > 0 && turns[j].end > 0
  }

  lemma UnderwayOn(eval: (string, bool) -> EvalOutcome, given: seq<Task>, tasks: seq<Task>, turns: seq<Turn>, j: nat, failed: bool)
    requires Underway(eval, given, tasks, turns, j, failed) && j < |tasks| && GoodTurns(turns)
    ensures Untouched(tasks[j])
    ensures var r := RowAfterTurn(eval, tasks, j, failed, turns[j]);
      && Progress(eval, given, r.tasks, turns, j + 1) && LogsWritten(r.tasks, turns, j)
      && (r.result.Some? ==> Started(r.tasks[j]) && IsRun(eval, given, r.tasks, LogFailed(j)))
      && (r.result.None? ==> Underway(eval, given, r.tasks, turns, j + 1, r.failed))
  {
    ProgressStep(eval, given, tasks, turns, j);
    TurnLeads(eval, StartRow(given), tasks, j, failed, turns[j]);
  }

  lemma UnderwayEnds(eval: (string, bool) -> EvalOutcome, given: seq<Task>, tasks: seq<Task>, turns: seq<Turn>, failed: bool)
    requires Underway(eval, given, tasks, turns, |tasks|, failed)
    ensures IsRun(eval, given, tasks, if failed then ActionFailed else ActionPassed)
  {
    LeadsOn(eval, StartRow(given), RowState(tasks, |tasks|, Deciding, failed, None), Return);
  }

  lemma UnderwayStarts(eval: (string, bool) -> EvalOutcome, given: seq<Task>, turns: seq<Turn>)
    requires |turns| == |given| && forall j :: 0 <= j < |given| ==> Untouched(given[j])
    ensures Underway(eval, given, given, turns, 0, false)
  {
    LeadsNowhere(eval, StartRow(given));
  }

  /** The goroutine of one action: every task in turn; a failed task does not end it, a log
      that cannot be written does. */
  method RunAction(eval: (string, bool) -> EvalOutcome, tasks: array<Task>, turns: seq<Turn>)
    returns (result: ActionResult)
    requires |turns| == tasks.Length && GoodTurns(turns)
    requires forall j :: 0 <= j < tasks.Length ==> Untouched(tasks[j])
    modifies tasks
    ensures result.LogFailed? ==> result.at < tasks.Length && turns[result.at].logFails && Started(tasks[result.at])
    ensures Progress(eval, old(tasks[..]), tasks[..], turns, if result.LogFailed? then result.at + 1 else tasks.Length)
    ensures LogsWritten(tasks[..], turns, if result.LogFailed? then result.at else tasks.Length)
    ensures !result.LogFailed? ==> (result == ActionPassed <==> !FailedBefore(tasks[..], tasks.Length))
    ensures forall j :: 0 <= j < (if result.LogFailed? then result.at + 1 else tasks.Length) ==> DecidedByExpression(eval, tasks[..], j)
    ensures IsRun(eval, old(tasks[..]), tasks[..], result)
  {
    ghost var given := tasks[..];
    var failed := false;
    UnderwayStarts(eval, given, turns);
    for j := 0 to tasks.Length
      invariant Underway(eval, given, tasks[..], turns, j, failed)
    {
      UnderwayOn(eval, given, tasks[..], turns, j, failed);
      assert tasks[..][j] == tasks[j];
      var skipped := RunTask(eval, tasks, j, failed, turns[j]);
      if skipped {
        continue;
      }
      if turns[j].logFails {
        AllFollowExpressions(eval, tasks[..], j + 1);
        return LogFailed(j);
      }
      if tasks[j].err != NoError {
        failed := true;
      }
    }
    result := if failed then ActionFailed else ActionPassed;
    UnderwayEnds(eval, given, tasks[..], turns, failed);
    AllFollowExpressions(eval, tasks[..], tasks.Length);
  }

  /** The fields that a run does not change. */
  predicate SameTask(t: Task, u: Task) {
    t == u.(err := t.err, startTime := t.startTime, endTime := t.endTime)
  }

  predicate FollowsTurn(t: Task, w: Turn) {
    t.startTime == w.start && t.endTime == w.end && (t.err == HookError <==> t.err != IfError && w.hookFails)
  }

  // ----- all actions, in any interleaving -----

  /** Where the goroutine of an action is: about to decide on a task, inside its hook, or
      about to write its log. */
  datatype Phase = Deciding | InHook | Ending

  datatype RowState = RowState(tasks: seq<Task>, pos: nat, phase: Phase, failed: bool, result: Option<ActionResult>)

  datatype Event = Decide(now: nat) | HookReturns(fails: bool) | End(now: nat, logFails: bool) | Return

  /** One step of a goroutine, if the event can happen now. */
  function RowNext(eval: (string, bool) -> EvalOutcome, r: RowState, e: Event): Option<RowState> {
    if r.result.Some? || r.pos > |r.tasks| then None
    else if r.pos == |r.tasks| then
      if e.Return? then Some(r.(result := Some(if r.failed then ActionFailed else ActionPassed))) else None
    else
      var t := r.tasks[r.pos];
      match (r.phase, e)
      case (Deciding, Decide(now)) =>
        if now == 0 then None
        else (
          match RunHookIfEval(eval, t.ifExpr, r.failed)
          case Skip => Some(r.(pos := r.pos + 1))
          case Fail => Some(r.(tasks := r.tasks[r.pos := t.(err := IfError, startTime := now)], phase := Ending))
          case Run => Some(r.(tasks := r.tasks[r.pos := t.(startTime := now)], phase := InHook)))
      case (InHook, HookReturns(fails)) =>
        Some(r.(tasks := r.tasks[r.pos := t.(err := if fails then HookError else NoError)], phase := Ending))
      case (Ending, End(now, logFails)) =>
        if now == 0 then None
        else
          var ended := r.tasks[r.pos := t.(endTime := now)];
          if logFails then Some(r.(tasks := ended, result := Some(LogFailed(r.pos))))
          else Some(r.(tasks := ended, pos := r.pos + 1, phase := Deciding, failed := r.failed || t.err != NoError))
      case _ => None
  }

  /** A goroutine after a run of its own steps. */
  function RowAfter(eval: (string, bool) -> EvalOutcome, r: RowState, events: seq<Event>): Option<RowState> {
    if events == [] then Some(r)
    else
      match RowAfter(eval, r, events[..|events| - 1])
      case None => None
      case Some(before) => RowNext(eval, before, events[|events| - 1])
  }

  ghost predicate RowLeads(eval: (string, bool) -> EvalOutcome, r: RowState, q: RowState) {
    exists events :: RowAfter(eval, r, events) == Some(q)
  }

  /** Some run of steps takes the tasks to these tasks, and returns this result. */
  ghost predicate IsRun(eval: (string, bool) -> EvalOutcome, given: seq<Task>, tasks: seq<Task>, result: ActionResult) {
    exists q :: RowLeads(eval, StartRow(given), q) && q.tasks == tasks && q.result == Some(result)
  }

  lemma LeadsNowhere(eval: (string, bool) -> EvalOutcome, r: RowState)
    ensures RowLeads(eval, r, r)
  {
    assert RowAfter(eval, r, []) == Some(r);
  }

  lemma LeadsOn(eval: (string, bool) -> EvalOutcome, r: RowState, q: RowState, e: Event)
    requires RowLeads(eval, r, q) && RowNext(eval, q, e).Some?
    ensures RowLeads(eval, r, RowNext(eval, q, e).value)
  {
    var events :| RowAfter(eval, r, events) == Some(q);
    assert (events + [e])[..|events|] == events;
    assert RowAfter(eval, r, events + [e]) == RowNext(eval, q, e);
  }

  /** A goroutine after the turn of the task at its position. */
  function RowAfterTurn(eval: (string, bool) -> EvalOutcome, tasks: seq<Task>, j: nat, failed: bool, w: Turn): RowState
    requires j < |tasks|
  {
    var t := AfterTurn(eval, tasks[j], failed, w);
    if RunHookIfEval(eval, tasks[j].ifExpr, failed) != Skip && w.logFails
    then RowState(tasks[j := t], j, Ending, failed, Some(LogFailed(j)))
    else RowState(tasks[j := t], j + 1, Deciding, failed || t.err != NoError, None)
  }

  lemma TurnLeads(eval: (string, bool) -> EvalOutcome, r: RowState, tasks: seq<Task>, j: nat, failed: bool, w: Turn)
    requires j < |tasks| && w.start > 0 && w.end > 0 && tasks[j].err == NoError
    requires RowLeads(eval, r, RowState(tasks, j, Deciding, failed, None))
    ensures RowLeads(eval, r, RowAfterTurn(eval, tasks, j, failed, w))
  {
    var q := RowState(tasks, j, Deciding, failed, None);
    LeadsOn(eval, r, q, Decide(w.start));
    if RunHookIfEval(eval, tasks[j].ifExpr, failed) == Skip {
      assert tasks[j := tasks[j]] == tasks;
    } else {
      var t := AfterTurn(eval, tasks[j], failed, w).(endTime := tasks[j].endTime);
      var decided := RowNext(eval, q, Decide(w.start)).value;
      if decided.phase == InHook {
        LeadsOn(eval, r, decided, HookReturns(w.hookFails));
        assert RowNext(eval, decided, HookReturns(w.hookFails)).value == RowState(tasks[j := t], j, Ending, failed, None);
      } else {
        assert decided == RowState(tasks[j := t], j, Ending, failed, None);
      }
      EndingLeads(eval, r, tasks, j, failed, w, t);
    }
  }

  lemma EndingLeads(eval: (string, bool) -> EvalOutcome, r: RowState, tasks: seq<Task>, j: nat, failed: bool, w: Turn, t: Task)
    requires j < |tasks| && w.end > 0 && RunHookIfEval(eval, tasks[j].ifExpr, failed) != Skip
    requires t == AfterTurn(eval, tasks[j], failed, w).(endTime := tasks[j].endTime)
    requires RowLeads(eval, r, RowState(tasks[j := t], j, Ending, failed, None))
    ensures RowLeads(eval, r, RowAfterTurn(eval, tasks, j, failed, w))
  {
    var ending := RowState(tasks[j := t], j, Ending, failed, None);
    LeadsOn(eval, r, ending, End(w.end, w.logFails));
    assert tasks[j := t][j := t.(endTime := w.end)] == tasks[j := t.(endTime := w.end)];
  }

  function StartRow(tasks: seq<Task>): RowState {
    RowState(tasks, 0, Deciding, false, None)
  }

  predicate CanStart(rows: seq<seq<Task>>) {
    forall i, j :: 0 <= i < |rows| && 0 <= j < |rows[i]| ==> Untouched(rows[i][j])
  }

  function StartAll(rows: seq<seq<Task>>): seq<RowState> {
    seq(|rows|, i requires 0 <= i < |rows| => StartRow(rows[i]))
  }

  /** The goroutines after a schedule of steps, each naming the action that moves. */
  function After(eval: (string, bool) -> EvalOutcome, start: seq<RowState>, schedule: seq<(nat, Event)>): Option<seq<RowState>> {
    if schedule == [] then Some(start)
    else
      var n := |schedule| - 1;
      var before := After(eval, start, schedule[..n]);
      if before.None? || schedule[n].0 >= |before.value| then None
      else
        var moved := RowNext(eval, before.value[schedule[n].0], schedule[n].1);
        if moved.None? then None else Some(before.value[schedule[n].0 := moved.value])
  }

  function Reset(t: Task): Task {
    t.(err := NoError, startTime := 0, endTime := 0)
  }

  /** What holds of an action at every moment. */
  ghost predicate RowInv(eval: (string, bool) -> EvalOutcome, r: RowState) {
    && r.pos <= |r.tasks|
    && (r.failed <==> FailedBefore(r.tasks, r.pos))
    && (match r.result
        case Some(LogFailed(at)) => at == r.pos < |r.tasks| && Processed(eval, r.tasks, at + 1) && Started(r.tasks[at])
        case Some(ActionPassed) => r.pos == |r.tasks| && Processed(eval, r.tasks, r.pos) && !r.failed
        case Some(ActionFailed) => r.pos == |r.tasks| && Processed(eval, r.tasks, r.pos) && r.failed
        case None => InProgress(eval, r))
  }

  ghost predicate InProgress(eval: (string, bool) -> EvalOutcome, r: RowState)
    requires r.pos <= |r.tasks|
  {
    if r.phase == Deciding then Processed(eval, r.tasks, r.pos)
    else
      && r.pos < |r.tasks|
      && Processed(eval, r.tasks[r.pos := Reset(r.tasks[r.pos])], r.pos)
      && HalfDone(RunHookIfEval(eval, r.tasks[r.pos].ifExpr, r.failed), r.tasks[r.pos], r.phase)
  }

  predicate HalfDone(decided: IfOutcome, t: Task, phase: Phase) {
    && Started(t) && t.endTime == 0 && decided != Skip
    && (phase == InHook ==> decided == Run && t.err == NoError)
    && (t.err == IfError <==> decided == Fail)
  }

  lemma StartsInv(eval: (string, bool) -> EvalOutcome, tasks: seq<Task>)
    requires forall j :: 0 <= j < |tasks| ==> Untouched(tasks[j])
    ensures RowInv(eval, StartRow(tasks))
  {}

  lemma DecideKeepsInv(eval: (string, bool) -> EvalOutcome, r: RowState, e: Event)
    requires RowInv(eval, r) && RowNext(eval, r, e).Some? && r.pos < |r.tasks| && r.phase == Deciding
    ensures RowInv(eval, RowNext(eval, r, e).value)
  {
    var t, next := r.tasks[r.pos], RowNext(eval, r, e).value;
    assert r.tasks[r.pos := t] == r.tasks;
    SamePrefix(r.tasks, next.tasks, r.pos);
    if RunHookIfEval(eval, t.ifExpr, r.failed) == Skip {
      ChangeOne(eval, r.tasks, r.pos, t);
    } else {
      assert Reset(next.tasks[r.pos]) == t;
      assert next.tasks[r.pos := t] == r.tasks;
    }
  }

  lemma HookKeepsInv(eval: (string, bool) -> EvalOutcome, r: RowState, e: Event)
    requires RowInv(eval, r) && RowNext(eval, r, e).Some? && r.pos < |r.tasks| && r.phase == InHook
    ensures RowInv(eval, RowNext(eval, r, e).value)
  {
    var next := RowNext(eval, r, e).value;
    SamePrefix(r.tasks, next.tasks, r.pos);
    assert next.tasks[r.pos := Reset(next.tasks[r.pos])] == r.tasks[r.pos := Reset(r.tasks[r.pos])];
  }

  lemma EndKeepsInv(eval: (string, bool) -> EvalOutcome, r: RowState, e: Event)
    requires RowInv(eval, r) && RowNext(eval, r, e).Some? && r.pos < |r.tasks| && r.phase == Ending
    ensures RowInv(eval, RowNext(eval, r, e).value)
  {
    var next := RowNext(eval, r, e).value;
    var before := r.tasks[r.pos := Reset(r.tasks[r.pos])];
    SamePrefix(r.tasks, before, r.pos);
    SamePrefix(r.tasks, next.tasks, r.pos);
    ChangeOne(eval, before, r.pos, next.tasks[r.pos]);
    assert before[r.pos := next.tasks[r.pos]] == next.tasks;
  }

  lemma StepKeepsInv(eval: (string, bool) -> EvalOutcome, r: RowState, e: Event)
    requires RowInv(eval, r) && RowNext(eval, r, e).Some?
    ensures RowInv(eval, RowNext(eval, r, e).value)
  {
    if r.pos < |r.tasks| {
      match r.phase
      case Deciding => DecideKeepsInv(eval, r, e);
      case InHook => HookKeepsInv(eval, r, e);
      case Ending => EndKeepsInv(eval, r, e);
    }
  }

  lemma SamePrefix(a: seq<Task>, b: seq<Task>, n: nat)
    requires n <= |a| == |b| && forall i :: 0 <= i < n ==> a[i] == b[i]
    ensures FailedBefore(a, n) <==> FailedBefore(b, n)
  {
    if FailedBefore(a, n) {
      var i :| 0 <= i < n && a[i].err != NoError;
      assert b[i].err != NoError;
    }
  }

  lemma {:induction false} InvAlways(eval: (string, bool) -> EvalOutcome, rows: seq<seq<Task>>, schedule: seq<(nat, Event)>)
    requires CanStart(rows) && After(eval, StartAll(rows), schedule).Some?
    ensures var now := After(eval, StartAll(rows), schedule).value;
      |now| == |rows| && forall i :: 0 <= i < |now| ==> RowInv(eval, now[i])
  {
    if schedule == [] {
      forall i | 0 <= i < |rows|
        ensures RowInv(eval, StartRow(rows[i]))
      {
        StartsInv(eval, rows[i]);
      }
    } else {
      var n := |schedule| - 1;
      InvAlways(eval, rows, schedule[..n]);
      var before := After(eval, StartAll(rows), schedule[..n]).value;
      StepKeepsInv(eval, before[schedule[n].0], schedule[n].1);
    }
  }

  /** In every interleaving, at every moment: a hook without an expression is only ever called
      when no earlier task of its action has failed. */
  lemma PlainHookRunsAfterSuccess(eval: (string, bool) -> EvalOutcome, rows: seq<seq<Task>>, schedule: seq<(nat, Event)>, i: nat, j: nat)
    requires CanStart(rows) && After(eval, StartAll(rows), schedule).Some?
    requires i < |rows|
    ensures var now := After(eval, StartAll(rows), schedule).value;
      i < |now| && (j < |now[i].tasks| && now[i].tasks[j].ifExpr == "" && HookCalled(now[i].tasks[j])
        ==> forall k :: 0 <= k < j ==> now[i].tasks[k].err == NoError)
  {
    InvAlways(eval, rows, schedule);
    var r := After(eval, StartAll(rows), schedule).value[i];
    if j < |r.tasks| && r.tasks[j].ifExpr == "" && HookCalled(r.tasks[j]) {
      CalledMeansRun(eval, r, j);
    }
  }

  /** Task j of an action has had its turn. */
  predicate PastTurn(r: RowState, j: nat) {
    j < |r.tasks| && (j < r.pos || (j == r.pos && r.result.Some?))
  }

  /** In every interleaving, at every moment: what became of a task that has had its turn is
      decided by its expression and by whether an earlier task of its action has failed; all
      other tasks but the one at work are as they were allocated. */
  lemma ExpressionsDecide(eval: (string, bool) -> EvalOutcome, rows: seq<seq<Task>>, schedule: seq<(nat, Event)>, i: nat, j: nat)
    requires CanStart(rows) && After(eval, StartAll(rows), schedule).Some? && i < |rows|
    ensures var now := After(eval, StartAll(rows), schedule).value;
      && i < |now|
      && (PastTurn(now[i], j) ==> DecidedByExpression(eval, now[i].tasks, j))
      && (now[i].pos < j < |now[i].tasks| ==> Untouched(now[i].tasks[j]))
  {
    InvAlways(eval, rows, schedule);
    var r := After(eval, StartAll(rows), schedule).value[i];
    var tasks := if r.result.None? && r.phase != Deciding then r.tasks[r.pos := Reset(r.tasks[r.pos])] else r.tasks;
    if j < |tasks| && j != r.pos {
      assert tasks[j] == r.tasks[j];
    }
    if PastTurn(r, j) {
      assert HadTurn(eval, tasks, j);
      SamePrefix(r.tasks, tasks, j);
      TurnFollowsExpression(eval, r.tasks, j);
    }
  }

  lemma CalledMeansRun(eval: (string, bool) -> EvalOutcome, r: RowState, j: nat)
    requires RowInv(eval, r) && j < |r.tasks| && HookCalled(r.tasks[j])
    ensures RunHookIfEval(eval, r.tasks[j].ifExpr, FailedBefore(r.tasks, j)) == Run
  {
    if r.result.None? && r.phase != Deciding {
      var before := r.tasks[r.pos := Reset(r.tasks[r.pos])];
      assert j != r.pos ==> before[j] == r.tasks[j];
      if j < r.pos {
        assert HadTurn(eval, before, j);
        SamePrefix(r.tasks, before, j);
      }
    } else {
      assert j < r.pos || r.result.Some? ==> HadTurn(eval, r.tasks, j) || Untouched(r.tasks[j]);
    }
  }

  /** All goroutines have returned. */
  predicate AllReturned(rows: seq<RowState>) {
    forall i :: 0 <= i < |rows| ==> rows[i].result.Some?
  }

  /** runTasks: an error if any goroutine returned one. */
  predicate RunTasksIsNil(rows: seq<RowState>) {
    forall i :: 0 <= i < |rows| ==> rows[i].result == Some(ActionPassed)
  }

  function TasksOf(rows: seq<RowState>): seq<seq<Task>> {
    seq(|rows|, i requires 0 <= i < |rows| => rows[i].tasks)
  }

  predicate NoErrorIn(tasks: seq<Task>) {
    forall j :: 0 <= j < |tasks| ==> tasks[j].err == NoError
  }

  predicate NoErrors(rows: seq<seq<Task>>) {
    forall i :: 0 <= i < |rows| ==> NoErrorIn(rows[i])
  }

  /** When all actions have returned, runTasks reports no error exactly when no task has one
      and every log was written; and while every log is written, a hook without an expression
      was called if and only if no earlier task of its action failed. */
  lemma RunIsNilIff(eval: (string, bool) -> EvalOutcome, rows: seq<seq<Task>>, schedule: seq<(nat, Event)>)
    requires CanStart(rows) && After(eval, StartAll(rows), schedule).Some?
    requires AllReturned(After(eval, StartAll(rows), schedule).value)
    ensures var now := After(eval, StartAll(rows), schedule).value;
      && (RunTasksIsNil(now) <==>
            NoErrors(TasksOf(now)) && forall i :: 0 <= i < |now| ==> !now[i].result.value.LogFailed?)
      && (forall i, j :: 0 <= i < |now| && 0 <= j < |now[i].tasks| && !now[i].result.value.LogFailed? && now[i].tasks[j].ifExpr == "" ==>
            (HookCalled(now[i].tasks[j]) <==> forall k :: 0 <= k < j ==> now[i].tasks[k].err == NoError))
  {
    InvAlways(eval, rows, schedule);
    var now := After(eval, StartAll(rows), schedule).value;
    forall i | 0 <= i < |now| && !now[i].result.value.LogFailed?
      ensures now[i].result == Some(ActionPassed) <==> NoErrorIn(now[i].tasks)
    {
      RowResult(eval, now[i]);
    }
    assert forall i :: 0 <= i < |now| ==> TasksOf(now)[i] == now[i].tasks;
    forall i, j: nat | 0 <= i < |now| && j < |now[i].tasks| && !now[i].result.value.LogFailed? && now[i].tasks[j].ifExpr == ""
      ensures HookCalled(now[i].tasks[j]) <==> forall k :: 0 <= k < j ==> now[i].tasks[k].err == NoError
    {
      assert HadTurn(eval, now[i].tasks, j);
    }
  }

  lemma RowResult(eval: (string, bool) -> EvalOutcome, r: RowState)
    requires RowInv(eval, r) && r.result.Some? && !r.result.value.LogFailed?
    ensures r.result == Some(ActionPassed) <==> NoErrorIn(r.tasks)
  {}

  // ----- the manifest -----

  datatype HookRecord = HookRecord(runID: string, branchID: string, sourceRef: string, eventType: string, commitID: string)

  function ResultOf(t: Task): TaskResult {
    TaskResult(t.runID, t.hookRunID, t.hookID, t.actionName, t.startTime, t.endTime, Started(t) && t.err == NoError)
  }

  function Results(tasks: seq<Task>): seq<TaskResult> {
    seq(|tasks|, i requires 0 <= i < |tasks| => ResultOf(tasks[i]))
  }

  /** The earliest start of the tasks that started; the zero time if none did. */
  ghost predicate IsFirstStart(start: nat, tasks: seq<Task>) {
    && (forall i :: 0 <= i < |tasks| && Started(tasks[i]) ==> 0 < start <= tasks[i].startTime)
    && (start > 0 ==> exists i :: 0 <= i < |tasks| && tasks[i].startTime == start)
  }

  /** The latest end. */
  ghost predicate IsLastEnd(end: nat, tasks: seq<Task>) {
    && (forall i :: 0 <= i < |tasks| ==> tasks[i].endTime <= end)
    && (end > 0 ==> exists i :: 0 <= i < |tasks| && tasks[i].endTime == end)
  }

  /** A record names its task and its times, and passed if the hook was started and nothing
      went wrong; so a skipped hook has not passed. */
  predicate RecordOf(r: TaskResult, t: Task) {
    && r.runID == t.runID && r.hookRunID == t.hookRunID && r.hookID == t.hookID && r.actionName == t.actionName
    && r.startTime == t.startTime && r.endTime == t.endTime
    && (r.passed <==> t.startTime > 0 && t.err == NoError)
  }

  lemma ResultsAreRecords(tasks: seq<Task>)
    ensures |Results(tasks)| == |tasks| && forall i :: 0 <= i < |tasks| ==> RecordOf(Results(tasks)[i], tasks[i])
  {}

  /** The manifest of the tasks seen so far. */
  ghost predicate IsManifestOf(m: RunManifest, record: HookRecord, tasks: seq<Task>) {
    && m.run.runID == record.runID && m.run.branchID == record.branchID && m.run.sourceRef == record.sourceRef
    && m.run.eventType == record.eventType && m.run.commitID == record.commitID
    && m.hooksRun == Results(tasks)
    && IsFirstStart(m.run.startTime, tasks) && IsLastEnd(m.run.endTime, tasks)
    && (m.run.passed <==> NoErrorIn(tasks))
  }

  function EmptyManifest(record: HookRecord): RunManifest {
    RunManifest(RunResult(record.runID, record.branchID, record.sourceRef, record.eventType, record.commitID, 0, 0, true), [])
  }

  method BuildRunManifestFromTasks(record: HookRecord, tasks: seq<seq<Task>>) returns (m: RunManifest)
    ensures IsManifestOf(m, record, Flatten(tasks))
    ensures |m.hooksRun| == |Flatten(tasks)| && forall i :: 0 <= i < |m.hooksRun| ==> RecordOf(m.hooksRun[i], Flatten(tasks)[i])
  {
    m := EmptyManifest(record);
    for i := 0 to |tasks|
      invariant IsManifestOf(m, record, Flatten(tasks[..i]))
    {
      m := AddTasks(m, record, Flatten(tasks[..i]), tasks[i]);
      FlattenSnoc(tasks[..i], tasks[i]);
      assert tasks[..i + 1] == tasks[..i] + [tasks[i]];
    }
    assert tasks[..|tasks|] == tasks;
    ResultsAreRecords(Flatten(tasks));
  }

  /** The inner loop: the tasks of one action. */
  method AddTasks(given: RunManifest, ghost record: HookRecord, ghost before: seq<Task>, actionTasks: seq<Task>)
    returns (m: RunManifest)
    requires IsManifestOf(given, record, before)
    ensures IsManifestOf(m, record, before + actionTasks)
  {
    m := given;
    assert before + actionTasks[..0] == before;
    for j := 0 to |actionTasks|
      invariant IsManifestOf(m, record, before + actionTasks[..j])
    {
      var task := actionTasks[j];
      ManifestStep(m, record, before + actionTasks[..j], task);
      ghost var was := m;
      m := m.(hooksRun := m.hooksRun + [ResultOf(task)]);
      if m.run.startTime == 0 || (Started(task) && task.startTime < m.run.startTime) {
        m := m.(run := m.run.(startTime := task.startTime));
      }
      if m.run.endTime == 0 || task.endTime > m.run.endTime {
        m := m.(run := m.run.(endTime := task.endTime));
      }
      m := m.(run := m.run.(passed := m.run.passed && task.err == NoError));
      assert m == WithTask(was, task);
      assert before + actionTasks[..j + 1] == before + actionTasks[..j] + [task];
    }
    assert actionTasks[..|actionTasks|] == actionTasks;
  }

  function WithTask(m: RunManifest, t: Task): RunManifest {
    RunManifest(
      m.run.(startTime := if m.run.startTime == 0 || (Started(t) && t.startTime < m.run.startTime) then t.startTime else m.run.startTime,
             endTime := if m.run.endTime == 0 || t.endTime > m.run.endTime then t.endTime else m.run.endTime,
             passed := m.run.passed && t.err == NoError),
      m.hooksRun + [ResultOf(t)])
  }

  lemma ManifestStep(m: RunManifest, record: HookRecord, tasks: seq<Task>, t: Task)
    requires IsManifestOf(m, record, tasks)
    ensures IsManifestOf(WithTask(m, t), record, tasks + [t])
  {
    var all, next := tasks + [t], WithTask(m, t);
    assert forall i :: 0 <= i < |tasks| ==> all[i] == tasks[i];
    assert all[|tasks|] == t;
    if next.run.startTime > 0 && next.run.startTime == m.run.startTime {
      var i :| 0 <= i < |tasks| && tasks[i].startTime == m.run.startTime;
      assert all[i].startTime == next.run.startTime;
    }
    if next.run.endTime > 0 && next.run.endTime == m.run.endTime {
      var i :| 0 <= i < |tasks| && tasks[i].endTime == m.run.endTime;
      assert all[i].endTime == next.run.endTime;
    }
  }

  lemma {:induction false} FlattenKeeps(rows: seq<seq<Task>>)
    ensures NoErrors(rows) <==> NoErrorIn(Flatten(rows))
  {
    if rows != [] {
      var n := |rows| - 1;
      FlattenKeeps(rows[..n]);
      var all, before := Flatten(rows), Flatten(rows[..n]);
      assert forall i :: 0 <= i < |before| ==> all[i] == before[i];
      assert forall i :: 0 <= i < |rows[n]| ==> all[|before| + i] == rows[n][i];
      assert NoErrors(rows) <==> NoErrors(rows[..n]) && NoErrorIn(rows[n]) by {
        assert forall i :: 0 <= i < n ==> rows[..n][i] == rows[i];
      }
    }
  }

  /** When every log was written, runTasks reports no error exactly when the manifest passed;
      in general a manifest can pass although a log could not be written. */
  lemma RunIsNilIffPassed(eval: (string, bool) -> EvalOutcome, rows: seq<seq<Task>>, schedule: seq<(nat, Event)>,
                          record: HookRecord, m: RunManifest)
    requires CanStart(rows) && After(eval, StartAll(rows), schedule).Some?
    requires AllReturned(After(eval, StartAll(rows), schedule).value)
    requires IsManifestOf(m, record, Flatten(TasksOf(After(eval, StartAll(rows), schedule).value)))
    ensures var now := After(eval, StartAll(rows), schedule).value;
      RunTasksIsNil(now) <==> m.run.passed && forall i :: 0 <= i < |now| ==> !now[i].result.value.LogFailed?
  {
    RunIsNilIff(eval, rows, schedule);
    FlattenKeeps(TasksOf(After(eval, StartAll(rows), schedule).value));
  }

  // ----- what the records of a manifest say about the hooks -----

  /** The n-th step of the schedule is the return of the j-th hook of action i. */
  ghost predicate Returned(eval: (string, bool) -> EvalOutcome, rows: seq<seq<Task>>, schedule: seq<(nat, Event)>, n: nat, i: nat, j: nat, fails: bool)
    requires n < |schedule|
  {
    var before := After(eval, StartAll(rows), schedule[..n]);
    schedule[n] == (i, HookReturns(fails)) && before.Some? && i < |before.value| && before.value[i].pos == j
  }

  ghost predicate ReturnedAtAll(eval: (string, bool) -> EvalOutcome, rows: seq<seq<Task>>, schedule: seq<(nat, Event)>, i: nat, j: nat, fails: bool) {
    exists n: nat :: n < |schedule| && Returned(eval, rows, schedule, n, i, j, fails)
  }

  /** The hook was called, has returned, and this is how. */
  predicate HasReturned(r: RowState, j: nat, fails: bool) {
    && j < |r.tasks| && Started(r.tasks[j]) && r.tasks[j].err == (if fails then HookError else NoError)
    && !(r.result.None? && r.phase == InHook && j == r.pos)
  }

  lemma ReturnedOneMore(eval: (string, bool) -> EvalOutcome, rows: seq<seq<Task>>, schedule: seq<(nat, Event)>, i: nat, j: nat, fails: bool)
    requires schedule != []
    ensures ReturnedAtAll(eval, rows, schedule, i, j, fails) <==>
      || ReturnedAtAll(eval, rows, schedule[..|schedule| - 1], i, j, fails)
      || Returned(eval, rows, schedule, |schedule| - 1, i, j, fails)
  {
    var last := |schedule| - 1;
    forall n: nat | n < last
      ensures Returned(eval, rows, schedule[..last], n, i, j, fails) == Returned(eval, rows, schedule, n, i, j, fails)
    {
      assert schedule[..last][..n] == schedule[..n];
    }
  }

  lemma StepReturns(eval: (string, bool) -> EvalOutcome, r: RowState, e: Event, j: nat, fails: bool)
    requires RowInv(eval, r) && RowNext(eval, r, e).Some?
    ensures HasReturned(RowNext(eval, r, e).value, j, fails) <==> HasReturned(r, j, fails) || (e == HookReturns(fails) && r.pos == j)
  {
    if r.pos < |r.tasks| && r.phase == Deciding {
      assert Untouched(r.tasks[r.pos]);
    }
  }

  /** At every moment of every interleaving: a task was started and has no error, and its hook
      is not running, if and only if its hook has returned success; and it has a hook's error
      if and only if its hook has returned a failure. */
  lemma {:induction false} ReturnsAreRecorded(eval: (string, bool) -> EvalOutcome, rows: seq<seq<Task>>, schedule: seq<(nat, Event)>, i: nat, j: nat, fails: bool)
    requires CanStart(rows) && After(eval, StartAll(rows), schedule).Some? && i < |rows|
    ensures var now := After(eval, StartAll(rows), schedule).value;
      i < |now| && (HasReturned(now[i], j, fails) <==> ReturnedAtAll(eval, rows, schedule, i, j, fails))
  {
    InvAlways(eval, rows, schedule);
    if schedule != [] {
      var last := |schedule| - 1;
      ReturnsAreRecorded(eval, rows, schedule[..last], i, j, fails);
      InvAlways(eval, rows, schedule[..last]);
      ReturnedOneMore(eval, rows, schedule, i, j, fails);
      if schedule[last].0 == i {
        StepReturns(eval, After(eval, StartAll(rows), schedule[..last]).value[i], schedule[last].1, j, fails);
      }
    }
  }

  /** How many records come before those of an action. */
  function RecordsBefore(rows: seq<seq<Task>>, i: nat): nat
    requires i <= |rows|
  {
    |Flatten(rows[..i])|
  }

  lemma {:induction false} FlattenedAt(rows: seq<seq<Task>>, i: nat, j: nat)
    requires i < |rows| && j < |rows[i]|
    ensures RecordsBefore(rows, i) + j < |Flatten(rows)| && Flatten(rows)[RecordsBefore(rows, i) + j] == rows[i][j]
  {
    var n := |rows| - 1;
    if i < n {
      FlattenedAt(rows[..n], i, j);
      assert rows[..n][..i] == rows[..i];
    }
  }

  /** When all actions have returned, a hook is recorded as passed if and only if it was called
      and returned success; a hook that was skipped has no start and has not passed. */
  lemma PassedIffReturnedSuccess(eval: (string, bool) -> EvalOutcome, rows: seq<seq<Task>>, schedule: seq<(nat, Event)>,
                                 record: HookRecord, m: RunManifest, i: nat, j: nat)
    requires CanStart(rows) && After(eval, StartAll(rows), schedule).Some?
    requires AllReturned(After(eval, StartAll(rows), schedule).value)
    requires IsManifestOf(m, record, Flatten(TasksOf(After(eval, StartAll(rows), schedule).value)))
    requires i < |rows| == |After(eval, StartAll(rows), schedule).value| && j < |After(eval, StartAll(rows), schedule).value[i].tasks|
    ensures var tasks := TasksOf(After(eval, StartAll(rows), schedule).value);
      var k := RecordsBefore(tasks, i) + j;
      && k < |m.hooksRun| && RecordOf(m.hooksRun[k], tasks[i][j])
      && (m.hooksRun[k].passed <==> ReturnedAtAll(eval, rows, schedule, i, j, false))
      && (Untouched(tasks[i][j]) ==> m.hooksRun[k].startTime == 0 && !m.hooksRun[k].passed)
  {
    var now := After(eval, StartAll(rows), schedule).value;
    FlattenedAt(TasksOf(now), i, j);
    ResultsAreRecords(Flatten(TasksOf(now)));
    ReturnsAreRecorded(eval, rows, schedule, i, j, false);
  }
}
