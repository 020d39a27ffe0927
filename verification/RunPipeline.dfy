/** From the actions of an event to the manifest that is read back from the store. */
module RunPipeline {
  import opened Kv
  import opened HookRunIds
  import opened Manifests
  import opened HookRuns
  import opened RunIterators
  import RunProtocol
  import opened RunReadBack
  import opened Paging

  /** The same tasks, whatever became of them. */
  predicate SameTasks(a: seq<Task>, b: seq<Task>) {
    |a| == |b| && forall i :: 0 <= i < |a| ==> SameTask(a[i], b[i])
  }

  predicate SameRows(a: seq<seq<Task>>, b: seq<seq<Task>>) {
    |a| == |b| && forall i :: 0 <= i < |a| ==> SameTasks(a[i], b[i])
  }

  lemma StepKeepsTasks(eval: (string, bool) -> EvalOutcome, r: RowState, e: Event)
    requires RowNext(eval, r, e).Some?
    ensures SameTasks(RowNext(eval, r, e).value.tasks, r.tasks)
  {}

  lemma {:induction false} RunKeepsTasks(eval: (string, bool) -> EvalOutcome, rows: seq<seq<Task>>, schedule: seq<(nat, Event)>)
    requires After(eval, StartAll(rows), schedule).Some?
    ensures SameRows(TasksOf(After(eval, StartAll(rows), schedule).value), rows)
  {
    if schedule != [] {
      var n := |schedule| - 1;
      RunKeepsTasks(eval, rows, schedule[..n]);
      var before := After(eval, StartAll(rows), schedule[..n]).value;
      var i, e := schedule[n].0, schedule[n].1;
      StepKeepsTasks(eval, before[i], e);
      RowMoved(before, rows, i, RowNext(eval, before[i], e).value);
    }
  }

  lemma RowMoved(before: seq<RowState>, rows: seq<seq<Task>>, i: nat, r: RowState)
    requires SameRows(TasksOf(before), rows) && i < |before| && SameTasks(r.tasks, before[i].tasks)
    ensures SameRows(TasksOf(before[i := r]), rows)
  {
    assert TasksOf(before)[i] == before[i].tasks;
    forall j | 0 <= j < |before|
      ensures SameTasks(TasksOf(before[i := r])[j], rows[j])
    {
      assert TasksOf(before)[j] == before[j].tasks && SameTasks(TasksOf(before)[j], rows[j]);
    }
  }

  lemma {:induction false} FlattenSame(a: seq<seq<Task>>, b: seq<seq<Task>>)
    requires SameRows(a, b)
    ensures SameTasks(Flatten(a), Flatten(b))
  {
    if a != [] {
      var n := |a| - 1;
      FlattenSame(a[..n], b[..n]);
      assert SameTasks(a[n], b[n]);
    }
  }

  /** The manifest of a finished run lists the allocated hooks, with IDs in byte order while
      the indices stay below 10000. */
  lemma ManifestInOrder(eval: (string, bool) -> EvalOutcome, actions: seq<Action>, schedule: seq<(nat, Event)>,
                        record: HookRecord, m: RunManifest)
    requires Small(actions)
    requires After(eval, StartAll(Rows(record.runID, actions, |actions|)), schedule).Some?
    requires IsManifestOf(m, record, Flatten(TasksOf(After(eval, StartAll(Rows(record.runID, actions, |actions|)), schedule).value)))
    ensures |m.hooksRun| == |Allocated(record.runID, actions, |actions|)| && IdsInOrder(m.hooksRun)
    ensures forall i :: 0 <= i < |m.hooksRun| ==> Simple(m.hooksRun[i].hookRunID) && m.hooksRun[i].hookRunID != ""
  {
    var rows, n := Rows(record.runID, actions, |actions|), |actions|;
    RunKeepsTasks(eval, rows, schedule);
    FlattenSame(TasksOf(After(eval, StartAll(rows), schedule).value), rows);
    AllocatedIsFlattened(record.runID, actions, n);
    AllocatedInOrder(record.runID, actions, n);
    InheritsOrder(Flatten(TasksOf(After(eval, StartAll(rows), schedule).value)), Allocated(record.runID, actions, n), m.hooksRun);
    var ts := Allocated(record.runID, actions, n);
    forall i | 0 <= i < |m.hooksRun|
      ensures Simple(m.hooksRun[i].hookRunID) && m.hooksRun[i].hookRunID != ""
    {
      var a, h := AllocatedBelow(record.runID, actions, n, i);
      HookRunIdIsSimple(a, h);
    }
  }

  lemma InheritsOrder(tasks: seq<Task>, given: seq<Task>, results: seq<TaskResult>)
    requires SameTasks(tasks, given) && TasksInOrder(given) && results == Results(tasks)
    ensures IdsInOrder(results)
    ensures forall i :: 0 <= i < |results| ==> results[i].hookRunID == given[i].hookRunID
  {
    forall i, j | 0 <= i < j < |results|
      ensures Less(results[i].hookRunID, results[j].hookRunID)
    {
      assert IdOrder(given[i], given[j]);
    }
  }

  /** Allocate, run in any interleaving, save, and update the commit ID while other runs are
      saved and updated, also between the updater's reads: the manifest that comes back is the
      one of the run, with the commit ID replaced. */
  lemma RunSaveUpdate(eval: (string, bool) -> EvalOutcome, actions: seq<Action>, schedule: seq<(nat, Event)>,
                      record: HookRecord, m: RunManifest,
                      steps: seq<RunProtocol.Step>, more: seq<RunProtocol.Step>, stores: seq<Records>, id: nat, repo: string)
    requires Small(actions)
    requires After(eval, StartAll(Rows(record.runID, actions, |actions|)), schedule).Some?
    requires IsManifestOf(m, record, Flatten(TasksOf(After(eval, StartAll(Rows(record.runID, actions, |actions|)), schedule).value)))
    requires RunProtocol.After(steps + more).Some? && RunProtocol.After(steps).Some?
    requires id in RunProtocol.After(steps).value.ops
    requires var op := RunProtocol.After(steps).value.ops[id]; op.tasks == [] && op.repo == repo && op.run.runID == m.run.runID
    requires (repo, m) in RunProtocol.After(steps + more).value.saves
    requires NoOtherExtends(RunProtocol.After(steps + more).value.saves, repo, m)
    requires Later(steps, more, stores) && |m.hooksRun| < |stores|
    ensures var op := RunProtocol.After(steps).value.ops[id];
      Returns(stores, op, m.(run := m.run.(commitID := op.run.commitID)))
  {
    ManifestInOrder(eval, actions, schedule, record, m);
    UpdateReturnsManifest(steps, more, stores, id, repo, m);
  }

  /** When all actions have returned, what a listing tells of a hook: completed if and only if
      it was called and returned success; skipped if and only if nothing was done about it;
      failed if and only if it returned a failure or its expression had no truth value. */
  lemma StatusTellsOutcome(eval: (string, bool) -> EvalOutcome, rows: seq<seq<Task>>, schedule: seq<(nat, Event)>,
                           record: HookRecord, m: RunManifest, i: nat, j: nat, shown: HookRun)
    requires CanStart(rows) && After(eval, StartAll(rows), schedule).Some?
    requires AllReturned(After(eval, StartAll(rows), schedule).value)
    requires IsManifestOf(m, record, Flatten(TasksOf(After(eval, StartAll(rows), schedule).value)))
    requires i < |rows| == |After(eval, StartAll(rows), schedule).value| && j < |After(eval, StartAll(rows), schedule).value[i].tasks|
    requires var k := RecordsBefore(TasksOf(After(eval, StartAll(rows), schedule).value), i) + j;
      k < |m.hooksRun| && TellsHook(shown, m.hooksRun[k])
    ensures var t := After(eval, StartAll(rows), schedule).value[i].tasks[j];
      && (shown.status == Completed <==> ReturnedAtAll(eval, rows, schedule, i, j, false))
      && (shown.status == Failed <==> ReturnedAtAll(eval, rows, schedule, i, j, true) || t.err == IfError)
      && (shown.status == Skipped <==> Untouched(t))
      && (shown.endTime.None? <==> Untouched(t))
  {
    var r := After(eval, StartAll(rows), schedule).value[i];
    PassedIffReturnedSuccess(eval, rows, schedule, record, m, i, j);
    ReturnsAreRecorded(eval, rows, schedule, i, j, true);
    InvAlways(eval, rows, schedule);
    assert RowInv(eval, r);
    assert PastTurn(r, j) ==> HadTurn(eval, r.tasks, j);
  }
}
