/** Savers and updaters of runs at work together on one store, each going through its writes
    one at a time, and each able to stop for good between any two of them. */
module RunProtocol {
  import opened Options
  import opened Kv
  import opened Manifests
  import opened RunKeys
  import opened RunIterators
  import opened RunStore

  /** A saver (with the tasks of its manifest) or an updater (with none), after some writes. */
  datatype Op = Op(repo: string, run: RunResult, tasks: seq<TaskResult>, done: nat)

  function WritesOf(op: Op): seq<Write> {
    Writes(op.repo, op.tasks, op.run)
  }

  /** The store, the operations under way, and the saves begun so far. */
  datatype State = State(store: Records, ops: map<nat, Op>, saves: set<(string, RunManifest)>)

  datatype Step =
    | BeginSave(id: nat, repo: string, manifest: RunManifest)
    | BeginUpdate(id: nat, repo: string, runID: string, commitID: string)
    | WriteNext(id: nat)
    | Stop(id: nat)

  predicate SimpleIds(repo: string, m: RunManifest) {
    SimpleRun(repo, m.run) && forall i :: 0 <= i < |m.hooksRun| ==> Simple(m.hooksRun[i].hookRunID)
  }

  /** The state after a step, if the step can happen. An updater reads the run when it begins. */
  function Next(s: State, step: Step): Option<State> {
    match step
    case BeginSave(id, repo, m) =>
      if id in s.ops || !SimpleIds(repo, m) then None
      else Some(s.(ops := s.ops[id := Op(repo, m.run, m.hooksRun, 0)], saves := s.saves + {(repo, m)}))
    case BeginUpdate(id, repo, runID, commitID) =>
      var run := StoredRun(s.store, repo, runID);
      if id in s.ops || !Simple(repo) || !Simple(commitID) || run.None? || run.value.commitID == commitID then None
      else Some(s.(ops := s.ops[id := Op(repo, run.value.(commitID := commitID), [], 0)]))
    case WriteNext(id) =>
      if id !in s.ops || s.ops[id].done >= |WritesOf(s.ops[id])| then None
      else (
        var op := s.ops[id];
        match Apply(s.store, WritesOf(op)[op.done])
        case None => Some(s.(ops := s.ops - {id}))
        case Some(store) => Some(s.(store := store, ops := s.ops[id := op.(done := op.done + 1)])))
    case Stop(id) => if id in s.ops then Some(s.(ops := s.ops - {id})) else None
  }

  const INITIAL := State(map[], map[], {})

  function After(steps: seq<Step>): Option<State> {
    if steps == [] then Some(INITIAL)
    else
      match After(steps[..|steps| - 1])
      case None => None
      case Some(s) => Next(s, steps[|steps| - 1])
  }

  // ----- what always holds -----

  predicate Present(store: Records, w: Write) {
    w.key in store && (if w.value.RunV? then store[w.key].RunV? else store[w.key] == w.value)
  }

  /** No record is lost: tasks and index entries stay as they are, runs stay runs. */
  predicate Grows(a: Records, b: Records) {
    forall k :: k in a ==> Present(b, Set(k, a[k]))
  }

  ghost predicate TasksStored(store: Records, repo: string, runID: string, tasks: seq<TaskResult>) {
    forall i :: 0 <= i < |tasks| ==> Present(store, TaskWrite(repo, runID, tasks[i]))
  }

  /** The run comes from a save; only its commit ID may have changed since. */
  predicate SavedAs(saves: set<(string, RunManifest)>, repo: string, m: RunManifest, run: RunResult) {
    (repo, m) in saves && run == m.run.(commitID := run.commitID)
  }

  ghost predicate IndexesStored(store: Records, repo: string, run: RunResult) {
    forall w :: w in IndexWrites(repo, run) ==> Present(store, w)
  }

  /** A stored run has its index entries, and all tasks it was saved with. */
  ghost predicate Whole(s: State, repo: string, run: RunResult) {
    && IndexesStored(s.store, repo, run)
    && exists m :: SavedAs(s.saves, repo, m, run) && TasksStored(s.store, repo, run.runID, m.hooksRun)
  }

  ghost predicate RunsAreWhole(s: State) {
    forall repo: string, runID: string :: Simple(repo) && StoredRun(s.store, repo, runID).Some? ==>
      Whole(s, repo, StoredRun(s.store, repo, runID).value) && StoredRun(s.store, repo, runID).value.runID == runID
  }

  /** What an operation has written is there, and what it will write has a save behind it. */
  ghost predicate OpOk(s: State, op: Op) {
    && op.done <= |WritesOf(op)| && SimpleRun(op.repo, op.run)
    && (forall i :: 0 <= i < op.done ==> Present(s.store, WritesOf(op)[i]))
    && exists m :: Backs(s, op, m)
  }

  /** A save of this run: the operation is that save, or its tasks are already stored. */
  ghost predicate Backs(s: State, op: Op, m: RunManifest) {
    && SavedAs(s.saves, op.repo, m, op.run)
    && (op.tasks == m.hooksRun || (op.tasks == [] && TasksStored(s.store, op.repo, op.run.runID, m.hooksRun)))
  }

  /** Every stored task comes from a save. */
  ghost predicate TasksHaveSaves(s: State) {
    forall k :: k in s.store && s.store[k].TaskV? ==> exists repo, m, i: nat :: TaskOfSave(s, k, repo, m, i)
  }

  predicate TaskOfSave(s: State, k: string, repo: string, m: RunManifest, i: nat) {
    && (repo, m) in s.saves && i < |m.hooksRun|
    && k == TaskPath(repo, m.run.runID, m.hooksRun[i].hookRunID)
    && k in s.store && s.store[k] == TaskV(m.hooksRun[i])
  }

  ghost predicate Inv(s: State) {
    && (forall k :: k in s.store ==> Keyed(k, s.store[k]))
    && (forall repo, m :: (repo, m) in s.saves ==> SimpleIds(repo, m))
    && (forall id :: id in s.ops ==> OpOk(s, s.ops[id]))
    && RunsAreWhole(s)
    && TasksHaveSaves(s)
  }

  // ----- one write -----

  lemma WriteShape(op: Op, i: nat)
    requires i < |WritesOf(op)|
    ensures var w := WritesOf(op)[i];
      if i < |op.tasks| then w == TaskWrite(op.repo, op.run.runID, op.tasks[i])
      else if i < |WritesOf(op)| - 1 then w in IndexWrites(op.repo, op.run)
      else w == RunWrite(op.repo, op.run)
    ensures |op.tasks| < |WritesOf(op)|
  {
    var ws := IndexWrites(op.repo, op.run);
    if |op.tasks| <= i < |WritesOf(op)| - 1 {
      assert WritesOf(op)[i] == ws[i - |op.tasks|];
    }
  }

  lemma IndexWriteKeyed(repo: string, run: RunResult, w: Write)
    requires w in IndexWrites(repo, run) && SimpleRun(repo, run)
    ensures w.Set? && w.value == IndexV(RunPath(repo, run.runID)) && Keyed(w.key, w.value)
  {
    var x := if w.key == RunByBranchPath(repo, run.branchID, run.runID) then run.branchID else run.commitID;
    assert IndexesRun(w.key, w.value.primaryKey, repo, x, run.runID);
  }

  ghost predicate OpSimple(op: Op) {
    SimpleRun(op.repo, op.run) && forall i :: 0 <= i < |op.tasks| ==> Simple(op.tasks[i].hookRunID)
  }

  lemma WriteKeyed(op: Op, i: nat)
    requires i < |WritesOf(op)| && OpSimple(op)
    ensures var w := WritesOf(op)[i]; Keyed(w.key, w.value)
  {
    WriteShape(op, i);
    if |op.tasks| <= i < |WritesOf(op)| - 1 {
      IndexWriteKeyed(op.repo, op.run, WritesOf(op)[i]);
    }
  }

  lemma WriteGrows(store: Records, w: Write)
    requires forall k :: k in store ==> Keyed(k, store[k])
    requires Keyed(w.key, w.value) && (w.value.TaskV? ==> w.SetIfAbsent?)
    requires Apply(store, w).Some?
    ensures Grows(store, Apply(store, w).value)
  {
    if w.key in store {
      KeyedAgree(w.key, store[w.key], w.value);
    }
  }

  lemma PresentGrows(a: Records, b: Records, w: Write)
    requires Grows(a, b) && Present(a, w)
    ensures Present(b, w)
  {
    assert Present(b, Set(w.key, a[w.key]));
  }

  lemma WholeGrows(s: State, t: State, repo: string, run: RunResult)
    requires Grows(s.store, t.store) && s.saves <= t.saves && Whole(s, repo, run)
    ensures Whole(t, repo, run)
  {
    forall w | w in IndexWrites(repo, run)
      ensures Present(t.store, w)
    {
      PresentGrows(s.store, t.store, w);
    }
    var m :| SavedAs(s.saves, repo, m, run) && TasksStored(s.store, repo, run.runID, m.hooksRun);
    TasksGrow(s.store, t.store, repo, run.runID, m.hooksRun);
    assert SavedAs(t.saves, repo, m, run);
  }

  lemma TasksGrow(a: Records, b: Records, repo: string, runID: string, tasks: seq<TaskResult>)
    requires Grows(a, b) && TasksStored(a, repo, runID, tasks)
    ensures TasksStored(b, repo, runID, tasks)
  {
    forall i | 0 <= i < |tasks|
      ensures Present(b, TaskWrite(repo, runID, tasks[i]))
    {
      PresentGrows(a, b, TaskWrite(repo, runID, tasks[i]));
    }
  }

  lemma OpGrows(s: State, t: State, op: Op)
    requires Grows(s.store, t.store) && s.saves <= t.saves && OpOk(s, op)
    ensures OpOk(t, op)
  {
    forall i | 0 <= i < op.done
      ensures Present(t.store, WritesOf(op)[i])
    {
      PresentGrows(s.store, t.store, WritesOf(op)[i]);
    }
    var m :| Backs(s, op, m);
    if op.tasks == [] && TasksStored(s.store, op.repo, op.run.runID, m.hooksRun) {
      TasksGrow(s.store, t.store, op.repo, op.run.runID, m.hooksRun);
    }
    assert Backs(t, op, m);
  }

  lemma GrowsItself(a: Records)
    ensures Grows(a, a)
  {}

  /** When an operation comes to its last write, the run it stores is whole. */
  lemma LastWriteIsWhole(s: State, op: Op)
    requires OpOk(s, op) && op.done == |WritesOf(op)| - 1
    ensures Whole(s, op.repo, op.run)
  {
    forall w | w in IndexWrites(op.repo, op.run)
      ensures Present(s.store, w)
    {
      var i :| 0 <= i < |IndexWrites(op.repo, op.run)| && IndexWrites(op.repo, op.run)[i] == w;
      assert WritesOf(op)[|op.tasks| + i] == w;
    }
    var m :| Backs(s, op, m);
    if op.tasks == m.hooksRun {
      forall i | 0 <= i < |op.tasks|
        ensures Present(s.store, TaskWrite(op.repo, op.run.runID, op.tasks[i]))
      {
        assert WritesOf(op)[i] == TaskWrite(op.repo, op.run.runID, op.tasks[i]);
      }
    }
  }

  lemma SaveIsSimple(s: State, op: Op)
    requires Inv(s) && OpOk(s, op)
    ensures OpSimple(op)
  {
    var m :| Backs(s, op, m);
    assert SimpleIds(op.repo, m);
  }

  // ----- every step -----

  lemma WriteKeepsRuns(s: State, t: State, op: Op)
    requires Inv(s) && OpOk(s, op) && op.done < |WritesOf(op)| && Grows(s.store, t.store)
    requires Apply(s.store, WritesOf(op)[op.done]) == Some(t.store) && t.saves == s.saves
    ensures RunsAreWhole(t)
  {
    var w := WritesOf(op)[op.done];
    WriteShape(op, op.done);
    forall repo: string, runID: string | Simple(repo) && StoredRun(t.store, repo, runID).Some?
      ensures Whole(t, repo, StoredRun(t.store, repo, runID).value) && StoredRun(t.store, repo, runID).value.runID == runID
    {
      if w.key == RunPath(repo, runID) {
        if |op.tasks| <= op.done < |WritesOf(op)| - 1 {
          IndexWriteKeyed(op.repo, op.run, w);
        }
        RunPathIsInjective(op.repo, op.run.runID, repo, runID);
        LastWriteIsWhole(s, op);
        WholeGrows(s, t, repo, op.run);
      } else {
        WholeGrows(s, t, repo, StoredRun(s.store, repo, runID).value);
      }
    }
  }

  lemma WriteKeepsTasks(s: State, t: State, op: Op)
    requires Inv(s) && OpOk(s, op) && op.done < |WritesOf(op)| && Grows(s.store, t.store)
    requires Apply(s.store, WritesOf(op)[op.done]) == Some(t.store) && t.saves == s.saves
    ensures TasksHaveSaves(t)
  {
    var w := WritesOf(op)[op.done];
    WriteShape(op, op.done);
    if |op.tasks| <= op.done < |WritesOf(op)| - 1 {
      IndexWriteKeyed(op.repo, op.run, w);
    }
    forall k | k in t.store && t.store[k].TaskV?
      ensures exists repo, m, i: nat :: TaskOfSave(t, k, repo, m, i)
    {
      if k == w.key {
        var m :| Backs(s, op, m);
        assert TaskOfSave(t, k, op.repo, m, op.done);
      } else {
        var repo, m, i: nat :| TaskOfSave(s, k, repo, m, i);
        assert TaskOfSave(t, k, repo, m, i);
      }
    }
  }

  lemma WriteKeepsKeys(s: State, op: Op, store: Records)
    requires Inv(s) && OpOk(s, op) && op.done < |WritesOf(op)| && Apply(s.store, WritesOf(op)[op.done]) == Some(store)
    ensures Grows(s.store, store) && forall k :: k in store ==> Keyed(k, store[k])
  {
    var w := WritesOf(op)[op.done];
    SaveIsSimple(s, op);
    WriteKeyed(op, op.done);
    WriteShape(op, op.done);
    if |op.tasks| <= op.done < |WritesOf(op)| - 1 {
      IndexWriteKeyed(op.repo, op.run, w);
    }
    WriteGrows(s.store, w);
  }

  lemma WriterMoves(s: State, t: State, op: Op)
    requires OpOk(s, op) && op.done < |WritesOf(op)| && Grows(s.store, t.store) && s.saves <= t.saves
    requires Apply(s.store, WritesOf(op)[op.done]) == Some(t.store)
    ensures OpOk(t, op.(done := op.done + 1))
  {
    OpGrows(s, t, op);
    var m :| Backs(t, op, m);
    var next := op.(done := op.done + 1);
    assert WritesOf(next) == WritesOf(op);
    assert Backs(t, next, m);
  }

  lemma WriteKeepsInv(s: State, id: nat)
    requires Inv(s) && Next(s, WriteNext(id)).Some?
    ensures Inv(Next(s, WriteNext(id)).value)
  {
    var t, op := Next(s, WriteNext(id)).value, s.ops[id];
    if Apply(s.store, WritesOf(op)[op.done]).None? {
      StopKeepsInv(s, id);
    } else {
      WriteKeepsKeys(s, op, t.store);
      WriteKeepsRuns(s, t, op);
      WriteKeepsTasks(s, t, op);
      WriterMoves(s, t, op);
      forall i | i in t.ops && i != id
        ensures OpOk(t, t.ops[i])
      {
        OpGrows(s, t, s.ops[i]);
      }
    }
  }

  lemma StopKeepsInv(s: State, id: nat)
    requires Inv(s) && id in s.ops
    ensures Inv(s.(ops := s.ops - {id}))
  {
    var t := s.(ops := s.ops - {id});
    GrowsItself(s.store);
    SameStoreKeeps(s, t);
    forall i | i in t.ops
      ensures OpOk(t, t.ops[i])
    {
      OpGrows(s, t, s.ops[i]);
    }
  }

  lemma SameStoreKeeps(s: State, t: State)
    requires Inv(s) && t.store == s.store && s.saves <= t.saves
    ensures RunsAreWhole(t) && TasksHaveSaves(t)
  {
    GrowsItself(s.store);
    forall repo: string, runID: string | Simple(repo) && StoredRun(t.store, repo, runID).Some?
      ensures Whole(t, repo, StoredRun(t.store, repo, runID).value) && StoredRun(t.store, repo, runID).value.runID == runID
    {
      WholeGrows(s, t, repo, StoredRun(s.store, repo, runID).value);
    }
    forall k | k in t.store && t.store[k].TaskV?
      ensures exists repo, m, i: nat :: TaskOfSave(t, k, repo, m, i)
    {
      var repo, m, i: nat :| TaskOfSave(s, k, repo, m, i);
      assert TaskOfSave(t, k, repo, m, i);
    }
  }

  lemma BeginKeepsInv(s: State, step: Step)
    requires Inv(s) && (step.BeginSave? || step.BeginUpdate?) && Next(s, step).Some?
    ensures Inv(Next(s, step).value)
  {
    var t := Next(s, step).value;
    GrowsItself(s.store);
    SameStoreKeeps(s, t);
    forall i | i in t.ops
      ensures OpOk(t, t.ops[i])
    {
      if i in s.ops && t.ops[i] == s.ops[i] {
        OpGrows(s, t, s.ops[i]);
      } else if step.BeginSave? {
        assert Backs(t, t.ops[i], step.manifest);
      } else {
        UpdateBegins(s, t, step);
      }
    }
  }

  lemma UpdateBegins(s: State, t: State, step: Step)
    requires Inv(s) && step.BeginUpdate? && Next(s, step) == Some(t)
    ensures OpOk(t, t.ops[step.id])
  {
    var run := StoredRun(s.store, step.repo, step.runID).value;
    assert Whole(s, step.repo, run);
    var m :| SavedAs(s.saves, step.repo, m, run) && TasksStored(s.store, step.repo, run.runID, m.hooksRun);
    assert SimpleIds(step.repo, m);
    assert Backs(t, t.ops[step.id], m);
  }

  lemma {:induction false} InvAlways(steps: seq<Step>)
    requires After(steps).Some?
    ensures Inv(After(steps).value)
  {
    if steps != [] {
      var before, step := steps[..|steps| - 1], steps[|steps| - 1];
      InvAlways(before);
      var s := After(before).value;
      match step
      case WriteNext(id) => WriteKeepsInv(s, id);
      case Stop(id) => StopKeepsInv(s, id);
      case _ => BeginKeepsInv(s, step);
    }
  }
}
