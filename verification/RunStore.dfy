/** Saving a run and updating its commit ID: several writes, none of them atomic together. */
module RunStore {
  import opened Options
  import opened Kv
  import opened Manifests
  import opened RunKeys
  import opened RunIterators

  /** One write to the store; the conditional one fails when the key exists. */
  datatype Write = Set(key: string, value: Value) | SetIfAbsent(key: string, value: Value)

  function Apply(store: Records, w: Write): Option<Records> {
    if w.SetIfAbsent? && w.key in store then None else Some(store[w.key := w.value])
  }

  /** Writes in order, up to the first that fails. */
  function Execute(store: Records, ws: seq<Write>): (Records, bool)
    decreases |ws|
  {
    if ws == [] then (store, true)
    else
      match Apply(store, ws[0])
      case None => (store, false)
      case Some(next) => Execute(next, ws[1..])
  }

  function IndexWrites(repo: string, run: RunResult): seq<Write> {
    var primary := IndexV(RunPath(repo, run.runID));
    (if run.branchID != "" then [Set(RunByBranchPath(repo, run.branchID, run.runID), primary)] else [])
    + (if run.commitID != "" then [Set(RunByCommitPath(repo, run.commitID, run.runID), primary)] else [])
  }

  function TaskWrite(repo: string, runID: string, t: TaskResult): Write {
    SetIfAbsent(TaskPath(repo, runID, t.hookRunID), TaskV(t))
  }

  function TaskWrites(repo: string, runID: string, tasks: seq<TaskResult>): seq<Write> {
    seq(|tasks|, i requires 0 <= i < |tasks| => TaskWrite(repo, runID, tasks[i]))
  }

  function RunWrite(repo: string, run: RunResult): Write {
    Set(RunPath(repo, run.runID), RunV(run))
  }

  /** What saving a run with these tasks writes: the tasks, the indexes, and the run last. */
  function Writes(repo: string, tasks: seq<TaskResult>, run: RunResult): seq<Write> {
    TaskWrites(repo, run.runID, tasks) + IndexWrites(repo, run) + [RunWrite(repo, run)]
  }

  /** None of these tasks is stored yet, and no two have one ID. */
  ghost predicate NewTasks(store: Records, repo: string, runID: string, tasks: seq<TaskResult>) {
    && (forall i :: 0 <= i < |tasks| ==> TaskPath(repo, runID, tasks[i].hookRunID) !in store)
    && forall i, j :: 0 <= i < j < |tasks| ==> tasks[i].hookRunID != tasks[j].hookRunID
  }

  lemma {:induction false} SetsSucceed(store: Records, ws: seq<Write>)
    requires forall i :: 0 <= i < |ws| ==> ws[i].Set?
    ensures Execute(store, ws).1
    decreases |ws|
  {
    if ws != [] {
      SetsSucceed(store[ws[0].key := ws[0].value], ws[1..]);
    }
  }

  lemma NewTasksFirst(store: Records, repo: string, runID: string, tasks: seq<TaskResult>)
    requires tasks != [] && TaskPath(repo, runID, tasks[0].hookRunID) !in store
    ensures NewTasks(store, repo, runID, tasks) <==>
      NewTasks(store[TaskPath(repo, runID, tasks[0].hookRunID) := TaskV(tasks[0])], repo, runID, tasks[1..])
  {
    var k, rest := TaskPath(repo, runID, tasks[0].hookRunID), tasks[1..];
    forall i | 0 < i < |tasks|
      ensures TaskPath(repo, runID, tasks[i].hookRunID) == k <==> tasks[i].hookRunID == tasks[0].hookRunID
      ensures rest[i - 1] == tasks[i]
    {
      SameLast(TasksPath(repo, runID), tasks[i].hookRunID, tasks[0].hookRunID);
    }
    assert forall i, j :: 0 < i < j < |tasks| ==> (tasks[i].hookRunID != tasks[j].hookRunID <==> rest[i - 1].hookRunID != rest[j - 1].hookRunID);
    if NewTasks(store[k := TaskV(tasks[0])], repo, runID, rest) {
      forall i, j | 0 <= i < j < |tasks|
        ensures tasks[i].hookRunID != tasks[j].hookRunID
      {
        assert rest[j - 1] == tasks[j];
        if i > 0 {
          assert rest[i - 1] == tasks[i];
        }
      }
      forall i | 0 <= i < |tasks|
        ensures TaskPath(repo, runID, tasks[i].hookRunID) !in store
      {
        assert i > 0 ==> rest[i - 1] == tasks[i];
      }
    }
  }

  lemma SameLast(a: string, x: string, y: string)
    ensures Path(a, x) == Path(a, y) <==> x == y
  {
    assert Path(a, x)[|a| + 1..] == x && Path(a, y)[|a| + 1..] == y;
  }

  /** Saving succeeds if and only if all tasks are new. */
  lemma {:induction false} SaveSucceedsIff(store: Records, repo: string, tasks: seq<TaskResult>, run: RunResult)
    ensures Execute(store, Writes(repo, tasks, run)).1 <==> NewTasks(store, repo, run.runID, tasks)
    decreases |tasks|
  {
    if tasks == [] {
      SetsSucceed(store, Writes(repo, [], run));
    } else {
      var ws, t := Writes(repo, tasks, run), tasks[0];
      assert ws[0] == TaskWrite(repo, run.runID, t) && ws[1..] == Writes(repo, tasks[1..], run);
      if TaskPath(repo, run.runID, t.hookRunID) !in store {
        SaveSucceedsIff(store[TaskPath(repo, run.runID, t.hookRunID) := TaskV(t)], repo, tasks[1..], run);
        NewTasksFirst(store, repo, run.runID, tasks);
      }
    }
  }

  /** The tasks stored at a set of keys, in key order. */
  ghost function Tasks(store: Records, keys: set<string>): seq<TaskResult>
    requires AllTasks(store, keys)
  {
    SortedLists(keys);
    TasksAt(store, Sorted(keys))
  }

  function TasksAt(store: Records, ks: seq<string>): seq<TaskResult>
    requires forall k :: k in ks ==> k in store && store[k].TaskV?
  {
    seq(|ks|, i requires 0 <= i < |ks| => store[ks[i]].task)
  }

  ghost predicate AllTasks(store: Records, keys: set<string>) {
    forall k :: k in keys ==> k in store && store[k].TaskV?
  }

  function StoredRun(store: Records, repo: string, runID: string): Option<RunResult> {
    var k := RunPath(repo, runID);
    if k in store && store[k].RunV? then Some(store[k].run) else None
  }

  /** No such run, or it has this commit already. */
  predicate NoUpdateNeeded(store: Records, repo: string, runID: string, commitID: string) {
    var k := RunPath(repo, runID);
    k in store ==> store[k].RunV? && store[k].run.commitID == commitID
  }

  datatype UpdateResult = NoRunID | NothingToDo | Updated(manifest: RunManifest) | BadRecord

  class ActionsStore {
    var store: Records

    constructor ()
      ensures store == map[]
    {
      store := map[];
    }

    /** saveRunManifest. */
    method SaveRunManifest(repo: string, manifest: RunManifest) returns (ok: bool)
      modifies this
      ensures (store, ok) == Execute(old(store), Writes(repo, manifest.hooksRun, manifest.run))
      ensures ok <==> NewTasks(old(store), repo, manifest.run.runID, manifest.hooksRun)
    {
      SaveSucceedsIff(store, repo, manifest.hooksRun, manifest.run);
      ghost var ws := Writes(repo, manifest.hooksRun, manifest.run);
      for i := 0 to |manifest.hooksRun|
        invariant Execute(old(store), ws) == Execute(store, ws[i..])
      {
        var t := manifest.hooksRun[i];
        var taskKey := TaskPath(repo, manifest.run.runID, t.hookRunID);
        assert ws[i..][0] == TaskWrite(repo, manifest.run.runID, t) && ws[i..][1..] == ws[i + 1..];
        if taskKey in store {
          return false;
        }
        store := store[taskKey := TaskV(t)];
      }
      assert ws[|manifest.hooksRun|..] == Writes(repo, [], manifest.run);
      StoreRun(repo, manifest.run);
      ok := true;
    }

    /** storeRun: the indexes first, the run last. */
    method StoreRun(repo: string, run: RunResult)
      modifies this
      ensures (store, true) == Execute(old(store), Writes(repo, [], run))
    {
      var runKey := RunPath(repo, run.runID);
      ghost var ws := Writes(repo, [], run);
      assert Execute(store, [RunWrite(repo, run)]) == (store[runKey := RunV(run)], true);
      if run.branchID != "" {
        assert ws[0] == Set(RunByBranchPath(repo, run.branchID, run.runID), IndexV(runKey));
        store := store[RunByBranchPath(repo, run.branchID, run.runID) := IndexV(runKey)];
        ws := ws[1..];
      }
      assert Execute(old(store), Writes(repo, [], run)) == Execute(store, ws);
      if run.commitID != "" {
        assert ws[0] == Set(RunByCommitPath(repo, run.commitID, run.runID), IndexV(runKey));
        store := store[RunByCommitPath(repo, run.commitID, run.runID) := IndexV(runKey)];
        ws := ws[1..];
      }
      assert ws == [RunWrite(repo, run)];
      assert Execute(store, ws) == Execute(store[runKey := RunV(run)], []) by {
        assert ws[1..] == [];
      }
      store := store[runKey := RunV(run)];
    }

    /** UpdateCommitID: store the run again under its commit, and read its tasks back. */
    method UpdateCommitID(repo: string, runID: string, commitID: string) returns (r: UpdateResult)
      modifies this
      ensures r == NoRunID <==> runID == ""
      ensures r == NothingToDo <==> runID != "" && NoUpdateNeeded(old(store), repo, runID, commitID)
      ensures runID != "" && RunPath(repo, runID) !in old(store) ==> r == NothingToDo
      ensures runID != "" && StoredRun(old(store), repo, runID).Some? ==>
        (r == NothingToDo <==> StoredRun(old(store), repo, runID).value.commitID == commitID)
      ensures r == NoRunID || r == NothingToDo ==> store == old(store)
      ensures r.Updated? ==> StoredRun(old(store), repo, runID).Some?
      ensures r.Updated? ==> r.manifest.run == StoredRun(old(store), repo, runID).value.(commitID := commitID)
      ensures r.Updated? ==> store == Execute(old(store), Writes(repo, [], r.manifest.run)).0
      ensures r.Updated? ==> AllTasks(store, TaskKeys(store, repo, runID, ""))
      ensures r.Updated? ==> r.manifest.hooksRun == Tasks(store, TaskKeys(store, repo, runID, ""))
      ensures r == BadRecord ==> StoredRun(old(store), repo, runID).None? || !AllTasks(store, TaskKeys(store, repo, runID, ""))
    {
      if runID == "" {
        return NoRunID;
      }
      var runKey := RunPath(repo, runID);
      if runKey !in store {
        return NothingToDo;
      }
      if !store[runKey].RunV? {
        return BadRecord;
      }
      var run := store[runKey].run;
      if run.commitID == commitID {
        return NothingToDo;
      }
      run := run.(commitID := commitID);
      StoreRun(repo, run);
      var tasks := ReadTasks(store, repo, runID);
      r := match tasks case None => BadRecord case Some(ts) => Updated(RunManifest(run, ts));
    }
  }

  /** The tasks read so far are those of the first keys; the keys that are left follow. */
  ghost predicate ReadSoFar(store: Records, all: seq<string>, tasks: seq<TaskResult>, left: seq<string>) {
    && |all| == |tasks| + |left|
    && (forall i :: 0 <= i < |tasks| ==> all[i] in store && store[all[i]] == TaskV(tasks[i]))
    && (forall i :: 0 <= i < |left| ==> all[|tasks| + i] == left[i])
  }

  lemma ReadNext(store: Records, all: seq<string>, tasks: seq<TaskResult>, left: seq<string>)
    requires ReadSoFar(store, all, tasks, left) && left != [] && left[0] in store && store[left[0]].TaskV?
    ensures ReadSoFar(store, all, tasks + [store[left[0]].task], left[1..])
  {
    assert all[|tasks| + 0] == left[0];
    forall i | 0 <= i < |left| - 1
      ensures all[|tasks| + 1 + i] == left[1..][i]
    {
      assert all[|tasks| + (i + 1)] == left[i + 1];
    }
  }

  lemma ReadOne(store: Records, all: seq<string>, tasks: seq<TaskResult>, rest: set<string>)
    requires ReadSoFar(store, all, tasks, Sorted(rest)) && rest != {}
    requires Least(rest) in store && store[Least(rest)].TaskV?
    ensures ReadSoFar(store, all, tasks + [store[Least(rest)].task], Sorted(rest - {Least(rest)}))
  {
    SortedFirst(rest);
    ReadNext(store, all, tasks, Sorted(rest));
    assert Sorted(rest)[1..] == Sorted(rest - {Least(rest)});
  }

  lemma ReadAll(store: Records, keys: set<string>, tasks: seq<TaskResult>)
    requires ReadSoFar(store, Sorted(keys), tasks, [])
    ensures AllTasks(store, keys) && Tasks(store, keys) == tasks
  {
    SortedLists(keys);
    forall k | k in keys
      ensures k in store && store[k].TaskV?
    {
      assert k in Sorted(keys);
    }
  }

  /** Collecting all tasks of a run with the iterator. */
  method ReadTasks(store: Records, repo: string, runID: string) returns (r: Option<seq<TaskResult>>)
    ensures r.Some? <==> AllTasks(store, TaskKeys(store, repo, runID, ""))
    ensures r.Some? ==> r.value == Tasks(store, TaskKeys(store, repo, runID, ""))
  {
    ghost var keys := TaskKeys(store, repo, runID, "");
    var it := new KVTaskResultIterator(store, repo, runID, "");
    var tasks: seq<TaskResult> := [];
    ghost var rest := keys;
    while true
      invariant it.Valid() && it.it.store == store && !it.err && it.Pending() == rest && rest <= keys
      invariant ReadSoFar(store, Sorted(keys), tasks, Sorted(rest))
      decreases |rest|
    {
      var ok := it.Next();
      if !ok {
        break;
      }
      ReadOne(store, Sorted(keys), tasks, rest);
      rest := it.Pending();
      var res := it.Value();
      if res.None? {
        return None;
      }
      tasks := tasks + [res.value];
    }
    if it.err {
      return None;
    }
    ReadAll(store, keys, tasks);
    r := Some(tasks);
  }
}
