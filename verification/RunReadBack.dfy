/** What a reader finds in the store at any moment of any interleaving. */
module RunReadBack {
  import opened Kv
  import opened Manifests
  import opened RunKeys
  import opened RunIterators
  import opened RunStore
  import opened RunProtocol

  /** At every moment, so wherever an operation may have stopped for good: a stored run has its
      entry in the branch index and its entry under its present commit ID, both pointing at
      it, and all tasks it was saved with are stored unchanged. */
  lemma StoredRunIsWhole(steps: seq<Step>, repo: string, runID: string)
    requires After(steps).Some? && Simple(repo)
    requires StoredRun(After(steps).value.store, repo, runID).Some?
    ensures var store := After(steps).value.store;
      var run := StoredRun(store, repo, runID).value;
      && run.runID == runID
      && (run.branchID != "" ==>
            Present(store, Set(RunByBranchPath(repo, run.branchID, runID), IndexV(RunPath(repo, runID)))))
      && (run.commitID != "" ==>
            Present(store, Set(RunByCommitPath(repo, run.commitID, runID), IndexV(RunPath(repo, runID)))))
      && exists m :: SavedAs(After(steps).value.saves, repo, m, run) && TasksStored(store, repo, runID, m.hooksRun)
  {
    InvAlways(steps);
    var s := After(steps).value;
    var run := StoredRun(s.store, repo, runID).value;
    assert Whole(s, repo, run);
    var ws := IndexWrites(repo, run);
    if run.branchID != "" {
      assert ws[0] == Set(RunByBranchPath(repo, run.branchID, runID), IndexV(RunPath(repo, runID))) && ws[0] in ws;
    }
    if run.commitID != "" {
      assert ws[|ws| - 1] == Set(RunByCommitPath(repo, run.commitID, runID), IndexV(RunPath(repo, runID))) && ws[|ws| - 1] in ws;
    }
  }

  // ----- reading the tasks of a run -----

  /** No other saved run of the repository has an ID that this run's ID begins. */
  ghost predicate NoOtherExtends(saves: set<(string, RunManifest)>, repo: string, m: RunManifest) {
    forall other :: (repo, other) in saves && HasPrefix(other.run.runID, m.run.runID) ==> other == m
  }

  /** So it is when run IDs are unique and of one length. */
  lemma EqualLengthsDoNotExtend(saves: set<(string, RunManifest)>, repo: string, m: RunManifest)
    requires forall other :: (repo, other) in saves ==>
      |other.run.runID| == |m.run.runID| && (other.run.runID == m.run.runID ==> other == m)
    ensures NoOtherExtends(saves, repo, m)
  {
    forall other | (repo, other) in saves && HasPrefix(other.run.runID, m.run.runID)
      ensures other == m
    {
      assert other.run.runID[..|m.run.runID|] == other.run.runID;
    }
  }

  predicate IdsInOrder(tasks: seq<TaskResult>) {
    forall i, j :: 0 <= i < j < |tasks| ==> Less(tasks[i].hookRunID, tasks[j].hookRunID)
  }

  /** The stored tasks under a run's prefix are those of one manifest. */
  ghost predicate HoldsExactly(store: Records, repo: string, m: RunManifest) {
    && TasksStored(store, repo, m.run.runID, m.hooksRun)
    && forall k :: k in TaskKeys(store, repo, m.run.runID, "") ==>
      exists i :: 0 <= i < |m.hooksRun| && k == TaskPath(repo, m.run.runID, m.hooksRun[i].hookRunID)
  }

  lemma PrefixWithinFirst(a: string, x: string, p: string)
    requires Simple(p) && HasPrefix(Path(a, x), p)
    ensures HasPrefix(a, p)
  {
    var s := Path(a, x);
    assert s[|a|] == DELIMITER && forall i :: 0 <= i < |p| ==> s[i] == s[..|p|][i] == p[i];
    assert |p| <= |a|;
    assert s[..|p|] == a[..|p|];
  }

  /** Under a run's prefix there are only tasks, and they were saved with a run whose ID
      begins with this run's. */
  lemma UnderTasksPath(s: State, repo: string, runID: string, k: string)
    requires Inv(s) && Simple(repo) && Simple(runID) && k in s.store && HasPrefix(k, TasksPath(repo, runID))
    ensures exists m, i: nat :: TaskOfSave(s, k, repo, m, i) && HasPrefix(m.run.runID, runID)
  {
    var repo', section, rest := KeyedSection(k, s.store[k]);
    KeyPrefix(repo, TASKS_PREFIX, runID, repo', section, rest);
    var repo2, m, i: nat :| TaskOfSave(s, k, repo2, m, i);
    assert SimpleIds(repo2, m);
    var h := m.hooksRun[i].hookRunID;
    KeyShapes(repo2, h, m.run.runID);
    KeyReadsBack(repo', section, rest, repo2, TASKS_PREFIX, Path(m.run.runID, h));
    PrefixWithinFirst(m.run.runID, h, runID);
    assert TaskOfSave(s, k, repo, m, i);
  }

  lemma OnlyThisRun(s: State, repo: string, m: RunManifest)
    requires Inv(s) && (repo, m) in s.saves && NoOtherExtends(s.saves, repo, m)
    requires TasksStored(s.store, repo, m.run.runID, m.hooksRun)
    ensures HoldsExactly(s.store, repo, m)
  {
    assert SimpleIds(repo, m);
    forall k | k in TaskKeys(s.store, repo, m.run.runID, "")
      ensures exists i :: 0 <= i < |m.hooksRun| && k == TaskPath(repo, m.run.runID, m.hooksRun[i].hookRunID)
    {
      UnderTasksPath(s, repo, m.run.runID, k);
    }
  }

  lemma SavedHoldsExactly(s: State, repo: string, m: RunManifest)
    requires Inv(s) && (repo, m) in s.saves && NoOtherExtends(s.saves, repo, m)
    requires StoredRun(s.store, repo, m.run.runID).Some?
    ensures HoldsExactly(s.store, repo, m)
    ensures StoredRun(s.store, repo, m.run.runID).value == m.run.(commitID := StoredRun(s.store, repo, m.run.runID).value.commitID)
  {
    assert SimpleIds(repo, m);
    var run := StoredRun(s.store, repo, m.run.runID).value;
    assert Whole(s, repo, run);
    var saved :| SavedAs(s.saves, repo, saved, run) && TasksStored(s.store, repo, run.runID, saved.hooksRun);
    assert HasPrefix(saved.run.runID, m.run.runID);
    OnlyThisRun(s, repo, m);
  }

  function PathsOf(repo: string, runID: string, tasks: seq<TaskResult>): seq<string> {
    seq(|tasks|, i requires 0 <= i < |tasks| => TaskPath(repo, runID, tasks[i].hookRunID))
  }

  lemma PathsInOrder(repo: string, runID: string, tasks: seq<TaskResult>)
    requires IdsInOrder(tasks)
    ensures InOrder(PathsOf(repo, runID, tasks))
  {
    var ks := PathsOf(repo, runID, tasks);
    forall i, j | 0 <= i < j < |ks|
      ensures Less(ks[i], ks[j])
    {
      PathOrder(TasksPath(repo, runID), tasks[i].hookRunID, tasks[j].hookRunID);
    }
  }

  lemma TaskKeyListed(store: Records, repo: string, m: RunManifest, i: nat)
    requires TasksStored(store, repo, m.run.runID, m.hooksRun) && i < |m.hooksRun|
    ensures var k := TaskPath(repo, m.run.runID, m.hooksRun[i].hookRunID);
      k in TaskKeys(store, repo, m.run.runID, "") && store[k] == TaskV(m.hooksRun[i])
  {
    assert Present(store, TaskWrite(repo, m.run.runID, m.hooksRun[i]));
    PathExtends(TasksPath(repo, m.run.runID), m.hooksRun[i].hookRunID);
  }

  lemma PathsAreTheKeys(store: Records, repo: string, m: RunManifest)
    requires HoldsExactly(store, repo, m)
    ensures var ks := PathsOf(repo, m.run.runID, m.hooksRun);
      && (forall i :: 0 <= i < |ks| ==> ks[i] in store && store[ks[i]] == TaskV(m.hooksRun[i]))
      && forall k :: k in ks <==> k in TaskKeys(store, repo, m.run.runID, "")
  {
    var keys, ks := TaskKeys(store, repo, m.run.runID, ""), PathsOf(repo, m.run.runID, m.hooksRun);
    forall i | 0 <= i < |ks|
      ensures ks[i] in keys && store[ks[i]] == TaskV(m.hooksRun[i])
    {
      TaskKeyListed(store, repo, m, i);
    }
    forall k | k in keys
      ensures k in ks
    {
      var i :| 0 <= i < |m.hooksRun| && k == TaskPath(repo, m.run.runID, m.hooksRun[i].hookRunID);
      assert ks[i] == k;
    }
  }

  /** Then reading the tasks in key order gives the manifest's tasks in their order. */
  lemma ReadsBackExactly(store: Records, repo: string, m: RunManifest)
    requires HoldsExactly(store, repo, m) && IdsInOrder(m.hooksRun)
    ensures var keys := TaskKeys(store, repo, m.run.runID, "");
      AllTasks(store, keys) && Tasks(store, keys) == m.hooksRun && Sorted(keys) == PathsOf(repo, m.run.runID, m.hooksRun)
  {
    var keys, ks := TaskKeys(store, repo, m.run.runID, ""), PathsOf(repo, m.run.runID, m.hooksRun);
    PathsAreTheKeys(store, repo, m);
    PathsInOrder(repo, m.run.runID, m.hooksRun);
    SortedIsUnique(ks, keys);
    ReadAll(store, keys, m.hooksRun);
  }

  lemma SameSize(a: set<string>, b: set<string>)
    requires a <= b && |a| == |b|
    ensures a == b
  {
    assert b == a + (b - a);
  }

  /** The condition is exact: while a manifest's tasks are stored, reading gives just them if
      and only if nothing else is stored under the run's prefix. */
  lemma ReadsBackIff(store: Records, repo: string, m: RunManifest)
    requires TasksStored(store, repo, m.run.runID, m.hooksRun) && IdsInOrder(m.hooksRun)
    ensures var keys := TaskKeys(store, repo, m.run.runID, "");
      AllTasks(store, keys) && Tasks(store, keys) == m.hooksRun <==> HoldsExactly(store, repo, m)
  {
    var keys, ks := TaskKeys(store, repo, m.run.runID, ""), PathsOf(repo, m.run.runID, m.hooksRun);
    if HoldsExactly(store, repo, m) {
      ReadsBackExactly(store, repo, m);
    }
    if AllTasks(store, keys) && Tasks(store, keys) == m.hooksRun {
      var own := set k | k in ks;
      forall i | 0 <= i < |ks|
        ensures ks[i] in keys
      {
        TaskKeyListed(store, repo, m, i);
      }
      PathsInOrder(repo, m.run.runID, m.hooksRun);
      SortedIsUnique(ks, own);
      SameSize(own, keys);
      forall k | k in keys
        ensures exists i :: 0 <= i < |m.hooksRun| && k == TaskPath(repo, m.run.runID, m.hooksRun[i].hookRunID)
      {
        var i :| 0 <= i < |ks| && ks[i] == k;
      }
    }
  }

  // ----- later states -----

  lemma StepGrows(s: State, step: Step)
    requires Inv(s) && Next(s, step).Some?
    ensures Grows(s.store, Next(s, step).value.store) && s.saves <= Next(s, step).value.saves
  {
    if step.WriteNext? && Apply(s.store, WritesOf(s.ops[step.id])[s.ops[step.id].done]).Some? {
      WriteKeepsKeys(s, s.ops[step.id], Next(s, step).value.store);
    } else {
      GrowsItself(s.store);
    }
  }

  lemma GrowsFurther(a: Records, b: Records, c: Records)
    requires Grows(a, b) && Grows(b, c)
    ensures Grows(a, c)
  {
    forall k | k in a
      ensures Present(c, Set(k, a[k]))
    {
      PresentGrows(b, c, Set(k, b[k]));
    }
  }

  /** Whatever happens later, no record is lost. */
  lemma {:induction false} LaterGrows(steps: seq<Step>, more: seq<Step>)
    requires After(steps + more).Some?
    ensures After(steps).Some?
    ensures Grows(After(steps).value.store, After(steps + more).value.store)
    ensures After(steps).value.saves <= After(steps + more).value.saves
  {
    if more == [] {
      assert steps + more == steps;
      GrowsItself(After(steps).value.store);
    } else {
      var init, all := more[..|more| - 1], steps + more;
      assert all[..|all| - 1] == steps + init && all[|all| - 1] == more[|more| - 1];
      LaterGrows(steps, init);
      InvAlways(steps + init);
      StepGrows(After(steps + init).value, more[|more| - 1]);
      GrowsFurther(After(steps).value.store, After(steps + init).value.store, After(all).value.store);
    }
  }

  // ----- reading key by key -----

  /** A read of a prefix from a start key on, which looks for each next key in a state of its
      own: it finds these tasks, each under the least key that is left then, and then none. */
  ghost predicate Finds(stores: seq<Records>, prefix: string, start: string, tasks: seq<TaskResult>)
    requires |tasks| < |stores|
    decreases |tasks|
  {
    var keys := KeysFrom(stores[0], prefix, start);
    if tasks == [] then keys == {}
    else
      && keys != {}
      && stores[0][Least(keys)] == TaskV(tasks[0])
      && Finds(stores[1..], prefix, Successor(Least(keys)), tasks[1..])
  }

  /** Where the key with this index is looked for: from the start, or behind the one before. */
  function StartAt(start: string, ks: seq<string>, i: nat): string
    requires i <= |ks|
  {
    if i == 0 then start else Successor(ks[i - 1])
  }

  /** None of these comes before the key with this index; behind the last there are none. */
  ghost predicate NoneBefore(keys: set<string>, ks: seq<string>, i: nat) {
    forall k :: k in keys ==> i < |ks| && !Less(k, ks[i])
  }

  /** When a key is looked for, no key of the prefix lies between the one before it and it,
      and none lies after the last. */
  ghost predicate NothingInTheWay(stores: seq<Records>, prefix: string, start: string, ks: seq<string>)
    requires |ks| < |stores|
  {
    forall i :: 0 <= i <= |ks| ==> NoneBefore(KeysFrom(stores[i], prefix, StartAt(start, ks, i)), ks, i)
  }

  /** These keys of the prefix come from the start on, in order, and all the states hold them. */
  ghost predicate HeldInOrder(stores: seq<Records>, prefix: string, start: string, ks: seq<string>) {
    && InOrder(ks)
    && (ks != [] ==> !Less(ks[0], start))
    && (forall j :: 0 <= j < |ks| ==> HasPrefix(ks[j], prefix))
    && forall i, j :: 0 <= i < |stores| && 0 <= j < |ks| ==> ks[j] in stores[i]
  }

  lemma HeldFurther(stores: seq<Records>, prefix: string, start: string, ks: seq<string>)
    requires HeldInOrder(stores, prefix, start, ks) && ks != [] && stores != []
    ensures ks[0] in KeysFrom(stores[0], prefix, start)
    ensures HeldInOrder(stores[1..], prefix, Successor(ks[0]), ks[1..])
  {
    if |ks| > 1 {
      NothingBetween(ks[0], ks[1]);
    }
  }

  lemma HeldBehind(stores: seq<Records>, prefix: string, start: string, ks: seq<string>, k: string)
    requires HeldInOrder(stores, prefix, start, ks) && ks != [] && stores != []
    requires Less(k, ks[0])
    ensures HeldInOrder(stores[1..], prefix, Successor(k), ks)
  {
    NothingBetween(k, ks[0]);
  }

  /** A read that may meet other keys finds at least as many as these. */
  lemma {:induction false} FindsAtLeast(stores: seq<Records>, prefix: string, start: string, ks: seq<string>, tasks: seq<TaskResult>)
    requires |tasks| < |stores| && HeldInOrder(stores, prefix, start, ks) && Finds(stores, prefix, start, tasks)
    ensures |ks| <= |tasks|
    decreases |tasks|
  {
    if ks != [] {
      HeldFurther(stores, prefix, start, ks);
      var k := Least(KeysFrom(stores[0], prefix, start));
      if k == ks[0] {
        FindsAtLeast(stores[1..], prefix, Successor(k), ks[1..], tasks[1..]);
      } else {
        HeldBehind(stores, prefix, start, ks, k);
        FindsAtLeast(stores[1..], prefix, Successor(k), ks, tasks[1..]);
      }
    }
  }

  lemma WayGoesOn(stores: seq<Records>, prefix: string, start: string, ks: seq<string>)
    requires 0 < |ks| < |stores|
    ensures NothingInTheWay(stores, prefix, start, ks) <==>
      && NoneBefore(KeysFrom(stores[0], prefix, start), ks, 0)
      && NothingInTheWay(stores[1..], prefix, Successor(ks[0]), ks[1..])
  {
    var later, from, rest := stores[1..], Successor(ks[0]), ks[1..];
    assert StartAt(start, ks, 0) == start;
    forall i | 0 <= i <= |rest|
      ensures later[i] == stores[i + 1] && StartAt(from, rest, i) == StartAt(start, ks, i + 1)
      ensures var keys := KeysFrom(later[i], prefix, StartAt(from, rest, i)); NoneBefore(keys, rest, i) <==> NoneBefore(keys, ks, i + 1)
    {
    }
    if NothingInTheWay(stores[1..], prefix, Successor(ks[0]), ks[1..]) {
      forall i | 0 < i <= |ks|
        ensures NoneBefore(KeysFrom(stores[i], prefix, StartAt(start, ks, i)), ks, i)
      {
        assert NoneBefore(KeysFrom(later[i - 1], prefix, StartAt(from, rest, i - 1)), rest, i - 1);
      }
    }
  }

  /** A read over states that all hold these tasks finds just them if and only if nothing is
      in the way. */
  lemma {:induction false} FindsIff(stores: seq<Records>, prefix: string, start: string, ks: seq<string>, tasks: seq<TaskResult>)
    requires |ks| == |tasks| < |stores| && HeldInOrder(stores, prefix, start, ks)
    requires forall i, j :: 0 <= i < |stores| && 0 <= j < |ks| ==> stores[i][ks[j]] == TaskV(tasks[j])
    ensures Finds(stores, prefix, start, tasks) <==> NothingInTheWay(stores, prefix, start, ks)
    decreases |tasks|
  {
    if ks == [] {
      assert StartAt(start, ks, 0) == start;
      assert NoneBefore(KeysFrom(stores[0], prefix, start), ks, 0) <==> KeysFrom(stores[0], prefix, start) == {};
    } else {
      HeldFurther(stores, prefix, start, ks);
      WayGoesOn(stores, prefix, start, ks);
      var k := Least(KeysFrom(stores[0], prefix, start));
      if k == ks[0] {
        FindsIff(stores[1..], prefix, Successor(k), ks[1..], tasks[1..]);
        FirstIsLeast(KeysFrom(stores[0], prefix, start), k);
      } else {
        HeldBehind(stores, prefix, start, ks, k);
        if Finds(stores, prefix, start, tasks) {
          FindsAtLeast(stores[1..], prefix, Successor(k), ks, tasks[1..]);
        }
      }
    }
  }

  lemma FirstIsLeast(keys: set<string>, k: string)
    requires IsLeast(k, keys)
    ensures forall x :: x in keys ==> !Less(x, k)
  {
    forall x | x in keys
      ensures !Less(x, k)
    {
      LessIsStrict(x, k);
    }
  }

  /** What a read finds is determined by the states it meets. */
  lemma {:induction false} FindsOnce(stores: seq<Records>, prefix: string, start: string, tasks: seq<TaskResult>, others: seq<TaskResult>)
    requires |tasks| < |stores| && |others| < |stores|
    requires Finds(stores, prefix, start, tasks) && Finds(stores, prefix, start, others)
    ensures tasks == others
    decreases |tasks|
  {
    if tasks != [] && others != [] {
      FindsOnce(stores[1..], prefix, Successor(Least(KeysFrom(stores[0], prefix, start))), tasks[1..], others[1..]);
      assert tasks == [tasks[0]] + tasks[1..] && others == [others[0]] + others[1..];
    }
  }

  lemma TasksFromFirst(store: Records, keys: set<string>)
    requires keys != {} && AllTasks(store, keys)
    ensures Tasks(store, keys) == [store[Least(keys)].task] + Tasks(store, keys - {Least(keys)})
  {
    SortedFirst(keys);
  }

  lemma LeastTaken(store: Records, prefix: string, start: string)
    requires KeysFrom(store, prefix, start) != {}
    ensures var keys := KeysFrom(store, prefix, start);
      KeysFrom(store, prefix, Successor(Least(keys))) == keys - {Least(keys)}
  {
    var keys := KeysFrom(store, prefix, start);
    var k := Least(keys);
    forall x | x in store && HasPrefix(x, prefix)
      ensures !Less(x, Successor(k)) <==> !Less(x, start) && x != k
    {
      NothingBetween(k, x);
      LessIsStrict(k, k);
      if Less(k, x) {
        LessIsStrict(k, x);
        NotBelow(x, k, start);
      }
    }
  }

  /** A read that is not disturbed is the reading of all tasks in key order. */
  lemma {:induction false} FindsInOneState(store: Records, stores: seq<Records>, prefix: string, start: string, tasks: seq<TaskResult>)
    requires |tasks| < |stores| && forall i :: 0 <= i < |stores| ==> stores[i] == store
    ensures var keys := KeysFrom(store, prefix, start);
      Finds(stores, prefix, start, tasks) <==> AllTasks(store, keys) && Tasks(store, keys) == tasks
    decreases |tasks|
  {
    var keys := KeysFrom(store, prefix, start);
    if tasks != [] && keys != {} {
      var k := Least(keys);
      LeastTaken(store, prefix, start);
      FindsInOneState(store, stores[1..], prefix, Successor(k), tasks[1..]);
      if AllTasks(store, keys) {
        TasksFromFirst(store, keys);
      }
      assert tasks == [tasks[0]] + tasks[1..];
    }
  }

  // ----- updating the commit ID, step by step -----

  /** The updater returns this manifest when its reads meet these states, one after another. */
  ghost predicate Returns(stores: seq<Records>, op: Op, result: RunManifest) {
    && |result.hooksRun| < |stores|
    && result.run == op.run
    && Finds(stores, TasksPath(op.repo, op.run.runID), TasksPath(op.repo, op.run.runID), result.hooksRun)
  }

  /** Each of these is the store at some moment after the steps and before the end. */
  ghost predicate Later(steps: seq<Step>, more: seq<Step>, stores: seq<Records>) {
    forall i :: 0 <= i < |stores| ==> exists n: nat :: MomentOf(steps, more, stores[i], n)
  }

  predicate MomentOf(steps: seq<Step>, more: seq<Step>, store: Records, n: nat) {
    n <= |more| && After(steps + more[..n]).Some? && After(steps + more[..n]).value.store == store
  }

  lemma TasksStay(steps: seq<Step>, more: seq<Step>, stores: seq<Records>, repo: string, runID: string, tasks: seq<TaskResult>)
    requires After(steps).Some? && Later(steps, more, stores)
    requires TasksStored(After(steps).value.store, repo, runID, tasks)
    ensures forall i :: 0 <= i < |stores| ==> TasksStored(stores[i], repo, runID, tasks)
  {
    forall i | 0 <= i < |stores|
      ensures TasksStored(stores[i], repo, runID, tasks)
    {
      var n: nat :| MomentOf(steps, more, stores[i], n);
      LaterGrows(steps, more[..n]);
      TasksGrow(After(steps).value.store, stores[i], repo, runID, tasks);
    }
  }

  lemma PathsHeld(stores: seq<Records>, repo: string, m: RunManifest)
    requires forall i :: 0 <= i < |stores| ==> TasksStored(stores[i], repo, m.run.runID, m.hooksRun)
    requires IdsInOrder(m.hooksRun)
    ensures var ks, prefix := PathsOf(repo, m.run.runID, m.hooksRun), TasksPath(repo, m.run.runID);
      && HeldInOrder(stores, prefix, prefix, ks)
      && forall i, j :: 0 <= i < |stores| && 0 <= j < |ks| ==> stores[i][ks[j]] == TaskV(m.hooksRun[j])
  {
    var ks, prefix := PathsOf(repo, m.run.runID, m.hooksRun), TasksPath(repo, m.run.runID);
    PathsInOrder(repo, m.run.runID, m.hooksRun);
    forall j | 0 <= j < |ks|
      ensures HasPrefix(ks[j], prefix) && !Less(ks[j], prefix)
    {
      PathExtends(prefix, m.hooksRun[j].hookRunID);
      PrefixComesFirst(ks[j], prefix);
    }
    forall i, j | 0 <= i < |stores| && 0 <= j < |ks|
      ensures ks[j] in stores[i] && stores[i][ks[j]] == TaskV(m.hooksRun[j])
    {
      TaskKeyListed(stores[i], repo, m, j);
    }
  }

  /** An updater at work in any interleaving, which then looks for each task in some later
      state: it returns the manifest its run was saved with, with the commit ID replaced and
      nothing else, if and only if no other key lies between two tasks, before the first or
      after the last, in the state in which it looks there. */
  lemma UpdateReturnsManifestIff(steps: seq<Step>, more: seq<Step>, stores: seq<Records>, id: nat, m: RunManifest)
    requires After(steps).Some? && Later(steps, more, stores) && |m.hooksRun| < |stores|
    requires id in After(steps).value.ops && After(steps).value.ops[id].tasks == []
    requires Backs(After(steps).value, After(steps).value.ops[id], m) && IdsInOrder(m.hooksRun)
    ensures var op := After(steps).value.ops[id];
      var prefix := TasksPath(op.repo, m.run.runID);
      Returns(stores, op, m.(run := m.run.(commitID := op.run.commitID))) <==>
        NothingInTheWay(stores, prefix, prefix, PathsOf(op.repo, m.run.runID, m.hooksRun))
  {
    var op := After(steps).value.ops[id];
    var prefix := TasksPath(op.repo, m.run.runID);
    TasksStay(steps, more, stores, op.repo, m.run.runID, m.hooksRun);
    PathsHeld(stores, op.repo, m);
    FindsIff(stores, prefix, prefix, PathsOf(op.repo, m.run.runID, m.hooksRun), m.hooksRun);
  }

  /** So it is while no other run is saved under the run's prefix, whatever else happens
      between the updater's writes and its reads, and between one read and the next. */
  lemma UpdateReturnsManifest(steps: seq<Step>, more: seq<Step>, stores: seq<Records>, id: nat, repo: string, m: RunManifest)
    requires After(steps + more).Some? && Later(steps, more, stores) && |m.hooksRun| < |stores|
    requires After(steps).Some? && id in After(steps).value.ops
    requires var op := After(steps).value.ops[id]; op.tasks == [] && op.repo == repo && op.run.runID == m.run.runID
    requires (repo, m) in After(steps + more).value.saves && IdsInOrder(m.hooksRun)
    requires NoOtherExtends(After(steps + more).value.saves, repo, m)
    ensures Returns(stores, After(steps).value.ops[id], m.(run := m.run.(commitID := After(steps).value.ops[id].run.commitID)))
  {
    InvAlways(steps);
    var s := After(steps).value;
    var op := s.ops[id];
    LaterGrows(steps, more);
    assert OpOk(s, op);
    var saved :| Backs(s, op, saved);
    assert HasPrefix(saved.run.runID, m.run.runID);
    TasksStay(steps, more, stores, repo, m.run.runID, m.hooksRun);
    forall i | 0 <= i < |stores|
      ensures HoldsExactly(stores[i], repo, m)
    {
      MomentHoldsExactly(steps, more, stores[i], repo, m);
    }
    ExactIsClear(stores, repo, m);
    UpdateReturnsManifestIff(steps, more, stores, id, m);
  }

  lemma MomentHoldsExactly(steps: seq<Step>, more: seq<Step>, store: Records, repo: string, m: RunManifest)
    requires After(steps + more).Some? && After(steps).Some? && (repo, m) in After(steps).value.saves
    requires exists n: nat :: MomentOf(steps, more, store, n)
    requires NoOtherExtends(After(steps + more).value.saves, repo, m)
    requires TasksStored(store, repo, m.run.runID, m.hooksRun)
    ensures HoldsExactly(store, repo, m)
  {
    var n: nat :| MomentOf(steps, more, store, n);
    assert (steps + more[..n]) + more[n..] == steps + more;
    LaterGrows(steps + more[..n], more[n..]);
    LaterGrows(steps, more[..n]);
    InvAlways(steps + more[..n]);
    OnlyThisRun(After(steps + more[..n]).value, repo, m);
  }

  lemma ExactIsClear(stores: seq<Records>, repo: string, m: RunManifest)
    requires |m.hooksRun| < |stores| && IdsInOrder(m.hooksRun)
    requires forall i :: 0 <= i < |stores| ==> HoldsExactly(stores[i], repo, m)
    ensures var prefix := TasksPath(repo, m.run.runID);
      NothingInTheWay(stores, prefix, prefix, PathsOf(repo, m.run.runID, m.hooksRun))
  {
    var prefix, ks := TasksPath(repo, m.run.runID), PathsOf(repo, m.run.runID, m.hooksRun);
    PathsInOrder(repo, m.run.runID, m.hooksRun);
    forall i | 0 <= i <= |ks|
      ensures NoneBefore(KeysFrom(stores[i], prefix, StartAt(prefix, ks, i)), ks, i)
    {
      forall k | k in KeysFrom(stores[i], prefix, StartAt(prefix, ks, i))
        ensures i < |ks| && !Less(k, ks[i])
      {
        assert k in TaskKeys(stores[i], repo, m.run.runID, "");
        var j :| 0 <= j < |m.hooksRun| && k == TaskPath(repo, m.run.runID, m.hooksRun[j].hookRunID);
        NotBefore(ks, i, j);
      }
    }
  }

  lemma NotBefore(ks: seq<string>, i: nat, j: nat)
    requires InOrder(ks) && i <= |ks| && j < |ks|
    requires i > 0 ==> !Less(ks[j], Successor(ks[i - 1]))
    ensures i < |ks| && !Less(ks[j], ks[i])
  {
    if i > 0 {
      NothingBetween(ks[i - 1], ks[j]);
      LessIsStrict(ks[j], ks[i - 1]);
    }
    if i <= j {
      LessIsStrict(ks[i], ks[j]);
    }
  }

  // ----- updating the commit ID, with nothing in between -----

  /** Writes that store a run again leave every task as it is. */
  lemma {:induction false} ExecuteKeepsTasks(store: Records, ws: seq<Write>, repo: string, m: RunManifest)
    requires forall k :: k in store ==> Keyed(k, store[k])
    requires forall w :: w in ws ==> w.Set? && !w.value.TaskV? && Keyed(w.key, w.value)
    requires forall w :: w in ws ==> !HasPrefix(w.key, TasksPath(repo, m.run.runID))
    requires HoldsExactly(store, repo, m)
    ensures HoldsExactly(Execute(store, ws).0, repo, m)
    decreases |ws|
  {
    if ws != [] {
      var next := store[ws[0].key := ws[0].value];
      assert ws[0] in ws;
      forall i | 0 <= i < |m.hooksRun|
        ensures Present(next, TaskWrite(repo, m.run.runID, m.hooksRun[i]))
      {
        assert Present(store, TaskWrite(repo, m.run.runID, m.hooksRun[i]));
        PathExtends(TasksPath(repo, m.run.runID), m.hooksRun[i].hookRunID);
      }
      assert forall k :: k in TaskKeys(next, repo, m.run.runID, "") ==> k in TaskKeys(store, repo, m.run.runID, "");
      ExecuteKeepsTasks(next, ws[1..], repo, m);
    }
  }

  lemma NoTaskIsWritten(repo: string, run: RunResult, w: Write)
    requires SimpleRun(repo, run) && w in Writes(repo, [], run)
    ensures w.Set? && !w.value.TaskV? && Keyed(w.key, w.value) && !HasPrefix(w.key, TasksPath(repo, run.runID))
  {
    if w in IndexWrites(repo, run) {
      IndexWriteKeyed(repo, run, w);
    } else {
      assert w == RunWrite(repo, run);
    }
    if HasPrefix(w.key, TasksPath(repo, run.runID)) {
      var repo', section, rest := KeyedSection(w.key, w.value);
      KeyPrefix(repo, TASKS_PREFIX, run.runID, repo', section, rest);
    }
  }

  /** The method UpdateCommitID, started in any reachable state: what it returns is the manifest
      the run was saved with, with the commit ID replaced and nothing else. */
  lemma UndisturbedUpdate(steps: seq<Step>, repo: string, m: RunManifest, commitID: string)
    requires After(steps).Some? && (repo, m) in After(steps).value.saves
    requires NoOtherExtends(After(steps).value.saves, repo, m) && IdsInOrder(m.hooksRun)
    requires StoredRun(After(steps).value.store, repo, m.run.runID).Some? && Simple(commitID)
    ensures var s := After(steps).value;
      var run := StoredRun(s.store, repo, m.run.runID).value.(commitID := commitID);
      var store := Execute(s.store, Writes(repo, [], run)).0;
      var keys := TaskKeys(store, repo, m.run.runID, "");
      && AllTasks(store, keys)
      && RunManifest(run, Tasks(store, keys)) == m.(run := m.run.(commitID := commitID))
  {
    InvAlways(steps);
    var s := After(steps).value;
    assert SimpleIds(repo, m);
    SavedHoldsExactly(s, repo, m);
    var run := StoredRun(s.store, repo, m.run.runID).value.(commitID := commitID);
    forall w | w in Writes(repo, [], run)
      ensures w.Set? && !w.value.TaskV? && Keyed(w.key, w.value) && !HasPrefix(w.key, TasksPath(repo, run.runID))
    {
      NoTaskIsWritten(repo, run, w);
    }
    ExecuteKeepsTasks(s.store, Writes(repo, [], run), repo, m);
    ReadsBackExactly(Execute(s.store, Writes(repo, [], run)).0, repo, m);
  }
}
