/** What the store holds, as a history of its writes; and the listings of a commit that show
    runs with another one. */
module RunHistory {
  import opened Options
  import opened Kv
  import opened Manifests
  import opened RunKeys
  import opened RunIterators
  import opened RunStore
  import opened RunProtocol
  import opened RunReadBack
  import opened RunPages
  import opened Paging

  /** The next write of an operation, if the store accepts it. */
  function NextWrite(s: State, id: nat): Option<Write> {
    if id !in s.ops || s.ops[id].done >= |WritesOf(s.ops[id])| then None
    else (
      var w := WritesOf(s.ops[id])[s.ops[id].done];
      if Apply(s.store, w).None? then None else Some(w))
  }

  /** What a step writes, if anything. */
  function WriteOf(s: State, step: Step): Option<Write> {
    if step.WriteNext? then NextWrite(s, step.id) else None
  }

  type Writing = seq<Option<Write>>

  /** What each step of a run writes. */
  function History(steps: seq<Step>): (h: Writing)
    requires After(steps).Some?
    ensures |h| == |steps|
  {
    if steps == [] then []
    else
      var before := steps[..|steps| - 1];
      History(before) + [WriteOf(After(before).value, steps[|steps| - 1])]
  }

  predicate WritesKey(h: Writing, n: nat, k: string) {
    n < |h| && h[n].Some? && h[n].value.key == k
  }

  /** This step writes the value at the key, and no later one writes that key again. */
  predicate WritesLast(h: Writing, n: nat, k: string, v: Value) {
    && WritesKey(h, n, k) && h[n].value.value == v
    && forall j :: n < j < |h| ==> !WritesKey(h, j, k)
  }

  lemma StepWrites(s: State, step: Step)
    requires Next(s, step).Some?
    ensures var w := WriteOf(s, step);
      Next(s, step).value.store == if w.Some? then s.store[w.value.key := w.value.value] else s.store
  {
  }

  lemma OneMoreWrite(h: Writing, w: Option<Write>, k: string, v: Value)
    ensures var wrote := w.Some? && w.value.key == k;
      (exists n: nat :: WritesLast(h + [w], n, k, v)) <==>
        if wrote then w.value.value == v else exists n: nat :: WritesLast(h, n, k, v)
  {
    var all := h + [w];
    assert forall j :: 0 <= j < |h| ==> all[j] == h[j];
    if w.Some? && w.value.key == k {
      assert WritesKey(all, |h|, k);
      assert w.value.value == v ==> WritesLast(all, |h|, k, v);
    } else {
      assert !WritesKey(all, |h|, k);
      assert forall n: nat :: n < |h| ==> WritesKey(all, n, k) == WritesKey(h, n, k);
      forall n: nat
        ensures WritesLast(all, n, k, v) <==> WritesLast(h, n, k, v)
      {
      }
    }
  }

  ghost predicate LeftBy(h: Writing, k: string, v: Value) {
    exists n: nat :: WritesLast(h, n, k, v)
  }

  predicate HasValue(store: Records, k: string, v: Value) {
    k in store && store[k] == v
  }

  lemma StepLeaves(s: State, step: Step, h: Writing, k: string, v: Value)
    requires Next(s, step).Some? && (HasValue(s.store, k, v) <==> LeftBy(h, k, v))
    ensures HasValue(Next(s, step).value.store, k, v) <==> LeftBy(h + [WriteOf(s, step)], k, v)
  {
    StepWrites(s, step);
    OneMoreWrite(h, WriteOf(s, step), k, v);
  }

  lemma {:induction false} HoldsWhatIsLeft(steps: seq<Step>, k: string, v: Value)
    requires After(steps).Some?
    ensures HasValue(After(steps).value.store, k, v) <==> LeftBy(History(steps), k, v)
  {
    if steps == [] {
      assert History(steps) == [] && After(steps).value.store == map[];
    } else {
      var last := |steps| - 1;
      var before := After(steps[..last]).value;
      HoldsWhatIsLeft(steps[..last], k, v);
      StepLeaves(before, steps[last], History(steps[..last]), k, v);
      assert History(steps) == History(steps[..last]) + [WriteOf(before, steps[last])];
      assert After(steps) == Next(before, steps[last]);
    }
  }

  /** In every run: the store holds at a key what was last written there. */
  lemma HoldsLastWritten(steps: seq<Step>, k: string, v: Value)
    requires After(steps).Some?
    ensures k in After(steps).value.store && After(steps).value.store[k] == v <==> exists n: nat :: WritesLast(History(steps), n, k, v)
  {
    HoldsWhatIsLeft(steps, k, v);
    assert HasValue(After(steps).value.store, k, v) <==> k in After(steps).value.store && After(steps).value.store[k] == v;
    assert LeftBy(History(steps), k, v) <==> exists n: nat :: WritesLast(History(steps), n, k, v);
  }

  // ----- listings of a commit -----

  lemma CommitEntry(repo: string, c: string, runID: string, v: Value)
    requires Simple(repo) && Simple(c) && Simple(runID) && Keyed(RunByCommitPath(repo, c, runID), v)
    ensures v == IndexV(RunPath(repo, runID))
  {
    var k, entry := RunByCommitPath(repo, c, runID), IndexV(RunPath(repo, runID));
    assert IndexesRun(k, entry.primaryKey, repo, c, runID);
    KeyedAgree(k, entry, v);
  }

  /** The listing of the commit has an entry of this run. */
  predicate ListedUnder(store: Records, repo: string, c: string, runID: string) {
    RunByCommitPath(repo, c, runID) in store && StoredRun(store, repo, runID).Some?
  }

  /** It is listed there as it is now. */
  lemma ListedUnderIff(steps: seq<Step>, repo: string, c: string, runID: string)
    requires After(steps).Some? && RunsHaveIds(After(steps).value) && Simple(repo) && Simple(c) && Simple(runID)
    ensures var store, k := After(steps).value.store, RunByCommitPath(repo, c, runID);
      && (ListedUnder(store, repo, c, runID) <==> k in IndexedRuns(store, repo, ByCommit(c)))
      && (ListedUnder(store, repo, c, runID) ==>
            RunListing(store, repo, ByCommit(c)).entries[k] == Entry(runID, RunResultToActionRun(StoredRun(store, repo, runID).value)))
  {
    InvAlways(steps);
    var store, k := After(steps).value.store, RunByCommitPath(repo, c, runID);
    PathExtends(FilterPrefix(repo, ByCommit(c)), runID);
    if k in store {
      CommitEntry(repo, c, runID, store[k]);
    }
    if RunPath(repo, runID) in store {
      StoredRunHasId(After(steps).value, repo, runID);
    }
  }

  /** Some step has written the commit's entry of this run. */
  ghost predicate HadCommit(h: Writing, repo: string, c: string, runID: string) {
    exists n: nat :: WritesKey(h, n, RunByCommitPath(repo, c, runID))
  }

  /** The last step that stored the run stored this. */
  ghost predicate StoredLast(h: Writing, repo: string, run: RunResult) {
    exists n: nat :: WritesLast(h, n, RunPath(repo, run.runID), RunV(run))
  }

  lemma {:induction false} LastOfThem(h: Writing, k: string, n: nat)
    requires WritesKey(h, n, k)
    ensures exists last: nat, v :: WritesLast(h, last, k, v)
    decreases |h| - n
  {
    if j :| n < j < |h| && WritesKey(h, j, k) {
      LastOfThem(h, k, j);
    } else {
      assert WritesLast(h, n, k, h[n].value.value);
    }
  }

  lemma HadCommitIff(steps: seq<Step>, repo: string, c: string, runID: string)
    requires After(steps).Some?
    ensures HadCommit(History(steps), repo, c, runID) <==> RunByCommitPath(repo, c, runID) in After(steps).value.store
  {
    var k, store, h := RunByCommitPath(repo, c, runID), After(steps).value.store, History(steps);
    if n: nat :| WritesKey(h, n, k) {
      LastOfThem(h, k, n);
      var last: nat, v :| WritesLast(h, last, k, v);
      HoldsLastWritten(steps, k, v);
    }
    if k in store {
      HoldsLastWritten(steps, k, store[k]);
    }
  }

  /** In every reachable store: a run is listed under a commit, with another one, if and only
      if some step has written the commit's entry of the run, and the last step that stored
      the run stored it with another. */
  lemma ListedWithOtherCommitIff(steps: seq<Step>, repo: string, c: string, runID: string)
    requires After(steps).Some? && RunsHaveIds(After(steps).value) && Simple(repo) && Simple(c) && Simple(runID)
    ensures var store := After(steps).value.store;
      ListedUnder(store, repo, c, runID) && StoredRun(store, repo, runID).value.commitID != c <==>
        HadCommit(History(steps), repo, c, runID) && exists run: RunResult :: run.runID == runID && run.commitID != c && StoredLast(History(steps), repo, run)
  {
    var store, k := After(steps).value.store, RunPath(repo, runID);
    HadCommitIff(steps, repo, c, runID);
    ListedUnderIff(steps, repo, c, runID);
    if ListedUnder(store, repo, c, runID) && StoredRun(store, repo, runID).value.commitID != c {
      InvAlways(steps);
      StoredRunHasId(After(steps).value, repo, runID);
      HoldsLastWritten(steps, k, store[k]);
      assert StoredLast(History(steps), repo, store[k].run);
    }
    if run: RunResult :| run.runID == runID && run.commitID != c && StoredLast(History(steps), repo, run) {
      HoldsLastWritten(steps, k, RunV(run));
    }
  }

  // ----- that it happens, in both ways -----

  /** The next write of an updater is never refused. */
  lemma UpdaterWrites(s: State, id: nat)
    requires id in s.ops && s.ops[id].tasks == [] && s.ops[id].done < |WritesOf(s.ops[id])|
    ensures var op := s.ops[id];
      var w := WritesOf(op)[op.done];
      Next(s, WriteNext(id)) == Some(s.(store := s.store[w.key := w.value], ops := s.ops[id := op.(done := op.done + 1)]))
  {
    var op := s.ops[id];
    WriteShape(op, op.done);
    assert op.done < |WritesOf(op)| - 1 ==> WritesOf(op)[op.done] in IndexWrites(op.repo, op.run);
  }

  /** An updater that has the store to itself, after n of its writes. */
  lemma {:induction false} WritesOn(steps: seq<Step>, id: nat, op: Op, n: nat) returns (more: seq<Step>)
    requires After(steps).Some? && id in After(steps).value.ops && After(steps).value.ops[id] == op
    requires op.done == 0 && op.tasks == [] && n <= |WritesOf(op)|
    ensures var s := After(steps).value;
      After(more) == Some(s.(store := Written(s.store, WritesOf(op), n), ops := s.ops[id := op.(done := n)]))
  {
    var s := After(steps).value;
    if n == 0 {
      more := steps;
      assert s.ops[id := op] == s.ops;
    } else {
      var before := WritesOn(steps, id, op, n - 1);
      var t := After(before).value;
      assert WritesOf(t.ops[id]) == WritesOf(op);
      UpdaterWrites(t, id);
      more := OneMoreStep(before, WriteNext(id));
      assert t.ops[id := op.(done := n)] == s.ops[id := op.(done := n)];
    }
  }

  /** A saved run whose commit is updated. Before the updater's last write, where it may also
      have stopped for good, the run is listed under the new commit with the old one; after
      it, under the old commit with the new one. */
  lemma ListedWithOtherCommit(repo: string, m: RunManifest, c: string) returns (before: seq<Step>, after: seq<Step>)
    requires SimpleIds(repo, m) && IdsInOrder(m.hooksRun) && m.run.runID != "" && m.run.branchID != ""
    requires m.run.commitID != "" && Simple(c) && c != "" && c != m.run.commitID
    ensures After(before).Some? && After(after).Some?
    ensures var store := After(before).value.store;
      ListedUnder(store, repo, c, m.run.runID) && StoredRun(store, repo, m.run.runID) == Some(m.run)
    ensures var store := After(after).value.store;
      ListedUnder(store, repo, m.run.commitID, m.run.runID) && StoredRun(store, repo, m.run.runID) == Some(m.run.(commitID := c))
  {
    var ws := Writes(repo, m.hooksRun, m.run);
    var steps := SaveAlone(repo, m, |ws|);
    InvAlways(steps);
    var s := After(steps).value;
    assert ws[|ws| - 1] == RunWrite(repo, m.run);
    StoredRunIsWhole(steps, repo, m.run.runID);
    steps := OneMoreStep(steps, BeginUpdate(1, repo, m.run.runID, c));
    var op := Op(repo, m.run.(commitID := c), [], 0);
    before := WritesOn(steps, 1, op, 2);
    after := WritesOn(steps, 1, op, 3);
    UpdateInThree(s.store, repo, m.run, c);
  }

  lemma UpdateInThree(store: Records, repo: string, run: RunResult, c: string)
    requires SimpleRun(repo, run) && run.branchID != "" && c != ""
    requires ListedUnder(store, repo, run.commitID, run.runID) && StoredRun(store, repo, run.runID) == Some(run)
    ensures var us := Writes(repo, [], run.(commitID := c));
      && |us| == 3
      && ListedUnder(Written(store, us, 2), repo, c, run.runID) && StoredRun(Written(store, us, 2), repo, run.runID) == Some(run)
      && ListedUnder(Written(store, us, 3), repo, run.commitID, run.runID)
      && StoredRun(Written(store, us, 3), repo, run.runID) == Some(run.(commitID := c))
  {
    var us := Writes(repo, [], run.(commitID := c));
    var k := RunPath(repo, run.runID);
    KeyShapes(repo, run.branchID, run.runID);
    KeyShapes(repo, c, run.runID);
    assert us == [Set(RunByBranchPath(repo, run.branchID, run.runID), IndexV(k)), Set(RunByCommitPath(repo, c, run.runID), IndexV(k)),
                  RunWrite(repo, run.(commitID := c))];
    if us[0].key == k {
      KeyReadsBack(repo, BRANCH_PREFIX, Path(run.branchID, run.runID), repo, RUNS_PREFIX, run.runID);
    }
    if us[1].key == k {
      KeyReadsBack(repo, COMMIT_PREFIX, Path(c, run.runID), repo, RUNS_PREFIX, run.runID);
    }
    assert Written(store, us, 1) == store[us[0].key := us[0].value];
    assert Written(store, us, 2) == Written(store, us, 1)[us[1].key := us[1].value];
  }
}
