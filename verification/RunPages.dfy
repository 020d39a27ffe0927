/** When following the pages of a listing shows every run, or every hook run, exactly once. */
module RunPages {
  import opened Options
  import opened Kv
  import opened HookRunIds
  import opened Manifests
  import opened RunKeys
  import opened RunIterators
  import opened RunStore
  import opened RunProtocol
  import opened RunReadBack
  import opened Paging

  ghost predicate RunsHaveIds(s: State) {
    forall repo, m :: (repo, m) in s.saves ==> m.run.runID != ""
  }

  lemma StoredRunHasId(s: State, repo: string, runID: string)
    requires Inv(s) && RunsHaveIds(s) && Simple(repo) && RunPath(repo, runID) in s.store
    ensures StoredRun(s.store, repo, runID).Some? && StoredRun(s.store, repo, runID).value.runID == runID != ""
  {
    var k := RunPath(repo, runID);
    var repo', section, rest := KeyedSection(k, s.store[k]);
    KeyReadsBack(repo, RUNS_PREFIX, runID, repo', section, rest);
    var run := StoredRun(s.store, repo, runID).value;
    assert Whole(s, repo, run);
    var m :| SavedAs(s.saves, repo, m, run) && TasksStored(s.store, repo, run.runID, m.hooksRun);
  }

  // ----- all runs of a repository -----

  lemma UnfilteredKey(s: State, repo: string, k: string)
    requires Inv(s) && RunsHaveIds(s) && Simple(repo) && k in RunKeysOf(s.store, repo, Unfiltered, "")
    ensures RunIsThere(s.store, false, k)
    ensures RunEntry(s.store, false, k).id != "" && k == RunPath(repo, RunEntry(s.store, false, k).id)
  {
    var repo', section, rest := KeyedSection(k, s.store[k]);
    RunsSection(repo, k, repo', section, rest, s.store[k]);
    StoredRunHasId(s, repo, s.store[k].run.runID);
  }

  /** The listing's prefix ends within the section name, and no other section begins so. */
  lemma RunsSection(repo: string, k: string, repo': string, section: string, rest: string, v: Value)
    requires Simple(repo) && InSection(k, v, repo', section, rest) && HasPrefix(k, RunsPath(repo))
    requires v.RunV? || v.TaskV? || v.IndexV?
    ensures repo == repo' && v.RunV?
  {
    KeyFromFront(repo', section, rest);
    PrefixIsSplit(k, RunsPath(repo));
    var x: string :| k == RunsPath(repo) + x;
    PathAssociates(REPOS_PREFIX, repo, RUNS_PREFIX);
    assert k == Path(REPOS_PREFIX, Path(repo, RUNS_PREFIX + x));
    CutFirst(REPOS_PREFIX, Path(repo, RUNS_PREFIX + x), REPOS_PREFIX, Path(repo', Path(section, rest)));
    CutFirst(repo, RUNS_PREFIX + x, repo', Path(section, rest));
    assert Path(section, rest)[0] == (RUNS_PREFIX + x)[0] == 'r';
    assert section[0] == Path(section, rest)[0];
  }

  /** Every run of the repository is shown exactly once, whatever amounts are asked for. */
  lemma PagesShowAllRuns(steps: seq<Step>, repo: string, amounts: nat -> Option<int>)
    requires After(steps).Some? && RunsHaveIds(After(steps).value) && Simple(repo)
    ensures var s := After(steps).value;
      var l := RunListing(s.store, repo, Unfiltered);
      var ks := Sorted(RunKeysOf(s.store, repo, Unfiltered, ""));
      && (forall runID: string :: StoredRun(s.store, repo, runID).Some? <==> RunPath(repo, runID) in ks)
      && RunsAreThere(s.store, false, ks, |ks|)
      && Listed(l, ks) && Ends(l, amounts, Followed(ks, Shown(l, ks)))
  {
    InvAlways(steps);
    var s := After(steps).value;
    var l, keys := RunListing(s.store, repo, Unfiltered), RunKeysOf(s.store, repo, Unfiltered, "");
    forall k | k in keys
      ensures RunIsThere(s.store, false, k) && RunEntry(s.store, false, k).id != "" && k == Path(l.prefix, RunEntry(s.store, false, k).id)
    {
      UnfilteredKey(s, repo, k);
    }
    forall runID: string
      ensures StoredRun(s.store, repo, runID).Some? <==> RunPath(repo, runID) in keys
    {
      StoredRunIsListed(s, repo, runID);
    }
    SortedLists(keys);
    RunListingPast(s.store, repo, Unfiltered, "");
    FollowShowsAll(l, amounts, 0, "", |KeysPast(l, "")| + 1);
    EachOf(s.store, false, keys);
  }

  lemma EachOf(store: Records, secondary: bool, keys: set<string>)
    requires forall k :: k in keys ==> RunIsThere(store, secondary, k)
    ensures RunsAreThere(store, secondary, Sorted(keys), |Sorted(keys)|)
  {
    SortedLists(keys);
    forall i | 0 <= i < |Sorted(keys)|
      ensures RunIsThere(store, secondary, Sorted(keys)[i])
    {
      assert Sorted(keys)[i] in Sorted(keys);
    }
  }

  lemma StoredRunIsListed(s: State, repo: string, runID: string)
    requires Inv(s) && RunsHaveIds(s) && Simple(repo)
    ensures StoredRun(s.store, repo, runID).Some? <==> RunPath(repo, runID) in RunKeysOf(s.store, repo, Unfiltered, "")
  {
    var k := RunPath(repo, runID);
    PathExtends(RunsPath(repo), runID);
    if k in s.store {
      StoredRunHasId(s, repo, runID);
    }
  }

  // ----- the runs of a commit or of a branch -----

  lemma FirstOfPath(x: string, run: string, c: string)
    requires Simple(x) && Simple(c) && HasPrefix(Path(x, run), c + [DELIMITER])
    ensures x == c
  {
    var p := Path(x, run);
    assert p == Path(c, p[|c| + 1..]);
    CutFirst(x, run, c, p[|c| + 1..]);
  }

  /** The section of the index a filter goes through, and the ID it filters by. */
  function IndexSection(f: Filter): string {
    if f.ByBranch? then BRANCH_PREFIX else COMMIT_PREFIX
  }

  function IndexedID(f: Filter): string {
    match f
    case ByBranch(b) => b
    case ByCommit(c) => c
    case Unfiltered => ""
  }

  /** The key of a run in the index of a filter, under any ID. */
  function IndexKey(repo: string, f: Filter, x: string, run: string): string {
    Key(repo, IndexSection(f), Path(x, run))
  }

  lemma IndexKeys(repo: string, f: Filter, x: string, run: string)
    requires f != Unfiltered
    ensures IndexKey(repo, f, x, run) == if f.ByBranch? then RunByBranchPath(repo, x, run) else RunByCommitPath(repo, x, run)
    ensures FilterPrefix(repo, f) == Key(repo, IndexSection(f), IndexedID(f))
    ensures FilterPrefix(repo, f) + [DELIMITER] == Key(repo, IndexSection(f), IndexedID(f) + [DELIMITER])
    ensures IndexKey(repo, f, IndexedID(f), run) == Path(FilterPrefix(repo, f), run)
  {
    KeyShapes(repo, x, run);
    KeyShapes(repo, IndexedID(f), run);
  }

  /** What a listed key of an index is: the entry of a run that is there, under an ID that
      begins with the one asked for. */
  lemma ListedIndexKey(s: State, repo: string, f: Filter, k: string) returns (x: string, run: string)
    requires Inv(s) && RunsHaveIds(s) && Simple(repo) && f != Unfiltered
    requires k in RunKeysOf(s.store, repo, f, "")
    ensures Simple(x) && Simple(run) && k == IndexKey(repo, f, x, run) && HasPrefix(Path(x, run), IndexedID(f))
    ensures HasPrefix(k, FilterPrefix(repo, f) + [DELIMITER]) <==> HasPrefix(Path(x, run), IndexedID(f) + [DELIMITER])
    ensures RunIsThere(s.store, true, k) && RunEntry(s.store, true, k).id == run != ""
  {
    var repo', section, rest := KeyedSection(k, s.store[k]);
    IndexKeys(repo, f, "", "");
    KeyPrefix(repo, IndexSection(f), IndexedID(f), repo', section, rest);
    x, run :| Simple(x) && Simple(run) && rest == Path(x, run) && s.store[k].primaryKey == RunPath(repo, run);
    StoredRunHasId(s, repo, run);
    if HasPrefix(k, FilterPrefix(repo, f) + [DELIMITER]) {
      KeyPrefix(repo, IndexSection(f), IndexedID(f) + [DELIMITER], repo', section, rest);
    }
    if HasPrefix(rest, IndexedID(f) + [DELIMITER]) {
      KeyExtends(repo, IndexSection(f), IndexedID(f) + [DELIMITER], rest);
    }
  }

  lemma KeyExtends(repo: string, section: string, p: string, rest: string)
    requires HasPrefix(rest, p)
    ensures HasPrefix(Key(repo, section, rest), Key(repo, section, p))
  {
    var base := Path(Path(REPOS_PREFIX, repo), section) + [DELIMITER];
    assert Key(repo, section, rest) == base + rest && Key(repo, section, p) == base + p;
    assert (base + rest)[..|base + p|] == base + rest[..|p|];
  }

  /** The entries of the ID asked for whose runs are there. */
  ghost function IndexedRuns(store: Records, repo: string, f: Filter): set<string> {
    set k | k in RunKeysOf(store, repo, f, "") && HasPrefix(k, FilterPrefix(repo, f) + [DELIMITER])
  }

  /** No entry whose run is there belongs to an ID that continues the one asked for. */
  ghost predicate NoEntryExtends(store: Records, repo: string, f: Filter) {
    forall x: string, run: string ::
      Simple(x) && Simple(run) && LiveEntry(store, IndexKey(repo, f, x, run)) && HasPrefix(x, IndexedID(f)) ==> x == IndexedID(f)
  }

  predicate LiveEntry(store: Records, k: string) {
    k in store && !Dangling(store, k)
  }

  lemma IndexOwnIds(s: State, repo: string, f: Filter)
    requires Inv(s) && RunsHaveIds(s) && Simple(repo) && f != Unfiltered && Simple(IndexedID(f))
    ensures var l := RunListing(s.store, repo, f);
      && OwnIds(l) && OwnKeys(l) == IndexedRuns(s.store, repo, f)
      && RunsAreThere(s.store, true, Sorted(RunKeysOf(s.store, repo, f, "")), |RunKeysOf(s.store, repo, f, "")|)
  {
    var l, keys := RunListing(s.store, repo, f), RunKeysOf(s.store, repo, f, "");
    forall k | k in keys
      ensures RunIsThere(s.store, true, k)
      ensures HasPrefix(k, l.prefix + [DELIMITER]) ==> RunEntry(s.store, true, k).id != "" && k == Path(l.prefix, RunEntry(s.store, true, k).id)
    {
      var x, run := ListedIndexKey(s, repo, f, k);
      if HasPrefix(k, l.prefix + [DELIMITER]) {
        FirstOfPath(x, run, IndexedID(f));
        IndexKeys(repo, f, x, run);
      }
    }
    EachOf(s.store, true, keys);
    assert OwnKeys(l) == IndexedRuns(s.store, repo, f);
  }

  lemma NoEntryExtendsIff(s: State, repo: string, f: Filter)
    requires Inv(s) && RunsHaveIds(s) && Simple(repo) && f != Unfiltered && Simple(IndexedID(f))
    ensures NoEntryExtends(s.store, repo, f) <==> IndexedRuns(s.store, repo, f) == RunKeysOf(s.store, repo, f, "")
  {
    var keys := RunKeysOf(s.store, repo, f, "");
    if NoEntryExtends(s.store, repo, f) {
      forall k | k in keys
        ensures HasPrefix(k, FilterPrefix(repo, f) + [DELIMITER])
      {
        var x, run := ListedIndexKey(s, repo, f, k);
        PrefixWithinFirst(x, run, IndexedID(f));
        PathExtends(x, run);
      }
    }
    if IndexedRuns(s.store, repo, f) == keys {
      forall x: string, run: string |
        Simple(x) && Simple(run) && LiveEntry(s.store, IndexKey(repo, f, x, run)) && HasPrefix(x, IndexedID(f))
        ensures x == IndexedID(f)
      {
        EntryIsOwn(s, repo, f, x, run);
      }
    }
  }

  lemma EntryIsOwn(s: State, repo: string, f: Filter, x: string, run: string)
    requires Simple(repo) && f != Unfiltered && Simple(IndexedID(f)) && Simple(x) && Simple(run)
    requires IndexedRuns(s.store, repo, f) == RunKeysOf(s.store, repo, f, "")
    requires LiveEntry(s.store, IndexKey(repo, f, x, run)) && HasPrefix(x, IndexedID(f))
    ensures x == IndexedID(f)
  {
    var k := IndexKey(repo, f, x, run);
    IndexKeys(repo, f, x, run);
    assert HasPrefix(Path(x, run), IndexedID(f)) by {
      assert Path(x, run)[..|IndexedID(f)|] == x[..|IndexedID(f)|];
    }
    KeyExtends(repo, IndexSection(f), IndexedID(f), Path(x, run));
    assert k != "" && Less("", k);
    assert k in RunKeysOf(s.store, repo, f, "");
    KeyPrefix(repo, IndexSection(f), IndexedID(f) + [DELIMITER], repo, IndexSection(f), Path(x, run));
    FirstOfPath(x, run, IndexedID(f));
  }

  /** In every reachable store, for a branch or a commit, whether it exists or not, and for any
      amounts: following the pages ends and shows exactly the entries of that ID whose runs are
      there, if and only if no such entry belongs to an ID that continues it. */
  lemma PagesShowIndexIff(steps: seq<Step>, repo: string, f: Filter, amounts: nat -> Option<int>)
    requires After(steps).Some? && RunsHaveIds(After(steps).value) && Simple(repo)
    requires f != Unfiltered && Simple(IndexedID(f))
    ensures var store := After(steps).value.store;
      var l, ks := RunListing(store, repo, f), Sorted(IndexedRuns(store, repo, f));
      && ((exists seen :: Ends(l, amounts, seen) && seen.keys == ks) <==> NoEntryExtends(store, repo, f))
      && (NoEntryExtends(store, repo, f) ==> Listed(l, ks) && Ends(l, amounts, Followed(ks, Shown(l, ks))))
  {
    InvAlways(steps);
    var s := After(steps).value;
    var l := RunListing(s.store, repo, f);
    IndexOwnIds(s, repo, f);
    NoEntryExtendsIff(s, repo, f);
    assert l.entries.Keys == RunKeysOf(s.store, repo, f, "");
    PagesShowIff(l, amounts, IndexedRuns(s.store, repo, f));
  }

  /** Among the entries of a commit or branch are all runs that have it now. */
  lemma PresentRunsAreIndexed(steps: seq<Step>, repo: string, f: Filter, runID: string)
    requires After(steps).Some? && Simple(repo) && f != Unfiltered && IndexedID(f) != ""
    requires StoredRun(After(steps).value.store, repo, runID).Some?
    requires var run := StoredRun(After(steps).value.store, repo, runID).value;
      IndexedID(f) == if f.ByBranch? then run.branchID else run.commitID
    ensures Path(FilterPrefix(repo, f), runID) in IndexedRuns(After(steps).value.store, repo, f)
  {
    StoredRunIsWhole(steps, repo, runID);
    PathExtends(FilterPrefix(repo, f), runID);
  }

  /** Commit IDs of one length are enough, when the commit asked for has that length too. */
  lemma EqualLengthsDoNotContinue(store: Records, repo: string, c: string)
    requires forall x: string, run: string :: Simple(x) && Simple(run) && IndexKey(repo, ByCommit(c), x, run) in store ==> |x| == |c|
    ensures NoEntryExtends(store, repo, ByCommit(c))
  {
    forall x: string, run: string |
      Simple(x) && Simple(run) && IndexKey(repo, ByCommit(c), x, run) in store && HasPrefix(x, c)
      ensures x == c
    {
      assert x[..|c|] == x;
    }
  }

  // ----- the hook runs of a run -----

  function HookRunsOf(tasks: seq<TaskResult>): seq<HookRun> {
    seq(|tasks|, i requires 0 <= i < |tasks| => TaskToHookRun(tasks[i]))
  }

  ghost predicate HooksHaveIds(s: State) {
    forall repo, m :: (repo, m) in s.saves ==> forall i :: 0 <= i < |m.hooksRun| ==> m.hooksRun[i].hookRunID != ""
  }

  /** The tasks of one run. */
  ghost function TasksOfRun(store: Records, repo: string, q: string): set<string> {
    set k | k in store && HasPrefix(k, TaskPath(repo, q, ""))
  }

  /** No stored task belongs to a run whose ID continues this one. */
  ghost predicate NoTaskExtends(store: Records, repo: string, q: string) {
    forall run: string, h: string :: Simple(run) && TaskPath(repo, run, h) in store && HasPrefix(run, q) ==> run == q
  }

  /** What a listed key of the tasks is: a task of a run whose ID begins with the one asked for. */
  lemma ListedTaskKey(s: State, repo: string, q: string, k: string) returns (run: string, h: string)
    requires Inv(s) && HooksHaveIds(s) && Simple(repo) && Simple(q) && k in TaskKeys(s.store, repo, q, "")
    ensures Simple(run) && k == TaskPath(repo, run, h) && HasPrefix(run, q)
    ensures TaskIsThere(s.store, k) && TaskEntry(s.store, k).id == h != ""
    ensures HasPrefix(k, TaskPath(repo, q, "")) <==> run == q
  {
    UnderTasksPath(s, repo, q, k);
    var m, i: nat :| TaskOfSave(s, k, repo, m, i) && HasPrefix(m.run.runID, q);
    assert SimpleIds(repo, m) && m.hooksRun[i].hookRunID != "";
    run, h := m.run.runID, m.hooksRun[i].hookRunID;
    TaskUnder(repo, q, run, h);
  }

  lemma TaskUnder(repo: string, q: string, run: string, h: string)
    requires Simple(repo) && Simple(q) && Simple(run)
    ensures HasPrefix(TaskPath(repo, run, h), TaskPath(repo, q, "")) <==> run == q
  {
    KeyShapes(repo, h, run);
    KeyShapes(repo, "", q);
    PathExtends(TasksPath(repo, run), h);
    assert TaskPath(repo, q, "") == TasksPath(repo, q) + [DELIMITER];
    if HasPrefix(TaskPath(repo, run, h), TaskPath(repo, q, "")) {
      KeyPrefix(repo, TASKS_PREFIX, Path(q, ""), repo, TASKS_PREFIX, Path(run, h));
      assert Path(q, "") == q + [DELIMITER];
      FirstOfPath(run, h, q);
    }
  }

  lemma TaskOwnIds(s: State, repo: string, q: string)
    requires Inv(s) && HooksHaveIds(s) && Simple(repo) && Simple(q)
    ensures var l := HookListing(s.store, repo, q);
      && OwnIds(l) && OwnKeys(l) == TasksOfRun(s.store, repo, q)
      && forall k :: k in l.entries ==> TaskIsThere(s.store, k)
  {
    var l := HookListing(s.store, repo, q);
    assert TaskPath(repo, q, "") == l.prefix + [DELIMITER];
    forall k | k in l.entries
      ensures TaskIsThere(s.store, k)
      ensures HasPrefix(k, l.prefix + [DELIMITER]) ==> l.entries[k].id != "" && k == Path(l.prefix, l.entries[k].id)
    {
      var run, h := ListedTaskKey(s, repo, q, k);
    }
    forall k | k in TasksOfRun(s.store, repo, q)
      ensures k in l.entries
    {
      OwnTaskIsListed(s.store, repo, q, k);
    }
    assert OwnKeys(l) == TasksOfRun(s.store, repo, q);
  }

  lemma OwnTaskIsListed(store: Records, repo: string, q: string, k: string)
    requires k in TasksOfRun(store, repo, q)
    ensures k in TaskKeys(store, repo, q, "")
  {
    var p := TasksPath(repo, q);
    assert TaskPath(repo, q, "") == p + [DELIMITER];
    assert k[..|p| + 1][..|p|] == k[..|p|] == p;
    assert k != "" && Less("", k);
  }

  lemma NoTaskExtendsIff(s: State, repo: string, q: string)
    requires Inv(s) && HooksHaveIds(s) && Simple(repo) && Simple(q)
    ensures NoTaskExtends(s.store, repo, q) <==> TasksOfRun(s.store, repo, q) == TaskKeys(s.store, repo, q, "")
  {
    var keys := TaskKeys(s.store, repo, q, "");
    if NoTaskExtends(s.store, repo, q) {
      forall k | k in keys
        ensures HasPrefix(k, TaskPath(repo, q, ""))
      {
        var run, h := ListedTaskKey(s, repo, q, k);
      }
      forall k | k in TasksOfRun(s.store, repo, q)
        ensures k in keys
      {
        OwnTaskIsListed(s.store, repo, q, k);
      }
    }
    if TasksOfRun(s.store, repo, q) == keys {
      forall run: string, h: string | Simple(run) && TaskPath(repo, run, h) in s.store && HasPrefix(run, q)
        ensures run == q
      {
        TaskIsListed(s.store, repo, q, run, h);
        TaskUnder(repo, q, run, h);
      }
    }
  }

  /** The listing of a run also holds the tasks of runs whose IDs continue its own. */
  lemma TaskIsListed(store: Records, repo: string, q: string, run: string, h: string)
    requires TaskPath(repo, run, h) in store && HasPrefix(run, q)
    ensures TaskPath(repo, run, h) in TaskKeys(store, repo, q, "")
  {
    var k := TaskPath(repo, run, h);
    KeyShapes(repo, h, run);
    assert Path(run, h)[..|q|] == run[..|q|];
    KeyExtends(repo, TASKS_PREFIX, q, Path(run, h));
    assert TasksPath(repo, q) == Key(repo, TASKS_PREFIX, q);
    assert k != "" && Less("", k);
  }

  /** In every reachable store, for every run ID that may be asked for, saved or not, and for
      any amounts: following the pages of hook runs ends and shows exactly the tasks of that
      run, if and only if no stored task belongs to a run whose ID continues it. */
  lemma PagesShowTasksIff(steps: seq<Step>, repo: string, q: string, amounts: nat -> Option<int>)
    requires After(steps).Some? && HooksHaveIds(After(steps).value) && Simple(repo) && Simple(q)
    ensures var store := After(steps).value.store;
      var l, ks := HookListing(store, repo, q), Sorted(TasksOfRun(store, repo, q));
      && ((exists seen :: Ends(l, amounts, seen) && seen.keys == ks) <==> NoTaskExtends(store, repo, q))
      && (NoTaskExtends(store, repo, q) ==> Listed(l, ks) && Ends(l, amounts, Followed(ks, Shown(l, ks))))
  {
    InvAlways(steps);
    var s := After(steps).value;
    var l := HookListing(s.store, repo, q);
    TaskOwnIds(s, repo, q);
    NoTaskExtendsIff(s, repo, q);
    assert l.entries.Keys == TaskKeys(s.store, repo, q, "");
    PagesShowIff(l, amounts, TasksOfRun(s.store, repo, q));
  }

  /** Of a run whose tasks are stored, the pages show exactly the manifest's hooks in their
      order, if and only if nothing else is stored under the run's prefix. */
  lemma PagesShowManifestIff(steps: seq<Step>, repo: string, m: RunManifest, amounts: nat -> Option<int>)
    requires After(steps).Some? && HooksHaveIds(After(steps).value) && (repo, m) in After(steps).value.saves
    requires TasksStored(After(steps).value.store, repo, m.run.runID, m.hooksRun) && IdsInOrder(m.hooksRun)
    ensures var store := After(steps).value.store;
      var l, ks := HookListing(store, repo, m.run.runID), PathsOf(repo, m.run.runID, m.hooksRun);
      && ((exists seen :: Ends(l, amounts, seen) && seen.keys == ks) <==> HoldsExactly(store, repo, m))
      && (HoldsExactly(store, repo, m) ==> Ends(l, amounts, Followed(ks, HookRunsOf(m.hooksRun))))
  {
    InvAlways(steps);
    var s := After(steps).value;
    assert SimpleIds(repo, m);
    TaskOwnIds(s, repo, m.run.runID);
    OwnTasksShowManifest(s.store, repo, m, amounts);
  }

  lemma OwnTasksShowManifest(store: Records, repo: string, m: RunManifest, amounts: nat -> Option<int>)
    requires TasksStored(store, repo, m.run.runID, m.hooksRun) && IdsInOrder(m.hooksRun)
    requires Simple(repo) && Simple(m.run.runID)
    requires var l := HookListing(store, repo, m.run.runID); OwnIds(l) && OwnKeys(l) == TasksOfRun(store, repo, m.run.runID)
    ensures var l, ks := HookListing(store, repo, m.run.runID), PathsOf(repo, m.run.runID, m.hooksRun);
      && ((exists seen :: Ends(l, amounts, seen) && seen.keys == ks) <==> HoldsExactly(store, repo, m))
      && (HoldsExactly(store, repo, m) ==> Ends(l, amounts, Followed(ks, HookRunsOf(m.hooksRun))))
  {
    ManifestKeysAreOwn(store, repo, m);
    ManifestKeysIff(store, repo, m);
    PagesShowIff(HookListing(store, repo, m.run.runID), amounts, ManifestKeys(repo, m));
    if HoldsExactly(store, repo, m) {
      ShowsManifest(store, repo, m);
    }
  }

  lemma ManifestKeysAreOwn(store: Records, repo: string, m: RunManifest)
    requires TasksStored(store, repo, m.run.runID, m.hooksRun) && IdsInOrder(m.hooksRun)
    requires Simple(repo) && Simple(m.run.runID)
    ensures ManifestKeys(repo, m) <= TasksOfRun(store, repo, m.run.runID)
    ensures PathsOf(repo, m.run.runID, m.hooksRun) == Sorted(ManifestKeys(repo, m))
    ensures HookListing(store, repo, m.run.runID).entries.Keys == TaskKeys(store, repo, m.run.runID, "")
  {
    var runID := m.run.runID;
    var ks := PathsOf(repo, runID, m.hooksRun);
    PathsInOrder(repo, runID, m.hooksRun);
    SortedIsUnique(ks, ManifestKeys(repo, m));
    forall k | k in ManifestKeys(repo, m)
      ensures k in TasksOfRun(store, repo, runID)
    {
      var i :| 0 <= i < |ks| && ks[i] == k;
      TaskKeyListed(store, repo, m, i);
      TaskUnder(repo, runID, runID, m.hooksRun[i].hookRunID);
    }
  }

  ghost function ManifestKeys(repo: string, m: RunManifest): set<string> {
    set k | k in PathsOf(repo, m.run.runID, m.hooksRun)
  }

  lemma ManifestKeysIff(store: Records, repo: string, m: RunManifest)
    requires TasksStored(store, repo, m.run.runID, m.hooksRun)
    ensures HoldsExactly(store, repo, m) <==> ManifestKeys(repo, m) == TaskKeys(store, repo, m.run.runID, "")
  {
    var keys, ks := TaskKeys(store, repo, m.run.runID, ""), PathsOf(repo, m.run.runID, m.hooksRun);
    if HoldsExactly(store, repo, m) {
      PathsAreTheKeys(store, repo, m);
    }
    if ManifestKeys(repo, m) == keys {
      forall k | k in keys
        ensures exists i :: 0 <= i < |m.hooksRun| && k == TaskPath(repo, m.run.runID, m.hooksRun[i].hookRunID)
      {
        var i :| 0 <= i < |ks| && ks[i] == k;
      }
    }
  }

  lemma ShowsManifest(store: Records, repo: string, m: RunManifest)
    requires HoldsExactly(store, repo, m)
    ensures var l, ks := HookListing(store, repo, m.run.runID), PathsOf(repo, m.run.runID, m.hooksRun);
      Listed(l, ks) && Shown(l, ks) == HookRunsOf(m.hooksRun)
  {
    PathsAreTheKeys(store, repo, m);
    HookListingPast(store, repo, m.run.runID, "");
    var l, ks := HookListing(store, repo, m.run.runID), PathsOf(repo, m.run.runID, m.hooksRun);
    assert l.entries.Keys == TaskKeys(store, repo, m.run.runID, "");
    ShowsTaskList(l, store, ks, m.hooksRun);
  }

  lemma ShowsTaskList(l: Listing<HookRun>, store: Records, ks: seq<string>, tasks: seq<TaskResult>)
    requires ShowsTasks(l, store) && |ks| == |tasks| && forall k :: k in ks ==> k in l.entries
    requires forall i :: 0 <= i < |ks| ==> ks[i] in store && store[ks[i]] == TaskV(tasks[i])
    ensures Listed(l, ks) && Shown(l, ks) == HookRunsOf(tasks)
  {
    forall i | 0 <= i < |ks|
      ensures ks[i] in l.entries && l.entries[ks[i]].shown == TaskToHookRun(tasks[i])
    {
      assert ks[i] in ks;
    }
  }

  // ----- a store that the code can leave, and listings of it that go wrong -----

  /** A store after the first n of these writes, when none of them is refused. */
  function Written(store: Records, ws: seq<Write>, n: nat): Records
    requires n <= |ws|
  {
    if n == 0 then store else Written(store, ws, n - 1)[ws[n - 1].key := ws[n - 1].value]
  }

  lemma {:induction false} WrittenKeys(ws: seq<Write>, n: nat, k: string)
    requires n <= |ws|
    ensures k in Written(map[], ws, n) <==> exists i :: 0 <= i < n && ws[i].key == k
  {
    if n > 0 {
      WrittenKeys(ws, n - 1, k);
    }
  }

  lemma OneMoreStep(steps: seq<Step>, step: Step) returns (more: seq<Step>)
    requires After(steps).Some?
    ensures After(more) == Next(After(steps).value, step)
  {
    more := steps + [step];
    assert more[..|more| - 1] == steps;
  }

  /** The state after the first n writes of a save that has the store to itself. */
  function SavedAlone(repo: string, m: RunManifest, n: nat): State
    requires n <= |Writes(repo, m.hooksRun, m.run)|
  {
    State(Written(map[], Writes(repo, m.hooksRun, m.run), n), map[0 := Op(repo, m.run, m.hooksRun, n)], {(repo, m)})
  }

  lemma {:induction false} SaveAlone(repo: string, m: RunManifest, n: nat) returns (steps: seq<Step>)
    requires SimpleIds(repo, m) && IdsInOrder(m.hooksRun) && n <= |Writes(repo, m.hooksRun, m.run)|
    ensures After(steps) == Some(SavedAlone(repo, m, n))
  {
    if n == 0 {
      steps := OneMoreStep([], BeginSave(0, repo, m));
      SaveBegins(repo, m);
    } else {
      var before := SaveAlone(repo, m, n - 1);
      SaveContinues(repo, m, n - 1);
      steps := OneMoreStep(before, WriteNext(0));
    }
  }

  lemma SaveBegins(repo: string, m: RunManifest)
    requires SimpleIds(repo, m)
    ensures Next(INITIAL, BeginSave(0, repo, m)) == Some(SavedAlone(repo, m, 0))
  {
    assert INITIAL.saves + {(repo, m)} == {(repo, m)};
    assert INITIAL.ops[0 := Op(repo, m.run, m.hooksRun, 0)] == map[0 := Op(repo, m.run, m.hooksRun, 0)];
  }

  lemma SaveContinues(repo: string, m: RunManifest, n: nat)
    requires SimpleIds(repo, m) && IdsInOrder(m.hooksRun) && n < |Writes(repo, m.hooksRun, m.run)|
    ensures Next(SavedAlone(repo, m, n), WriteNext(0)) == Some(SavedAlone(repo, m, n + 1))
  {
    var s := SavedAlone(repo, m, n);
    NextIsAccepted(repo, m, n);
    assert s.ops[0 := Op(repo, m.run, m.hooksRun, n + 1)] == map[0 := Op(repo, m.run, m.hooksRun, n + 1)];
    assert WritesOf(s.ops[0]) == Writes(repo, m.hooksRun, m.run);
  }

  lemma NextIsAccepted(repo: string, m: RunManifest, n: nat)
    requires SimpleIds(repo, m) && IdsInOrder(m.hooksRun) && n < |Writes(repo, m.hooksRun, m.run)|
    ensures var ws := Writes(repo, m.hooksRun, m.run);
      Apply(Written(map[], ws, n), ws[n]) == Some(Written(map[], ws, n + 1))
  {
    var ws := Writes(repo, m.hooksRun, m.run);
    var op := Op(repo, m.run, m.hooksRun, n);
    WriteShape(op, n);
    if n < |m.hooksRun| {
      WrittenKeys(ws, n, ws[n].key);
      forall i | 0 <= i < n
        ensures ws[i].key != ws[n].key
      {
        assert ws[i] == TaskWrite(repo, m.run.runID, m.hooksRun[i]);
        PathOrder(TasksPath(repo, m.run.runID), m.hooksRun[i].hookRunID, m.hooksRun[n].hookRunID);
        LessIsStrict(ws[i].key, ws[n].key);
      }
    } else if n < |ws| - 1 {
      IndexWriteKeyed(repo, m.run, ws[n]);
    }
  }

  /** A run of two hooks whose ID and commit ID continue the ones asked for below. */
  predicate LongerRun(m: RunManifest, q: string, c: string) {
    && m.run.runID == q + "0" && m.run.commitID == c + "0" && Simple(m.run.branchID)
    && |m.hooksRun| == 2
    && m.hooksRun[0].hookRunID == NewHookRunID(0, 0) && m.hooksRun[1].hookRunID == NewHookRunID(0, 1)
  }

  lemma LongerRunIsSaved(repo: string, m: RunManifest, q: string, c: string) returns (steps: seq<Step>)
    requires Simple(repo) && Simple(q) && Simple(c) && LongerRun(m, q, c)
    ensures IdsInOrder(m.hooksRun) && After(steps).Some? && After(steps).value.saves == {(repo, m)}
    ensures RunsHaveIds(After(steps).value) && HooksHaveIds(After(steps).value)
    ensures StoredRun(After(steps).value.store, repo, q + "0") == Some(m.run)
  {
    HookRunIdOrder(0, 0, 0, 1);
    HookRunIdIsSimple(0, 0);
    HookRunIdIsSimple(0, 1);
    var ws := Writes(repo, m.hooksRun, m.run);
    steps := SaveAlone(repo, m, |ws|);
    assert ws[|ws| - 1] == RunWrite(repo, m.run);
  }

  function OneEach(): nat -> Option<int> {
    (i: nat) => Some(1)
  }

  /** A listing that starts again where it has just ended never ends. */
  lemma {:induction false} NeverEnds<T>(l: Listing<T>, a: string, b: string, i: nat, after: string, pages: nat)
    requires Less(a, b) && a in l.entries && after in {"", l.entries[a].id}
    requires KeysPast(l, "") == {a, b} && KeysPast(l, l.entries[a].id) == {a, b}
    ensures Follow(l, OneEach(), i, after, pages) == None
    decreases pages
  {
    if pages > 0 {
      SortedIsUnique([a, b], {a, b});
      PastIsListed(l, after);
      NeverEnds(l, a, b, i + 1, l.entries[a].id, pages - 1);
    }
  }

  /** A saved run of two hooks, asked for by its ID without the last character and one result
      at a time: the next offset leads back to the same page for ever. The ID asked for need
      not be that of any run, and all saved run IDs have one length. */
  lemma PagingCanLoop(repo: string, m: RunManifest, q: string, c: string) returns (steps: seq<Step>)
    requires Simple(repo) && Simple(q) && Simple(c) && LongerRun(m, q, c)
    ensures After(steps).Some? && After(steps).value.saves == {(repo, m)}
    ensures StoredRun(After(steps).value.store, repo, q + "0") == Some(m.run)
    ensures forall pages :: Follow(HookListing(After(steps).value.store, repo, q), OneEach(), 0, "", pages) == None
    ensures !NoTaskExtends(After(steps).value.store, repo, q)
  {
    steps := LongerRunIsSaved(repo, m, q, c);
    InvAlways(steps);
    var s := After(steps).value;
    assert Whole(s, repo, m.run);
    assert (q + "0")[..|q|] == q;
    OnlySaveListed(s, repo, m, q);
    NeverEndsHere(s.store, repo, m, q);
    assert Present(s.store, TaskWrite(repo, q + "0", m.hooksRun[0]));
  }

  lemma NeverEndsHere(store: Records, repo: string, m: RunManifest, q: string)
    requires TasksStored(store, repo, m.run.runID, m.hooksRun) && ListsOnly(store, repo, q, m)
    requires TwoTasks(m, q) && IdsInOrder(m.hooksRun)
    ensures forall pages :: Follow(HookListing(store, repo, q), OneEach(), 0, "", pages) == None
  {
    var a, b := TaskPath(repo, q + "0", m.hooksRun[0].hookRunID), TaskPath(repo, q + "0", m.hooksRun[1].hookRunID);
    PathOrder(TasksPath(repo, q + "0"), m.hooksRun[0].hookRunID, m.hooksRun[1].hookRunID);
    assert PathsOf(repo, q + "0", m.hooksRun) == [a, b];
    assert TaskKeys(store, repo, q, "") == {a, b};
    assert Present(store, TaskWrite(repo, q + "0", m.hooksRun[0]));
    PastEveryOffset(store, repo, q, a, b, m.hooksRun[0].hookRunID);
    forall pages: nat
      ensures Follow(HookListing(store, repo, q), OneEach(), 0, "", pages) == None
    {
      NeverEnds(HookListing(store, repo, q), a, b, 0, "", pages);
    }
  }

  predicate TwoTasks(m: RunManifest, q: string) {
    m.run.runID == q + "0" && |m.hooksRun| == 2
  }

  /** All tasks under the ID asked for are those of one manifest. */
  ghost predicate ListsOnly(store: Records, repo: string, q: string, m: RunManifest) {
    forall k :: k in TaskKeys(store, repo, q, "") <==> k in PathsOf(repo, m.run.runID, m.hooksRun)
  }

  lemma OnlySaveListed(s: State, repo: string, m: RunManifest, q: string)
    requires Inv(s) && s.saves == {(repo, m)} && Whole(s, repo, m.run) && Simple(repo) && Simple(q)
    requires HasPrefix(m.run.runID, q)
    ensures TasksStored(s.store, repo, m.run.runID, m.hooksRun) && ListsOnly(s.store, repo, q, m)
  {
    var saved :| SavedAs(s.saves, repo, saved, m.run) && TasksStored(s.store, repo, m.run.runID, saved.hooksRun);
    assert saved == m;
    forall k
      ensures k in TaskKeys(s.store, repo, q, "") <==> k in PathsOf(repo, m.run.runID, m.hooksRun)
    {
      if k in TaskKeys(s.store, repo, q, "") {
        var i := FromTheOnlySave(s, repo, m, q, k);
        assert PathsOf(repo, m.run.runID, m.hooksRun)[i] == k;
      } else if k in PathsOf(repo, m.run.runID, m.hooksRun) {
        SavedTaskIsListed(s.store, repo, m, q, k);
      }
    }
  }

  lemma SavedTaskIsListed(store: Records, repo: string, m: RunManifest, q: string, k: string)
    requires TasksStored(store, repo, m.run.runID, m.hooksRun) && HasPrefix(m.run.runID, q)
    requires k in PathsOf(repo, m.run.runID, m.hooksRun)
    ensures k in TaskKeys(store, repo, q, "")
  {
    var ks := PathsOf(repo, m.run.runID, m.hooksRun);
    var i :| 0 <= i < |ks| && ks[i] == k;
    assert Present(store, TaskWrite(repo, m.run.runID, m.hooksRun[i]));
    TaskIsListed(store, repo, q, m.run.runID, m.hooksRun[i].hookRunID);
  }

  lemma FromTheOnlySave(s: State, repo: string, m: RunManifest, q: string, k: string) returns (i: nat)
    requires Inv(s) && s.saves == {(repo, m)} && Simple(repo) && Simple(q) && k in TaskKeys(s.store, repo, q, "")
    ensures i < |m.hooksRun| && k == TaskPath(repo, m.run.runID, m.hooksRun[i].hookRunID)
  {
    UnderTasksPath(s, repo, q, k);
    var other: RunManifest, j: nat :| TaskOfSave(s, k, repo, other, j) && HasPrefix(other.run.runID, q);
    i := j;
  }

  /** Both tasks come after the offset that a page ending at the first one hands out. */
  lemma PastEveryOffset(store: Records, repo: string, q: string, a: string, b: string, h: string)
    requires TaskKeys(store, repo, q, "") == {a, b} && TaskIsThere(store, a) && store[a].task.hookRunID == h
    requires exists x, y: string :: a == TaskPath(repo, q + "0", x) && b == TaskPath(repo, q + "0", y)
    ensures var l := HookListing(store, repo, q);
      && l.entries.Keys == {a, b} && l.entries[a].id == h
      && KeysPast(l, "") == {a, b} && KeysPast(l, h) == {a, b}
  {
    var l := HookListing(store, repo, q);
    assert l.entries.Keys == TaskKeys(store, repo, q, "");
    var x, y: string :| a == TaskPath(repo, q + "0", x) && b == TaskPath(repo, q + "0", y);
    AfterOffset(repo, q, h, x);
    AfterOffset(repo, q, h, y);
    assert l.entries[a] == TaskEntry(store, a);
  }

  lemma AfterOffset(repo: string, q: string, h: string, x: string)
    ensures Less(Path(TasksPath(repo, q), h), TaskPath(repo, q + "0", x))
  {
    var p := TasksPath(repo, q);
    var rest := "0" + ([DELIMITER] + x);
    LessAfter(p, [DELIMITER] + h, rest);
    assert p + ([DELIMITER] + h) == Path(p, h);
    assert p + rest == TaskPath(repo, q + "0", x);
  }

  /** The same store, listed by a commit ID that its commit continues: the pages do not show
      the entries of that commit, for any amounts. */
  lemma CommitPagesCanFail(repo: string, m: RunManifest, q: string, c: string, amounts: nat -> Option<int>) returns (steps: seq<Step>)
    requires Simple(repo) && Simple(q) && Simple(c) && LongerRun(m, q, c)
    ensures After(steps).Some? && After(steps).value.saves == {(repo, m)}
    ensures var store := After(steps).value.store;
      !exists seen :: Ends(RunListing(store, repo, ByCommit(c)), amounts, seen) && seen.keys == Sorted(IndexedRuns(store, repo, ByCommit(c)))
  {
    steps := LongerRunIsSaved(repo, m, q, c);
    StoredRunIsWhole(steps, repo, q + "0");
    PagesShowIndexIff(steps, repo, ByCommit(c), amounts);
    IndexKeys(repo, ByCommit(c), c + "0", q + "0");
    assert (c + "0")[..|c|] == c;
    assert LiveEntry(After(steps).value.store, IndexKey(repo, ByCommit(c), c + "0", q + "0"));
  }
}
