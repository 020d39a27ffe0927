/** The keys under which runs, their tasks and their indexes are stored. */
module RunKeys {
  import opened Kv
  import opened Manifests

  /** A stored record: a run, a task, or the primary key an index entry points to. */
  datatype Value = RunV(run: RunResult) | TaskV(task: TaskResult) | IndexV(primaryKey: string)

  const REPOS_PREFIX := "repos"
  const RUNS_PREFIX := "runs"
  const TASKS_PREFIX := "tasks"
  const BRANCH_PREFIX := "branches"
  const COMMIT_PREFIX := "commits"

  function BaseActionsPath(repo: string): string {
    Path(REPOS_PREFIX, repo)
  }

  function TasksPath(repo: string, run: string): string {
    Path(Path(BaseActionsPath(repo), TASKS_PREFIX), run)
  }

  function TaskPath(repo: string, run: string, hookRun: string): string {
    Path(TasksPath(repo, run), hookRun)
  }

  function RunsPath(repo: string): string {
    Path(BaseActionsPath(repo), RUNS_PREFIX)
  }

  function RunPath(repo: string, run: string): string {
    Path(RunsPath(repo), run)
  }

  function ByBranchPath(repo: string, branch: string): string {
    Path(Path(BaseActionsPath(repo), BRANCH_PREFIX), branch)
  }

  function ByCommitPath(repo: string, commit: string): string {
    Path(Path(BaseActionsPath(repo), COMMIT_PREFIX), commit)
  }

  function RunByBranchPath(repo: string, branch: string, run: string): string {
    Path(ByBranchPath(repo, branch), run)
  }

  function RunByCommitPath(repo: string, commit: string, run: string): string {
    Path(ByCommitPath(repo, commit), run)
  }

  // ----- reading a key back -----

  /** The key of a repository, in one of its sections. */
  function Key(repo: string, section: string, rest: string): string {
    Path(Path(Path(REPOS_PREFIX, repo), section), rest)
  }

  lemma PathAssociates(a: string, b: string, c: string)
    ensures Path(Path(a, b), c) == Path(a, Path(b, c))
  {}

  lemma KeyReadsBack(repo: string, section: string, rest: string, repo': string, section': string, rest': string)
    requires Simple(repo) && Simple(section) && Simple(repo') && Simple(section')
    requires Key(repo, section, rest) == Key(repo', section', rest')
    ensures repo == repo' && section == section' && rest == rest'
  {
    KeyFromFront(repo, section, rest);
    KeyFromFront(repo', section', rest');
    CutFirst(REPOS_PREFIX, Path(repo, Path(section, rest)), REPOS_PREFIX, Path(repo', Path(section', rest')));
    CutFirst(repo, Path(section, rest), repo', Path(section', rest'));
    CutFirst(section, rest, section', rest');
  }

  lemma KeyFromFront(repo: string, section: string, rest: string)
    ensures Key(repo, section, rest) == Path(REPOS_PREFIX, Path(repo, Path(section, rest)))
  {
    PathAssociates(Path(REPOS_PREFIX, repo), section, rest);
    PathAssociates(REPOS_PREFIX, repo, Path(section, rest));
  }

  lemma KeyShapes(repo: string, x: string, run: string)
    ensures TaskPath(repo, run, x) == Key(repo, TASKS_PREFIX, Path(run, x))
    ensures RunPath(repo, run) == Key(repo, RUNS_PREFIX, run)
    ensures RunByBranchPath(repo, x, run) == Key(repo, BRANCH_PREFIX, Path(x, run))
    ensures RunByCommitPath(repo, x, run) == Key(repo, COMMIT_PREFIX, Path(x, run))
  {
    PathAssociates(Path(BaseActionsPath(repo), TASKS_PREFIX), run, x);
    PathAssociates(Path(BaseActionsPath(repo), BRANCH_PREFIX), x, run);
    PathAssociates(Path(BaseActionsPath(repo), COMMIT_PREFIX), x, run);
  }

  // ----- keys and values that belong together -----

  predicate SimpleRun(repo: string, run: RunResult) {
    Simple(repo) && Simple(run.runID) && Simple(run.branchID) && Simple(run.commitID)
  }

  /** A value is stored where its kind and its IDs say. */
  ghost predicate Keyed(k: string, v: Value) {
    match v
    case RunV(r) => exists repo: string :: Simple(repo) && Simple(r.runID) && k == RunPath(repo, r.runID)
    case TaskV(t) => exists repo: string, run: string :: Simple(repo) && Simple(run) && Simple(t.hookRunID) && k == TaskPath(repo, run, t.hookRunID)
    case IndexV(p) => exists repo: string, x: string, run: string :: Simple(repo) && Simple(x) && Simple(run) && IndexesRun(k, p, repo, x, run)
  }

  predicate IndexesRun(k: string, p: string, repo: string, x: string, run: string) {
    p == RunPath(repo, run) && (k == RunByBranchPath(repo, x, run) || k == RunByCommitPath(repo, x, run))
  }

  /** The section of the key of a value. */
  predicate InSection(k: string, v: Value, repo: string, section: string, rest: string) {
    && Simple(repo) && Simple(section) && k == Key(repo, section, rest)
    && (v.RunV? <==> section == RUNS_PREFIX)
    && (v.TaskV? <==> section == TASKS_PREFIX)
    && (v.IndexV? <==> section == BRANCH_PREFIX || section == COMMIT_PREFIX)
  }

  lemma KeyedSection(k: string, v: Value) returns (repo: string, section: string, rest: string)
    requires Keyed(k, v)
    ensures InSection(k, v, repo, section, rest)
    ensures v.IndexV? ==> exists x, run: string :: Simple(x) && Simple(run) && rest == Path(x, run) && v.primaryKey == RunPath(repo, run)
    ensures v.RunV? ==> rest == v.run.runID
  {
    match v
    case RunV(r) =>
      repo :| Simple(repo) && k == RunPath(repo, r.runID);
      section, rest := RUNS_PREFIX, r.runID;
    case TaskV(t) =>
      var run: string;
      repo, run :| Simple(repo) && Simple(run) && k == TaskPath(repo, run, t.hookRunID);
      KeyShapes(repo, t.hookRunID, run);
      section, rest := TASKS_PREFIX, Path(run, t.hookRunID);
    case IndexV(p) =>
      var x: string, run: string;
      repo, x, run :| Simple(repo) && Simple(x) && Simple(run) && IndexesRun(k, p, repo, x, run);
      KeyShapes(repo, x, run);
      section, rest := if k == RunByBranchPath(repo, x, run) then BRANCH_PREFIX else COMMIT_PREFIX, Path(x, run);
  }

  /** Values that belong at one key are of one kind, and there is only one index entry for it. */
  lemma KeyedAgree(k: string, v: Value, w: Value)
    requires Keyed(k, v) && Keyed(k, w)
    ensures (v.RunV? <==> w.RunV?) && (v.TaskV? <==> w.TaskV?)
    ensures v.IndexV? ==> v == w
    ensures v.RunV? ==> v.run.runID == w.run.runID
  {
    var repo, section, rest := KeyedSection(k, v);
    var repo', section', rest' := KeyedSection(k, w);
    KeyReadsBack(repo, section, rest, repo', section', rest');
    if v.IndexV? {
      var x, run: string :| Simple(run) && rest == Path(x, run) && v.primaryKey == RunPath(repo, run);
      var x', run': string :| Simple(run') && rest' == Path(x', run') && w.primaryKey == RunPath(repo', run');
      CutLast(x, run, x', run');
    }
  }

  lemma RunPathIsInjective(repo: string, run: string, repo': string, run': string)
    requires Simple(repo) && Simple(repo') && RunPath(repo, run) == RunPath(repo', run')
    ensures repo == repo' && run == run'
  {
    KeyReadsBack(repo, RUNS_PREFIX, run, repo', RUNS_PREFIX, run');
  }

  // ----- prefixes -----

  lemma KeyPrefix(repo: string, section: string, p: string, repo': string, section': string, rest': string)
    requires Simple(repo) && Simple(section) && Simple(repo') && Simple(section')
    requires HasPrefix(Key(repo', section', rest'), Key(repo, section, p))
    ensures repo == repo' && section == section' && HasPrefix(rest', p)
  {
    var k := Key(repo', section', rest');
    PrefixIsSplit(k, Key(repo, section, p));
    var x: string :| k == Key(repo, section, p) + x;
    assert Key(repo, section, p) + x == Key(repo, section, p + x);
    KeyReadsBack(repo, section, p + x, repo', section', rest');
    assert rest'[..|p|] == p;
  }
}
