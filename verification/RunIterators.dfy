/** The iterators over stored tasks and runs. */
module RunIterators {
  import opened Options
  import opened Kv
  import opened Manifests
  import opened RunKeys

  type Records = map<string, Value>

  /** KVTaskResultIterator. */
  class KVTaskResultIterator {
    const it: PrimaryIterator<Value>
    var err: bool
    var entry: Option<TaskResult>

    ghost predicate Valid()
      reads this, it
    {
      it.Valid()
    }

    /** The keys still to come. */
    ghost function Pending(): set<string>
      reads this, it
    {
      it.Pending()
    }

    constructor (store: Records, repo: string, run: string, after: string)
      ensures Valid() && !err && entry == None && fresh(it) && it.store == store
      ensures Pending() == TaskKeys(store, repo, run, after)
    {
      var prefix := TasksPath(repo, run);
      it := new PrimaryIterator(store, prefix, if after != "" then Path(prefix, after) else "");
      err, entry := false, None;
      new;
      NothingBelowEmpty();
    }

    /** The next task in key order; a record that is not a task is an error, and ends it. */
    method Next() returns (ok: bool)
      requires Valid()
      modifies this, it
      ensures Valid()
      ensures ok <==> !old(err) && old(Pending()) != {} && it.store[Least(old(Pending()))].TaskV?
      ensures ok ==> entry == Some(it.store[Least(old(Pending()))].task) && Pending() == old(Pending()) - {Least(old(Pending()))} && !err
      ensures err <==> old(err) || (old(Pending()) != {} && !it.store[Least(old(Pending()))].TaskV?)
      ensures !ok && !err ==> Pending() == {} && entry == None
    {
      if err {
        return false;
      }
      ok := it.Next();
      if !ok {
        entry := None;
        return;
      }
      match it.store[it.entry.value] {
        case TaskV(task) => entry := Some(task);
        case _ =>
          err := true;
          ok := false;
      }
    }

    method Value() returns (r: Option<TaskResult>)
      ensures r == if err then None else entry
    {
      r := if err then None else entry;
    }
  }

  lemma NothingBelowEmpty()
    ensures forall k: string :: Less("", k) <==> k != ""
  {}

  /** The tasks of a run, or those after a hook run ID. */
  ghost function TaskKeys(store: Records, repo: string, run: string, after: string): set<string> {
    KeysAfter(store, TasksPath(repo, run), if after != "" then Path(TasksPath(repo, run), after) else "")
  }

  // ----- runs -----

  /** An index entry whose run is not there: such entries are skipped. */
  predicate Dangling(store: Records, k: string)
    requires k in store
  {
    store[k].IndexV? && store[k].primaryKey !in store
  }

  /** The run that a listed key stands for, if the records are of the expected kinds. */
  function Resolve(store: Records, secondary: bool, k: string): Option<RunResult>
    requires k in store
  {
    match store[k]
    case RunV(run) => if secondary then None else Some(run)
    case TaskV(_) => None
    case IndexV(p) =>
      if secondary && p in store && store[p].RunV? then Some(store[p].run) else None
  }

  ghost function Live(store: Records, secondary: bool, keys: set<string>): set<string>
    requires InStore(store, keys)
  {
    set k | k in keys && !(secondary && Dangling(store, k))
  }

  ghost predicate InStore(store: Records, keys: set<string>) {
    forall k :: k in keys ==> k in store
  }

  lemma LiveStep(store: Records, secondary: bool, keys: set<string>, k: string)
    requires InStore(store, keys) && IsLeast(k, keys)
    ensures InStore(store, keys - {k}) && |keys - {k}| < |keys|
    ensures secondary && Dangling(store, k) ==> Live(store, secondary, keys - {k}) == Live(store, secondary, keys)
    ensures !(secondary && Dangling(store, k)) ==> IsLeast(k, Live(store, secondary, keys))
    ensures !(secondary && Dangling(store, k)) ==> Live(store, secondary, keys - {k}) == Live(store, secondary, keys) - {k}
  {}

  datatype Filter = Unfiltered | ByBranch(branch: string) | ByCommit(commit: string)

  function FilterPrefix(repo: string, f: Filter): string {
    match f
    case Unfiltered => RunsPath(repo)
    case ByBranch(b) => ByBranchPath(repo, b)
    case ByCommit(c) => ByCommitPath(repo, c)
  }

  /** The runs that a filter lists, or those after a run ID. */
  ghost function RunKeysOf(store: Records, repo: string, f: Filter, after: string): set<string> {
    RunKeysUnder(store, f != Unfiltered, FilterPrefix(repo, f), after)
  }

  ghost function RunKeysUnder(store: Records, secondary: bool, prefix: string, after: string): set<string> {
    Live(store, secondary, KeysAfter(store, prefix, if after != "" then Path(prefix, after) else ""))
  }

  /** KVRunResultIterator, over runs or through an index. */
  class KVRunResultIterator {
    const secondary: bool
    const it: PrimaryIterator<Value>
    var err: bool
    var entry: Option<RunResult>

    ghost predicate Valid()
      reads this, it
    {
      it.Valid()
    }

    /** The keys still to come. */
    ghost function Pending(): set<string>
      reads this, it
    {
      Live(it.store, secondary, it.Pending())
    }

    constructor (store: Records, repo: string, f: Filter, after: string)
      ensures Valid() && !err && entry == None && fresh(it) && it.store == store && secondary == (f != Unfiltered)
      ensures Pending() == RunKeysOf(store, repo, f, after)
    {
      var prefix := FilterPrefix(repo, f);
      secondary := f != Unfiltered;
      it := new PrimaryIterator(store, prefix, if after != "" then Path(prefix, after) else "");
      err, entry := false, None;
    }

    /** The underlying iterator's Next: an index entry without its run is passed over. */
    method NextLive() returns (ok: bool)
      requires Valid()
      modifies it
      ensures Valid()
      ensures ok <==> old(Pending()) != {}
      ensures ok ==> it.entry.Some? && IsLeast(it.entry.value, old(Pending())) && Pending() == old(Pending()) - {it.entry.value}
      ensures !ok ==> Pending() == {}
    {
      ghost var rest := it.Pending();
      ok := it.Next();
      while ok && secondary && Dangling(it.store, it.entry.value)
        invariant Valid() && InStore(it.store, rest) && Live(it.store, secondary, rest) == old(Pending())
        invariant ok ==> it.entry.Some? && IsLeast(it.entry.value, rest) && it.Pending() == rest - {it.entry.value}
        invariant !ok ==> it.Pending() == {} && rest == {}
        decreases |rest|, ok
      {
        LiveStep(it.store, secondary, rest, it.entry.value);
        rest := it.Pending();
        ok := it.Next();
      }
      if ok {
        LiveStep(it.store, secondary, rest, it.entry.value);
      }
    }

    /** The next run in key order; a record of another kind is an error, and ends it. */
    method Next() returns (ok: bool)
      requires Valid()
      modifies this, it
      ensures Valid()
      ensures ok <==> !old(err) && old(Pending()) != {} && Resolve(it.store, secondary, Least(old(Pending()))).Some?
      ensures ok ==> entry == Resolve(it.store, secondary, Least(old(Pending()))) && Pending() == old(Pending()) - {Least(old(Pending()))} && !err
      ensures err <==> old(err) || (old(Pending()) != {} && Resolve(it.store, secondary, Least(old(Pending()))).None?)
      ensures !ok && !err ==> Pending() == {} && entry == None
    {
      if err {
        return false;
      }
      ok := NextLive();
      if !ok {
        entry := None;
        return;
      }
      LeastIsUnique(old(Pending()));
      var run := Resolve(it.store, secondary, it.entry.value);
      if run.None? {
        err := true;
        return false;
      }
      entry := run;
    }

    method Value() returns (r: Option<RunResult>)
      ensures r == if err then None else entry
    {
      r := if err then None else entry;
    }
  }

  /** NewKVRunResultIterator: listing by branch and by commit at once is refused. */
  method NewKVRunResultIterator(store: Records, repo: string, branch: string, commit: string, after: string)
    returns (it: KVRunResultIterator?)
    ensures it == null <==> branch != "" && commit != ""
    ensures it != null ==> fresh(it) && fresh(it.it) && it.Valid() && !it.err && it.it.store == store
    ensures it != null ==> it.secondary == (branch != "" || commit != "")
    ensures it != null && branch != "" ==> it.Pending() == RunKeysOf(store, repo, ByBranch(branch), after)
    ensures it != null && commit != "" ==> it.Pending() == RunKeysOf(store, repo, ByCommit(commit), after)
    ensures branch == commit == "" ==> it != null && it.Pending() == RunKeysOf(store, repo, Unfiltered, after)
  {
    if branch != "" && commit != "" {
      return null;
    }
    it := new KVRunResultIterator(store, repo, FilterOf(branch, commit), after);
  }

  function FilterOf(branch: string, commit: string): Filter {
    if branch != "" then ByBranch(branch) else if commit != "" then ByCommit(commit) else Unfiltered
  }
}
