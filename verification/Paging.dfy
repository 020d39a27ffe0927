/** Listing runs and hook runs page by page. */
module Paging {
  import opened Options
  import opened Kv
  import opened Manifests
  import opened RunKeys
  import opened RunIterators

  const DEFAULT_MAX_PER_PAGE := 1000
  const DEFAULT_PER_PAGE := 100

  function PaginationAmount(v: Option<int>): (n: int)
    ensures 0 < n <= 1000
    ensures v.Some? && 0 < v.value <= 1000 ==> n == v.value
    ensures v.Some? && v.value > 1000 ==> n == 1000
    ensures v.None? || v.value <= 0 ==> n == 100
  {
    match v
    case None => DEFAULT_PER_PAGE
    case Some(i) =>
      if i > DEFAULT_MAX_PER_PAGE then DEFAULT_MAX_PER_PAGE else if i <= 0 then DEFAULT_PER_PAGE else i
  }

  /** A page of results; the offset names the last of them when there are more. */
  datatype Page<+T> = Page(results: seq<T>, hasMore: bool, nextOffset: string)

  // ----- what following the pages gives, for any listing -----

  /** What a listing shows for a key, and the ID by which a page that ends there is continued. */
  datatype Entry<+T> = Entry(id: string, shown: T)

  datatype Listing<+T> = Listing(prefix: string, entries: map<string, Entry<T>>)

  /** Every key is the prefix, a delimiter and its own ID. */
  ghost predicate WellListed<T>(l: Listing<T>) {
    forall k :: k in l.entries ==> l.entries[k].id != "" && k == Path(l.prefix, l.entries[k].id)
  }

  ghost function KeysPast<T>(l: Listing<T>, after: string): set<string> {
    set k | k in l.entries && (after == "" || Less(Path(l.prefix, after), k))
  }

  ghost predicate Listed<T>(l: Listing<T>, ks: seq<string>) {
    forall i :: 0 <= i < |ks| ==> ks[i] in l.entries
  }

  ghost function Shown<T>(l: Listing<T>, ks: seq<string>): seq<T>
    requires Listed(l, ks)
  {
    seq(|ks|, i requires 0 <= i < |ks| => l.entries[ks[i]].shown)
  }

  lemma PastIsListed<T>(l: Listing<T>, after: string)
    ensures Listed(l, Sorted(KeysPast(l, after)))
  {
    SortedLists(KeysPast(l, after));
    forall i | 0 <= i < |Sorted(KeysPast(l, after))|
      ensures Sorted(KeysPast(l, after))[i] in l.entries
    {
      assert Sorted(KeysPast(l, after))[i] in KeysPast(l, after);
    }
  }

  /** The page that shows the first n of these keys. */
  ghost function PageOf<T>(l: Listing<T>, ks: seq<string>, n: int): Page<T>
    requires n > 0 && Listed(l, ks)
  {
    if |ks| > n then Page(Shown(l, ks[..n]), true, l.entries[ks[n - 1]].id) else Page(Shown(l, ks), false, "")
  }

  lemma PastLast<T>(l: Listing<T>, after: string, n: int, ks: seq<string>)
    requires WellListed(l) && 0 < n < |ks| && ks == Sorted(KeysPast(l, after)) && Listed(l, ks)
    ensures KeysPast(l, l.entries[ks[n - 1]].id) < KeysPast(l, after)
    ensures Sorted(KeysPast(l, l.entries[ks[n - 1]].id)) == ks[n..]
  {
    var last := ks[n - 1];
    var past, next := KeysPast(l, after), KeysPast(l, l.entries[last].id);
    SortedIsInOrder(past);
    SortedLists(past);
    assert last in past;
    forall k | k in ks[n..]
      ensures k in next
    {
      var i :| n <= i < |ks| && ks[i] == k;
      assert k in past;
    }
    forall k | k in next
      ensures k in past && k in ks[n..]
    {
      InPast(l, after, last, k);
      var i :| 0 <= i < |ks| && ks[i] == k;
      LessIsStrict(last, k);
      assert i >= n;
      assert k == ks[n..][i - n];
    }
    LessIsStrict(last, last);
    assert last !in next;
    SortedIsUnique(ks[n..], next);
  }

  lemma InPast<T>(l: Listing<T>, after: string, last: string, k: string)
    requires WellListed(l) && last in KeysPast(l, after) && k in KeysPast(l, l.entries[last].id)
    ensures k in KeysPast(l, after) && Less(last, k)
  {
    if after != "" {
      LessIsTransitive(Path(l.prefix, after), last, k);
    }
  }

  /** What a client has seen at the end: the keys behind the results, and the results. */
  datatype Followed<+T> = Followed(keys: seq<string>, results: seq<T>)

  /** Asking for page after page, each with any amount, from an offset on; None if the
      listing has not ended after that many pages. */
  ghost function Follow<T>(l: Listing<T>, amounts: nat -> Option<int>, i: nat, after: string, pages: nat): Option<Followed<T>>
    decreases pages
  {
    if pages == 0 then None
    else
      PastIsListed(l, after);
      var ks, n := Sorted(KeysPast(l, after)), PaginationAmount(amounts(i));
      var p := PageOf(l, ks, n);
      if !p.hasMore then Some(Followed(ks, p.results))
      else
        match Follow(l, amounts, i + 1, p.nextOffset, pages - 1)
        case None => None
        case Some(f) => Some(Followed(ks[..n] + f.keys, p.results + f.results))
  }

  /** Following the pages from the start ends, and this is what was seen. */
  ghost predicate Ends<T>(l: Listing<T>, amounts: nat -> Option<int>, f: Followed<T>) {
    exists pages :: Follow(l, amounts, 0, "", pages) == Some(f)
  }

  lemma SmallerSet(a: set<string>, b: set<string>)
    requires a < b
    ensures |a| < |b|
  {
    var rest := b - a;
    assert b == a + rest && rest != {};
  }

  predicate SameKeys(xs: seq<string>, ks: seq<string>) {
    xs == ks
  }

  /** From here on the pages show all of these keys. */
  ghost predicate ShowsFrom<T>(l: Listing<T>, amounts: nat -> Option<int>, i: nat, after: string, pages: nat, ks: seq<string>) {
    forall xs :: SameKeys(xs, ks) ==> Listed(l, xs) && Follow(l, amounts, i, after, pages) == Some(Followed(xs, Shown(l, xs)))
  }

  lemma LastPageShows<T>(l: Listing<T>, amounts: nat -> Option<int>, i: nat, after: string, pages: nat, ks: seq<string>)
    requires pages > 0 && ks == Sorted(KeysPast(l, after)) && Listed(l, ks) && |ks| <= PaginationAmount(amounts(i))
    ensures ShowsFrom(l, amounts, i, after, pages, ks)
  {
  }

  lemma NextPagesShow<T>(l: Listing<T>, amounts: nat -> Option<int>, i: nat, after: string, pages: nat, ks: seq<string>, n: nat)
    requires pages > 0 && ks == Sorted(KeysPast(l, after)) && Listed(l, ks) && n == PaginationAmount(amounts(i)) && 0 < n < |ks|
    requires ShowsFrom(l, amounts, i + 1, l.entries[ks[n - 1]].id, pages - 1, ks[n..])
    ensures ShowsFrom(l, amounts, i, after, pages, ks)
  {
    ShownJoins(l, ks, n);
    assert SameKeys(ks[n..], ks[n..]);
  }

  lemma {:induction false} PagesShowFrom<T>(l: Listing<T>, amounts: nat -> Option<int>, i: nat, after: string, pages: nat, ks: seq<string>)
    requires WellListed(l) && pages > |KeysPast(l, after)| && ks == Sorted(KeysPast(l, after))
    ensures ShowsFrom(l, amounts, i, after, pages, ks)
    decreases pages
  {
    PastIsListed(l, after);
    var n := PaginationAmount(amounts(i));
    if |ks| <= n {
      LastPageShows(l, amounts, i, after, pages, ks);
    } else {
      var last := l.entries[ks[n - 1]].id;
      PastLast(l, after, n, ks);
      SmallerSet(KeysPast(l, last), KeysPast(l, after));
      PagesShowFrom(l, amounts, i + 1, last, pages - 1, ks[n..]);
      NextPagesShow(l, amounts, i, after, pages, ks, n);
    }
  }

  /** The pages end, and together they show every key past the offset once, in key order. */
  lemma FollowShowsAll<T>(l: Listing<T>, amounts: nat -> Option<int>, i: nat, after: string, pages: nat)
    requires WellListed(l) && pages > |KeysPast(l, after)|
    ensures Listed(l, Sorted(KeysPast(l, after)))
    ensures Follow(l, amounts, i, after, pages)
         == Some(Followed(Sorted(KeysPast(l, after)), Shown(l, Sorted(KeysPast(l, after)))))
  {
    var ks := Sorted(KeysPast(l, after));
    PastIsListed(l, after);
    PagesShowFrom(l, amounts, i, after, pages, ks);
    assert SameKeys(ks, ks);
  }

  // ----- when the pages show exactly the listing's own keys -----

  /** The keys that continue the prefix with a delimiter. */
  ghost function OwnKeys<T>(l: Listing<T>): set<string> {
    set k | k in l.entries && HasPrefix(k, l.prefix + [DELIMITER])
  }

  /** All keys have the prefix, and a page that ends at an own key continues after it. */
  ghost predicate OwnIds<T>(l: Listing<T>) {
    && (forall k :: k in l.entries ==> HasPrefix(k, l.prefix))
    && (forall k :: k in OwnKeys(l) ==> l.entries[k].id != "" && k == Path(l.prefix, l.entries[k].id))
  }

  /** A key that is not one of the own keys comes before all of them, or after every offset. */
  lemma ForeignKey(prefix: string, k: string)
    requires HasPrefix(k, prefix) && !HasPrefix(k, prefix + [DELIMITER])
    ensures (forall x: string :: Less(k, Path(prefix, x))) || (forall x: string :: Less(Path(prefix, x), k))
  {
    var rest := k[|prefix|..];
    assert k == prefix + rest;
    assert rest != "" ==> k[..|prefix| + 1] == prefix + [rest[0]];
    forall x: string
      ensures if rest == "" || rest[0] < DELIMITER then Less(k, Path(prefix, x)) else Less(Path(prefix, x), k)
    {
      LessAfter(prefix, rest, [DELIMITER] + x);
      LessAfter(prefix, [DELIMITER] + x, rest);
      assert prefix + ([DELIMITER] + x) == Path(prefix, x);
    }
  }

  /** The first key is on the first page. */
  lemma FirstIsSeen<T>(l: Listing<T>, amounts: nat -> Option<int>, i: nat, after: string, pages: nat)
    requires KeysPast(l, after) != {} && Follow(l, amounts, i, after, pages).Some?
    ensures Least(KeysPast(l, after)) in Follow(l, amounts, i, after, pages).value.keys
  {
    SortedFirst(KeysPast(l, after));
    PastIsListed(l, after);
    var f := Follow(l, amounts, i, after, pages).value;
    assert f.keys[0] == Sorted(KeysPast(l, after))[0];
  }

  /** A key past every offset is on the last page. */
  lemma {:induction false} LastIsSeen<T>(l: Listing<T>, amounts: nat -> Option<int>, i: nat, after: string, pages: nat, k: string)
    requires k in l.entries && forall x: string :: Less(Path(l.prefix, x), k)
    requires Follow(l, amounts, i, after, pages).Some?
    ensures k in Follow(l, amounts, i, after, pages).value.keys
    decreases pages
  {
    PastIsListed(l, after);
    SortedLists(KeysPast(l, after));
    var ks, n := Sorted(KeysPast(l, after)), PaginationAmount(amounts(i));
    var p := PageOf(l, ks, n);
    if p.hasMore {
      LastIsSeen(l, amounts, i + 1, p.nextOffset, pages - 1, k);
    } else {
      assert k in KeysPast(l, after);
    }
  }

  /** More pages change nothing once the listing has ended. */
  lemma {:induction false} EndIsFinal<T>(l: Listing<T>, amounts: nat -> Option<int>, i: nat, after: string, pages: nat, more: nat)
    requires Follow(l, amounts, i, after, pages).Some? && pages <= more
    ensures Follow(l, amounts, i, after, more) == Follow(l, amounts, i, after, pages)
    decreases pages
  {
    PastIsListed(l, after);
    var ks, n := Sorted(KeysPast(l, after)), PaginationAmount(amounts(i));
    var p := PageOf(l, ks, n);
    if p.hasMore {
      EndIsFinal(l, amounts, i + 1, p.nextOffset, pages - 1, more - 1);
    }
  }

  lemma NothingForeignSeen<T>(l: Listing<T>, amounts: nat -> Option<int>, f: Followed<T>, k: string)
    requires OwnIds(l) && Ends(l, amounts, f) && forall x :: x in f.keys ==> x in OwnKeys(l)
    requires k in l.entries
    ensures k in OwnKeys(l)
  {
    if k !in OwnKeys(l) {
      var pages :| Follow(l, amounts, 0, "", pages) == Some(f);
      ForeignKey(l.prefix, k);
      if forall x: string :: Less(Path(l.prefix, x), k) {
        LastIsSeen(l, amounts, 0, "", pages, k);
      } else {
        assert k in KeysPast(l, "");
        FirstIsSeen(l, amounts, 0, "", pages);
        var first := Least(KeysPast(l, ""));
        assert first in OwnKeys(l) && first == Path(l.prefix, l.entries[first].id);
        LessIsStrict(k, first);
      }
    }
  }

  /** The pages end and show exactly these keys of its own, for any amounts, if and only if
      the listing has no other keys. */
  lemma PagesShowIff<T>(l: Listing<T>, amounts: nat -> Option<int>, keys: set<string>)
    requires OwnIds(l) && keys <= OwnKeys(l)
    ensures (exists f :: Ends(l, amounts, f) && f.keys == Sorted(keys)) <==> keys == l.entries.Keys
    ensures keys == l.entries.Keys ==> Listed(l, Sorted(keys)) && Ends(l, amounts, Followed(Sorted(keys), Shown(l, Sorted(keys))))
  {
    if keys == l.entries.Keys {
      OwnKeysEnd(l, amounts);
    }
    if f :| Ends(l, amounts, f) && f.keys == Sorted(keys) {
      SortedLists(keys);
      forall k | k in l.entries
        ensures k in OwnKeys(l)
      {
        NothingForeignSeen(l, amounts, f, k);
      }
      assert OwnKeys(l) == l.entries.Keys;
      OwnKeysEnd(l, amounts);
      OneEnd(l, amounts, f, Followed(Sorted(l.entries.Keys), Shown(l, Sorted(l.entries.Keys))));
      SortedLists(l.entries.Keys);
      assert forall k :: k in keys <==> k in l.entries;
    }
  }

  lemma OwnKeysEnd<T>(l: Listing<T>, amounts: nat -> Option<int>)
    requires OwnIds(l) && OwnKeys(l) == l.entries.Keys
    ensures var ks := Sorted(l.entries.Keys); Listed(l, ks) && Ends(l, amounts, Followed(ks, Shown(l, ks)))
  {
    assert KeysPast(l, "") == l.entries.Keys;
    assert forall k :: k in l.entries ==> k in OwnKeys(l);
    FollowShowsAll(l, amounts, 0, "", |KeysPast(l, "")| + 1);
  }

  lemma OneEnd<T>(l: Listing<T>, amounts: nat -> Option<int>, f: Followed<T>, g: Followed<T>)
    requires Ends(l, amounts, f) && Ends(l, amounts, g)
    ensures f == g
  {
    var m :| Follow(l, amounts, 0, "", m) == Some(f);
    var n :| Follow(l, amounts, 0, "", n) == Some(g);
    if m <= n {
      EndIsFinal(l, amounts, 0, "", m, n);
    } else {
      EndIsFinal(l, amounts, 0, "", n, m);
    }
  }

  lemma ShownJoins<T>(l: Listing<T>, ks: seq<string>, n: nat)
    requires Listed(l, ks) && n <= |ks|
    ensures ks[..n] + ks[n..] == ks && Shown(l, ks[..n]) + Shown(l, ks[n..]) == Shown(l, ks)
  {}

  lemma PastOffset(prefix: string, after: string, k: string)
    requires k != ""
    ensures Less(if after != "" then Path(prefix, after) else "", k) <==> after == "" || Less(Path(prefix, after), k)
    ensures Less("", k)
  {}

  // ----- reading one page -----

  /** The results so far are those of the first keys, and the rest is still to come. */
  ghost predicate AtPlace<T>(l: Listing<T>, ks: seq<string>, results: seq<T>, rest: set<string>) {
    && |results| <= |ks| && Listed(l, ks)
    && (forall i :: 0 <= i < |results| ==> results[i] == l.entries[ks[i]].shown)
    && Sorted(rest) == ks[|results|..]
  }

  ghost predicate EndsWith<T>(l: Listing<T>, ks: seq<string>, n: int, last: string) {
    0 < n <= |ks| && ks[n - 1] in l.entries && last == l.entries[ks[n - 1]].id
  }

  lemma StartPlace<T>(l: Listing<T>, after: string)
    ensures AtPlace(l, Sorted(KeysPast(l, after)), [], KeysPast(l, after))
  {
    PastIsListed(l, after);
  }

  lemma NextPlace<T>(l: Listing<T>, ks: seq<string>, results: seq<T>, rest: set<string>)
    requires AtPlace(l, ks, results, rest) && rest != {}
    ensures |results| < |ks| && ks[|results|] == Least(rest) && Least(rest) in l.entries
    ensures AtPlace(l, ks, results + [l.entries[Least(rest)].shown], rest - {Least(rest)})
  {
    SortedFirst(rest);
    var sorted, tail := Sorted(rest), Sorted(rest - {Least(rest)});
    assert sorted[0] == ks[|results|..][0] && sorted[1..] == tail;
    assert ks[|results|..][1..] == ks[|results| + 1..];
  }

  /** With nothing left, or with the page full and more to come, the results are the page. */
  lemma PlaceIsPage<T>(l: Listing<T>, ks: seq<string>, results: seq<T>, rest: set<string>, n: int, last: string)
    requires AtPlace(l, ks, results, rest) && 0 < n && |results| <= n
    requires rest == {} || (|results| == n && EndsWith(l, ks, n, last))
    ensures Page(results, rest != {}, if rest != {} then last else "") == PageOf(l, ks, n)
  {
    assert rest != {} <==> Sorted(rest) != [];
    assert ks[..|results|] == if rest != {} then ks[..n] else ks;
    assert results == Shown(l, ks[..|results|]);
  }

  // ----- runs -----

  datatype ActionRun = ActionRun(branch: string, commitID: string, runID: string, eventType: string,
                                 startTime: nat, endTime: nat, completed: bool)

  function RunResultToActionRun(r: RunResult): ActionRun {
    ActionRun(r.branchID, r.commitID, r.runID, r.eventType, r.startTime, r.endTime, r.passed)
  }

  /** The run a key stands for: itself, or through an index entry. */
  predicate LeadsToRun(store: Records, secondary: bool, k: string, run: RunResult) {
    && k in store
    && if secondary then store[k].IndexV? && store[k].primaryKey in store && store[store[k].primaryKey] == RunV(run)
       else store[k] == RunV(run)
  }

  predicate TellsRun(a: ActionRun, run: RunResult) {
    && a.runID == run.runID && a.branch == run.branchID && a.commitID == run.commitID && a.eventType == run.eventType
    && a.startTime == run.startTime && a.endTime == run.endTime && (a.completed <==> run.passed)
  }

  /** The results tell of the runs behind the keys, one by one. */
  ghost predicate TellsRuns(store: Records, secondary: bool, ks: seq<string>, results: seq<ActionRun>) {
    |results| <= |ks| && forall i :: 0 <= i < |results| ==> TellsOf(store, secondary, ks[i], results[i])
  }

  ghost predicate TellsOf(store: Records, secondary: bool, k: string, a: ActionRun) {
    exists run :: LeadsToRun(store, secondary, k, run) && TellsRun(a, run)
  }

  lemma PageTellsRuns(l: Listing<ActionRun>, store: Records, secondary: bool, ks: seq<string>, n: int)
    requires ShowsRuns(l, store, secondary) && Listed(l, ks) && n > 0 && RunsAreThere(store, secondary, ks, n)
    ensures TellsRuns(store, secondary, ks, PageOf(l, ks, n).results)
  {
    var results := PageOf(l, ks, n).results;
    forall i | 0 <= i < |results|
      ensures TellsOf(store, secondary, ks[i], results[i])
    {
      assert RunIsThere(store, secondary, ks[i]);
      var run := Resolve(store, secondary, ks[i]).value;
      assert results[i] == l.entries[ks[i]].shown;
      assert LeadsToRun(store, secondary, ks[i], run) && TellsRun(results[i], run);
    }
  }

  const NO_RUN := RunResult("", "", "", "", "", 0, 0, false)

  /** What is shown for a key; nothing sensible when its record is not there. */
  function RunEntry(store: Records, secondary: bool, k: string): Entry<ActionRun>
    requires k in store
  {
    var r := Resolve(store, secondary, k);
    var run := if r.Some? then r.value else NO_RUN;
    Entry(run.runID, RunResultToActionRun(run))
  }

  ghost function RunListing(store: Records, repo: string, f: Filter): Listing<ActionRun> {
    Listing(FilterPrefix(repo, f),
            map k | k in RunKeysOf(store, repo, f, "") :: RunEntry(store, f != Unfiltered, k))
  }

  ghost predicate ShowsRuns(l: Listing<ActionRun>, store: Records, secondary: bool) {
    forall k :: k in l.entries ==> k in store && l.entries[k] == RunEntry(store, secondary, k)
  }

  lemma RunsPast<T>(l: Listing<T>, store: Records, secondary: bool, after: string)
    requires l.entries.Keys == RunKeysUnder(store, secondary, l.prefix, "")
    ensures KeysPast(l, after) == RunKeysUnder(store, secondary, l.prefix, after)
  {
    forall k
      ensures k in KeysPast(l, after) <==> k in RunKeysUnder(store, secondary, l.prefix, after)
    {
      assert k in l.entries <==> k in RunKeysUnder(store, secondary, l.prefix, "");
      if k != "" {
        PastOffset(l.prefix, after, k);
      }
    }
  }

  lemma RunListingPast(store: Records, repo: string, f: Filter, after: string)
    ensures KeysPast(RunListing(store, repo, f), after) == RunKeysOf(store, repo, f, after)
    ensures ShowsRuns(RunListing(store, repo, f), store, f != Unfiltered)
  {
    var l := RunListing(store, repo, f);
    assert l.entries.Keys == RunKeysOf(store, repo, f, "");
    RunsPast(l, store, f != Unfiltered, after);
  }

  predicate RunIsThere(store: Records, secondary: bool, k: string) {
    k in store && Resolve(store, secondary, k).Some?
  }

  /** The records behind the first n keys are all there. */
  ghost predicate RunsAreThere(store: Records, secondary: bool, ks: seq<string>, n: int) {
    forall i :: 0 <= i < n && i < |ks| ==> RunIsThere(store, secondary, ks[i])
  }

  ghost predicate ReadingRuns(it: KVRunResultIterator, l: Listing<ActionRun>, ks: seq<string>, results: seq<ActionRun>, rest: set<string>)
    reads it, it.it
  {
    && it.Valid() && ShowsRuns(l, it.it.store, it.secondary)
    && AtPlace(l, ks, results, rest) && RunsAreThere(it.it.store, it.secondary, ks, |results|)
    && (if it.err then |results| < |ks| && !RunIsThere(it.it.store, it.secondary, ks[|results|]) else it.Pending() == rest)
  }

  /** Next and Value together: one more result, or the end, or an error. */
  method ReadRun(it: KVRunResultIterator, ghost l: Listing<ActionRun>, ghost ks: seq<string>,
                 ghost results: seq<ActionRun>, ghost rest: set<string>)
    returns (more: bool, run: ActionRun, id: string, ghost left: set<string>)
    requires ReadingRuns(it, l, ks, results, rest)
    modifies it, it.it
    ensures more ==> !it.err && rest != {} && EndsWith(l, ks, |results| + 1, id)
    ensures more ==> ReadingRuns(it, l, ks, results + [run], left) && |left| < |rest|
    ensures !more ==> ReadingRuns(it, l, ks, results, rest) && left == rest && (it.err || rest == {})
  {
    run, id := RunResultToActionRun(NO_RUN), "";
    left := rest;
    if rest != {} {
      NextPlace(l, ks, results, rest);
    }
    more := it.Next();
    if more {
      left := rest - {Least(rest)};
      var val := it.Value();
      run, id := RunResultToActionRun(val.value), val.value.runID;
    }
  }

  /** The paging of ListRepositoryRuns; None is the error response. */
  method ListRepositoryRuns(store: Records, repo: string, f: Filter, after: string, v: Option<int>)
    returns (response: Option<Page<ActionRun>>)
    ensures var l, n := RunListing(store, repo, f), PaginationAmount(v);
      var ks := Sorted(KeysPast(l, after));
      && (response.Some? <==> RunsAreThere(store, f != Unfiltered, ks, n + 1))
      && (response.Some? ==> Listed(l, ks) && response.value == PageOf(l, ks, n))
      && (response.Some? ==> TellsRuns(store, f != Unfiltered, ks, response.value.results))
  {
    var it := new KVRunResultIterator(store, repo, f, after);
    ghost var l := RunListing(store, repo, f);
    RunListingPast(store, repo, f, after);
    StartPlace(l, after);
    ghost var ks := Sorted(KeysPast(l, after));
    response := PageRuns(it, l, ks, PaginationAmount(v));
    if response.Some? {
      PageTellsRuns(l, store, f != Unfiltered, ks, PaginationAmount(v));
    }
  }

  method PageRuns(it: KVRunResultIterator, ghost l: Listing<ActionRun>, ghost ks: seq<string>, amount: int)
    returns (response: Option<Page<ActionRun>>)
    requires amount > 0 && !it.err && ReadingRuns(it, l, ks, [], it.Pending())
    modifies it, it.it
    ensures response.Some? <==> RunsAreThere(it.it.store, it.secondary, ks, amount + 1)
    ensures response.Some? ==> Listed(l, ks) && response.value == PageOf(l, ks, amount)
  {
    var results, last, rest := FillRuns(it, l, ks, amount);
    var hasMore, _, _, _ := ReadRun(it, l, ks, results, rest);
    if it.err {
      return None;
    }
    PlaceIsPage(l, ks, results, rest, amount, last);
    response := Some(Page(results, hasMore, if hasMore && |results| > 0 then last else ""));
  }

  /** The loop: results up to the amount asked for, and the ID of the last. */
  method FillRuns(it: KVRunResultIterator, ghost l: Listing<ActionRun>, ghost ks: seq<string>, amount: int)
    returns (results: seq<ActionRun>, last: string, ghost rest: set<string>)
    requires amount > 0 && !it.err && ReadingRuns(it, l, ks, [], it.Pending())
    modifies it, it.it
    ensures ReadingRuns(it, l, ks, results, rest) && |results| <= amount
    ensures |results| == amount || it.err || rest == {}
    ensures results != [] ==> EndsWith(l, ks, |results|, last)
  {
    results, last := [], "";
    rest := it.Pending();
    var more := true;
    while more && |results| < amount
      invariant ReadingRuns(it, l, ks, results, rest) && |results| <= amount
      invariant !more ==> it.err || rest == {}
      invariant results != [] ==> EndsWith(l, ks, |results|, last)
      decreases |rest|, more
    {
      var run, id;
      more, run, id, rest := ReadRun(it, l, ks, results, rest);
      if more {
        results, last := results + [run], id;
      }
    }
  }

  // ----- hook runs -----

  datatype HookStatus = Completed | Failed | Skipped

  datatype HookRun = HookRun(hookRunID: string, action: string, hookID: string, startTime: nat, endTime: Option<nat>, status: HookStatus)

  /** A task that did not pass was skipped if it never started. */
  function TaskToHookRun(t: TaskResult): HookRun {
    var status := if t.passed then Completed else if t.startTime == 0 then Skipped else Failed;
    HookRun(t.hookRunID, t.actionName, t.hookID, t.startTime, if status == Skipped then None else Some(t.endTime), status)
  }

  /** A hook that passed is completed; one that did not has failed, or was skipped if it never
      started, and then it has no end. */
  predicate TellsHook(h: HookRun, t: TaskResult) {
    && h.hookRunID == t.hookRunID && h.action == t.actionName && h.hookID == t.hookID && h.startTime == t.startTime
    && (h.status == Completed <==> t.passed)
    && (h.status == Skipped <==> !t.passed && t.startTime == 0)
    && (h.endTime == if !t.passed && t.startTime == 0 then None else Some(t.endTime))
  }

  /** The results tell of the tasks at the keys, one by one. */
  ghost predicate TellsHooks(store: Records, ks: seq<string>, results: seq<HookRun>) {
    |results| <= |ks| && forall i :: 0 <= i < |results| ==>
      ks[i] in store && store[ks[i]].TaskV? && TellsHook(results[i], store[ks[i]].task)
  }

  lemma PageTellsHooks(l: Listing<HookRun>, store: Records, ks: seq<string>, n: int)
    requires ShowsTasks(l, store) && Listed(l, ks) && n > 0 && TasksAreThere(store, ks, n)
    ensures TellsHooks(store, ks, PageOf(l, ks, n).results)
  {
    var results := PageOf(l, ks, n).results;
    forall i | 0 <= i < |results|
      ensures TaskIsThere(store, ks[i]) && TellsHook(results[i], store[ks[i]].task)
    {
      assert results[i] == l.entries[ks[i]].shown;
    }
  }

  const NO_TASK := TaskResult("", "", "", "", 0, 0, false)

  function TaskEntry(store: Records, k: string): Entry<HookRun>
    requires k in store
  {
    var task := if store[k].TaskV? then store[k].task else NO_TASK;
    Entry(task.hookRunID, TaskToHookRun(task))
  }

  ghost function HookListing(store: Records, repo: string, runID: string): Listing<HookRun> {
    Listing(TasksPath(repo, runID), map k | k in TaskKeys(store, repo, runID, "") :: TaskEntry(store, k))
  }

  ghost predicate ShowsTasks(l: Listing<HookRun>, store: Records) {
    forall k :: k in l.entries ==> k in store && l.entries[k] == TaskEntry(store, k)
  }

  lemma TasksPast<T>(l: Listing<T>, store: Records, after: string)
    requires l.entries.Keys == KeysAfter(store, l.prefix, "")
    ensures KeysPast(l, after) == KeysAfter(store, l.prefix, if after != "" then Path(l.prefix, after) else "")
  {
    forall k
      ensures k in KeysPast(l, after) <==> k in KeysAfter(store, l.prefix, if after != "" then Path(l.prefix, after) else "")
    {
      assert k in l.entries <==> k in KeysAfter(store, l.prefix, "");
      if k != "" {
        PastOffset(l.prefix, after, k);
      }
    }
  }

  lemma HookListingPast(store: Records, repo: string, runID: string, after: string)
    ensures KeysPast(HookListing(store, repo, runID), after) == TaskKeys(store, repo, runID, after)
    ensures ShowsTasks(HookListing(store, repo, runID), store)
  {
    var l := HookListing(store, repo, runID);
    assert l.entries.Keys == TaskKeys(store, repo, runID, "");
    TasksPast(l, store, after);
  }

  predicate TaskIsThere(store: Records, k: string) {
    k in store && store[k].TaskV?
  }

  ghost predicate TasksAreThere(store: Records, ks: seq<string>, n: int) {
    forall i :: 0 <= i < n && i < |ks| ==> TaskIsThere(store, ks[i])
  }

  ghost predicate ReadingTasks(it: KVTaskResultIterator, l: Listing<HookRun>, ks: seq<string>, results: seq<HookRun>, rest: set<string>)
    reads it, it.it
  {
    && it.Valid() && ShowsTasks(l, it.it.store)
    && AtPlace(l, ks, results, rest) && TasksAreThere(it.it.store, ks, |results|)
    && (if it.err then |results| < |ks| && !TaskIsThere(it.it.store, ks[|results|]) else it.Pending() == rest)
  }

  method ReadHook(it: KVTaskResultIterator, ghost l: Listing<HookRun>, ghost ks: seq<string>,
                  ghost results: seq<HookRun>, ghost rest: set<string>)
    returns (more: bool, run: HookRun, id: string, ghost left: set<string>)
    requires ReadingTasks(it, l, ks, results, rest)
    modifies it, it.it
    ensures more ==> !it.err && rest != {} && EndsWith(l, ks, |results| + 1, id)
    ensures more ==> ReadingTasks(it, l, ks, results + [run], left) && |left| < |rest|
    ensures !more ==> ReadingTasks(it, l, ks, results, rest) && left == rest && (it.err || rest == {})
  {
    run, id := TaskToHookRun(NO_TASK), "";
    left := rest;
    if rest != {} {
      NextPlace(l, ks, results, rest);
    }
    more := it.Next();
    if more {
      left := rest - {Least(rest)};
      var val := it.Value();
      run, id := TaskToHookRun(val.value), val.value.hookRunID;
    }
  }

  /** The paging of ListRunHooks; None is the error response. */
  method ListRunHooks(store: Records, repo: string, runID: string, after: string, v: Option<int>)
    returns (response: Option<Page<HookRun>>)
    ensures var l, n := HookListing(store, repo, runID), PaginationAmount(v);
      var ks := Sorted(KeysPast(l, after));
      && (response.Some? <==> TasksAreThere(store, ks, n + 1))
      && (response.Some? ==> Listed(l, ks) && response.value == PageOf(l, ks, n))
      && (response.Some? ==> TellsHooks(store, ks, response.value.results))
  {
    var it := new KVTaskResultIterator(store, repo, runID, after);
    ghost var l := HookListing(store, repo, runID);
    HookListingPast(store, repo, runID, after);
    StartPlace(l, after);
    ghost var ks := Sorted(KeysPast(l, after));
    response := PageHooks(it, l, ks, PaginationAmount(v));
    if response.Some? {
      PageTellsHooks(l, store, ks, PaginationAmount(v));
    }
  }

  method PageHooks(it: KVTaskResultIterator, ghost l: Listing<HookRun>, ghost ks: seq<string>, amount: int)
    returns (response: Option<Page<HookRun>>)
    requires amount > 0 && !it.err && ReadingTasks(it, l, ks, [], it.Pending())
    modifies it, it.it
    ensures response.Some? <==> TasksAreThere(it.it.store, ks, amount + 1)
    ensures response.Some? ==> Listed(l, ks) && response.value == PageOf(l, ks, amount)
  {
    var results, last, rest := FillHooks(it, l, ks, amount);
    var hasMore, _, _, _ := ReadHook(it, l, ks, results, rest);
    if it.err {
      return None;
    }
    PlaceIsPage(l, ks, results, rest, amount, last);
    response := Some(Page(results, hasMore, if hasMore && |results| > 0 then last else ""));
  }

  /** The loop: results up to the amount asked for, and the ID of the last. */
  method FillHooks(it: KVTaskResultIterator, ghost l: Listing<HookRun>, ghost ks: seq<string>, amount: int)
    returns (results: seq<HookRun>, last: string, ghost rest: set<string>)
    requires amount > 0 && !it.err && ReadingTasks(it, l, ks, [], it.Pending())
    modifies it, it.it
    ensures ReadingTasks(it, l, ks, results, rest) && |results| <= amount
    ensures |results| == amount || it.err || rest == {}
    ensures results != [] ==> EndsWith(l, ks, |results|, last)
  {
    results, last := [], "";
    rest := it.Pending();
    var more := true;
    while more && |results| < amount
      invariant ReadingTasks(it, l, ks, results, rest) && |results| <= amount
      invariant !more ==> it.err || rest == {}
      invariant results != [] ==> EndsWith(l, ks, |results|, last)
      decreases |rest|, more
    {
      var run, id;
      more, run, id, rest := ReadHook(it, l, ks, results, rest);
      if more {
        results, last := results + [run], id;
      }
    }
  }
}
