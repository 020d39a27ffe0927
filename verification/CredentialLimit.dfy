/** The bound on how far the limit of credentials can be exceeded is reached. */
module CredentialLimit {
  import opened Kv
  import opened AuthStore
  import opened CredentialSteps

  function Last(run: seq<State>): State
    requires run != []
  {
    run[|run| - 1]
  }

  /** A run with at most this many operations at work at any moment. */
  ghost predicate Narrow(run: seq<State>, width: nat) {
    IsRun(run) && forall n :: 0 <= n < |run| ==> |run[n].ops| <= width
  }

  /** The same but for the time and the operations. */
  predicate Now(t: State, s: State, ops: map<nat, Op>) {
    t == s.(clock := t.clock, ops := ops)
  }

  lemma RunGoesOn(run: seq<State>, t: State)
    requires IsRun(run) && Follows(Last(run), t)
    ensures IsRun(run + [t])
  {
    var more := run + [t];
    forall i | 0 <= i < |more| - 1
      ensures Follows(more[i], more[i + 1])
    {
      if i < |run| - 1 {
        assert Follows(run[i], run[i + 1]);
      }
    }
  }

  lemma Extended(run: seq<State>, width: nat, step: Step) returns (more: seq<State>)
    requires Narrow(run, width) && Next(Last(run), step).Some? && |Next(Last(run), step).value.ops| <= width
    ensures Narrow(more, width) && Last(more) == Next(Last(run), step).value
  {
    var t := Next(Last(run), step).value;
    more := run + [t];
    RunGoesOn(run, t);
  }

  lemma LeastPassed(creds: Creds, u: string, start: string)
    requires KeysAhead(creds, u, start) != {}
    ensures var keys := KeysAhead(creds, u, start);
      KeysAhead(creds, u, Successor(Least(keys))) == keys - {Least(keys)}
  {
    var keys := KeysAhead(creds, u, start);
    var k := Least(keys);
    forall x | x in KeysOf(creds, u)
      ensures !Less(x, Successor(k)) <==> !Less(x, start) && x != k
    {
      NothingBetween(k, x);
      LessIsStrict(k, k);
      if Less(k, x) {
        LessIsStrict(k, x);
        NotBelow(x, k, start);
      }
    }
  }

  /** A listing that is left alone and finds few enough credentials. */
  lemma {:induction false} ListThrough(run: seq<State>, width: nat, id: nat) returns (more: seq<State>)
    requires Narrow(run, width) && id in Last(run).ops && Last(run).ops[id].Listing?
    requires var op := Last(run).ops[id];
      op.seen + |KeysAhead(Last(run).creds, op.user, op.start)| < MAX_CREDENTIALS_PER_USER
    ensures Narrow(more, width)
    ensures var s := Last(run);
      var op := s.ops[id];
      Now(Last(more), s, s.ops[id := Storing(op.user, op.ak, op.began)])
    decreases |KeysAhead(Last(run).creds, Last(run).ops[id].user, Last(run).ops[id].start)|
  {
    var s := Last(run);
    var op := s.ops[id];
    more := Extended(run, width, Advance(id));
    if KeysAhead(s.creds, op.user, op.start) != {} {
      LeastPassed(s.creds, op.user, op.start);
      var next := Last(more).ops[id];
      more := ListThrough(more, width, id);
      assert s.ops[id := next][id := Storing(op.user, op.ak, op.began)] == s.ops[id := Storing(op.user, op.ak, op.began)];
    }
  }

  /** An addition that begins and lists while nothing else happens. */
  lemma BeginAndList(run: seq<State>, width: nat, id: nat, u: string, ak: string) returns (more: seq<State>, began: nat)
    requires Narrow(run, width) && id !in Last(run).ops && |Last(run).ops| < width && u in Last(run).users
    requires |KeysOf(Last(run).creds, u)| < MAX_CREDENTIALS_PER_USER
    ensures Narrow(more, width) && Now(Last(more), Last(run), Last(run).ops[id := Storing(u, ak, began)])
  {
    var s := Last(run);
    began := s.clock;
    more := Extended(run, width, BeginAdd(id, u, ak));
    assert KeysAhead(s.creds, u, "") == KeysOf(s.creds, u);
    more := ListThrough(more, width, id);
  }

  predicate Distinct(keys: seq<string>) {
    forall i, j :: 0 <= i < j < |keys| ==> keys[i] != keys[j]
  }

  function KeySet(keys: seq<string>, n: nat): set<string>
    requires n <= |keys|
  {
    set i | 0 <= i < n :: keys[i]
  }

  lemma {:induction false} KeySetSize(keys: seq<string>, n: nat)
    requires n <= |keys| && Distinct(keys)
    ensures |KeySet(keys, n)| == n
    ensures n < |keys| ==> keys[n] !in KeySet(keys, n) && KeySet(keys, n + 1) == KeySet(keys, n) + {keys[n]}
  {
    if n > 0 {
      KeySetSize(keys, n - 1);
    }
  }

  /** The user has the first n keys. */
  ghost predicate HasKeys(s: State, u: string, keys: seq<string>, n: nat) {
    && n <= |keys| && u in s.users
    && s.creds.Keys == (set k | k in KeySet(keys, n) :: (u, k))
  }

  lemma HasKeysOf(s: State, u: string, keys: seq<string>, n: nat)
    requires HasKeys(s, u, keys, n)
    ensures KeysOf(s.creds, u) == KeySet(keys, n)
  {
    forall k
      ensures k in KeysOf(s.creds, u) <==> k in KeySet(keys, n)
    {
      assert (u, k) in s.creds.Keys <==> k in KeySet(keys, n);
    }
  }

  lemma OneKeyMore(s: State, t: State, u: string, keys: seq<string>, n: nat)
    requires HasKeys(s, u, keys, n) && n < |keys| && Distinct(keys)
    requires t.users == s.users && t.creds.Keys == s.creds.Keys + {(u, keys[n])}
    ensures HasKeys(t, u, keys, n + 1)
  {
    KeySetSize(keys, n);
  }

  lemma StoreNext(run: seq<State>, width: nat, id: nat, u: string, ak: string, began: nat) returns (more: seq<State>)
    requires Narrow(run, width) && id in Last(run).ops && Last(run).ops[id] == Storing(u, ak, began)
    requires (u, ak) !in Last(run).creds
    ensures Narrow(more, width)
    ensures var s, t := Last(run), Last(more);
      && t.users == s.users && t.index == s.index && t.creds.Keys == s.creds.Keys + {(u, ak)}
      && t.ops == s.ops[id := Indexing(u, ak)]
  {
    more := Extended(run, width, Advance(id));
  }

  lemma IndexNext(run: seq<State>, width: nat, id: nat, u: string, ak: string) returns (more: seq<State>)
    requires Narrow(run, width) && id in Last(run).ops && Last(run).ops[id] == Indexing(u, ak)
    requires ak !in Last(run).index
    ensures Narrow(more, width)
    ensures var s, t := Last(run), Last(more);
      t.users == s.users && t.index == s.index[ak := u] && t.creds == s.creds && t.ops == s.ops - {id}
  {
    SubsetSize((Last(run).ops - {id}).Keys, Last(run).ops.Keys);
    more := Extended(run, width, Advance(id));
  }

  lemma AddAlone(run: seq<State>, width: nat, u: string, ak: string) returns (more: seq<State>)
    requires Narrow(run, width) && width > 0 && Last(run).ops == map[] && u in Last(run).users
    requires |KeysOf(Last(run).creds, u)| < MAX_CREDENTIALS_PER_USER
    requires (u, ak) !in Last(run).creds && ak !in Last(run).index
    ensures Narrow(more, width)
    ensures var s, t := Last(run), Last(more);
      t.users == s.users && t.index == s.index[ak := u] && t.creds.Keys == s.creds.Keys + {(u, ak)} && t.ops == map[]
  {
    var s := Last(run);
    var began: nat;
    more, began := BeginAndList(run, width, 0, u, ak);
    more := StoreNext(more, width, 0, u, ak, began);
    assert Last(more).ops == map[0 := Indexing(u, ak)];
    more := IndexNext(more, width, 0, u, ak);
  }

  lemma NextIsNew(s: State, u: string, keys: seq<string>, n: nat)
    requires HasKeys(s, u, keys, n) && n < |keys| && Distinct(keys)
    ensures (u, keys[n]) !in s.creds && |KeysOf(s.creds, u)| == n
  {
    HasKeysOf(s, u, keys, n);
    KeySetSize(keys, n);
    assert (u, keys[n]) !in s.creds.Keys;
  }

  /** The user has the first n keys, they can be looked up, and nothing is at work. */
  ghost predicate Settled(s: State, u: string, keys: seq<string>, n: nat) {
    HasKeys(s, u, keys, n) && s.index.Keys == KeySet(keys, n) && s.ops == map[]
  }

  lemma SettledMore(s: State, t: State, u: string, keys: seq<string>, n: nat)
    requires Settled(s, u, keys, n) && n < |keys| && Distinct(keys)
    requires t.users == s.users && t.index == s.index[keys[n] := u] && t.creds.Keys == s.creds.Keys + {(u, keys[n])} && t.ops == map[]
    ensures Settled(t, u, keys, n + 1)
  {
    OneKeyMore(s, t, u, keys, n);
    KeySetSize(keys, n);
  }

  lemma Beginning(u: string, keys: seq<string>, width: nat) returns (run: seq<State>)
    ensures Narrow(run, width) && Settled(Last(run), u, keys, 0)
  {
    run := [INITIAL];
    run := Extended(run, width, CreateUser(u));
    assert Last(run).creds.Keys == {} && Last(run).index.Keys == {};
  }

  /** Additions one after another. */
  lemma {:induction false} OneByOne(u: string, keys: seq<string>, width: nat, n: nat) returns (run: seq<State>)
    requires width > 0 && n < MAX_CREDENTIALS_PER_USER <= |keys| && Distinct(keys)
    ensures Narrow(run, width) && Settled(Last(run), u, keys, n)
  {
    if n == 0 {
      run := Beginning(u, keys, width);
    } else {
      run := OneByOne(u, keys, width, n - 1);
      var s := Last(run);
      NextIsNew(s, u, keys, n - 1);
      KeySetSize(keys, n - 1);
      run := AddAlone(run, width, u, keys[n - 1]);
      SettledMore(s, Last(run), u, keys, n - 1);
    }
  }

  /** The additions of these keys, from a first one on, are about to store them. */
  predicate AboutToStore(ops: map<nat, Op>, u: string, keys: seq<string>, from: nat, first: nat, end: nat)
    requires from + end <= |keys|
  {
    forall i :: first <= i < end ==> i in ops && ops[i].Storing? && ops[i].user == u && ops[i].ak == keys[from + i]
  }

  /** Additions that all list before any of them stores. */
  lemma {:induction false} AllList(run: seq<State>, u: string, keys: seq<string>, from: nat, n: nat) returns (more: seq<State>)
    requires from + n <= |keys| && Narrow(run, |keys| - from) && Last(run).ops == map[] && u in Last(run).users
    requires |KeysOf(Last(run).creds, u)| < MAX_CREDENTIALS_PER_USER
    ensures Narrow(more, |keys| - from) && Now(Last(more), Last(run), Last(more).ops) && |Last(more).ops| == n
    ensures AboutToStore(Last(more).ops, u, keys, from, 0, n) && forall i :: i in Last(more).ops ==> i < n
  {
    if n == 0 {
      more := run;
    } else {
      more := AllList(run, u, keys, from, n - 1);
      var began: nat;
      more, began := BeginAndList(more, |keys| - from, n - 1, u, keys[from + n - 1]);
    }
  }

  lemma OneStores(run: seq<State>, u: string, keys: seq<string>, from: nat, end: nat, n: nat) returns (more: seq<State>)
    requires from + end == |keys| && n < end && Distinct(keys) && Narrow(run, end) && HasKeys(Last(run), u, keys, from + n)
    requires AboutToStore(Last(run).ops, u, keys, from, n, end)
    ensures Narrow(more, end) && HasKeys(Last(more), u, keys, from + n + 1)
    ensures AboutToStore(Last(more).ops, u, keys, from, n + 1, end)
  {
    var s, ak := Last(run), keys[from + n];
    NextIsNew(s, u, keys, from + n);
    more := StoreNext(run, end, n, u, ak, s.ops[n].began);
    OthersAreAbout(s.ops, u, keys, from, n, end, Indexing(u, ak));
    OneKeyMore(s, Last(more), u, keys, from + n);
  }

  lemma OthersAreAbout(ops: map<nat, Op>, u: string, keys: seq<string>, from: nat, n: nat, end: nat, op: Op)
    requires from + end <= |keys| && AboutToStore(ops, u, keys, from, n, end)
    ensures AboutToStore(ops[n := op], u, keys, from, n + 1, end)
  {
  }

  /** Then they store, one after another. */
  lemma AllStore(run: seq<State>, u: string, keys: seq<string>, from: nat, end: nat) returns (more: seq<State>)
    requires from + end == |keys| && Distinct(keys) && Narrow(run, end) && HasKeys(Last(run), u, keys, from)
    requires AboutToStore(Last(run).ops, u, keys, from, 0, end)
    ensures Narrow(more, end) && HasKeys(Last(more), u, keys, |keys|)
  {
    more := run;
    for n := 0 to end
      invariant Narrow(more, end) && HasKeys(Last(more), u, keys, from + n) && AboutToStore(Last(more).ops, u, keys, from, n, end)
    {
      more := OneStores(more, u, keys, from, end, n);
    }
  }

  /** For any number of operations there is a run in which never more of them are at work, and
      which gives a user nine credentials more than that. */
  lemma LimitIsReached(u: string, keys: seq<string>) returns (run: seq<State>)
    requires |keys| >= MAX_CREDENTIALS_PER_USER && Distinct(keys)
    ensures Narrow(run, |keys| - (MAX_CREDENTIALS_PER_USER - 1))
    ensures |KeysOf(Last(run).creds, u)| == |keys|
  {
    var from := MAX_CREDENTIALS_PER_USER - 1;
    var width := |keys| - from;
    run := OneByOne(u, keys, width, from);
    NextIsNew(Last(run), u, keys, from);
    run := AllList(run, u, keys, from, width);
    run := AllStore(run, u, keys, from, width);
    HasKeysOf(Last(run), u, keys, |keys|);
    KeySetSize(keys, |keys|);
  }
}
