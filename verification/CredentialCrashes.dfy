/** When index entries and credentials agree although operations are interleaved and stop, and
    how they come apart otherwise. */
module CredentialCrashes {
  import opened Options
  import opened Kv
  import opened CredentialSteps
  import opened CredentialLimit

  /** The index entry of the credential's key leads to it. */
  predicate LeadsTo(s: State, user: string, ak: string) {
    ak in s.index && s.index[ak] == user
  }

  /** GetCredentials. */
  function Lookup(s: State, ak: string): Option<string> {
    if ak in s.index && (s.index[ak], ak) in s.creds then Some(s.index[ak]) else None
  }

  predicate Deletion(op: Op) {
    op.Scanning? || op.Unindexing? || op.Dropping?
  }

  /** An addition that has stored its credential. */
  predicate Inserting(op: Op) {
    op.Indexing? || op.RollingBack?
  }

  /** A user is deleted while no other operation on it is at work, and no operation stops
      between two writes that belong together. */
  predicate Orderly(s: State, step: Step) {
    match step
    case BeginAdd(_, u, _) => forall i :: i in s.ops && Deletion(s.ops[i]) ==> s.ops[i].user != u
    case BeginDelete(_, u) => forall i :: i in s.ops ==> s.ops[i].user != u
    case Stop(id) => id in s.ops ==> Adding(s.ops[id]) || s.ops[id].Scanning?
    case _ => true
  }

  ghost predicate FollowsOrderly(s: State, t: State) {
    exists step :: Orderly(s, step) && Next(s, step) == Some(t)
  }

  ghost predicate OrderlyRun(run: seq<State>) {
    run != [] && run[0] == INITIAL && forall i :: 0 <= i < |run| - 1 ==> FollowsOrderly(run[i], run[i + 1])
  }

  // ----- what holds throughout -----

  ghost predicate DeletionsAlone(s: State) {
    forall i, j :: i in s.ops && j in s.ops && i != j && Deletion(s.ops[i]) ==> s.ops[j].user != s.ops[i].user
  }

  ghost predicate InsertsApart(s: State) {
    forall i, j :: i in s.ops && j in s.ops && i != j && Inserting(s.ops[i]) && Inserting(s.ops[j]) && s.ops[i].user == s.ops[j].user ==>
      s.ops[i].ak != s.ops[j].ak
  }

  ghost predicate EntriesLead(s: State) {
    forall k :: k in s.index && k != "" ==> (s.index[k], k) in s.creds
  }

  /** An operation that will index or remove this credential. */
  predicate Settles(op: Op, user: string, ak: string) {
    (Inserting(op) || op.Dropping?) && op.user == user && op.ak == ak
  }

  ghost predicate Unsettled(s: State, user: string, ak: string) {
    exists id :: id in s.ops && Settles(s.ops[id], user, ak)
  }

  ghost predicate CredsExplained(s: State) {
    forall c :: c in s.creds ==> c.0 in s.users && (LeadsTo(s, c.0, c.1) || Unsettled(s, c.0, c.1))
  }

  ghost predicate NoneBehind(creds: Creds, user: string, start: string, but: set<string>) {
    forall k :: k in KeysOf(creds, user) && k !in but ==> !Less(k, start)
  }

  ghost predicate OpFits(s: State, op: Op) {
    && op.user in s.users
    && match op
       case Indexing(u, k) => (u, k) in s.creds && (k != "" ==> !LeadsTo(s, u, k))
       case RollingBack(u, k) => (u, k) in s.creds && (k != "" ==> !LeadsTo(s, u, k))
       case Scanning(u, start) => NoneBehind(s.creds, u, start, {})
       case Unindexing(u, start, k) => (u, k) in s.creds && k != "" && LeadsTo(s, u, k) && NoneBehind(s.creds, u, start, {k})
       case Dropping(u, start, k) => (u, k) in s.creds && (k != "" ==> !LeadsTo(s, u, k)) && NoneBehind(s.creds, u, start, {k})
       case _ => true
  }

  ghost predicate OpsFit(s: State) {
    forall id :: id in s.ops ==> OpFits(s, s.ops[id])
  }

  ghost predicate Consistent(s: State) {
    DeletionsAlone(s) && InsertsApart(s) && EntriesLead(s) && CredsExplained(s) && OpsFit(s)
  }

  // ----- every step -----

  /** An operation keeps what it relies on when its user stays, its own credential and the
      lead to it stay as they are, and no credential comes to its user. */
  lemma OpStillFits(s: State, t: State, op: Op)
    requires OpFits(s, op) && op.user in t.users
    requires Inserting(op) || op.Unindexing? || op.Dropping? ==>
      (op.user, op.ak) in t.creds && LeadsTo(t, op.user, op.ak) == LeadsTo(s, op.user, op.ak)
    requires Deletion(op) ==> KeysOf(t.creds, op.user) <= KeysOf(s.creds, op.user)
    ensures OpFits(t, op)
  {
  }

  lemma StoreKeeps(s: State, id: nat)
    requires Consistent(s) && id in s.ops && s.ops[id].Storing? && (s.ops[id].user, s.ops[id].ak) !in s.creds
    ensures Consistent(Moved(s, id))
  {
    var t, u, ak := Moved(s, id), s.ops[id].user, s.ops[id].ak;
    assert t.ops[id] == Indexing(u, ak);
    forall i | i in t.ops
      ensures OpFits(t, t.ops[i])
    {
      if i != id {
        assert OpFits(s, s.ops[i]);
        assert Deletion(s.ops[i]) ==> s.ops[i].user != u;
        OpStillFits(s, t, s.ops[i]);
      } else {
        assert OpFits(s, s.ops[id]);
      }
    }
    forall c | c in t.creds
      ensures c.0 in t.users && (LeadsTo(t, c.0, c.1) || Unsettled(t, c.0, c.1))
    {
      if c == (u, ak) {
        assert Settles(t.ops[id], u, ak);
      } else {
        StaysUnsettled(s, t, id, c.0, c.1);
      }
    }
  }

  /** An operation that settled nothing has moved on. */
  lemma StaysUnsettled(s: State, t: State, id: nat, user: string, ak: string)
    requires forall i :: i in s.ops && i != id ==> i in t.ops && t.ops[i] == s.ops[i]
    requires id in s.ops && Settles(s.ops[id], user, ak) ==> id in t.ops && Settles(t.ops[id], user, ak)
    ensures Unsettled(s, user, ak) ==> Unsettled(t, user, ak)
  {
    if Unsettled(s, user, ak) {
      var i :| i in s.ops && Settles(s.ops[i], user, ak);
      assert i in t.ops && Settles(t.ops[i], user, ak);
    }
  }

  /** Only what one operation is about to do changes. */
  predicate OnlyOp(s: State, t: State, id: nat) {
    && t.users == s.users && t.creds == s.creds && t.index == s.index
    && (forall i :: i in s.ops && i != id ==> i in t.ops && t.ops[i] == s.ops[i])
    && (forall i :: i in t.ops && i != id ==> i in s.ops)
  }

  /** The new one fits, is alone if it deletes, and is no new insertion. */
  ghost predicate OpComesIn(s: State, t: State, id: nat) {
    id in t.ops ==>
      && OpFits(t, t.ops[id])
      && (forall j :: j in s.ops && j != id && (Deletion(t.ops[id]) || Deletion(s.ops[j])) ==> s.ops[j].user != t.ops[id].user)
      && (Inserting(t.ops[id]) ==> id in s.ops && Inserting(s.ops[id]) && s.ops[id].user == t.ops[id].user && s.ops[id].ak == t.ops[id].ak)
  }

  lemma OnlyOpKeeps(s: State, t: State, id: nat)
    requires Consistent(s) && OnlyOp(s, t, id) && OpComesIn(s, t, id)
    requires forall user, ak :: id in s.ops && Settles(s.ops[id], user, ak) ==> id in t.ops && Settles(t.ops[id], user, ak)
    ensures Consistent(t)
  {
    forall i | i in t.ops
      ensures OpFits(t, t.ops[i])
    {
      if i != id {
        assert OpFits(s, s.ops[i]);
        OpStillFits(s, t, s.ops[i]);
      }
    }
    forall c | c in t.creds
      ensures c.0 in t.users && (LeadsTo(t, c.0, c.1) || Unsettled(t, c.0, c.1))
    {
      StaysUnsettled(s, t, id, c.0, c.1);
    }
  }

  lemma ListingKeeps(s: State, id: nat)
    requires Consistent(s) && id in s.ops && s.ops[id].Listing?
    ensures Consistent(Moved(s, id))
  {
    assert OpFits(s, s.ops[id]);
    OnlyOpKeeps(s, Moved(s, id), id);
  }

  lemma IndexKeeps(s: State, id: nat)
    requires Consistent(s) && id in s.ops && s.ops[id].Indexing?
    ensures Consistent(Moved(s, id))
  {
    var t, u, ak := Moved(s, id), s.ops[id].user, s.ops[id].ak;
    assert OpFits(s, s.ops[id]);
    if ak in s.index {
      OnlyOpKeeps(s, t, id);
    } else {
      forall i | i in t.ops
        ensures OpFits(t, t.ops[i])
      {
        assert OpFits(s, s.ops[i]);
        assert Deletion(s.ops[i]) ==> s.ops[i].user != u;
        OpStillFits(s, t, s.ops[i]);
      }
      forall c | c in t.creds
        ensures c.0 in t.users && (LeadsTo(t, c.0, c.1) || Unsettled(t, c.0, c.1))
      {
        if c != (u, ak) {
          StaysUnsettled(s, t, id, c.0, c.1);
        }
      }
    }
  }

  /** Removing a credential that no entry leads to, by the operation that was to. */
  lemma RemovalKeeps(s: State, t: State, id: nat)
    requires Consistent(s) && id in s.ops && (s.ops[id].RollingBack? || s.ops[id].Dropping?)
    requires t.users == s.users && t.index == s.index && t.creds == s.creds - {(s.ops[id].user, s.ops[id].ak)}
    requires t.ops == (if s.ops[id].RollingBack? then s.ops - {id} else s.ops[id := Scanning(s.ops[id].user, s.ops[id].start)])
    ensures Consistent(t)
  {
    RemovalFits(s, t, id, s.ops[id].user, s.ops[id].ak);
    assert OpFits(s, s.ops[id]);
    forall c | c in t.creds
      ensures c.0 in t.users && (LeadsTo(t, c.0, c.1) || Unsettled(t, c.0, c.1))
    {
      StaysUnsettled(s, t, id, c.0, c.1);
    }
  }

  lemma RemovalFits(s: State, t: State, id: nat, u: string, ak: string)
    requires Consistent(s) && id in s.ops && (s.ops[id].RollingBack? || s.ops[id].Dropping?)
    requires u == s.ops[id].user && ak == s.ops[id].ak
    requires t.users == s.users && t.index == s.index && t.creds == s.creds - {(u, ak)}
    requires t.ops == (if s.ops[id].RollingBack? then s.ops - {id} else s.ops[id := Scanning(u, s.ops[id].start)])
    ensures OpsFit(t)
  {
    forall i | i in t.ops
      ensures OpFits(t, t.ops[i])
    {
      assert OpFits(s, s.ops[i]);
      if i != id {
        OpStillFits(s, t, s.ops[i]);
      }
    }
  }

  lemma UnindexKeeps(s: State, id: nat)
    requires Consistent(s) && id in s.ops && s.ops[id].Unindexing?
    ensures Consistent(Moved(s, id))
  {
    var t, u, ak := Moved(s, id), s.ops[id].user, s.ops[id].ak;
    assert OpFits(s, s.ops[id]);
    forall i | i in t.ops
      ensures OpFits(t, t.ops[i])
    {
      assert OpFits(s, s.ops[i]);
      if i != id {
        OpStillFits(s, t, s.ops[i]);
      }
    }
    forall c | c in t.creds
      ensures c.0 in t.users && (LeadsTo(t, c.0, c.1) || Unsettled(t, c.0, c.1))
    {
      if c == (u, ak) {
        assert Settles(t.ops[id], u, ak);
      } else {
        StaysUnsettled(s, t, id, c.0, c.1);
      }
    }
  }

  /** The deletion finds a credential that its index entry leads to. */
  lemma ScanFinds(s: State, id: nat)
    requires Consistent(s) && id in s.ops && s.ops[id].Scanning? && KeysAhead(s.creds, s.ops[id].user, s.ops[id].start) != {}
    ensures OpFits(s, Moved(s, id).ops[id])
  {
    var u, start := s.ops[id].user, s.ops[id].start;
    var k := Least(KeysAhead(s.creds, u, start));
    assert OpFits(s, s.ops[id]) && (u, k) in s.creds;
    assert !Unsettled(s, u, k);
    forall x | x in KeysOf(s.creds, u) && x != k
      ensures !Less(x, Successor(k))
    {
      NothingBetween(k, x);
    }
    assert NoneBehind(s.creds, u, Successor(k), {k});
  }

  lemma ScanKeeps(s: State, id: nat)
    requires Consistent(s) && id in s.ops && s.ops[id].Scanning?
    ensures Consistent(Moved(s, id))
  {
    var t, u, start := Moved(s, id), s.ops[id].user, s.ops[id].start;
    assert OpFits(s, s.ops[id]);
    if KeysAhead(s.creds, u, start) != {} {
      ScanFinds(s, id);
      OpStillFits(s, t, t.ops[id]);
      OnlyOpKeeps(s, t, id);
    } else {
      forall i | i in t.ops
        ensures OpFits(t, t.ops[i])
      {
        assert OpFits(s, s.ops[i]);
        OpStillFits(s, t, s.ops[i]);
      }
      forall c | c in t.creds
        ensures c.0 in t.users && (LeadsTo(t, c.0, c.1) || Unsettled(t, c.0, c.1))
      {
        assert c.1 in KeysOf(s.creds, c.0);
        assert c.0 == u ==> c.1 in KeysAhead(s.creds, u, start);
        StaysUnsettled(s, t, id, c.0, c.1);
      }
    }
  }

  lemma MoveKeeps(s: State, id: nat)
    requires Consistent(s) && id in s.ops
    ensures Consistent(Moved(s, id))
  {
    match s.ops[id]
    case Listing(_, _, _, _, _) => ListingKeeps(s, id);
    case Storing(u, ak, _) =>
      if (u, ak) in s.creds {
        OnlyOpKeeps(s, Moved(s, id), id);
      } else {
        StoreKeeps(s, id);
      }
    case Indexing(_, _) => IndexKeeps(s, id);
    case RollingBack(_, _) => RemovalKeeps(s, Moved(s, id), id);
    case Scanning(_, _) => ScanKeeps(s, id);
    case Unindexing(_, _, _) => UnindexKeeps(s, id);
    case Dropping(_, _, _) => RemovalKeeps(s, Moved(s, id), id);
  }

  lemma TimePasses(s: State, clock: nat)
    requires Consistent(s)
    ensures Consistent(s.(clock := clock))
  {
    var t := s.(clock := clock);
    forall c | c in t.creds
      ensures LeadsTo(t, c.0, c.1) || Unsettled(t, c.0, c.1)
    {
      StaysUnsettled(s, t, 0, c.0, c.1);
    }
    forall i | i in t.ops
      ensures OpFits(t, t.ops[i])
    {
      OpStillFits(s, t, s.ops[i]);
    }
  }

  lemma BeginKeeps(s: State, t: State, id: nat, op: Op)
    requires Consistent(s) && id !in s.ops && t == Goes(s, id, op)
    requires (op.Listing? || (op.Scanning? && op.start == "")) && op.user in s.users
    requires forall i :: i in s.ops && (Deletion(op) || Deletion(s.ops[i])) ==> s.ops[i].user != op.user
    ensures Consistent(t)
  {
    OnlyOpKeeps(s, t, id);
  }

  lemma CreateKeeps(s: State, u: string)
    requires Consistent(s)
    ensures Consistent(s.(users := s.users + {u}))
  {
    var t := s.(users := s.users + {u});
    forall c | c in t.creds
      ensures LeadsTo(t, c.0, c.1) || Unsettled(t, c.0, c.1)
    {
      StaysUnsettled(s, t, 0, c.0, c.1);
    }
    forall i | i in t.ops
      ensures OpFits(t, t.ops[i])
    {
      OpStillFits(s, t, s.ops[i]);
    }
  }

  /** What a step does besides taking time. */
  function Done(s: State, step: Step): State {
    match step
    case CreateUser(u) => s.(users := s.users + {u})
    case BeginAdd(id, u, ak) => Goes(s, id, Listing(u, ak, s.clock, "", 0))
    case BeginDelete(id, u) => Goes(s, id, Scanning(u, ""))
    case Advance(id) => if id in s.ops then Moved(s, id) else s
    case Stop(id) => Ended(s, id)
  }

  lemma NextIsDone(s: State, step: Step)
    requires Next(s, step).Some?
    ensures Next(s, step).value == Done(s, step).(clock := s.clock + 1)
  {
  }

  lemma StopKeeps(s: State, id: nat)
    requires Consistent(s) && id in s.ops && (Adding(s.ops[id]) || s.ops[id].Scanning?)
    ensures Consistent(Ended(s, id))
  {
    OnlyOpKeeps(s, Ended(s, id), id);
  }

  lemma DoneKeeps(s: State, step: Step)
    requires Consistent(s) && Orderly(s, step) && Next(s, step).Some?
    ensures Consistent(Done(s, step))
  {
    match step
    case CreateUser(u) => CreateKeeps(s, u);
    case BeginAdd(id, u, ak) => BeginKeeps(s, Done(s, step), id, Listing(u, ak, s.clock, "", 0));
    case BeginDelete(id, u) => BeginKeeps(s, Done(s, step), id, Scanning(u, ""));
    case Advance(id) => MoveKeeps(s, id);
    case Stop(id) => StopKeeps(s, id);
  }

  lemma StepKeeps(s: State, step: Step)
    requires Consistent(s) && Orderly(s, step) && Next(s, step).Some?
    ensures Consistent(Next(s, step).value)
  {
    DoneKeeps(s, step);
    NextIsDone(s, step);
    TimePasses(Done(s, step), s.clock + 1);
  }

  lemma {:induction false} OrderlyIsConsistent(run: seq<State>, n: nat)
    requires OrderlyRun(run) && n < |run|
    ensures Consistent(run[n])
  {
    if n > 0 {
      OrderlyIsConsistent(run, n - 1);
      assert FollowsOrderly(run[n - 1], run[n - 1 + 1]);
      var step :| Orderly(run[n - 1], step) && Next(run[n - 1], step) == Some(run[n]);
      StepKeeps(run[n - 1], step);
    }
  }

  /** In every state of an orderly run: the entry of a non-empty key leads to a credential of
      a user, and every credential is a user's and is led to, or an operation is at work that
      will index it or remove it. */
  lemma EntriesAndCredentialsAgree(run: seq<State>, n: nat)
    requires OrderlyRun(run) && n < |run|
    ensures forall ak :: ak in run[n].index && ak != "" ==> Lookup(run[n], ak) == Some(run[n].index[ak]) && run[n].index[ak] in run[n].users
    ensures forall u, ak :: (u, ak) in run[n].creds ==> u in run[n].users && (Lookup(run[n], ak) == Some(u) || Unsettled(run[n], u, ak))
  {
    OrderlyIsConsistent(run, n);
    forall ak | ak in run[n].index && ak != ""
      ensures Lookup(run[n], ak) == Some(run[n].index[ak]) && run[n].index[ak] in run[n].users
    {
      assert (run[n].index[ak], ak) in run[n].creds;
    }
    forall u, ak | (u, ak) in run[n].creds
      ensures u in run[n].users && (Lookup(run[n], ak) == Some(u) || Unsettled(run[n], u, ak))
    {
      assert (u, ak).0 in run[n].users && (LeadsTo(run[n], u, ak) || Unsettled(run[n], u, ak));
    }
  }

  /** When nothing is at work, a credential can be looked up exactly when it is stored. */
  lemma LookupIffStored(run: seq<State>, u: string, ak: string)
    requires OrderlyRun(run) && run[|run| - 1].ops == map[]
    ensures Lookup(run[|run| - 1], ak) == Some(u) <==> (u, ak) in run[|run| - 1].creds
  {
    EntriesAndCredentialsAgree(run, |run| - 1);
  }

  // ----- how they come apart otherwise -----

  lemma Beginning(u: string) returns (run: seq<State>)
    ensures Narrow(run, 2) && Last(run).users == {u} && Last(run).creds == map[] && Last(run).index == map[] && Last(run).ops == map[]
  {
    run := [INITIAL];
    run := Extended(run, 2, CreateUser(u));
  }

  /** A user is deleted while a credential is being added for it: the credential is stored
      afterwards and can be looked up, although its user is gone. */
  lemma GoneUserHasCredential(u: string, k: string) returns (run: seq<State>)
    ensures IsRun(run) && Last(run).ops == map[]
    ensures u !in Last(run).users && Lookup(Last(run), k) == Some(u)
  {
    run := Beginning(u);
    var began: nat;
    run, began := BeginAndList(run, 2, 0, u, k);
    run := Extended(run, 2, BeginDelete(1, u));
    run := Extended(run, 2, Advance(1));
    assert Last(run).ops == map[0 := Storing(u, k, began)];
    run := StoreNext(run, 2, 0, u, k, began);
    run := IndexNext(run, 2, 0, u, k);
    assert (u, k) in Last(run).creds.Keys;
  }

  lemma FindsTheCredential(run: seq<State>, id: nat, u: string, k: string) returns (more: seq<State>)
    requires Narrow(run, 2) && id !in Last(run).ops && |Last(run).ops| < 2 && u in Last(run).users
    requires KeysOf(Last(run).creds, u) == {k} && k != ""
    ensures Narrow(more, 2) && Now(Last(more), Last(run), Last(run).ops[id := Unindexing(u, Successor(k), k)])
  {
    var s := Last(run);
    assert KeysAhead(s.creds, u, "") == {k};
    more := Extended(run, 2, BeginDelete(id, u));
    more := Extended(more, 2, Advance(id));
    assert s.ops[id := Scanning(u, "")][id := Unindexing(u, Successor(k), k)] == s.ops[id := Unindexing(u, Successor(k), k)];
  }

  /** The deletion of what it has found: the entry, and then the credential. */
  lemma RemovesBoth(run: seq<State>, id: nat, u: string, start: string, k: string, others: map<nat, Op>) returns (more: seq<State>)
    requires Narrow(run, 2) && Last(run).ops == others[id := Unindexing(u, start, k)]
    ensures Narrow(more, 2)
    ensures var s, t := Last(run), Last(more);
      t.users == s.users && t.creds == s.creds - {(u, k)} && t.index == s.index - {k} && t.ops == others[id := Scanning(u, start)]
  {
    more := Extended(run, 2, Advance(id));
    assert Last(more).ops == others[id := Dropping(u, start, k)];
    more := Extended(more, 2, Advance(id));
    assert Last(more).ops == others[id := Scanning(u, start)];
  }

  lemma RemovesTheUser(run: seq<State>, id: nat, u: string, start: string, others: map<nat, Op>) returns (more: seq<State>)
    requires Narrow(run, 2) && id !in others && Last(run).ops == others[id := Scanning(u, start)]
    requires KeysOf(Last(run).creds, u) == {}
    ensures Narrow(more, 2)
    ensures var s, t := Last(run), Last(more);
      t.users == s.users - {u} && t.creds == s.creds && t.index == s.index && t.ops == others
  {
    assert Last(run).ops - {id} == others;
    more := Extended(run, 2, Advance(id));
  }

  lemma NoKeysLeft(creds: Creds, u: string, k: string)
    requires KeysOf(creds, u) == {k}
    ensures KeysOf(creds - {(u, k)}, u) == {}
  {
    assert KeysOf(creds - {(u, k)}, u) <= KeysOf(creds, u);
  }

  /** Deleting a user with one credential, while nothing else moves. */
  lemma DeleteThrough(run: seq<State>, id: nat, u: string, k: string) returns (more: seq<State>)
    requires Narrow(run, 2) && id !in Last(run).ops && |Last(run).ops| < 2 && u in Last(run).users
    requires KeysOf(Last(run).creds, u) == {k} && k != ""
    ensures Narrow(more, 2)
    ensures var s, t := Last(run), Last(more);
      t.users == s.users - {u} && t.creds == s.creds - {(u, k)} && t.index == s.index - {k} && t.ops == s.ops
  {
    var others, start := Last(run).ops, Successor(k);
    NoKeysLeft(Last(run).creds, u, k);
    more := FindsTheCredential(run, id, u, k);
    more := RemovesBoth(more, id, u, start, k, others);
    more := RemovesTheUser(more, id, u, start, others);
  }

  /** An addition stops between its two writes, another user gets the key, and then the first
      user is deleted: the second one's credential can no longer be looked up. */
  lemma CrashLosesAnothersEntry(u: string, v: string, k: string) returns (run: seq<State>)
    requires u != v && k != ""
    ensures IsRun(run) && Last(run).ops == map[]
    ensures v in Last(run).users && (v, k) in Last(run).creds && Lookup(Last(run), k) == None
  {
    run := Beginning(u);
    run := Extended(run, 2, CreateUser(v));
    var began: nat;
    run, began := BeginAndList(run, 2, 0, u, k);
    run := StoreNext(run, 2, 0, u, k, began);
    run := Extended(run, 2, Stop(0));
    assert Last(run).ops == map[] && Last(run).creds.Keys == {(u, k)};
    assert KeysOf(Last(run).creds, v) == {};
    run := AddAlone(run, 2, v, k);
    assert Last(run).creds.Keys == {(u, k), (v, k)};
    assert KeysOf(Last(run).creds, u) == {k};
    run := DeleteThrough(run, 0, u, k);
    assert (v, k) in Last(run).creds.Keys;
  }

  /** An addition for a user who has no credential, up to its first write or to its end. */
  lemma StoresFirst(run: seq<State>, id: nat, u: string, k: string) returns (more: seq<State>)
    requires Narrow(run, 2) && id !in Last(run).ops && |Last(run).ops| < 2 && Last(run).users == {u} && Last(run).creds == map[]
    ensures Narrow(more, 2)
    ensures var s, t := Last(run), Last(more);
      t.users == {u} && t.creds.Keys == {(u, k)} && t.index == s.index && t.ops == s.ops[id := Indexing(u, k)]
    ensures KeysOf(Last(more).creds, u) == {k}
  {
    var s := Last(run);
    var began: nat;
    more, began := BeginAndList(run, 2, id, u, k);
    more := StoreNext(more, 2, id, u, k, began);
    assert s.ops[id := Storing(u, k, began)][id := Indexing(u, k)] == s.ops[id := Indexing(u, k)];
    assert (u, k) in Last(more).creds.Keys;
  }

  lemma TakesBack(run: seq<State>, u: string, k: string) returns (more: seq<State>)
    requires Narrow(run, 2) && Last(run).ops == map[0 := Indexing(u, k)] && k in Last(run).index
    ensures Narrow(more, 2)
    ensures var s, t := Last(run), Last(more);
      t.users == s.users && t.creds == s.creds - {(u, k)} && t.index == s.index && t.ops == map[]
  {
    more := Extended(run, 2, Advance(0));
    assert Last(more).ops == map[0 := RollingBack(u, k)];
    more := Extended(more, 2, Advance(0));
  }

  /** A user is deleted and created again while an addition for it stands between its two
      writes: it takes back the credential that another addition has stored since, and leaves
      the entry. */
  lemma LateRollbackLeavesEntry(u: string, k: string) returns (run: seq<State>)
    requires k != ""
    ensures IsRun(run) && Last(run).ops == map[]
    ensures u in Last(run).users && LeadsTo(Last(run), u, k) && (u, k) !in Last(run).creds && Lookup(Last(run), k) == None
  {
    run := Beginning(u);
    run := StoresFirst(run, 0, u, k);
    assert Last(run).ops == map[0 := Indexing(u, k)];
    run := DeleteThrough(run, 1, u, k);
    run := Extended(run, 2, CreateUser(u));
    assert Last(run).creds == map[] && Last(run).users == {u};
    run := StoresFirst(run, 1, u, k);
    run := IndexNext(run, 2, 1, u, k);
    assert Last(run).ops == map[0 := Indexing(u, k)];
    run := TakesBack(run, u, k);
  }
}
