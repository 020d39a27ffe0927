/** Operations on users and credentials at work together, one read or write of the store at a
    time, each able to stop for good between any two. A credential is written as the user and
    the access key that its key is made of, an index entry as the access key and the user it
    leads to. */
module CredentialSteps {
  import opened Options
  import opened Kv
  import opened AuthStore

  /** When the operation that stored a credential began, and when it stored it. No step looks
      at this. */
  datatype Birth = Birth(id: nat, began: nat, stored: nat)

  type Creds = map<(string, string), Birth>

  /** An operation, by what it does next. AddCredentials lists the user's credentials, stores
      the new one and its index entry, or takes the first back; DeleteUser goes through the
      user's credentials and deletes the index entry of each before itself. */
  datatype Op =
    | Listing(user: string, ak: string, began: nat, start: string, seen: nat)
    | Storing(user: string, ak: string, began: nat)
    | Indexing(user: string, ak: string)
    | RollingBack(user: string, ak: string)
    | Scanning(user: string, start: string)
    | Unindexing(user: string, start: string, ak: string)
    | Dropping(user: string, start: string, ak: string)

  datatype State = State(clock: nat, users: set<string>, creds: Creds, index: map<string, string>, ops: map<nat, Op>)

  datatype Step =
    | CreateUser(user: string)
    | BeginAdd(id: nat, user: string, ak: string)
    | BeginDelete(id: nat, user: string)
    | Advance(id: nat)
    | Stop(id: nat)

  function KeysOf(creds: Creds, user: string): set<string> {
    set c | c in creds && c.0 == user :: c.1
  }

  /** The access keys of a user from a start key on. */
  function KeysAhead(creds: Creds, user: string, start: string): set<string> {
    set k | k in KeysOf(creds, user) && !Less(k, start)
  }

  function Ended(s: State, id: nat): State {
    s.(ops := s.ops - {id})
  }

  function Goes(s: State, id: nat, op: Op): State {
    s.(ops := s.ops[id := op])
  }

  /** The next read or write of an operation. */
  function Moved(s: State, id: nat): State
    requires id in s.ops
  {
    match s.ops[id]
    case Listing(u, ak, began, start, seen) =>
      var keys := KeysAhead(s.creds, u, start);
      if seen <= MAX_CREDENTIALS_PER_USER && keys != {} then Goes(s, id, Listing(u, ak, began, Successor(Least(keys)), seen + 1))
      else if seen >= MAX_CREDENTIALS_PER_USER then Ended(s, id)
      else Goes(s, id, Storing(u, ak, began))
    case Storing(u, ak, began) =>
      if (u, ak) in s.creds then Ended(s, id)
      else Goes(s.(creds := s.creds[(u, ak) := Birth(id, began, s.clock)]), id, Indexing(u, ak))
    case Indexing(u, ak) =>
      if ak in s.index then Goes(s, id, RollingBack(u, ak))
      else Ended(s.(index := s.index[ak := u]), id)
    case RollingBack(u, ak) => Ended(s.(creds := s.creds - {(u, ak)}), id)
    case Scanning(u, start) =>
      var keys := KeysAhead(s.creds, u, start);
      if keys == {} then Ended(s.(users := s.users - {u}), id)
      else
        var k := Least(keys);
        Goes(s, id, if k != "" then Unindexing(u, Successor(k), k) else Dropping(u, Successor(k), k))
    case Unindexing(u, start, ak) => Goes(s.(index := s.index - {ak}), id, Dropping(u, start, ak))
    case Dropping(u, start, ak) => Goes(s.(creds := s.creds - {(u, ak)}), id, Scanning(u, start))
  }

  /** The state after a step, if the step can happen. */
  function Next(s: State, step: Step): Option<State> {
    var t := s.(clock := s.clock + 1);
    match step
    case CreateUser(u) => if u in s.users then None else Some(t.(users := s.users + {u}))
    case BeginAdd(id, u, ak) => if id in s.ops || u !in s.users then None else Some(Goes(t, id, Listing(u, ak, s.clock, "", 0)))
    case BeginDelete(id, u) => if id in s.ops || u !in s.users then None else Some(Goes(t, id, Scanning(u, "")))
    case Advance(id) => if id in s.ops then Some(Moved(s, id).(clock := s.clock + 1)) else None
    case Stop(id) => if id in s.ops then Some(Ended(t, id)) else None
  }

  const INITIAL := State(0, {}, map[], map[], map[])

  ghost predicate Follows(s: State, t: State) {
    exists step :: Next(s, step) == Some(t)
  }

  /** The states that the store and the operations go through. */
  ghost predicate IsRun(run: seq<State>) {
    run != [] && run[0] == INITIAL && forall i :: 0 <= i < |run| - 1 ==> Follows(run[i], run[i + 1])
  }

  // ----- how far the limit can be exceeded -----

  /** An addition that has not stored its credential yet. */
  predicate Adding(op: Op) {
    op.Listing? || op.Storing?
  }

  function Adders(s: State, user: string): set<nat> {
    set id | id in s.ops && Adding(s.ops[id]) && s.ops[id].user == user
  }

  /** The credentials of a user that were stored by that time. */
  function Older(creds: Creds, user: string, time: nat): set<string> {
    set k | k in KeysOf(creds, user) && creds[(user, k)].stored <= time
  }

  ghost predicate FewOlder(creds: Creds, user: string, time: nat) {
    |Older(creds, user, time)| < MAX_CREDENTIALS_PER_USER
  }

  /** A listing has seen every key before its place that was there when it began; an addition
      has found few enough credentials among those that were there when it began. */
  ghost predicate OpCounted(creds: Creds, clock: nat, op: Op) {
    match op
    case Listing(u, _, began, start, seen) =>
      began < clock && |set k | k in Older(creds, u, began) && Less(k, start)| <= seen
    case Storing(u, _, began) => began < clock && FewOlder(creds, u, began)
    case _ => true
  }

  ghost predicate BirthCounted(creds: Creds, clock: nat, c: (string, string))
    requires c in creds
  {
    creds[c].began < creds[c].stored < clock && FewOlder(creds, c.0, creds[c].began)
  }

  ghost predicate Counted(s: State) {
    && (forall id :: id in s.ops ==> OpCounted(s.creds, s.clock, s.ops[id]))
    && forall c :: c in s.creds ==> BirthCounted(s.creds, s.clock, c)
  }

  /** Credentials may go, and new ones come; the others are as they were. */
  predicate Later(a: Creds, b: Creds, clock: nat) {
    forall c :: c in b ==> (c in a && a[c] == b[c]) || b[c].stored >= clock
  }

  lemma SubsetSize<T>(a: set<T>, b: set<T>)
    requires a <= b
    ensures |a| <= |b|
  {
    assert b == a + (b - a);
  }

  lemma OlderLater(a: Creds, b: Creds, clock: nat, user: string, time: nat)
    requires Later(a, b, clock) && time < clock
    ensures Older(b, user, time) <= Older(a, user, time)
    ensures FewOlder(a, user, time) ==> FewOlder(b, user, time)
  {
    forall k | k in Older(b, user, time)
      ensures k in Older(a, user, time)
    {
      assert (user, k) in b;
    }
    SubsetSize(Older(b, user, time), Older(a, user, time));
  }

  lemma OpCountedLater(a: Creds, b: Creds, clock: nat, op: Op)
    requires Later(a, b, clock) && OpCounted(a, clock, op)
    ensures OpCounted(b, clock + 1, op)
  {
    match op
    case Listing(u, _, began, start, seen) =>
      OlderLater(a, b, clock, u, began);
      SubsetSize(set k | k in Older(b, u, began) && Less(k, start), set k | k in Older(a, u, began) && Less(k, start));
    case Storing(u, _, began) => OlderLater(a, b, clock, u, began);
    case _ =>
  }

  lemma BirthCountedLater(a: Creds, b: Creds, clock: nat, c: (string, string))
    requires Later(a, b, clock) && c in a && c in b && a[c] == b[c] && BirthCounted(a, clock, c)
    ensures BirthCounted(b, clock + 1, c)
  {
    OlderLater(a, b, clock, c.0, a[c].began);
  }

  /** The listing goes past one more key. */
  lemma ListsOne(creds: Creds, clock: nat, u: string, ak: string, began: nat, start: string, seen: nat)
    requires OpCounted(creds, clock, Listing(u, ak, began, start, seen)) && KeysAhead(creds, u, start) != {}
    ensures OpCounted(creds, clock, Listing(u, ak, began, Successor(Least(KeysAhead(creds, u, start))), seen + 1))
  {
    var k := Least(KeysAhead(creds, u, start));
    var before, after := set x | x in Older(creds, u, began) && Less(x, start), set x | x in Older(creds, u, began) && Less(x, Successor(k));
    forall x | x in after
      ensures x in before + {k}
    {
      NothingBetween(k, x);
    }
    SubsetSize(after, before + {k});
  }

  lemma ListingEnds(creds: Creds, clock: nat, u: string, ak: string, began: nat, start: string, seen: nat)
    requires OpCounted(creds, clock, Listing(u, ak, began, start, seen)) && KeysAhead(creds, u, start) == {}
    requires seen < MAX_CREDENTIALS_PER_USER
    ensures OpCounted(creds, clock, Storing(u, ak, began))
  {
    forall k | k in Older(creds, u, began)
      ensures Less(k, start)
    {
      assert k !in KeysAhead(creds, u, start);
    }
    assert Older(creds, u, began) == set k | k in Older(creds, u, began) && Less(k, start);
  }

  /** What a step makes of the operation that takes it. */
  lemma MoveCounts(s: State, id: nat)
    requires Counted(s) && id in s.ops && id in Moved(s, id).ops
    ensures OpCounted(s.creds, s.clock, Moved(s, id).ops[id])
  {
    assert OpCounted(s.creds, s.clock, s.ops[id]);
    match s.ops[id]
    case Listing(u, ak, began, start, seen) =>
      if seen <= MAX_CREDENTIALS_PER_USER && KeysAhead(s.creds, u, start) != {} {
        ListsOne(s.creds, s.clock, u, ak, began, start, seen);
      } else {
        ListingEnds(s.creds, s.clock, u, ak, began, start, seen);
      }
    case _ =>
  }

  lemma MovedCreds(s: State, id: nat)
    requires id in s.ops
    ensures var t := Moved(s, id);
      && Later(s.creds, t.creds, s.clock)
      && (forall i :: i in t.ops && i != id ==> i in s.ops && t.ops[i] == s.ops[i])
      && forall c :: c in t.creds ==>
           || (c in s.creds && s.creds[c] == t.creds[c])
           || (s.ops[id].Storing? && t.creds[c] == Birth(id, s.ops[id].began, s.clock) && c == (s.ops[id].user, s.ops[id].ak))
  {
  }

  lemma AdvanceCounts(s: State, id: nat)
    requires Counted(s) && id in s.ops
    ensures Counted(Moved(s, id).(clock := s.clock + 1))
  {
    var t := Moved(s, id);
    MovedCreds(s, id);
    forall i | i in t.ops
      ensures OpCounted(t.creds, s.clock + 1, t.ops[i])
    {
      if i == id {
        MoveCounts(s, id);
      }
      OpCountedLater(s.creds, t.creds, s.clock, t.ops[i]);
    }
    forall c | c in t.creds
      ensures BirthCounted(t.creds, s.clock + 1, c)
    {
      if c in s.creds && s.creds[c] == t.creds[c] {
        BirthCountedLater(s.creds, t.creds, s.clock, c);
      } else {
        OlderLater(s.creds, t.creds, s.clock, c.0, s.ops[id].began);
      }
    }
  }

  lemma StepCounts(s: State, step: Step)
    requires Counted(s) && Next(s, step).Some?
    ensures Counted(Next(s, step).value)
  {
    if step.Advance? {
      AdvanceCounts(s, step.id);
    } else {
      var t := Next(s, step).value;
      forall i | i in t.ops
        ensures OpCounted(t.creds, t.clock, t.ops[i])
      {
        if i in s.ops && t.ops[i] == s.ops[i] {
          OpCountedLater(s.creds, t.creds, s.clock, s.ops[i]);
        } else if step.BeginAdd? {
          assert (set k | k in Older(t.creds, step.user, s.clock) && Less(k, "")) == {};
        }
      }
      forall c | c in t.creds
        ensures BirthCounted(t.creds, t.clock, c)
      {
        BirthCountedLater(s.creds, t.creds, s.clock, c);
      }
    }
  }

  // ----- who was at work when -----

  predicate AtWork(s: State, id: nat, user: string, ak: string) {
    id in s.ops && Adding(s.ops[id]) && s.ops[id].user == user && s.ops[id].ak == ak
  }

  /** The addition has been at work in all of these states. */
  predicate AtWorkFrom(run: seq<State>, began: nat, end: nat, id: nat, user: string, ak: string) {
    forall n :: began < n <= end && n < |run| ==> AtWork(run[n], id, user, ak)
  }

  /** Every addition has been at work since it began, and every credential's until it stored it. */
  ghost predicate Remembered(run: seq<State>)
    requires run != []
  {
    var s := run[|run| - 1];
    && s.clock == |run| - 1
    && (forall id :: id in s.ops && Adding(s.ops[id]) ==> AtWorkFrom(run, s.ops[id].began, |run|, id, s.ops[id].user, s.ops[id].ak))
    && forall c :: c in s.creds ==> AtWorkFrom(run, s.creds[c].began, s.creds[c].stored, s.creds[c].id, c.0, c.1)
  }

  lemma StaysAtWork(run: seq<State>, t: State, began: nat, end: nat, id: nat, user: string, ak: string)
    requires run != [] && AtWorkFrom(run, began, end, id, user, ak)
    requires end < |run| || began >= |run| || AtWork(t, id, user, ak)
    ensures AtWorkFrom(run + [t], began, if end < |run| then end else |run| + 1, id, user, ak)
  {
  }

  /** An addition at work after a step was at work before it, or has just begun. */
  predicate OpGoesOn(s: State, op: Op, id: nat) {
    Adding(op) ==>
      || op.began == s.clock
      || (AtWork(s, id, op.user, op.ak) && s.ops[id].began == op.began)
  }

  /** A credential was there before, or an addition at work has stored it. */
  predicate CredGoesOn(s: State, c: (string, string), birth: Birth) {
    || (c in s.creds && s.creds[c] == birth)
    || (birth.stored == s.clock && AtWork(s, birth.id, c.0, c.1) && s.ops[birth.id].began == birth.began)
  }

  predicate GoesOn(s: State, t: State) {
    && t.clock == s.clock + 1
    && (forall id :: id in t.ops ==> OpGoesOn(s, t.ops[id], id))
    && forall c :: c in t.creds ==> CredGoesOn(s, c, t.creds[c])
  }

  lemma MoveGoesOn(s: State, id: nat, t: State)
    requires id in s.ops && t == Moved(s, id)
    ensures forall i :: i in t.ops ==> OpGoesOn(s, t.ops[i], i)
    ensures forall c :: c in t.creds ==> CredGoesOn(s, c, t.creds[c])
  {
    MovedCreds(s, id);
    if id in t.ops {
      assert OpGoesOn(s, t.ops[id], id);
    }
  }

  lemma StepGoesOn(s: State, t: State, step: Step)
    requires Next(s, step) == Some(t)
    ensures GoesOn(s, t)
  {
    if step.Advance? {
      MoveGoesOn(s, step.id, Moved(s, step.id));
    }
  }

  lemma StepRemembers(run: seq<State>, t: State)
    requires run != [] && Remembered(run) && Counted(run[|run| - 1]) && GoesOn(run[|run| - 1], t)
    ensures Remembered(run + [t])
  {
    var s, more := run[|run| - 1], run + [t];
    forall id | id in t.ops && Adding(t.ops[id])
      ensures AtWorkFrom(more, t.ops[id].began, |more|, id, t.ops[id].user, t.ops[id].ak)
    {
      assert OpGoesOn(s, t.ops[id], id);
      if t.ops[id].began != s.clock {
        StaysAtWork(run, t, t.ops[id].began, |run|, id, t.ops[id].user, t.ops[id].ak);
      }
    }
    forall c | c in t.creds
      ensures AtWorkFrom(more, t.creds[c].began, t.creds[c].stored, t.creds[c].id, c.0, c.1)
    {
      CredRemembered(run, t, c, t.creds[c]);
    }
  }

  lemma CredRemembered(run: seq<State>, t: State, c: (string, string), birth: Birth)
    requires run != [] && Remembered(run) && Counted(run[|run| - 1]) && CredGoesOn(run[|run| - 1], c, birth)
    ensures AtWorkFrom(run + [t], birth.began, birth.stored, birth.id, c.0, c.1)
  {
    var s := run[|run| - 1];
    if c in s.creds && s.creds[c] == birth {
      assert BirthCounted(s.creds, s.clock, c);
    }
    assert AtWorkFrom(run, birth.began, birth.stored, birth.id, c.0, c.1);
    assert birth.stored < |run|;
  }

  lemma {:induction false} RunIsCounted(run: seq<State>, n: nat)
    requires IsRun(run) && 0 < n <= |run|
    ensures Counted(run[n - 1]) && Remembered(run[..n])
  {
    if n > 1 {
      RunIsCounted(run, n - 1);
      assert Follows(run[n - 2], run[n - 2 + 1]);
      var step :| Next(run[n - 2], step) == Some(run[n - 1]);
      StepCounts(run[n - 2], step);
      assert run[..n] == run[..n - 1] + [run[n - 1]];
      StepGoesOn(run[n - 2], run[n - 1], step);
      StepRemembers(run[..n - 1], run[n - 1]);
    }
  }

  ghost predicate Serves(s: State, user: string, ids: set<nat>, k: string) {
    exists id :: id in ids && AtWork(s, id, user, k)
  }

  lemma {:induction false} NotMoreThan(s: State, user: string, keys: set<string>, ids: set<nat>)
    requires forall k :: k in keys ==> Serves(s, user, ids, k)
    ensures |keys| <= |ids|
  {
    if keys != {} {
      var k :| k in keys;
      var id :| id in ids && AtWork(s, id, user, k);
      forall x | x in keys - {k}
        ensures Serves(s, user, ids - {id}, x)
      {
        var i :| i in ids && AtWork(s, i, user, x);
        assert i in ids - {id};
      }
      NotMoreThan(s, user, keys - {k}, ids - {id});
    }
  }

  lemma {:induction false} LastBegun(creds: Creds, user: string, keys: set<string>) returns (last: string)
    requires keys != {} && keys <= KeysOf(creds, user)
    ensures last in keys && forall k :: k in keys ==> creds[(user, k)].began <= creds[(user, last)].began
  {
    var k :| k in keys;
    if keys == {k} {
      last := k;
    } else {
      assert keys - {k} != {} by {
        assert keys == {k} + (keys - {k});
      }
      last := LastBegun(creds, user, keys - {k});
      if creds[(user, last)].began < creds[(user, k)].began {
        last := k;
      }
    }
  }

  lemma WasAtWork(run: seq<State>, user: string, k: string, n: nat)
    requires run != [] && Remembered(run) && n < |run|
    requires var creds := run[|run| - 1].creds; (user, k) in creds && creds[(user, k)].began < n <= creds[(user, k)].stored
    ensures Serves(run[n], user, Adders(run[n], user), k)
  {
    var birth := run[|run| - 1].creds[(user, k)];
    assert AtWork(run[n], birth.id, user, k);
    assert birth.id in Adders(run[n], user);
  }

  ghost predicate WithinAdders(s: State, t: State, user: string) {
    |KeysOf(t.creds, user)| < MAX_CREDENTIALS_PER_USER + |Adders(s, user)|
  }

  /** When the last of the additions behind the present credentials had begun, those behind
      all but nine of them were at work. */
  lemma NewerWereAtWork(run: seq<State>, user: string, last: string, n: nat)
    requires run != [] && Remembered(run) && n < |run|
    requires var creds := run[|run| - 1].creds;
      && (user, last) in creds && n == creds[(user, last)].began + 1 && FewOlder(creds, user, n - 1)
      && forall k :: k in KeysOf(creds, user) ==> creds[(user, k)].began < n
    ensures WithinAdders(run[n], run[|run| - 1], user)
  {
    var creds := run[|run| - 1].creds;
    var keys, older := KeysOf(creds, user), Older(creds, user, n - 1);
    var newer := keys - older;
    assert keys == newer + older;
    forall k | k in newer
      ensures Serves(run[n], user, Adders(run[n], user), k)
    {
      WasAtWork(run, user, k, n);
    }
    NotMoreThan(run[n], user, newer, Adders(run[n], user));
  }

  /** At every moment of every run, a user has at most nine credentials more than there were
      additions for that user at work together at some moment, however these are interleaved
      with each other's listings, with deletions and with crashes. */
  lemma LimitExceededByAdders(run: seq<State>, user: string)
    requires IsRun(run)
    ensures exists n :: 0 <= n < |run| && WithinAdders(run[n], run[|run| - 1], user)
  {
    var s := run[|run| - 1];
    var keys := KeysOf(s.creds, user);
    if |keys| < MAX_CREDENTIALS_PER_USER {
      assert WithinAdders(run[0], s, user);
    } else {
      RunIsCounted(run, |run|);
      assert run[..|run|] == run;
      var last := LastBegun(s.creds, user, keys);
      assert BirthCounted(s.creds, s.clock, (user, last));
      NewerWereAtWork(run, user, last, s.creds[(user, last)].began + 1);
    }
  }
}
