/** The steps of operations on credentials, on the records of the store: each is one read or
    one write, and does to the records what the step does to the state. */
module CredentialWrites {
  import opened Options
  import opened Kv
  import opened AuthKeys
  import AuthStore
  import opened CredentialSteps

  /** The rest of a key behind the prefix of a user's credentials. */
  function Behind(user: string, k: string): string {
    if HasPrefix(k, CredentialPath(user, "")) then k[|CredentialPath(user, "")|..] else ""
  }

  /** The credentials that a scan from here on would still find. */
  ghost function Ahead(store: Records, user: string, start: string): set<string> {
    KeysFrom(store, CredentialPath(user, ""), CredentialPath(user, start))
  }

  /** What an operation does next to the records, and what it is to do after that. */
  ghost function Acts(store: Records, op: Op, secret: string): (Records, Option<Op>) {
    match op
    case Listing(u, ak, began, start, seen) =>
      var keys := Ahead(store, u, start);
      if seen <= AuthStore.MAX_CREDENTIALS_PER_USER && keys != {} then
        (store, Some(Listing(u, ak, began, Behind(u, Successor(Least(keys))), seen + 1)))
      else if seen >= AuthStore.MAX_CREDENTIALS_PER_USER then (store, None)
      else (store, Some(Storing(u, ak, began)))
    case Storing(u, ak, began) =>
      var k := CredentialPath(u, ak);
      if k in store then (store, None) else (store[k := CredV(u, ak, secret)], Some(Indexing(u, ak)))
    case Indexing(u, ak) =>
      var k := CredentialsIndexPath(ak);
      if k in store then (store, Some(RollingBack(u, ak))) else (store[k := IndexV(CredentialPath(u, ak))], None)
    case RollingBack(u, ak) => (store - {CredentialPath(u, ak)}, None)
    case Scanning(u, start) =>
      var keys := Ahead(store, u, start);
      if keys == {} then (store - {UserPath(u)}, None)
      else (
        var k := Behind(u, Least(keys));
        var next := Behind(u, Successor(Least(keys)));
        (store, Some(if k != "" then Unindexing(u, next, k) else Dropping(u, next, k))))
    case Unindexing(u, start, ak) => (store - {CredentialsIndexPath(ak)}, Some(Dropping(u, start, ak)))
    case Dropping(u, start, ak) => (store - {CredentialPath(u, ak)}, Some(Scanning(u, start)))
  }

  ghost predicate HoldsUsers(store: Records, users: set<string>) {
    forall u: string :: Simple(u) ==> (UserPath(u) in store <==> u in users)
  }

  ghost predicate HoldsCreds(store: Records, creds: Creds) {
    && (forall u: string, ak: string :: Simple(u) ==> (CredentialPath(u, ak) in store <==> (u, ak) in creds))
    && forall u: string, ak: string :: Simple(u) && (u, ak) in creds ==> IsCredential(store, u, ak)
  }

  predicate IsCredential(store: Records, u: string, ak: string) {
    var k := CredentialPath(u, ak);
    k in store && store[k].CredV? && store[k].userID == u && store[k].accessKeyID == ak
  }

  ghost predicate HoldsIndex(store: Records, index: map<string, string>) {
    && (forall ak: string :: CredentialsIndexPath(ak) in store <==> ak in index)
    && forall ak: string :: ak in index ==> store[CredentialsIndexPath(ak)] == IndexV(CredentialPath(index[ak], ak))
  }

  datatype Kind = Users | Stored | Entries

  ghost predicate Holds(store: Records, s: State, kind: Kind) {
    match kind
    case Users => HoldsUsers(store, s.users)
    case Stored => HoldsCreds(store, s.creds)
    case Entries => HoldsIndex(store, s.index)
  }

  /** The records that hold the users, credentials and index entries of the state. */
  ghost predicate Represents(store: Records, s: State) {
    forall kind :: Holds(store, s, kind)
  }

  lemma Kinds(store: Records, s: State)
    ensures Represents(store, s) <==> HoldsUsers(store, s.users) && HoldsCreds(store, s.creds) && HoldsIndex(store, s.index)
  {
    if Represents(store, s) {
      assert Holds(store, s, Users) && Holds(store, s, Stored) && Holds(store, s, Entries);
    }
  }

  lemma SameRecords(store: Records, s: State, t: State)
    requires Represents(store, s) && t.users == s.users && t.creds == s.creds && t.index == s.index
    ensures Represents(store, t)
  {
    Kinds(store, s);
    Kinds(store, t);
  }

  lemma CredentialPathIsAppended(user: string, ak: string)
    ensures CredentialPath(user, ak) == CredentialPath(user, "") + ak
    ensures HasPrefix(CredentialPath(user, ak), CredentialPath(user, "")) && Behind(user, CredentialPath(user, ak)) == ak
    ensures Successor(CredentialPath(user, ak)) == CredentialPath(user, Successor(ak))
  {
  }

  /** The scan of the records goes through the user's access keys in their order. */
  lemma AheadIs(store: Records, s: State, user: string, start: string)
    requires Represents(store, s) && Simple(user)
    ensures Ahead(store, user, start) == set k | k in KeysAhead(s.creds, user, start) :: CredentialPath(user, k)
  {
    Kinds(store, s);
    forall k
      ensures k in Ahead(store, user, start) <==> k in set x | x in KeysAhead(s.creds, user, start) :: CredentialPath(user, x)
    {
      if k in Ahead(store, user, start) {
        PrefixIsSplit(k, CredentialPath(user, ""));
        var x: string :| k == CredentialPath(user, "") + x;
        CredentialPathIsAppended(user, x);
        InOrderOfKeys(user, x, start);
      }
      if x: string :| x in KeysAhead(s.creds, user, start) && k == CredentialPath(user, x) {
        CredentialPathIsAppended(user, x);
        InOrderOfKeys(user, x, start);
      }
    }
  }

  lemma InOrderOfKeys(user: string, x: string, y: string)
    ensures Less(CredentialPath(user, x), CredentialPath(user, y)) <==> Less(x, y)
  {
    CredentialPathIsAppended(user, x);
    CredentialPathIsAppended(user, y);
    LessAfter(CredentialPath(user, ""), x, y);
  }

  lemma LeastAhead(store: Records, s: State, user: string, start: string)
    requires Represents(store, s) && Simple(user)
    ensures Ahead(store, user, start) == {} <==> KeysAhead(s.creds, user, start) == {}
    ensures Ahead(store, user, start) != {} ==>
      var k := Least(KeysAhead(s.creds, user, start));
      var least := Least(Ahead(store, user, start));
      Behind(user, least) == k && Behind(user, Successor(least)) == Successor(k)
  {
    var keys, aks := Ahead(store, user, start), KeysAhead(s.creds, user, start);
    AheadIs(store, s, user, start);
    if keys != {} {
      var some: string :| some in aks;
      var k := Least(aks);
      assert CredentialPath(user, some) in keys;
      forall x | x in keys && x != CredentialPath(user, k)
        ensures Less(CredentialPath(user, k), x)
      {
        var y :| y in aks && x == CredentialPath(user, y);
        InOrderOfKeys(user, k, y);
      }
      assert IsLeast(CredentialPath(user, k), keys);
      LeastIsUnique(keys);
      CredentialPathIsAppended(user, k);
      CredentialPathIsAppended(user, Successor(k));
    } else {
      assert forall k :: k in aks ==> CredentialPath(user, k) in keys;
    }
  }

  /** Keys made of different users, access keys or kinds differ. */
  lemma Apart(user: string, ak: string, u: string, x: string)
    requires Simple(user) && Simple(u)
    ensures CredentialPath(u, x) == CredentialPath(user, ak) <==> (u, x) == (user, ak)
    ensures UserPath(u) != CredentialPath(user, ak) && CredentialsIndexPath(x) != CredentialPath(user, ak)
    ensures UserPath(u) != CredentialsIndexPath(ak) && CredentialPath(u, x) != CredentialsIndexPath(ak)
    ensures CredentialsIndexPath(x) == CredentialsIndexPath(ak) <==> x == ak
    ensures CredentialsIndexPath(x) != UserPath(user) && CredentialPath(u, x) != UserPath(user)
    ensures UserPath(u) == UserPath(user) <==> u == user
  {
    KindsDiffer(u, x, user, ak);
    KindsDiffer(user, ak, u, x);
    if CredentialPath(u, x) == CredentialPath(user, ak) {
      CredentialPathIsInjective(u, x, user, ak);
    }
    if CredentialsIndexPath(x) == CredentialsIndexPath(ak) {
      SingleIsInjective(CREDENTIALS_INDEX_PREFIX, x, ak);
    }
    if UserPath(u) == UserPath(user) {
      SingleIsInjective(USERS_PREFIX, u, user);
    }
  }

  ghost predicate SameBut(a: Records, b: Records, key: string) {
    forall k :: k != key ==> (k in a <==> k in b) && (k in a ==> a[k] == b[k])
  }

  lemma UsersSame(a: Records, b: Records, s: State, t: State, key: string)
    requires Holds(a, s, Users) && t.users == s.users && SameBut(a, b, key)
    requires (exists user, ak: string :: Simple(user) && key == CredentialPath(user, ak)) || exists ak: string :: key == CredentialsIndexPath(ak)
    ensures Holds(b, t, Users)
  {
    forall u: string | Simple(u)
      ensures UserPath(u) != key
    {
      if user, ak: string :| Simple(user) && key == CredentialPath(user, ak) {
        Apart(user, ak, u, ak);
      } else {
        var ak: string :| key == CredentialsIndexPath(ak);
        Apart(u, ak, u, ak);
      }
    }
  }

  lemma CredsSame(a: Records, b: Records, s: State, t: State, key: string)
    requires Holds(a, s, Stored) && t.creds == s.creds && SameBut(a, b, key)
    requires (exists user: string :: Simple(user) && key == UserPath(user)) || exists ak: string :: key == CredentialsIndexPath(ak)
    ensures Holds(b, t, Stored)
  {
    forall u: string, x: string | Simple(u)
      ensures CredentialPath(u, x) != key
    {
      if user: string :| Simple(user) && key == UserPath(user) {
        Apart(user, x, u, x);
      } else {
        var ak: string :| key == CredentialsIndexPath(ak);
        Apart(u, ak, u, x);
      }
    }
    forall u: string, x: string | Simple(u) && (u, x) in t.creds
      ensures IsCredential(b, u, x)
    {
      assert IsCredential(a, u, x);
    }
  }

  lemma IndexSame(a: Records, b: Records, s: State, t: State, key: string)
    requires Holds(a, s, Entries) && t.index == s.index && SameBut(a, b, key)
    requires (exists user: string :: Simple(user) && key == UserPath(user)) || exists user, ak: string :: Simple(user) && key == CredentialPath(user, ak)
    ensures Holds(b, t, Entries)
  {
    forall x: string
      ensures CredentialsIndexPath(x) != key
    {
      if user: string :| Simple(user) && key == UserPath(user) {
        Apart(user, x, user, x);
      } else {
        var user, ak: string :| Simple(user) && key == CredentialPath(user, ak);
        Apart(user, ak, user, x);
      }
    }
  }

  /** Writing or removing a credential's key leaves the other kinds as they are. */
  lemma CredentialChanged(a: Records, b: Records, s: State, creds: Creds, user: string, ak: string)
    requires Represents(a, s) && Simple(user) && SameBut(a, b, CredentialPath(user, ak))
    requires forall c :: c != (user, ak) ==> (c in s.creds <==> c in creds)
    requires CredentialPath(user, ak) in b <==> (user, ak) in creds
    requires (user, ak) in creds ==> IsCredential(b, user, ak)
    ensures Represents(b, s.(creds := creds))
  {
    var t := s.(creds := creds);
    forall kind
      ensures Holds(b, t, kind)
    {
      assert Holds(a, s, kind);
      match kind
      case Users => UsersSame(a, b, s, t, CredentialPath(user, ak));
      case Stored => OtherCredsSame(a, b, s.creds, creds, user, ak);
      case Entries => IndexSame(a, b, s, t, CredentialPath(user, ak));
    }
  }

  lemma OtherCredsSame(a: Records, b: Records, creds: Creds, after: Creds, user: string, ak: string)
    requires HoldsCreds(a, creds) && Simple(user) && SameBut(a, b, CredentialPath(user, ak))
    requires forall c :: c != (user, ak) ==> (c in creds <==> c in after)
    requires CredentialPath(user, ak) in b <==> (user, ak) in after
    requires (user, ak) in after ==> IsCredential(b, user, ak)
    ensures HoldsCreds(b, after)
  {
    forall u: string, x: string | Simple(u)
      ensures CredentialPath(u, x) in b <==> (u, x) in after
      ensures (u, x) in after ==> IsCredential(b, u, x)
    {
      Apart(user, ak, u, x);
      if (u, x) != (user, ak) {
        assert (u, x) in creds ==> IsCredential(a, u, x);
      }
    }
  }

  lemma IndexChanged(a: Records, b: Records, s: State, index: map<string, string>, user: string, ak: string)
    requires Represents(a, s) && Simple(user) && SameBut(a, b, CredentialsIndexPath(ak))
    requires forall x :: x != ak ==> (x in s.index <==> x in index) && (x in index ==> index[x] == s.index[x])
    requires CredentialsIndexPath(ak) in b <==> ak in index
    requires ak in index ==> b[CredentialsIndexPath(ak)] == IndexV(CredentialPath(index[ak], ak))
    ensures Represents(b, s.(index := index))
  {
    var t := s.(index := index);
    forall kind
      ensures Holds(b, t, kind)
    {
      assert Holds(a, s, kind);
      match kind
      case Users => UsersSame(a, b, s, t, CredentialsIndexPath(ak));
      case Stored => CredsSame(a, b, s, t, CredentialsIndexPath(ak));
      case Entries => OtherEntriesSame(a, b, s.index, index, user, ak);
    }
  }

  lemma OtherEntriesSame(a: Records, b: Records, index: map<string, string>, after: map<string, string>, user: string, ak: string)
    requires HoldsIndex(a, index) && Simple(user) && SameBut(a, b, CredentialsIndexPath(ak))
    requires forall x :: x != ak ==> (x in index <==> x in after) && (x in after ==> after[x] == index[x])
    requires CredentialsIndexPath(ak) in b <==> ak in after
    requires ak in after ==> b[CredentialsIndexPath(ak)] == IndexV(CredentialPath(after[ak], ak))
    ensures HoldsIndex(b, after)
  {
    forall x: string
      ensures CredentialsIndexPath(x) in b <==> x in after
      ensures x in after ==> b[CredentialsIndexPath(x)] == IndexV(CredentialPath(after[x], x))
    {
      Apart(user, ak, user, x);
    }
  }

  lemma UserRemoved(a: Records, s: State, user: string)
    requires Represents(a, s) && Simple(user)
    ensures Represents(a - {UserPath(user)}, s.(users := s.users - {user}))
  {
    var b, t := a - {UserPath(user)}, s.(users := s.users - {user});
    forall kind
      ensures Holds(b, t, kind)
    {
      assert Holds(a, s, kind);
      match kind
      case Users => OtherUsersSame(a, s.users, user);
      case Stored => CredsSame(a, b, s, t, UserPath(user));
      case Entries => IndexSame(a, b, s, t, UserPath(user));
    }
  }

  lemma OtherUsersSame(a: Records, users: set<string>, user: string)
    requires HoldsUsers(a, users) && Simple(user)
    ensures HoldsUsers(a - {UserPath(user)}, users - {user})
  {
    forall u: string | Simple(u)
      ensures UserPath(u) in a - {UserPath(user)} <==> u in users - {user}
    {
      Apart(user, "", u, "");
    }
  }

  /** Where an operation stands after a step, and what the records hold then. */
  ghost predicate Simulates(s: State, id: nat, acts: (Records, Option<Op>))
    requires id in s.ops
  {
    && Represents(acts.0, Moved(s, id))
    && Moved(s, id).ops == if acts.1.Some? then s.ops[id := acts.1.value] else s.ops - {id}
  }

  lemma ListSimulates(store: Records, s: State, id: nat, secret: string)
    requires Represents(store, s) && id in s.ops && Simple(s.ops[id].user) && s.ops[id].Listing?
    ensures Simulates(s, id, Acts(store, s.ops[id], secret))
  {
    LeastAhead(store, s, s.ops[id].user, s.ops[id].start);
    SameRecords(store, s, Moved(s, id));
  }

  lemma ScanSimulates(store: Records, s: State, id: nat, secret: string)
    requires Represents(store, s) && id in s.ops && Simple(s.ops[id].user) && s.ops[id].Scanning?
    ensures Simulates(s, id, Acts(store, s.ops[id], secret))
  {
    LeastAhead(store, s, s.ops[id].user, s.ops[id].start);
    if KeysAhead(s.creds, s.ops[id].user, s.ops[id].start) == {} {
      UserRemoved(store, s, s.ops[id].user);
      SameRecords(store - {UserPath(s.ops[id].user)}, s.(users := s.users - {s.ops[id].user}), Moved(s, id));
    } else {
      SameRecords(store, s, Moved(s, id));
    }
  }

  lemma CredentialHeld(store: Records, s: State, u: string, ak: string)
    requires Represents(store, s) && Simple(u)
    ensures CredentialPath(u, ak) in store <==> (u, ak) in s.creds
    ensures CredentialsIndexPath(ak) in store <==> ak in s.index
    ensures (u, ak) in s.creds ==> IsCredential(store, u, ak)
  {
    Kinds(store, s);
  }

  lemma StoreSimulates(store: Records, s: State, id: nat, secret: string)
    requires Represents(store, s) && id in s.ops && Simple(s.ops[id].user) && s.ops[id].Storing?
    ensures Simulates(s, id, Acts(store, s.ops[id], secret))
  {
    var u, ak := s.ops[id].user, s.ops[id].ak;
    CredentialHeld(store, s, u, ak);
    var after, t := Acts(store, s.ops[id], secret).0, Moved(s, id);
    CredentialChanged(store, after, s, t.creds, u, ak);
    SameRecords(after, s.(creds := t.creds), t);
  }

  lemma IndexSimulates(store: Records, s: State, id: nat, secret: string)
    requires Represents(store, s) && id in s.ops && Simple(s.ops[id].user) && s.ops[id].Indexing?
    ensures Simulates(s, id, Acts(store, s.ops[id], secret))
  {
    var u, ak := s.ops[id].user, s.ops[id].ak;
    CredentialHeld(store, s, u, ak);
    var after, t := Acts(store, s.ops[id], secret).0, Moved(s, id);
    if ak in s.index {
      SameRecords(store, s, t);
    } else {
      IndexChanged(store, after, s, t.index, u, ak);
      SameRecords(after, s.(index := t.index), t);
    }
  }

  lemma RemoveSimulates(store: Records, s: State, id: nat, secret: string)
    requires Represents(store, s) && id in s.ops && Simple(s.ops[id].user)
    requires s.ops[id].RollingBack? || s.ops[id].Unindexing? || s.ops[id].Dropping?
    ensures Simulates(s, id, Acts(store, s.ops[id], secret))
  {
    var after, t, u, ak := Acts(store, s.ops[id], secret).0, Moved(s, id), s.ops[id].user, s.ops[id].ak;
    if s.ops[id].Unindexing? {
      IndexChanged(store, after, s, t.index, u, ak);
      SameRecords(after, s.(index := t.index), t);
    } else {
      CredentialChanged(store, after, s, t.creds, u, ak);
      SameRecords(after, s.(creds := t.creds), t);
    }
  }

  /** On records that hold a state, an operation does in one read or write what its step does
      to the state. */
  lemma StepIsOneWrite(store: Records, s: State, id: nat, secret: string)
    requires Represents(store, s) && id in s.ops && Simple(s.ops[id].user)
    ensures Simulates(s, id, Acts(store, s.ops[id], secret))
  {
    match s.ops[id]
    case Listing(_, _, _, _, _) => ListSimulates(store, s, id, secret);
    case Scanning(_, _) => ScanSimulates(store, s, id, secret);
    case Storing(_, _, _) => StoreSimulates(store, s, id, secret);
    case Indexing(_, _) => IndexSimulates(store, s, id, secret);
    case _ => RemoveSimulates(store, s, id, secret);
  }
}
