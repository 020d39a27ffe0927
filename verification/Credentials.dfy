/** The users, credentials and external principals of the basic authentication service. */
module Credentials {
  import opened Options
  import opened Kv
  import opened AuthKeys
  import opened AuthStore

  datatype AuthError = NotFound | AlreadyExists | InvalidRequest | InvalidName | NotImplemented | BadRecord

  datatype Result<+T> = Ok(value: T) | Err(error: AuthError)

  // ----- what the operations mean -----

  predicate ValidEntityID(name: string) {
    name != "" && Simple(name)
  }

  predicate UserExists(store: Records, user: string) {
    UserPath(user) in store
  }

  /** The credentials under a prefix of access keys. */
  function KeysUnder(store: Records, user: string, prefix: string): set<string> {
    set k | k in store && HasPrefix(k, CredentialPath(user, prefix))
  }

  ghost predicate AllCredentials(store: Records, ks: seq<string>, n: nat) {
    forall i :: 0 <= i < n && i < |ks| ==> ks[i] in store && store[ks[i]].CredV?
  }

  /** The credential an import finds: the only one whose key begins as asked. */
  ghost function Imported(legacy: Records, user: string, ak: string): Result<Value> {
    var ks := Sorted(KeysUnder(legacy, user, ak));
    if !AllCredentials(legacy, ks, MAX_CREDENTIALS_PER_USER + 1) then Err(BadRecord)
    else if |ks| == 0 then Err(NotFound)
    else if |ks| == 1 then Ok(legacy[ks[0]])
    else Err(InvalidRequest)
  }

  /** Which credential AddCredentials is to store, or why it refuses. */
  ghost function Requested(store: Records, legacy: Records, user: string, ak: string, secret: string): Result<Value> {
    if !UserExists(store, user) then Err(NotFound)
    else if |CredentialKeys(store, user)| >= MAX_CREDENTIALS_PER_USER then Err(InvalidRequest)
    else if ak != "" && secret == "" then Imported(legacy, user, ak)
    else Ok(CredV(user, ak, secret))
  }

  ghost function AddOutcome(store: Records, legacy: Records, user: string, ak: string, secret: string): Result<Value> {
    StoreOutcome(store, user, Requested(store, legacy, user, ak, secret))
  }

  /** A credential can be stored unless the user or another has one of the same key. */
  function StoreOutcome(store: Records, user: string, requested: Result<Value>): Result<Value> {
    match requested
    case Err(e) => Err(e)
    case Ok(c) =>
      if !c.CredV? then Err(BadRecord)
      else if CanAdd(store, user, c.accessKeyID) then Ok(CredV(user, c.accessKeyID, c.secret))
      else Err(AlreadyExists)
  }

  /** The one record of the previous service that is a credential of the user with a key that
      begins like this. */
  ghost predicate OnlyPrevious(legacy: Records, user: string, ak: string, k: string) {
    && k in legacy && HasPrefix(k, CredentialPath(user, ak))
    && forall x :: x in legacy && HasPrefix(x, CredentialPath(user, ak)) ==> x == k
  }

  /** Without a secret, a credential of this key is to be imported. */
  predicate IsImport(ak: string, secret: string) {
    ak != "" && secret == ""
  }

  /** The key and the secret asked for, or those of the record to import. */
  ghost predicate AsAsked(legacy: Records, user: string, ak: string, secret: string, c: Value)
    requires c.CredV?
  {
    if IsImport(ak, secret) then
      exists k :: OnlyPrevious(legacy, user, ak, k) && legacy[k].CredV? && c.accessKeyID == legacy[k].accessKeyID && c.secret == legacy[k].secret
    else c.accessKeyID == ak && c.secret == secret
  }

  /** An addition succeeds, with this credential: the user exists and has fewer than ten, the
      key and the secret are as asked, and nobody has the key. */
  ghost predicate Adds(store: Records, legacy: Records, user: string, ak: string, secret: string, c: Value) {
    && UserPath(user) in store && |CredentialKeys(store, user)| < 10
    && c.CredV? && c.userID == user && AsAsked(legacy, user, ak, secret, c)
    && CredentialPath(user, c.accessKeyID) !in store && CredentialsIndexPath(c.accessKeyID) !in store
  }

  lemma ImportedIff(legacy: Records, user: string, ak: string, v: Value)
    ensures Imported(legacy, user, ak) == Ok(v) && v.CredV? <==>
      exists k :: OnlyPrevious(legacy, user, ak, k) && legacy[k].CredV? && v == legacy[k]
  {
    var keys := KeysUnder(legacy, user, ak);
    var ks := Sorted(keys);
    SortedLists(keys);
    if Imported(legacy, user, ak) == Ok(v) && v.CredV? {
      assert ks == [ks[0]] && ks[0] in keys;
      forall x | x in legacy && HasPrefix(x, CredentialPath(user, ak))
        ensures x == ks[0]
      {
        assert x in keys;
      }
      assert OnlyPrevious(legacy, user, ak, ks[0]);
    }
    if k :| OnlyPrevious(legacy, user, ak, k) && legacy[k].CredV? && v == legacy[k] {
      assert keys == {k} && |ks| == 1;
      assert ks[0] in keys;
    }
  }

  lemma AddsIff(store: Records, legacy: Records, user: string, ak: string, secret: string, c: Value)
    ensures AddOutcome(store, legacy, user, ak, secret) == Ok(c) <==> Adds(store, legacy, user, ak, secret, c)
  {
    if UserExists(store, user) && |CredentialKeys(store, user)| < MAX_CREDENTIALS_PER_USER && IsImport(ak, secret) {
      if AddOutcome(store, legacy, user, ak, secret) == Ok(c) {
        ImportedIff(legacy, user, ak, Imported(legacy, user, ak).value);
      }
      if Adds(store, legacy, user, ak, secret, c) {
        var k :| OnlyPrevious(legacy, user, ak, k) && legacy[k].CredV? && c.accessKeyID == legacy[k].accessKeyID && c.secret == legacy[k].secret;
        ImportedIff(legacy, user, ak, legacy[k]);
      }
    }
  }

  /** The credential that the index leads to. */
  function Lookup(store: Records, ak: string): Option<Value> {
    var i := CredentialsIndexPath(ak);
    if i in store && store[i].IndexV? && store[i].primaryKey in store then Some(store[store[i].primaryKey]) else None
  }

  lemma AddedIsFound(store: Records, user: string, ak: string, secret: string)
    ensures Lookup(Added(store, user, ak, secret), ak) == Some(CredV(user, ak, secret))
  {
    KindsDiffer(user, ak, user, ak);
  }

  ghost predicate HasCredential(store: Records, user: string, ak: string) {
    Simple(user) && CredentialPath(user, ak) in store
  }

  /** The records of one user: its own, its credentials and the index entries of their
      non-empty keys, and, where external principals are enabled, those and theirs. */
  ghost predicate OwnedBy(store: Records, k: string, user: string, iam: bool)
    requires k in store
  {
    || k == UserPath(user)
    || (store[k].CredV? && store[k].userID == user)
    || (store[k].IndexV? && exists ak: string :: ak != "" && IndexesCredential(k, store[k].primaryKey, user, ak))
    || (iam && store[k].PrincipalV? && store[k].userID == user)
    || (iam && store[k].IndexV? && exists id: string :: IndexesPrincipal(k, store[k].primaryKey, user, id))
  }

  ghost function Without(store: Records, user: string, iam: bool): Records {
    map k | k in store && !OwnedBy(store, k, user, iam) :: store[k]
  }

  // ----- reading the credentials of a user -----

  /** The credentials read so far are those of the first keys. */
  ghost predicate ReadSoFar(store: Records, ks: seq<string>, creds: seq<Value>, rest: set<string>) {
    && |creds| <= |ks| && Sorted(rest) == ks[|creds|..]
    && forall i :: 0 <= i < |creds| ==> ks[i] in store && store[ks[i]].CredV? && store[ks[i]] == creds[i]
  }

  lemma ReadOne(store: Records, ks: seq<string>, creds: seq<Value>, rest: set<string>)
    requires ReadSoFar(store, ks, creds, rest) && rest != {}
    ensures |creds| < |ks| && ks[|creds|] == Least(rest)
    ensures Least(rest) in store && store[Least(rest)].CredV? ==>
      ReadSoFar(store, ks, creds + [store[Least(rest)]], rest - {Least(rest)})
  {
    SortedFirst(rest);
    assert ks[|creds|..][0] == Sorted(rest)[0];
    assert ks[|creds|..][1..] == ks[|creds| + 1..];
  }

  /** The first credentials in key order, or an error when one of them is no credential. */
  ghost predicate IsListing(store: Records, ks: seq<string>, r: Result<seq<Value>>) {
    match r
    case Ok(creds) =>
      && |creds| == (if |ks| > MAX_CREDENTIALS_PER_USER then MAX_CREDENTIALS_PER_USER + 1 else |ks|)
      && forall i :: 0 <= i < |creds| ==> ks[i] in store && creds[i] == store[ks[i]] && creds[i].CredV?
    case Err(e) => e == BadRecord && !AllCredentials(store, ks, MAX_CREDENTIALS_PER_USER + 1)
  }

  lemma ListingFails(store: Records, ks: seq<string>, creds: seq<Value>, rest: set<string>)
    requires ReadSoFar(store, ks, creds, rest) && |creds| <= MAX_CREDENTIALS_PER_USER && rest != {}
    requires Least(rest) in store && !store[Least(rest)].CredV?
    ensures IsListing(store, ks, Err(BadRecord))
  {
    ReadOne(store, ks, creds, rest);
  }

  lemma ListingEnds(store: Records, ks: seq<string>, creds: seq<Value>, rest: set<string>)
    requires ReadSoFar(store, ks, creds, rest) && |creds| <= MAX_CREDENTIALS_PER_USER + 1
    requires rest == {} || |creds| == MAX_CREDENTIALS_PER_USER + 1
    ensures IsListing(store, ks, Ok(creds))
  {
    assert rest == {} ==> Sorted(rest) == [];
  }

  /** listUserCredentials: the credentials under a prefix, in key order, but at most one more
      than a user may have. */
  method ListUserCredentials(store: Records, user: string, prefix: string) returns (r: Result<seq<Value>>)
    ensures IsListing(store, Sorted(KeysUnder(store, user, prefix)), r)
  {
    var it := new PrimaryIterator(store, CredentialPath(user, prefix), "");
    AllUnder(store, user, prefix);
    r := ReadCredentials(it, Sorted(KeysUnder(store, user, prefix)));
  }

  method ReadCredentials(it: PrimaryIterator<Value>, ghost ks: seq<string>) returns (r: Result<seq<Value>>)
    requires it.Valid() && ks == Sorted(it.Pending())
    modifies it
    ensures IsListing(it.store, ks, r)
  {
    var creds: seq<Value> := [];
    ghost var rest := it.Pending();
    var more := true;
    while |creds| <= MAX_CREDENTIALS_PER_USER && more
      invariant it.Valid() && it.Pending() == rest
      invariant ReadSoFar(it.store, ks, creds, rest) && |creds| <= MAX_CREDENTIALS_PER_USER + 1
      invariant !more ==> rest == {}
      decreases |rest|, more
    {
      if rest != {} {
        ReadOne(it.store, ks, creds, rest);
      }
      more := it.Next();
      if more {
        var c := it.store[it.entry.value];
        if !c.CredV? {
          ListingFails(it.store, ks, creds, rest);
          return Err(BadRecord);
        }
        creds := creds + [c];
        rest := it.Pending();
      }
    }
    ListingEnds(it.store, ks, creds, rest);
    r := Ok(creds);
  }

  lemma AllUnder(store: Records, user: string, prefix: string)
    ensures KeysAfter(store, CredentialPath(user, prefix), "") == KeysUnder(store, user, prefix)
  {
    forall k | k in KeysUnder(store, user, prefix)
      ensures Less("", k)
    {
      assert |k| >= |CredentialPath(user, prefix)| > 0;
    }
  }

  lemma OwnCredentialsAreFine(store: Records, user: string)
    requires StoreOk(store) && Simple(user)
    ensures AllCredentials(store, Sorted(KeysUnder(store, user, "")), MAX_CREDENTIALS_PER_USER + 1)
    ensures KeysUnder(store, user, "") == CredentialKeys(store, user)
  {
    var ks := Sorted(KeysUnder(store, user, ""));
    SortedLists(KeysUnder(store, user, ""));
    Parts(store);
    forall i | 0 <= i < |ks|
      ensures ks[i] in store && store[ks[i]].CredV?
    {
      assert ks[i] in ks;
      UnderCredentialPath(user, "", ks[i], store[ks[i]]);
    }
  }

  // ----- deleting the credentials of a user -----

  /** The index entry of a credential, unless its key is empty. */
  function IndexOfOne(c: Value): set<string>
    requires c.CredV?
  {
    if c.accessKeyID != "" then {CredentialsIndexPath(c.accessKeyID)} else {}
  }

  lemma RemovedInTurn(m: Records, a: set<string>, i: set<string>, j: set<string>, k: string)
    ensures m - (a + {k} + (i + j)) == m - (a + i) - j - {k}
  {}

  lemma RemovedBoth(m: Records, a: string, b: string)
    ensures m - {a} - {b} == m - {a, b}
  {}

  lemma IndexesOfMore(s0: Records, gone: set<string>, k: string)
    requires k in s0 && s0[k].CredV?
    ensures IndexesOf(s0, gone + {k}) == IndexesOf(s0, gone) + IndexOfOne(s0[k])
  {}

  /** The store while credentials are deleted: which are gone, and where the scan goes on. */
  ghost predicate Deleting(store: Records, s0: Records, user: string, gone: set<string>, start: string) {
    && gone <= CredentialKeys(s0, user) && store == CredentialsRemoved(s0, gone)
    && KeysFrom(store, CredentialPath(user, ""), start) == CredentialKeys(s0, user) - gone
  }

  lemma NextToDelete(store: Records, s0: Records, user: string, gone: set<string>, start: string, k: string)
    requires StoreOk(s0) && Simple(user) && Deleting(store, s0, user, gone, start)
    requires k in KeysFrom(store, CredentialPath(user, ""), start)
    ensures k in store && store[k] == s0[k] && store[k].CredV? && k in CredentialKeys(s0, user) - gone
    ensures k == CredentialPath(user, s0[k].accessKeyID)
  {
    KeyedAt(s0, k);
    UnderCredentialPath(user, "", k, s0[k]);
  }

  lemma StoreAfterOne(store: Records, s0: Records, gone: set<string>, k: string)
    requires store == CredentialsRemoved(s0, gone) && k in store && store[k].CredV?
    ensures store - IndexOfOne(store[k]) - {k} == CredentialsRemoved(s0, gone + {k})
  {
    IndexesOfMore(s0, gone, k);
    RemovedInTurn(s0, gone, IndexesOf(s0, gone), IndexOfOne(s0[k]), k);
  }

  lemma OneLess(all: set<string>, gone: set<string>, k: string)
    requires k in all - gone
    ensures all - (gone + {k}) == all - gone - {k} == all - gone - {k} - {k}
    ensures |all - (gone + {k})| < |all - gone|
  {
    assert all - (gone + {k}) == all - gone - {k};
  }

  lemma DeleteOne(store: Records, s0: Records, user: string, gone: set<string>, start: string, k: string)
    requires StoreOk(s0) && Simple(user) && Deleting(store, s0, user, gone, start)
    requires k in KeysFrom(store, CredentialPath(user, ""), start)
    requires KeysFrom(store, CredentialPath(user, ""), Successor(k)) == KeysFrom(store, CredentialPath(user, ""), start) - {k}
    ensures k in store && store[k] == s0[k] && store[k].CredV?
    ensures Deleting(store - IndexOfOne(store[k]) - {k}, s0, user, gone + {k}, Successor(k))
    ensures |CredentialKeys(s0, user) - (gone + {k})| < |CredentialKeys(s0, user) - gone|
  {
    NextToDelete(store, s0, user, gone, start, k);
    StoreAfterOne(store, s0, gone, k);
    ScanGoesOn(store, user, Successor(k), k, s0[k].accessKeyID);
    OneLess(CredentialKeys(s0, user), gone, k);
  }

  lemma DeletingStarts(store: Records, user: string)
    ensures Deleting(store, store, user, {}, CredentialPath(user, ""))
    ensures !Less(CredentialPath(user, ""), CredentialPath(user, ""))
  {
    ScanStarts(store, user);
    assert CredentialsRemoved(store, {}) == store;
  }

  lemma DeletingEnds(store: Records, s0: Records, user: string, gone: set<string>, start: string)
    requires Deleting(store, s0, user, gone, start) && KeysFrom(store, CredentialPath(user, ""), start) == {}
    ensures store == CredentialsRemoved(s0, CredentialKeys(s0, user))
  {
    assert forall k :: k in CredentialKeys(s0, user) ==> k in gone || k in CredentialKeys(s0, user) - gone;
    assert gone == CredentialKeys(s0, user);
  }

  /** Removing the index entry and the key itself leaves the rest of the scan. */
  lemma ScanGoesOn(s: Records, user: string, start: string, k: string, ak: string)
    requires Simple(user)
    ensures var i := if ak != "" then {CredentialsIndexPath(ak)} else {};
      KeysFrom(s - i - {k}, CredentialPath(user, ""), start) == KeysFrom(s, CredentialPath(user, ""), start) - {k}
  {
    var i := CredentialsIndexPath(ak);
    if HasPrefix(i, CredentialPath(user, "")) {
      PrefixIsSplit(i, CredentialPath(user, ""));
      var x: string :| i == CredentialPath(user, "") + x;
      assert i == CredentialPath(user, x);
      KindsDiffer(user, x, user, ak);
    }
  }

  lemma ScanStarts(s: Records, user: string)
    ensures KeysFrom(s, CredentialPath(user, ""), CredentialPath(user, "")) == CredentialKeys(s, user)
    ensures !Less(CredentialPath(user, ""), CredentialPath(user, ""))
  {
    LessIsStrict(CredentialPath(user, ""), CredentialPath(user, ""));
    forall k | k in CredentialKeys(s, user)
      ensures !Less(k, CredentialPath(user, ""))
    {
      PrefixComesFirst(k, CredentialPath(user, ""));
    }
  }

  // ----- external principals -----

  function UserPrincipalKeys(store: Records, user: string): set<string> {
    set k | k in store && HasPrefix(k, UserExternalPrincipalPath(user, ""))
  }

  /** The entries after a position, which is compared with whole keys. */
  ghost function PrincipalsPast(store: Records, user: string, after: string): set<string> {
    KeysAfter(store, UserExternalPrincipalPath(user, ""), after)
  }

  lemma AllPrincipalsUnder(store: Records, user: string)
    ensures PrincipalsPast(store, user, "") == UserPrincipalKeys(store, user)
  {
    forall k | k in UserPrincipalKeys(store, user)
      ensures Less("", k)
    {
      assert |k| >= |UserExternalPrincipalPath(user, "")| > 0;
    }
  }

  /** The principals of a user, as listed so far. */
  ghost predicate ListedSoFar(store: Records, user: string, ks: seq<string>, ids: seq<string>, rest: set<string>) {
    && |ids| <= |ks| && Sorted(rest) == ks[|ids|..] && rest <= UserPrincipalKeys(store, user)
    && forall i :: 0 <= i < |ids| ==> ks[i] == UserExternalPrincipalPath(user, ids[i])
  }

  lemma ListOne(store: Records, user: string, ks: seq<string>, ids: seq<string>, rest: set<string>) returns (id: string)
    requires StoreOk(store) && Simple(user) && rest != {}
    requires ListedSoFar(store, user, ks, ids, rest)
    ensures Least(rest) in store && store[Least(rest)] == IndexV(ExternalPrincipalPath(id))
    ensures ExternalPrincipalPath(id) in store && store[ExternalPrincipalPath(id)] == PrincipalV(id, user)
    ensures ListedSoFar(store, user, ks, ids + [id], rest - {Least(rest)}) && |ids| < |ks|
  {
    SortedFirst(rest);
    assert ks[|ids|..][0] == Sorted(rest)[0];
    assert ks[|ids|..][1..] == ks[|ids| + 1..];
    Parts(store);
    id := UnderUserPrincipals(user, Least(rest), store[Least(rest)]);
    assert UserExternalPrincipalPath(user, id) in store;
  }

  /** The IDs of a user's principals, in key order. */
  ghost predicate ListsPrincipals(ks: seq<string>, user: string, ids: seq<string>, n: nat) {
    && n <= |ks| && |ids| == n
    && forall i :: 0 <= i < n ==> ks[i] == UserExternalPrincipalPath(user, ids[i])
  }

  lemma ListingStarts(store: Records, user: string, after: string)
    ensures var keys := PrincipalsPast(store, user, after); ListedSoFar(store, user, Sorted(keys), [], keys)
  {}

  /** The ID in a key under the user's prefix. */
  function PrincipalIDOf(user: string, k: string): string {
    var p := UserExternalPrincipalPath(user, "");
    if |p| <= |k| then k[|p|..] else ""
  }

  function PrincipalIDs(user: string, ks: seq<string>): seq<string> {
    seq(|ks|, i requires 0 <= i < |ks| => PrincipalIDOf(user, ks[i]))
  }

  datatype PrincipalPage = PrincipalPage(ids: seq<string>, nextPageToken: string)

  /** A page of a user's principals. The token is the ID of the last one, and is handed out
      whenever the page is full, even if nothing follows. */
  function PageOf(user: string, ks: seq<string>, amount: int): PrincipalPage {
    if 0 < amount <= |ks| then PrincipalPage(PrincipalIDs(user, ks[..amount]), PrincipalIDOf(user, ks[amount - 1]))
    else PrincipalPage(PrincipalIDs(user, ks), "")
  }

  lemma ListedIsPage(user: string, ks: seq<string>, ids: seq<string>, amount: int)
    requires ListsPrincipals(ks, user, ids, if 0 < amount < |ks| then amount else |ks|)
    ensures PageOf(user, ks, amount) == PrincipalPage(ids, if 0 < amount <= |ids| then ids[|ids| - 1] else "")
  {
    forall i | 0 <= i < |ids|
      ensures PrincipalIDOf(user, ks[i]) == ids[i]
    {
      assert ks[i] == UserExternalPrincipalPath(user, "") + ids[i];
    }
    assert PrincipalIDs(user, if 0 < amount <= |ks| then ks[..amount] else ks) == ids;
  }

  lemma ListingEndsAt(store: Records, user: string, ks: seq<string>, ids: seq<string>, rest: set<string>, amount: int)
    requires ListedSoFar(store, user, ks, ids, rest)
    requires rest == {} || (0 < amount && |ids| == amount)
    requires 0 < amount ==> |ids| <= amount
    ensures ListsPrincipals(ks, user, ids, if 0 < amount < |ks| then amount else |ks|)
  {
    assert rest == {} <==> Sorted(rest) == [];
  }

  /** The loop: through the user's index entries to the principals. */
  method ReadPrincipals(store: Records, user: string, amount: int, after: string) returns (ids: seq<string>)
    requires StoreOk(store) && Simple(user)
    ensures var ks := Sorted(PrincipalsPast(store, user, after));
      ListsPrincipals(ks, user, ids, if 0 < amount < |ks| then amount else |ks|)
  {
    var it := new PrimaryIterator(store, UserExternalPrincipalPath(user, ""), after);
    ListingStarts(store, user, after);
    ids := CollectPrincipals(it, user, amount, Sorted(it.Pending()));
  }

  method CollectPrincipals(it: PrimaryIterator<Value>, user: string, amount: int, ghost ks: seq<string>) returns (ids: seq<string>)
    requires StoreOk(it.store) && Simple(user) && it.Valid() && ListedSoFar(it.store, user, ks, [], it.Pending())
    modifies it
    ensures ListsPrincipals(ks, user, ids, if 0 < amount < |ks| then amount else |ks|)
  {
    ids := [];
    ghost var rest := it.Pending();
    while true
      invariant it.Valid() && it.Pending() == rest
      invariant ListedSoFar(it.store, user, ks, ids, rest) && (amount > 0 ==> |ids| <= amount)
      decreases |rest|
    {
      var ok := it.Next();
      if !ok || (amount > 0 && |ids| >= amount) {
        break;
      }
      var id := ListOne(it.store, user, ks, ids, rest);
      var principal := it.store[it.store[it.entry.value].primaryKey];
      ids := ids + [principal.id];
      rest := it.Pending();
    }
    ListingEndsAt(it.store, user, ks, ids, rest, amount);
  }

  // ----- deleting a user -----

  /** The records of the principals of these IDs. */
  function PrincipalRecords(user: string, ids: seq<string>): set<string> {
    (set x | x in ids :: UserExternalPrincipalPath(user, x)) + (set x | x in ids :: ExternalPrincipalPath(x))
  }

  lemma NextPrincipal(store: Records, user: string, ids: seq<string>, j: nat)
    requires j < |ids|
    ensures PrincipalRemoved(store - PrincipalRecords(user, ids[..j]), user, ids[j]) == store - PrincipalRecords(user, ids[..j + 1])
  {
    assert ids[..j + 1] == ids[..j] + [ids[j]];
    var a, b := UserExternalPrincipalPath(user, ids[j]), ExternalPrincipalPath(ids[j]);
    var before, after := PrincipalRecords(user, ids[..j]), PrincipalRecords(user, ids[..j + 1]);
    assert after == before + {a, b} by {
      assert forall x :: x in ids[..j + 1] <==> x in ids[..j] || x == ids[j];
    }
    RemovedTogether(store, before, {a, b});
  }

  lemma RemovedTogether(m: Records, a: set<string>, b: set<string>)
    ensures m - a - b == m - (a + b)
  {}

  ghost predicate Remains(store: Records, user: string, ids: seq<string>, j: nat)
    requires j < |ids|
  {
    && ExternalPrincipalPath(ids[j]) in store && store[ExternalPrincipalPath(ids[j])] == PrincipalV(ids[j], user)
    && ExternalPrincipalPath(ids[j]) !in PrincipalRecords(user, ids[..j])
  }

  /** A principal not yet deleted is still there. */
  lemma PrincipalRemains(store: Records, user: string, ids: seq<string>, j: nat)
    requires StoreOk(store) && Simple(user) && j < |ids| && ListsPrincipals(Sorted(UserPrincipalKeys(store, user)), user, ids, |ids|)
    ensures Remains(store, user, ids, j)
  {
    var keys := UserPrincipalKeys(store, user);
    Parts(store);
    SortedLists(keys);
    SortedIsInOrder(keys);
    var ks := Sorted(keys);
    assert ks[j] in keys;
    forall x | x in ids[..j]
      ensures ExternalPrincipalPath(x) != ExternalPrincipalPath(ids[j]) && UserExternalPrincipalPath(user, x) != ExternalPrincipalPath(ids[j])
    {
      var i :| 0 <= i < j && ids[i] == x;
      LessIsStrict(ks[i], ks[j]);
      if ExternalPrincipalPath(x) == ExternalPrincipalPath(ids[j]) {
        SingleIsInjective(EXTERNAL_PRINCIPALS_PREFIX, x, ids[j]);
      }
      KindsDiffer("", ids[j], user, x);
    }
  }

  /** Which records the two deleting loops and the last write remove. */
  ghost predicate Gone(store: Records, k: string, user: string, ids: seq<string>) {
    || k in PrincipalRecords(user, ids)
    || k in CredentialKeys(store, user)
    || k in IndexesOf(store, CredentialKeys(store, user))
    || k == UserPath(user)
  }

  lemma CredentialsOwned(store: Records, user: string, k: string)
    requires StoreOk(store) && Simple(user) && k in store
    ensures k in CredentialKeys(store, user) <==> store[k].CredV? && store[k].userID == user
  {
    KeyedAt(store, k);
    if k in CredentialKeys(store, user) {
      UnderCredentialPath(user, "", k, store[k]);
    }
    if store[k].CredV? && store[k].userID == user {
      CredentialHasPrefix(user, store[k].accessKeyID);
    }
  }

  lemma IndexesOwned(store: Records, user: string, k: string)
    requires StoreOk(store) && Simple(user) && k in store
    ensures k in IndexesOf(store, CredentialKeys(store, user)) <==>
      store[k].IndexV? && exists ak: string :: ak != "" && IndexesCredential(k, store[k].primaryKey, user, ak)
  {
    var creds := CredentialKeys(store, user);
    Parts(store);
    if k in IndexesOf(store, creds) {
      var c :| c in creds && store[c].CredV? && store[c].accessKeyID != "" && k == CredentialsIndexPath(store[c].accessKeyID);
      CredentialsOwned(store, user, c);
      assert IndexesCredential(k, store[k].primaryKey, user, store[c].accessKeyID);
    }
    if store[k].IndexV? && exists ak: string :: ak != "" && IndexesCredential(k, store[k].primaryKey, user, ak) {
      var ak: string :| ak != "" && IndexesCredential(k, store[k].primaryKey, user, ak);
      assert Backed(store, ak);
      var c := CredentialPath(user, ak);
      AtCredentialPath(user, ak, store[c]);
      CredentialsOwned(store, user, c);
    }
  }

  lemma PrincipalsOwned(store: Records, user: string, ids: seq<string>, k: string)
    requires StoreOk(store) && Simple(user) && k in store
    requires ListsPrincipals(Sorted(UserPrincipalKeys(store, user)), user, ids, |UserPrincipalKeys(store, user)|)
    ensures k in PrincipalRecords(user, ids) <==>
      || (store[k].PrincipalV? && store[k].userID == user)
      || (store[k].IndexV? && exists id: string :: IndexesPrincipal(k, store[k].primaryKey, user, id))
  {
    Parts(store);
    if k in PrincipalRecords(user, ids) {
      var x :| x in ids && (k == UserExternalPrincipalPath(user, x) || k == ExternalPrincipalPath(x));
      IdIsListed(store, user, ids, x);
      AtUserPrincipalPath(user, x, store[UserExternalPrincipalPath(user, x)]);
      assert IndexesPrincipal(UserExternalPrincipalPath(user, x), ExternalPrincipalPath(x), user, x);
    }
    if store[k].PrincipalV? && store[k].userID == user {
      IdIsListed(store, user, ids, store[k].id);
    }
    if store[k].IndexV? && exists id: string :: IndexesPrincipal(k, store[k].primaryKey, user, id) {
      var id: string :| IndexesPrincipal(k, store[k].primaryKey, user, id);
      IdIsListed(store, user, ids, id);
    }
  }

  lemma IdIsListed(store: Records, user: string, ids: seq<string>, x: string)
    requires Simple(user) && ListsPrincipals(Sorted(UserPrincipalKeys(store, user)), user, ids, |UserPrincipalKeys(store, user)|)
    ensures x in ids <==> UserExternalPrincipalPath(user, x) in store
  {
    var keys := UserPrincipalKeys(store, user);
    SortedLists(keys);
    var ks, q := Sorted(keys), UserExternalPrincipalPath(user, x);
    UserPrincipalHasPrefix(user, x);
    if x in ids {
      var i :| 0 <= i < |ids| && ids[i] == x;
      assert ks[i] in keys;
    }
    if q in store {
      assert q in ks;
      var i :| 0 <= i < |ks| && ks[i] == q;
      UserPrincipalPathIsInjective(user, x, user, ids[i]);
    }
  }

  lemma OwnedIsGone(store: Records, user: string, ids: seq<string>, iam: bool, k: string)
    requires StoreOk(store) && Simple(user) && k in store
    requires if iam then ListsPrincipals(Sorted(UserPrincipalKeys(store, user)), user, ids, |UserPrincipalKeys(store, user)|) else ids == []
    ensures OwnedBy(store, k, user, iam) <==> Gone(store, k, user, ids)
  {
    CredentialsOwned(store, user, k);
    IndexesOwned(store, user, k);
    if iam {
      PrincipalsOwned(store, user, ids, k);
    }
  }

  /** Principals and credentials lie apart, so deleting the ones leaves the others. */
  lemma CredentialsApart(store: Records, user: string, ids: seq<string>)
    requires StoreOk(store) && Simple(user)
    ensures CredentialKeys(store - PrincipalRecords(user, ids), user) == CredentialKeys(store, user)
    ensures IndexesOf(store - PrincipalRecords(user, ids), CredentialKeys(store, user)) == IndexesOf(store, CredentialKeys(store, user))
  {
    var s1 := store - PrincipalRecords(user, ids);
    forall k | k in CredentialKeys(store, user)
      ensures k in s1
    {
      CredentialsOwned(store, user, k);
      KeyedAt(store, k);
      forall x: string
        ensures k != UserExternalPrincipalPath(user, x) && k != ExternalPrincipalPath(x)
      {
        KindsDiffer(user, store[k].accessKeyID, user, x);
      }
    }
  }

  lemma DeletedIsWithout(store: Records, user: string, ids: seq<string>, iam: bool, s1: Records)
    requires StoreOk(store) && Simple(user) && s1 == store - PrincipalRecords(user, ids)
    requires if iam then ListsPrincipals(Sorted(UserPrincipalKeys(store, user)), user, ids, |UserPrincipalKeys(store, user)|) else ids == []
    ensures CredentialsRemoved(s1, CredentialKeys(s1, user)) - {UserPath(user)} == Without(store, user, iam)
  {
    CredentialsApart(store, user, ids);
    forall k | k in store
      ensures OwnedBy(store, k, user, iam) <==> Gone(store, k, user, ids)
    {
      OwnedIsGone(store, user, ids, iam, k);
    }
  }

  lemma UserRemains(store: Records, user: string, ids: seq<string>)
    requires UserPath(user) in store
    ensures UserPath(user) in store - PrincipalRecords(user, ids)
    ensures UserPath(user) in CredentialsRemoved(store, CredentialKeys(store, user))
    ensures CredentialKeys(CredentialsRemoved(store, CredentialKeys(store, user)), user) == {}
  {
    forall x: string
      ensures UserPath(user) != UserExternalPrincipalPath(user, x) && UserPath(user) != ExternalPrincipalPath(x)
    {
      KindsDiffer(user, "", user, x);
    }
    forall ak: string
      ensures UserPath(user) != CredentialsIndexPath(ak)
    {
      KindsDiffer(user, "", user, ak);
    }
  }

  lemma AllPrincipals(store: Records, user: string) returns (ids: seq<string>)
    requires StoreOk(store) && Simple(user)
    ensures ListsPrincipals(Sorted(UserPrincipalKeys(store, user)), user, ids, |UserPrincipalKeys(store, user)|)
  {
    var keys := UserPrincipalKeys(store, user);
    AllPrincipalsUnder(store, user);
    ListingStarts(store, user, "");
    var rest := keys;
    ids := [];
    while rest != {}
      invariant ListedSoFar(store, user, Sorted(keys), ids, rest)
      decreases |rest|
    {
      var id := ListOne(store, user, Sorted(keys), ids, rest);
      ids := ids + [id];
      rest := rest - {Least(rest)};
    }
    ListingEndsAt(store, user, Sorted(keys), ids, rest, 0);
  }

  lemma OnePrincipalGone(store: Records, user: string, ids: seq<string>, j: nat)
    requires j < |ids| && Remains(store, user, ids, j) && StoreOk(store - PrincipalRecords(user, ids[..j]))
    ensures StoreOk(store - PrincipalRecords(user, ids[..j + 1]))
  {
    NextPrincipal(store, user, ids, j);
    RemovePrincipalKeepsOk(store - PrincipalRecords(user, ids[..j]), user, ids[j]);
  }

  lemma {:induction false} PrincipalsGoneOk(store: Records, user: string, ids: seq<string>, j: nat)
    requires StoreOk(store) && j <= |ids|
    requires forall i :: 0 <= i < |ids| ==> Remains(store, user, ids, i)
    ensures StoreOk(store - PrincipalRecords(user, ids[..j]))
  {
    if j == 0 {
      assert store - PrincipalRecords(user, []) == store;
    } else {
      PrincipalsGoneOk(store, user, ids, j - 1);
      OnePrincipalGone(store, user, ids, j - 1);
    }
  }

  /** What is left after a user is deleted is in order. */
  lemma DeleteUserKeepsOk(store: Records, user: string, iam: bool)
    requires StoreOk(store) && UserExists(store, user)
    ensures StoreOk(Without(store, user, iam))
  {
    KeyedAt(store, UserPath(user));
    AtUserPath(user, store[UserPath(user)]);
    var ids: seq<string> := [];
    if iam {
      ids := AllPrincipals(store, user);
      forall i: nat | i < |ids|
        ensures Remains(store, user, ids, i)
      {
        PrincipalRemains(store, user, ids, i);
      }
      PrincipalsGoneOk(store, user, ids, |ids|);
      assert ids[..|ids|] == ids;
    }
    assert PrincipalRecords(user, []) == {} && store - {} == store;
    var s1 := store - PrincipalRecords(user, ids);
    DeletedIsWithout(store, user, ids, iam, s1);
    UserRemains(store, user, ids);
    UserRemains(s1, user, ids);
    RemoveCredentialsKeepsOk(s1, user);
    RemoveUserKeepsOk(CredentialsRemoved(s1, CredentialKeys(s1, user)), user);
  }

  lemma Withdrawn(store: Records, k: string, v: Value)
    requires k !in store
    ensures store[k := v] - {k} == store
  {}

  class BasicAuthService {
    var store: Records
    const legacy: Records
    const iamAuthEnabled: bool

    ghost predicate Valid()
      reads this
    {
      StoreOk(store)
    }

    constructor (legacy: Records, iamAuthEnabled: bool)
      ensures Valid() && store == map[] && this.legacy == legacy && this.iamAuthEnabled == iamAuthEnabled
    {
      this.store, this.legacy, this.iamAuthEnabled := map[], legacy, iamAuthEnabled;
      new;
      EmptyStoreOk();
    }

    method GetUser(username: string) returns (r: Result<string>)
      requires Valid()
      ensures r == if UserExists(store, username) then Ok(username) else Err(NotFound)
      ensures r.Ok? ==> ValidEntityID(username)
    {
      if UserPath(username) !in store {
        return Err(NotFound);
      }
      KeyedAt(store, UserPath(username));
      AtUserPath(username, store[UserPath(username)]);
      match store[UserPath(username)] {
        case UserV(name) => r := Ok(name);
      }
    }

    method CreateUser(username: string) returns (r: Result<string>)
      requires Valid()
      modifies this
      ensures Valid()
      ensures r == if !ValidEntityID(username) then Err(InvalidName)
        else if UserExists(old(store), username) then Err(AlreadyExists) else Ok(username)
      ensures store == if r.Ok? then old(store)[UserPath(username) := UserV(username)] else old(store)
      ensures store == Performed(old(store), legacy, iamAuthEnabled, CreateUserOp(username))
    {
      if username == "" || DELIMITER in username {
        return Err(InvalidName);
      }
      if UserPath(username) in store {
        return Err(AlreadyExists);
      }
      CreateUserKeepsOk(store, username);
      store := store[UserPath(username) := UserV(username)];
      r := Ok(username);
    }

    /** A key is found exactly when some user has it, and what is found is that credential. */
    method GetCredentials(accessKeyID: string) returns (r: Result<Value>)
      requires Valid()
      ensures r.Ok? ==> r.value.CredV? && r.value.accessKeyID == accessKeyID && HasCredential(store, r.value.userID, accessKeyID)
      ensures r.Ok? ==> store[CredentialPath(r.value.userID, accessKeyID)] == r.value
      ensures r.Err? ==> r.error == NotFound && forall u: string :: !HasCredential(store, u, accessKeyID)
      ensures r == match Lookup(store, accessKeyID) case Some(c) => Ok(c) case None => Err(NotFound)
    {
      forall u: string | HasCredential(store, u, accessKeyID)
        ensures CredentialsIndexPath(accessKeyID) in store && store[CredentialsIndexPath(accessKeyID)] == IndexV(CredentialPath(u, accessKeyID))
      {
        IndexIffPrimary(store, accessKeyID, u);
      }
      var indexPath := CredentialsIndexPath(accessKeyID);
      if indexPath !in store {
        return Err(NotFound);
      }
      KeyedAt(store, indexPath);
      var user := AtIndexPath(accessKeyID, store[indexPath]);
      var primaryKey := store[indexPath].primaryKey;
      if primaryKey !in store {
        return Err(NotFound);
      }
      KeyedAt(store, primaryKey);
      AtCredentialPath(user, accessKeyID, store[primaryKey]);
      r := Ok(store[primaryKey]);
    }

    /** AddCredentials: a refusal, of whatever kind, leaves the store as it was. */
    method AddCredentials(username: string, accessKeyID: string, secret: string) returns (r: Result<Value>)
      requires Valid()
      modifies this
      ensures Valid()
      ensures r == AddOutcome(old(store), legacy, username, accessKeyID, secret)
      ensures forall c :: r == Ok(c) <==> Adds(old(store), legacy, username, accessKeyID, secret, c)
      ensures r.Ok? ==> Lookup(store, r.value.accessKeyID) == Some(r.value)
      ensures UserPath(username) !in old(store) ==> r == Err(NotFound)
      ensures UserPath(username) in old(store) && |CredentialKeys(old(store), username)| >= 10 ==> r == Err(InvalidRequest)
      ensures UserPath(username) in old(store) && |CredentialKeys(old(store), username)| < 10 && r.Err? && !IsImport(accessKeyID, secret) ==>
        r == Err(AlreadyExists)
      ensures store == if r.Ok? then Added(old(store), username, r.value.accessKeyID, r.value.secret) else old(store)
      ensures store == Performed(old(store), legacy, iamAuthEnabled, AddCredentialsOp(username, accessKeyID, secret))
    {
      var user := GetUser(username);
      if user.Err? {
        return Err(user.error);
      }
      OwnCredentialsAreFine(store, username);
      var currCreds := ListUserCredentials(store, username, "");
      if currCreds.Err? {
        return Err(BadRecord);
      }
      if |currCreds.value| >= MAX_CREDENTIALS_PER_USER {
        return Err(InvalidRequest);
      }
      forall c
        ensures AddOutcome(store, legacy, username, accessKeyID, secret) == Ok(c) <==> Adds(store, legacy, username, accessKeyID, secret, c)
      {
        AddsIff(store, legacy, username, accessKeyID, secret, c);
      }
      ghost var before := store;
      if accessKeyID != "" && secret == "" {
        r := ImportUserCredentials(username, accessKeyID);
      } else {
        r := StoreCredential(username, accessKeyID, secret);
      }
      if r.Ok? {
        AddedIsFound(before, username, r.value.accessKeyID, r.value.secret);
      }
    }

    /** importUserCredentials: the credential comes from the previous service's records. */
    method ImportUserCredentials(username: string, accessKeyID: string) returns (r: Result<Value>)
      requires Valid() && UserExists(store, username) && |CredentialKeys(store, username)| < MAX_CREDENTIALS_PER_USER
      modifies this
      ensures Valid()
      ensures r == StoreOutcome(old(store), username, Imported(legacy, username, accessKeyID))
      ensures store == if r.Ok? then Added(old(store), username, r.value.accessKeyID, r.value.secret) else old(store)
    {
      var creds := ListUserCredentials(legacy, username, accessKeyID);
      if creds.Err? {
        return Err(creds.error);
      }
      if |creds.value| == 0 {
        return Err(NotFound);
      }
      if |creds.value| > 1 {
        return Err(InvalidRequest);
      }
      r := StoreCredential(username, creds.value[0].accessKeyID, creds.value[0].secret);
    }

    /** addCredentials: the credential, then its index entry; when the entry is taken the
        credential is withdrawn again. */
    method StoreCredential(username: string, accessKeyID: string, secret: string) returns (r: Result<Value>)
      requires Valid() && UserExists(store, username) && |CredentialKeys(store, username)| < MAX_CREDENTIALS_PER_USER
      modifies this
      ensures Valid()
      ensures r == if CanAdd(old(store), username, accessKeyID) then Ok(CredV(username, accessKeyID, secret)) else Err(AlreadyExists)
      ensures store == if r.Ok? then Added(old(store), username, accessKeyID, secret) else old(store)
    {
      KindsDiffer(username, accessKeyID, username, accessKeyID);
      var c := CredV(username, accessKeyID, secret);
      var credentialsKey := CredentialPath(username, accessKeyID);
      if credentialsKey in store {
        return Err(AlreadyExists);
      }
      store := store[credentialsKey := c];
      var indexPath := CredentialsIndexPath(accessKeyID);
      if indexPath in store {
        store := store - {credentialsKey};
        Withdrawn(old(store), credentialsKey, c);
        return Err(AlreadyExists);
      }
      store := store[indexPath := IndexV(credentialsKey)];
      AddKeepsOk(old(store), username, accessKeyID, secret);
      r := Ok(c);
    }

    /** deleteUserCredentials: every credential of the user, with the index entry of its key;
        a credential of the empty key leaves its index entry behind. */
    method DeleteUserCredentials(username: string)
      requires Valid() && Simple(username)
      modifies this
      ensures Valid()
      ensures store == CredentialsRemoved(old(store), CredentialKeys(old(store), username))
    {
      ghost var s0, gone: set<string> := store, {};
      var prefix := CredentialPath(username, "");
      var start := prefix;
      DeletingStarts(s0, username);
      while true
        invariant Deleting(store, s0, username, gone, start) && !Less(start, prefix)
        decreases |CredentialKeys(s0, username) - gone|
      {
        var next := ScanNext(store, prefix, start);
        if next.None? {
          break;
        }
        DeleteOne(store, s0, username, gone, start, next.value);
        DeleteCredential(next.value);
        gone := gone + {next.value};
        start := Successor(next.value);
      }
      DeletingEnds(store, s0, username, gone, start);
      RemoveCredentialsKeepsOk(s0, username);
    }

    /** The body of the loop: the index entry of a non-empty key, then the credential. */
    method DeleteCredential(k: string)
      requires k in store && store[k].CredV?
      modifies this
      ensures store == old(store) - IndexOfOne(old(store)[k]) - {k}
    {
      var accessKeyID := store[k].accessKeyID;
      if accessKeyID != "" {
        store := store - {CredentialsIndexPath(accessKeyID)};
      }
      store := store - {k};
    }

    method GetExternalPrincipal(id: string) returns (r: Result<Value>)
      requires Valid()
      ensures r == if !iamAuthEnabled then Err(NotImplemented)
        else if ExternalPrincipalPath(id) in store then Ok(store[ExternalPrincipalPath(id)]) else Err(NotFound)
      ensures r.Ok? ==> r.value.PrincipalV? && r.value.id == id && Simple(r.value.userID)
    {
      if !iamAuthEnabled {
        return Err(NotImplemented);
      }
      if ExternalPrincipalPath(id) !in store {
        return Err(NotFound);
      }
      KeyedAt(store, ExternalPrincipalPath(id));
      AtPrincipalPath(id, store[ExternalPrincipalPath(id)]);
      r := Ok(store[ExternalPrincipalPath(id)]);
    }

    method CreateUserExternalPrincipal(username: string, id: string) returns (r: Option<AuthError>)
      requires Valid()
      modifies this
      ensures Valid()
      ensures r == if !iamAuthEnabled then Some(NotImplemented)
        else if !UserExists(old(store), username) then Some(NotFound)
        else if ExternalPrincipalPath(id) in old(store) then Some(AlreadyExists) else None
      ensures store == if r.None? then PrincipalAdded(old(store), username, id) else old(store)
      ensures store == Performed(old(store), legacy, iamAuthEnabled, CreatePrincipalOp(username, id))
    {
      if !iamAuthEnabled {
        return Some(NotImplemented);
      }
      var user := GetUser(username);
      if user.Err? {
        return Some(user.error);
      }
      var existing := GetExternalPrincipal(id);
      if existing.Ok? {
        return Some(AlreadyExists);
      }
      AddPrincipalKeepsOk(store, username, id);
      var principalPath := ExternalPrincipalPath(id);
      store := store[principalPath := PrincipalV(id, username)];
      KindsDiffer("", id, username, id);
      // The user's entry is never there without the principal, so this second conditional
      // write cannot fail and nothing has to be withdrawn.
      assert UserExternalPrincipalPath(username, id) !in store;
      store := store[UserExternalPrincipalPath(username, id) := IndexV(principalPath)];
      r := None;
    }

    method DeleteUserExternalPrincipal(username: string, id: string) returns (r: Option<AuthError>)
      requires Valid()
      modifies this
      ensures Valid()
      ensures r == if !iamAuthEnabled then Some(NotImplemented)
        else if ExternalPrincipalPath(id) in old(store) && old(store)[ExternalPrincipalPath(id)] == PrincipalV(id, username) then None
        else Some(NotFound)
      ensures store == if r.None? then PrincipalRemoved(old(store), username, id) else old(store)
      ensures store == Performed(old(store), legacy, iamAuthEnabled, DeletePrincipalOp(username, id))
    {
      var ep := GetExternalPrincipal(id);
      if ep.Err? {
        return Some(ep.error);
      }
      if ep.value.userID != username {
        return Some(NotFound);
      }
      RemovePrincipalKeepsOk(store, username, id);
      store := store - {UserExternalPrincipalPath(username, id)};
      store := store - {ExternalPrincipalPath(id)};
      RemovedBoth(old(store), UserExternalPrincipalPath(username, id), ExternalPrincipalPath(id));
      r := None;
    }

    /** The first principals of a user after a position, in key order, or all of them for a
        non-positive amount, and the token of the next page. */
    method ListUserExternalPrincipals(username: string, amount: int, after: string) returns (r: Result<seq<string>>, nextPageToken: string)
      requires Valid()
      ensures r.Err? <==> !iamAuthEnabled || !UserExists(store, username)
      ensures r.Err? ==> r.error == if !iamAuthEnabled then NotImplemented else NotFound
      ensures r.Ok? ==> var ks := Sorted(PrincipalsPast(store, username, after));
        ListsPrincipals(ks, username, r.value, if 0 < amount < |ks| then amount else |ks|)
      ensures nextPageToken == if r.Ok? && 0 < amount <= |r.value| then r.value[|r.value| - 1] else ""
      ensures r.Ok? ==>
        PageOf(username, Sorted(PrincipalsPast(store, username, after)), amount) == PrincipalPage(r.value, nextPageToken)
    {
      nextPageToken := "";
      if !iamAuthEnabled {
        r := Err(NotImplemented);
        return;
      }
      var user := GetUser(username);
      if user.Err? {
        r := Err(user.error);
        return;
      }
      var ids := ReadPrincipals(store, username, amount, after);
      if amount > 0 && |ids| >= amount {
        nextPageToken := ids[|ids| - 1];
      }
      ListedIsPage(username, Sorted(PrincipalsPast(store, username, after)), ids, amount);
      r := Ok(ids);
    }

    /** The first loop of DeleteUser. */
    method DeleteUserExternalPrincipals(username: string) returns (ghost ids: seq<string>)
      requires Valid() && UserExists(store, username) && iamAuthEnabled
      modifies this
      ensures Valid() && Simple(username)
      ensures ListsPrincipals(Sorted(UserPrincipalKeys(old(store), username)), username, ids, |UserPrincipalKeys(old(store), username)|)
      ensures store == old(store) - PrincipalRecords(username, ids)
    {
      ghost var s0 := store;
      KeyedAt(store, UserPath(username));
      AtUserPath(username, store[UserPath(username)]);
      AllPrincipalsUnder(store, username);
      var principals, _ := ListUserExternalPrincipals(username, -1, "");
      ids := principals.value;
      assert ids[..0] == [] && store == s0 - PrincipalRecords(username, []);
      for j := 0 to |principals.value|
        invariant Valid() && store == s0 - PrincipalRecords(username, ids[..j])
      {
        PrincipalRemains(s0, username, ids, j);
        NextPrincipal(s0, username, ids, j);
        var failed := DeleteUserExternalPrincipal(username, principals.value[j]);
      }
      assert ids[..|ids|] == ids;
    }

    /** DeleteUser removes exactly the records of the user. */
    method DeleteUser(username: string) returns (r: Option<AuthError>)
      requires Valid()
      modifies this
      ensures Valid()
      ensures r == if UserExists(old(store), username) then None else Some(NotFound)
      ensures store == if r.None? then Without(old(store), username, iamAuthEnabled) else old(store)
      ensures store == Performed(old(store), legacy, iamAuthEnabled, DeleteUserOp(username))
    {
      var user := GetUser(username);
      if user.Err? {
        return Some(user.error);
      }
      ghost var s0, ids: seq<string> := store, [];
      assert store == s0 - PrincipalRecords(username, []);
      if iamAuthEnabled {
        ids := DeleteUserExternalPrincipals(username);
      }
      ghost var s1 := store;
      DeletedIsWithout(s0, username, ids, iamAuthEnabled, s1);
      UserRemains(s0, username, ids);
      UserRemains(s1, username, ids);
      DeleteUserCredentials(username);
      RemoveUserKeepsOk(store, username);
      store := store - {UserPath(username)};
      r := None;
    }
  }

  // ----- every sequence of operations -----

  datatype Operation =
    | CreateUserOp(user: string)
    | DeleteUserOp(user: string)
    | AddCredentialsOp(user: string, ak: string, secret: string)
    | CreatePrincipalOp(user: string, id: string)
    | DeletePrincipalOp(user: string, id: string)

  /** The store after an operation, as the methods above leave it. */
  ghost function Performed(store: Records, legacy: Records, iam: bool, op: Operation): Records {
    match op
    case CreateUserOp(u) =>
      if ValidEntityID(u) && !UserExists(store, u) then store[UserPath(u) := UserV(u)] else store
    case DeleteUserOp(u) =>
      if UserExists(store, u) then Without(store, u, iam) else store
    case AddCredentialsOp(u, ak, secret) => (
      match AddOutcome(store, legacy, u, ak, secret)
      case Ok(c) => if c.CredV? then Added(store, u, c.accessKeyID, c.secret) else store
      case Err(_) => store)
    case CreatePrincipalOp(u, id) =>
      if iam && UserExists(store, u) && ExternalPrincipalPath(id) !in store then PrincipalAdded(store, u, id) else store
    case DeletePrincipalOp(u, id) =>
      if iam && ExternalPrincipalPath(id) in store && store[ExternalPrincipalPath(id)] == PrincipalV(id, u)
      then PrincipalRemoved(store, u, id) else store
  }

  ghost function PerformedAll(legacy: Records, iam: bool, ops: seq<Operation>): Records {
    if ops == [] then map[]
    else Performed(PerformedAll(legacy, iam, ops[..|ops| - 1]), legacy, iam, ops[|ops| - 1])
  }

  lemma PerformedKeepsOk(store: Records, legacy: Records, iam: bool, op: Operation)
    requires StoreOk(store)
    ensures StoreOk(Performed(store, legacy, iam, op))
  {
    match op
    case CreateUserOp(u) =>
      if ValidEntityID(u) && !UserExists(store, u) {
        CreateUserKeepsOk(store, u);
      }
    case DeleteUserOp(u) =>
      if UserExists(store, u) {
        DeleteUserKeepsOk(store, u, iam);
      }
    case AddCredentialsOp(u, ak, secret) =>
      if AddOutcome(store, legacy, u, ak, secret).Ok? {
        var c := Requested(store, legacy, u, ak, secret).value;
        AddKeepsOk(store, u, c.accessKeyID, c.secret);
      }
    case CreatePrincipalOp(u, id) =>
      if iam && UserExists(store, u) && ExternalPrincipalPath(id) !in store {
        AddPrincipalKeepsOk(store, u, id);
      }
    case DeletePrincipalOp(u, id) =>
      if iam && ExternalPrincipalPath(id) in store && store[ExternalPrincipalPath(id)] == PrincipalV(id, u) {
        RemovePrincipalKeepsOk(store, u, id);
      }
  }

  lemma {:induction false} AlwaysOk(legacy: Records, iam: bool, ops: seq<Operation>)
    ensures StoreOk(PerformedAll(legacy, iam, ops))
  {
    if ops == [] {
      EmptyStoreOk();
    } else {
      AlwaysOk(legacy, iam, ops[..|ops| - 1]);
      PerformedKeepsOk(PerformedAll(legacy, iam, ops[..|ops| - 1]), legacy, iam, ops[|ops| - 1]);
    }
  }

  /** After any operations: the index entry of a non-empty key points at a user's credential
      exactly when the user has it, so no two users share a key, and no user has too many. */
  lemma IndexAgreesAlways(legacy: Records, iam: bool, ops: seq<Operation>, ak: string, u: string, v: string)
    requires ak != "" && Simple(u) && Simple(v)
    ensures var store := PerformedAll(legacy, iam, ops);
      && (HasCredential(store, u, ak) <==>
            CredentialsIndexPath(ak) in store && store[CredentialsIndexPath(ak)] == IndexV(CredentialPath(u, ak)))
      && (HasCredential(store, u, ak) && HasCredential(store, v, ak) ==> u == v)
      && |CredentialKeys(store, u)| <= MAX_CREDENTIALS_PER_USER
  {
    AlwaysOk(legacy, iam, ops);
    var store := PerformedAll(legacy, iam, ops);
    IndexIffPrimary(store, ak, u);
    if HasCredential(store, u, ak) && HasCredential(store, v, ak) {
      KeyHasOneUser(store, ak, u, v);
    }
    Parts(store);
  }

  // ----- the empty access key -----

  /** An index entry that points at nothing. */
  predicate Dangling(store: Records, ak: string) {
    !Backed(store, ak)
  }

  /** Deleting a user leaves a dangling index entry exactly when there was one already or the
      user had a credential of the empty key; it can only be that of the empty key. */
  lemma DanglingIffEmptyKey(store: Records, user: string, iam: bool, ak: string)
    requires StoreOk(store) && UserExists(store, user)
    ensures Dangling(Without(store, user, iam), ak) <==> ak == "" && (Dangling(store, "") || HasCredential(store, user, ""))
  {
    KeyedAt(store, UserPath(user));
    AtUserPath(user, store[UserPath(user)]);
    var next, i := Without(store, user, iam), CredentialsIndexPath("");
    DeleteUserKeepsOk(store, user, iam);
    Parts(next);
    assert ak != "" ==> Backed(next, ak);
    EmptyIndexStays(store, user, iam);
    if i in store {
      KeyedAt(store, i);
      var u := AtIndexPath("", store[i]);
      EmptyKeyPrimary(store, user, iam, u);
    } else if HasCredential(store, user, "") {
      IndexIffPrimary(store, "", user);
    }
  }

  lemma EmptyIndexStays(store: Records, user: string, iam: bool)
    requires StoreOk(store)
    ensures var i := CredentialsIndexPath("");
      (i in Without(store, user, iam) <==> i in store) && (i in store ==> Without(store, user, iam)[i] == store[i])
  {
    var i := CredentialsIndexPath("");
    if i in store {
      KeyedAt(store, i);
      var u := AtIndexPath("", store[i]);
      KindsDiffer(user, "", "", "");
      forall ak: string | IndexesCredential(i, store[i].primaryKey, user, ak)
        ensures ak == ""
      {
        SingleIsInjective(CREDENTIALS_INDEX_PREFIX, ak, "");
      }
      forall id: string
        ensures !IndexesPrincipal(i, store[i].primaryKey, user, id)
      {
        KindsDiffer("", "", user, id);
      }
    }
  }

  lemma EmptyKeyPrimary(store: Records, user: string, iam: bool, u: string)
    requires StoreOk(store) && Simple(user) && Simple(u)
    ensures CredentialPath(u, "") in Without(store, user, iam) <==> CredentialPath(u, "") in store && u != user
    ensures HasCredential(store, user, "") && CredentialsIndexPath("") in store && store[CredentialsIndexPath("")] == IndexV(CredentialPath(u, "")) ==> u == user
  {
    var c := CredentialPath(u, "");
    if c in store {
      KeyedAt(store, c);
      AtCredentialPath(u, "", store[c]);
      KindsDiffer(user, "", u, "");
    }
    if HasCredential(store, user, "") {
      IndexIffPrimary(store, "", user);
      if IndexV(CredentialPath(u, "")) == IndexV(CredentialPath(user, "")) {
        CredentialPathIsInjective(u, "", user, "");
      }
    }
  }

  /** A dangling entry blocks its key: nobody can add a credential of that key again. */
  lemma DanglingBlocksKey(store: Records, legacy: Records, user: string, secret: string)
    requires StoreOk(store) && Dangling(store, "")
    ensures AddOutcome(store, legacy, user, "", secret).Err?
    ensures forall u: string :: !HasCredential(store, u, "")
  {
    var i := CredentialsIndexPath("");
    KeyedAt(store, i);
    var owner := AtIndexPath("", store[i]);
    forall u: string | HasCredential(store, u, "")
      ensures false
    {
      IndexIffPrimary(store, "", u);
    }
  }

  /** It happens: create a user, give it a credential of the empty key, delete it. From then
      on the entry dangles, and a new user with room for credentials cannot have that key. */
  lemma DanglingIsReachable(legacy: Records, iam: bool, user: string, secret: string, other: string)
    requires ValidEntityID(user) && ValidEntityID(other)
    ensures var ops := [CreateUserOp(user), AddCredentialsOp(user, "", secret), DeleteUserOp(user)];
      && Dangling(PerformedAll(legacy, iam, ops), "")
      && AddOutcome(PerformedAll(legacy, iam, ops + [CreateUserOp(other)]), legacy, other, "", secret).Err?
  {
    var create, add, delete := CreateUserOp(user), AddCredentialsOp(user, "", secret), DeleteUserOp(user);
    var s2 := WithEmptyKey(legacy, iam, user, secret);
    assert [create, add, delete][..2] == [create, add];
    var s3 := PerformedAll(legacy, iam, [create, add, delete]);
    AlwaysOk(legacy, iam, [create, add]);
    DanglingIffEmptyKey(s2, user, iam, "");
    var ops := [create, add, delete] + [CreateUserOp(other)];
    assert ops[..|ops| - 1] == [create, add, delete];
    AlwaysOk(legacy, iam, ops);
    AlwaysOk(legacy, iam, [create, add, delete]);
    DanglingSurvives(s3, legacy, iam, other);
    DanglingBlocksKey(PerformedAll(legacy, iam, ops), legacy, other, secret);
  }

  lemma WithEmptyKey(legacy: Records, iam: bool, user: string, secret: string) returns (s2: Records)
    requires ValidEntityID(user)
    ensures s2 == PerformedAll(legacy, iam, [CreateUserOp(user), AddCredentialsOp(user, "", secret)])
    ensures UserExists(s2, user) && HasCredential(s2, user, "")
  {
    var create, add := CreateUserOp(user), AddCredentialsOp(user, "", secret);
    assert [create, add][..1] == [create] && [create][..0] == [];
    var s1 := PerformedAll(legacy, iam, [create]);
    assert PerformedAll(legacy, iam, []) == map[];
    assert s1 == Performed(map[], legacy, iam, create) == map[UserPath(user) := UserV(user)];
    KindsDiffer(user, "", user, "");
    if HasPrefix(UserPath(user), CredentialPath(user, "")) {
      UnderCredentialPath(user, "", UserPath(user), UserV(user));
    }
    assert CredentialKeys(s1, user) == {};
    s2 := PerformedAll(legacy, iam, [create, add]);
    assert s2 == Added(s1, user, "", secret);
  }

  lemma DanglingSurvives(store: Records, legacy: Records, iam: bool, other: string)
    requires StoreOk(store) && Dangling(store, "")
    ensures Dangling(Performed(store, legacy, iam, CreateUserOp(other)), "")
  {
    var i := CredentialsIndexPath("");
    KeyedAt(store, i);
    var owner := AtIndexPath("", store[i]);
    KindsDiffer(other, "", owner, "");
  }
}
