/** What holds of the store of users and credentials between operations, and why every
    operation keeps it. */
module AuthStore {
  import opened Kv
  import opened AuthKeys

  const MAX_CREDENTIALS_PER_USER := 10

  ghost predicate AllKeyed(store: Records) {
    forall k :: k in store ==> Keyed(k, store[k])
  }

  /** A credential's user exists, and the index entry of its key points at it. */
  ghost predicate CredentialsIndexed(store: Records) {
    forall k :: k in store && store[k].CredV? ==>
      && UserPath(store[k].userID) in store
      && CredentialsIndexPath(store[k].accessKeyID) in store
      && store[CredentialsIndexPath(store[k].accessKeyID)] == IndexV(k)
  }

  /** The index entry of a key points at something. */
  predicate Backed(store: Records, ak: string) {
    var i := CredentialsIndexPath(ak);
    i in store ==> store[i].IndexV? && store[i].primaryKey in store
  }

  ghost predicate IndexBacked(store: Records) {
    forall ak: string :: ak != "" ==> Backed(store, ak)
  }

  /** External principals and their index entries come in pairs. */
  ghost predicate PrincipalsPaired(store: Records) {
    && (forall k :: k in store && store[k].PrincipalV? ==> UserExternalPrincipalPath(store[k].userID, store[k].id) in store)
    && (forall u: string, id: string :: Simple(u) && UserExternalPrincipalPath(u, id) in store ==>
          ExternalPrincipalPath(id) in store && store[ExternalPrincipalPath(id)] == PrincipalV(id, u))
  }

  function CredentialKeys(store: Records, user: string): set<string> {
    set k | k in store && HasPrefix(k, CredentialPath(user, ""))
  }

  ghost predicate WithinLimit(store: Records) {
    forall u: string :: Simple(u) ==> |CredentialKeys(store, u)| <= MAX_CREDENTIALS_PER_USER
  }

  ghost predicate AllParts(store: Records) {
    AllKeyed(store) && CredentialsIndexed(store) && IndexBacked(store) && PrincipalsPaired(store) && WithinLimit(store)
  }

  datatype Part = Keys | Credentials | Index | Principals | Limit

  ghost predicate Holds(store: Records, part: Part) {
    match part
    case Keys => AllKeyed(store)
    case Credentials => CredentialsIndexed(store)
    case Index => IndexBacked(store)
    case Principals => PrincipalsPaired(store)
    case Limit => WithinLimit(store)
  }

  /** The invariant of the store. */
  ghost predicate StoreOk(store: Records) {
    forall part :: Holds(store, part)
  }

  lemma Parts(store: Records)
    ensures StoreOk(store) <==> AllParts(store)
  {
    if StoreOk(store) {
      assert Holds(store, Keys) && Holds(store, Credentials) && Holds(store, Index) && Holds(store, Principals) && Holds(store, Limit);
    }
  }

  lemma KeyedAt(store: Records, k: string)
    requires StoreOk(store) && k in store
    ensures Keyed(k, store[k])
  {
    Parts(store);
  }

  // ----- what follows -----

  /** For a non-empty key, the index entry points at a user's credential exactly when that
      credential exists; so a key has at most one user. */
  lemma IndexIffPrimary(store: Records, ak: string, user: string)
    requires StoreOk(store) && Simple(user)
    ensures CredentialPath(user, ak) in store ==>
      CredentialsIndexPath(ak) in store && store[CredentialsIndexPath(ak)] == IndexV(CredentialPath(user, ak))
    ensures ak != "" && CredentialsIndexPath(ak) in store && store[CredentialsIndexPath(ak)] == IndexV(CredentialPath(user, ak)) ==>
      CredentialPath(user, ak) in store
  {
    Parts(store);
    if CredentialPath(user, ak) in store {
      AtCredentialPath(user, ak, store[CredentialPath(user, ak)]);
    }
    assert ak != "" ==> Backed(store, ak);
  }

  lemma KeyHasOneUser(store: Records, ak: string, u: string, v: string)
    requires StoreOk(store) && Simple(u) && Simple(v)
    requires CredentialPath(u, ak) in store && CredentialPath(v, ak) in store
    ensures u == v
  {
    Parts(store);
    IndexIffPrimary(store, ak, u);
    IndexIffPrimary(store, ak, v);
    CredentialPathIsInjective(u, ak, v, ak);
  }

  lemma EmptyStoreOk()
    ensures StoreOk(map[])
  {
    var store: Records := map[];
    forall u: string
      ensures |CredentialKeys(store, u)| <= MAX_CREDENTIALS_PER_USER
    {
      assert CredentialKeys(store, u) == {};
    }
    Parts(store);
  }

  // ----- creating a user -----

  lemma CreateUserKeepsOk(store: Records, user: string)
    requires StoreOk(store) && Simple(user) && user != "" && UserPath(user) !in store
    ensures StoreOk(store[UserPath(user) := UserV(user)])
  {
    Parts(store);
    var k := UserPath(user);
    AddedFrame(store, k, UserV(user));
    forall u: string | Simple(u)
      ensures |CredentialKeys(store[k := UserV(user)], u)| <= MAX_CREDENTIALS_PER_USER
    {
      NotACredential(store, k, UserV(user), u);
    }
    Parts(store[k := UserV(user)]);
  }

  /** A new record that is neither a credential nor a principal nor their index disturbs none. */
  lemma AddedFrame(store: Records, k: string, v: Value)
    requires StoreOk(store) && k !in store && Keyed(k, v) && v.UserV?
    ensures var next := store[k := v];
      AllKeyed(next) && CredentialsIndexed(next) && IndexBacked(next) && PrincipalsPaired(next)
  {
    Parts(store);
    var next := store[k := v];
    forall ak: string | ak != ""
      ensures Backed(next, ak)
    {
      KindsDiffer(v.username, ak, "", ak);
      assert Backed(store, ak);
    }
    forall u: string, id: string | Simple(u) && UserExternalPrincipalPath(u, id) in next
      ensures ExternalPrincipalPath(id) in next && next[ExternalPrincipalPath(id)] == PrincipalV(id, u)
    {
      KindsDiffer(v.username, "", u, id);
    }
  }

  lemma NotACredential(store: Records, k: string, v: Value, user: string)
    requires Keyed(k, v) && Simple(user) && !(v.CredV? && v.userID == user)
    ensures CredentialKeys(store[k := v], user) <= CredentialKeys(store, user)
    ensures |CredentialKeys(store[k := v], user)| <= |CredentialKeys(store, user)|
  {
    if HasPrefix(k, CredentialPath(user, "")) {
      UnderCredentialPath(user, "", k, v);
    }
    Fewer(CredentialKeys(store[k := v], user), CredentialKeys(store, user));
  }

  lemma Fewer(a: set<string>, b: set<string>)
    requires a <= b
    ensures |a| <= |b|
  {
    assert b == a + (b - a);
  }

  // ----- adding a credential -----

  function Added(store: Records, user: string, ak: string, secret: string): Records {
    store[CredentialPath(user, ak) := CredV(user, ak, secret)][CredentialsIndexPath(ak) := IndexV(CredentialPath(user, ak))]
  }

  predicate CanAdd(store: Records, user: string, ak: string) {
    CredentialPath(user, ak) !in store && CredentialsIndexPath(ak) !in store
  }

  lemma AddedIndexes(store: Records, user: string, ak: string, secret: string)
    requires StoreOk(store) && Simple(user) && UserPath(user) in store && CanAdd(store, user, ak)
    ensures var next := Added(store, user, ak, secret); AllKeyed(next) && CredentialsIndexed(next) && IndexBacked(next)
  {
    Parts(store);
    var next := Added(store, user, ak, secret);
    KindsDiffer(user, ak, user, ak);
    assert IndexesCredential(CredentialsIndexPath(ak), CredentialPath(user, ak), user, ak);
    AddedCredentialsIndexed(store, user, ak, secret);
    forall x: string | x != ""
      ensures Backed(next, x)
    {
      AddedBacked(store, user, ak, secret, x);
    }
  }

  lemma AddedCredentialsIndexed(store: Records, user: string, ak: string, secret: string)
    requires StoreOk(store) && Simple(user) && UserPath(user) in store && CanAdd(store, user, ak)
    ensures CredentialsIndexed(Added(store, user, ak, secret))
  {
    Parts(store);
    var next, c := Added(store, user, ak, secret), CredentialPath(user, ak);
    KindsDiffer(user, ak, user, ak);
    forall k | k in next && next[k].CredV?
      ensures UserPath(next[k].userID) in next && CredentialsIndexPath(next[k].accessKeyID) in next
        && next[CredentialsIndexPath(next[k].accessKeyID)] == IndexV(k)
    {
      if k != c {
        KindsDiffer(user, ak, user, next[k].accessKeyID);
      }
    }
  }

  lemma AddedBacked(store: Records, user: string, ak: string, secret: string, x: string)
    requires StoreOk(store) && CanAdd(store, user, ak) && x != ""
    ensures Backed(Added(store, user, ak, secret), x)
  {
    Parts(store);
    KindsDiffer(user, ak, user, x);
    KindsDiffer(user, ak, user, ak);
    assert Backed(store, x);
  }

  lemma AddedPrincipals(store: Records, user: string, ak: string, secret: string)
    requires StoreOk(store) && Simple(user) && CanAdd(store, user, ak)
    ensures PrincipalsPaired(Added(store, user, ak, secret))
  {
    Parts(store);
    var next := Added(store, user, ak, secret);
    forall u: string, id: string | Simple(u) && UserExternalPrincipalPath(u, id) in next
      ensures ExternalPrincipalPath(id) in next && next[ExternalPrincipalPath(id)] == PrincipalV(id, u)
    {
      KindsDiffer(user, ak, u, id);
    }
  }

  lemma AddedWithinLimit(store: Records, user: string, ak: string, secret: string)
    requires StoreOk(store) && Simple(user) && |CredentialKeys(store, user)| < MAX_CREDENTIALS_PER_USER
    ensures WithinLimit(Added(store, user, ak, secret))
  {
    Parts(store);
    var c, i := CredentialPath(user, ak), CredentialsIndexPath(ak);
    var mid := store[c := CredV(user, ak, secret)];
    assert IndexesCredential(i, c, user, ak);
    forall u: string | Simple(u)
      ensures |CredentialKeys(Added(store, user, ak, secret), u)| <= MAX_CREDENTIALS_PER_USER
    {
      NotACredential(mid, i, IndexV(c), u);
      if u == user {
        assert CredentialKeys(mid, u) <= CredentialKeys(store, u) + {c};
        Fewer(CredentialKeys(mid, u), CredentialKeys(store, u) + {c});
      } else {
        NotACredential(store, c, CredV(user, ak, secret), u);
      }
    }
  }

  lemma AddKeepsOk(store: Records, user: string, ak: string, secret: string)
    requires StoreOk(store) && UserPath(user) in store && CanAdd(store, user, ak)
    requires |CredentialKeys(store, user)| < MAX_CREDENTIALS_PER_USER
    ensures StoreOk(Added(store, user, ak, secret))
  {
    Parts(store);
    AtUserPath(user, store[UserPath(user)]);
    AddedIndexes(store, user, ak, secret);
    AddedPrincipals(store, user, ak, secret);
    AddedWithinLimit(store, user, ak, secret);
    Parts(Added(store, user, ak, secret));
  }

  // ----- external principals -----

  function PrincipalAdded(store: Records, user: string, id: string): Records {
    store[ExternalPrincipalPath(id) := PrincipalV(id, user)][UserExternalPrincipalPath(user, id) := IndexV(ExternalPrincipalPath(id))]
  }

  lemma AddPrincipalKeepsOk(store: Records, user: string, id: string)
    requires StoreOk(store) && UserPath(user) in store && ExternalPrincipalPath(id) !in store
    ensures Simple(user) && UserExternalPrincipalPath(user, id) !in store
    ensures StoreOk(PrincipalAdded(store, user, id))
  {
    Parts(store);
    AtUserPath(user, store[UserPath(user)]);
    AddedPrincipalPairs(store, user, id);
    AddedPrincipalFrame(store, user, id);
    Parts(PrincipalAdded(store, user, id));
  }

  lemma AddedPrincipalPairs(store: Records, user: string, id: string)
    requires StoreOk(store) && Simple(user) && ExternalPrincipalPath(id) !in store
    ensures AllKeyed(PrincipalAdded(store, user, id)) && PrincipalsPaired(PrincipalAdded(store, user, id))
  {
    Parts(store);
    var p, q, next := ExternalPrincipalPath(id), UserExternalPrincipalPath(user, id), PrincipalAdded(store, user, id);
    KindsDiffer("", id, user, id);
    assert IndexesPrincipal(q, p, user, id);
    forall u: string, x: string | Simple(u) && UserExternalPrincipalPath(u, x) in next
      ensures ExternalPrincipalPath(x) in next && next[ExternalPrincipalPath(x)] == PrincipalV(x, u)
    {
      KindsDiffer("", id, u, x);
      KindsDiffer("", x, user, id);
      if UserExternalPrincipalPath(u, x) == q {
        UserPrincipalPathIsInjective(u, x, user, id);
      } else {
        assert ExternalPrincipalPath(x) in store;
      }
    }
  }

  lemma AddedPrincipalFrame(store: Records, user: string, id: string)
    requires StoreOk(store) && Simple(user) && ExternalPrincipalPath(id) !in store && UserExternalPrincipalPath(user, id) !in store
    ensures var next := PrincipalAdded(store, user, id); CredentialsIndexed(next) && IndexBacked(next) && WithinLimit(next)
  {
    Parts(store);
    var p, q, next := ExternalPrincipalPath(id), UserExternalPrincipalPath(user, id), PrincipalAdded(store, user, id);
    assert IndexesPrincipal(q, p, user, id);
    forall x: string | x != ""
      ensures Backed(next, x)
    {
      KindsDiffer("", x, user, id);
      assert Backed(store, x);
    }
    forall u: string | Simple(u)
      ensures |CredentialKeys(next, u)| <= MAX_CREDENTIALS_PER_USER
    {
      NotACredential(store, p, PrincipalV(id, user), u);
      NotACredential(store[p := PrincipalV(id, user)], q, IndexV(p), u);
    }
  }

  function PrincipalRemoved(store: Records, user: string, id: string): Records {
    store - {UserExternalPrincipalPath(user, id), ExternalPrincipalPath(id)}
  }

  lemma RemovePrincipalKeepsOk(store: Records, user: string, id: string)
    requires StoreOk(store) && ExternalPrincipalPath(id) in store && store[ExternalPrincipalPath(id)] == PrincipalV(id, user)
    ensures StoreOk(PrincipalRemoved(store, user, id))
  {
    Parts(store);
    AtPrincipalPath(id, store[ExternalPrincipalPath(id)]);
    RemovedPrincipalCredentials(store, user, id);
    RemovedPrincipalPairs(store, user, id);
    ShrinksWithinLimit(store, PrincipalRemoved(store, user, id));
    Parts(PrincipalRemoved(store, user, id));
  }

  lemma RemovedPrincipalCredentials(store: Records, user: string, id: string)
    requires StoreOk(store)
    ensures CredentialsIndexed(PrincipalRemoved(store, user, id)) && IndexBacked(PrincipalRemoved(store, user, id))
  {
    Parts(store);
    var next := PrincipalRemoved(store, user, id);
    forall k | k in next && next[k].CredV?
      ensures UserPath(next[k].userID) in next && CredentialsIndexPath(next[k].accessKeyID) in next
        && next[CredentialsIndexPath(next[k].accessKeyID)] == IndexV(k)
    {
      RemovedPrincipalLeaves(store, user, id, store[k].userID, store[k].accessKeyID);
    }
    forall x: string | x != ""
      ensures Backed(next, x)
    {
      RemovedPrincipalBacked(store, user, id, x);
    }
  }

  lemma RemovedPrincipalLeaves(store: Records, user: string, id: string, u: string, ak: string)
    ensures UserPath(u) in PrincipalRemoved(store, user, id) <==> UserPath(u) in store
    ensures CredentialsIndexPath(ak) in PrincipalRemoved(store, user, id) <==> CredentialsIndexPath(ak) in store
  {
    KindsDiffer(u, ak, user, id);
  }

  lemma RemovedPrincipalBacked(store: Records, user: string, id: string, x: string)
    requires StoreOk(store) && x != ""
    ensures Backed(PrincipalRemoved(store, user, id), x)
  {
    Parts(store);
    KindsDiffer("", x, user, id);
    assert Backed(store, x);
    if CredentialsIndexPath(x) in store {
      var u := AtIndexPath(x, store[CredentialsIndexPath(x)]);
      KindsDiffer(u, x, user, id);
    }
  }

  lemma RemovedPrincipalPairs(store: Records, user: string, id: string)
    requires StoreOk(store) && Simple(user) && ExternalPrincipalPath(id) in store && store[ExternalPrincipalPath(id)] == PrincipalV(id, user)
    ensures PrincipalsPaired(PrincipalRemoved(store, user, id))
  {
    Parts(store);
    var next := PrincipalRemoved(store, user, id);
    forall k | k in next && next[k].PrincipalV?
      ensures UserExternalPrincipalPath(next[k].userID, next[k].id) in next
    {
      PrincipalStays(store, user, id, k);
    }
    forall u: string, x: string | Simple(u) && UserExternalPrincipalPath(u, x) in next
      ensures ExternalPrincipalPath(x) in next && next[ExternalPrincipalPath(x)] == PrincipalV(x, u)
    {
      PrincipalIndexStays(store, user, id, u, x);
    }
  }

  lemma PrincipalStays(store: Records, user: string, id: string, k: string)
    requires StoreOk(store) && Simple(user)
    requires k in PrincipalRemoved(store, user, id) && store[k].PrincipalV?
    ensures UserExternalPrincipalPath(store[k].userID, store[k].id) in PrincipalRemoved(store, user, id)
  {
    Parts(store);
    var q := UserExternalPrincipalPath(store[k].userID, store[k].id);
    KindsDiffer("", id, store[k].userID, store[k].id);
    if q == UserExternalPrincipalPath(user, id) {
      UserPrincipalPathIsInjective(store[k].userID, store[k].id, user, id);
    }
  }

  lemma PrincipalIndexStays(store: Records, user: string, id: string, u: string, x: string)
    requires StoreOk(store) && Simple(user) && Simple(u)
    requires ExternalPrincipalPath(id) in store && store[ExternalPrincipalPath(id)] == PrincipalV(id, user)
    requires UserExternalPrincipalPath(u, x) in PrincipalRemoved(store, user, id)
    ensures var next := PrincipalRemoved(store, user, id);
      ExternalPrincipalPath(x) in next && next[ExternalPrincipalPath(x)] == PrincipalV(x, u)
  {
    Parts(store);
    var p := ExternalPrincipalPath(x);
    assert p in store && store[p] == PrincipalV(x, u);
    KindsDiffer("", x, user, id);
    if p == ExternalPrincipalPath(id) {
      SingleIsInjective(EXTERNAL_PRINCIPALS_PREFIX, x, id);
    }
  }

  lemma ShrinksWithinLimit(store: Records, next: Records)
    requires WithinLimit(store) && next.Keys <= store.Keys
    ensures WithinLimit(next)
  {
    forall u: string | Simple(u)
      ensures |CredentialKeys(next, u)| <= MAX_CREDENTIALS_PER_USER
    {
      Fewer(CredentialKeys(next, u), CredentialKeys(store, u));
    }
  }

  // ----- deleting a user -----

  /** The index entries of a set of credentials; those of empty keys are not among them. */
  function IndexesOf(store: Records, creds: set<string>): set<string> {
    set k | k in creds && k in store && store[k].CredV? && store[k].accessKeyID != "" :: CredentialsIndexPath(store[k].accessKeyID)
  }

  function CredentialsRemoved(store: Records, creds: set<string>): Records {
    store - (creds + IndexesOf(store, creds))
  }

  lemma RemoveCredentialsKeepsOk(store: Records, user: string)
    requires StoreOk(store) && Simple(user)
    ensures StoreOk(CredentialsRemoved(store, CredentialKeys(store, user)))
  {
    RemovedCredentialsParts(store, user);
    Parts(CredentialsRemoved(store, CredentialKeys(store, user)));
  }

  lemma RemovedCredentialsParts(store: Records, user: string)
    requires StoreOk(store) && Simple(user)
    ensures AllParts(CredentialsRemoved(store, CredentialKeys(store, user)))
  {
    Parts(store);
    var creds := CredentialKeys(store, user);
    var next := CredentialsRemoved(store, creds);
    forall k | k in next && next[k].CredV?
      ensures UserPath(next[k].userID) in next && CredentialsIndexPath(next[k].accessKeyID) in next
        && next[CredentialsIndexPath(next[k].accessKeyID)] == IndexV(k)
    {
      OtherCredentialStays(store, user, k);
    }
    forall x: string | x != ""
      ensures Backed(next, x)
    {
      RemovedCredentialsBacked(store, user, x);
    }
    RemovedCredentialsPairs(store, user);
    ShrinksWithinLimit(store, next);
  }

  lemma NotRemoved(store: Records, user: string, k: string)
    requires StoreOk(store) && Simple(user) && k in store && !store[k].CredV?
    ensures k !in CredentialKeys(store, user)
    ensures (forall ak: string :: k != CredentialsIndexPath(ak)) ==> k in CredentialsRemoved(store, CredentialKeys(store, user))
  {
    Parts(store);
    if HasPrefix(k, CredentialPath(user, "")) {
      UnderCredentialPath(user, "", k, store[k]);
    }
  }

  lemma OtherCredentialStays(store: Records, user: string, k: string)
    requires StoreOk(store) && Simple(user)
    requires k in CredentialsRemoved(store, CredentialKeys(store, user)) && store[k].CredV?
    ensures var next := CredentialsRemoved(store, CredentialKeys(store, user));
      && UserPath(store[k].userID) in next && CredentialsIndexPath(store[k].accessKeyID) in next
  {
    Parts(store);
    var creds := CredentialKeys(store, user);
    var up, i := UserPath(store[k].userID), CredentialsIndexPath(store[k].accessKeyID);
    KindsAreApart(store[k].userID);
    var v := store[up];
    AtUserPath(store[k].userID, v);
    NotRemoved(store, user, up);
    var w := AtIndexPath(store[k].accessKeyID, store[i]);
    NotRemoved(store, user, i);
  }

  lemma KindsAreApart(user: string)
    ensures forall ak: string :: UserPath(user) != CredentialsIndexPath(ak)
    ensures forall id: string, ak: string :: ExternalPrincipalPath(id) != CredentialsIndexPath(ak)
    ensures forall u: string, id: string, ak: string :: UserExternalPrincipalPath(u, id) != CredentialsIndexPath(ak)
  {
    forall ak: string
      ensures UserPath(user) != CredentialsIndexPath(ak)
    {
      KindsDiffer(user, ak, "", ak);
    }
    forall id: string, ak: string
      ensures ExternalPrincipalPath(id) != CredentialsIndexPath(ak)
    {
      KindsDiffer("", ak, "", id);
    }
    forall u: string, id: string, ak: string
      ensures UserExternalPrincipalPath(u, id) != CredentialsIndexPath(ak)
    {
      KindsDiffer("", ak, u, id);
    }
  }

  lemma RemovedCredentialsBacked(store: Records, user: string, x: string)
    requires StoreOk(store) && Simple(user) && x != ""
    ensures Backed(CredentialsRemoved(store, CredentialKeys(store, user)), x)
  {
    Parts(store);
    var creds, i := CredentialKeys(store, user), CredentialsIndexPath(x);
    assert Backed(store, x);
    if i in CredentialsRemoved(store, creds) {
      var u := AtIndexPath(x, store[i]);
      var c := CredentialPath(u, x);
      AtCredentialPath(u, x, store[c]);
      assert c in creds ==> i in IndexesOf(store, creds);
      KindsDiffer(u, x, u, x);
      assert forall ak: string :: c != CredentialsIndexPath(ak) by {
        forall ak: string
          ensures c != CredentialsIndexPath(ak)
        {
          KindsDiffer(u, x, u, ak);
        }
      }
    }
  }

  lemma RemovedCredentialsPairs(store: Records, user: string)
    requires StoreOk(store) && Simple(user)
    ensures PrincipalsPaired(CredentialsRemoved(store, CredentialKeys(store, user)))
  {
    Parts(store);
    var next := CredentialsRemoved(store, CredentialKeys(store, user));
    KindsAreApart(user);
    forall k | k in next && next[k].PrincipalV?
      ensures UserExternalPrincipalPath(next[k].userID, next[k].id) in next
    {
      var q := UserExternalPrincipalPath(next[k].userID, next[k].id);
      AtUserPrincipalPath(next[k].userID, next[k].id, store[q]);
      NotRemoved(store, user, q);
    }
    forall u: string, id: string | Simple(u) && UserExternalPrincipalPath(u, id) in next
      ensures ExternalPrincipalPath(id) in next && next[ExternalPrincipalPath(id)] == PrincipalV(id, u)
    {
      NotRemoved(store, user, ExternalPrincipalPath(id));
    }
  }

  /** With its credentials gone, the user's own record can go. */
  lemma RemoveUserKeepsOk(store: Records, user: string)
    requires StoreOk(store) && UserPath(user) in store && CredentialKeys(store, user) == {}
    ensures StoreOk(store - {UserPath(user)})
  {
    RemovedUserParts(store, user);
    Parts(store - {UserPath(user)});
  }

  lemma RemovedUserParts(store: Records, user: string)
    requires StoreOk(store) && UserPath(user) in store && CredentialKeys(store, user) == {}
    ensures AllParts(store - {UserPath(user)})
  {
    Parts(store);
    var next := store - {UserPath(user)};
    AtUserPath(user, store[UserPath(user)]);
    forall k | k in next && next[k].CredV?
      ensures UserPath(next[k].userID) in next && CredentialsIndexPath(next[k].accessKeyID) in next
        && next[CredentialsIndexPath(next[k].accessKeyID)] == IndexV(k)
    {
      KindsDiffer(user, "", "", next[k].accessKeyID);
      if UserPath(next[k].userID) == UserPath(user) {
        SingleIsInjective(USERS_PREFIX, next[k].userID, user);
        CredentialHasPrefix(user, next[k].accessKeyID);
      }
    }
    forall x: string | x != ""
      ensures Backed(next, x)
    {
      assert Backed(store, x);
      if CredentialsIndexPath(x) in store {
        var u := AtIndexPath(x, store[CredentialsIndexPath(x)]);
        KindsDiffer(user, x, u, x);
      }
    }
    forall k | k in next && next[k].PrincipalV?
      ensures UserExternalPrincipalPath(next[k].userID, next[k].id) in next
    {
      KindsDiffer(user, "", next[k].userID, next[k].id);
    }
    forall u: string, id: string | Simple(u) && UserExternalPrincipalPath(u, id) in next
      ensures ExternalPrincipalPath(id) in next && next[ExternalPrincipalPath(id)] == PrincipalV(id, u)
    {
      KindsDiffer(user, "", u, id);
    }
    ShrinksWithinLimit(store, next);
  }
}
