/** Which credential a key leads to after any operations: the one its last successful addition
    stored. */
module CredentialHistory {
  import opened Options
  import opened Kv
  import opened AuthKeys
  import opened AuthStore
  import opened Credentials

  /** The n-th operation adds this credential. */
  ghost predicate AddedAt(legacy: Records, iam: bool, ops: seq<Operation>, n: nat, c: Value) {
    && n < |ops| && ops[n].AddCredentialsOp?
    && Adds(PerformedAll(legacy, iam, ops[..n]), legacy, ops[n].user, ops[n].ak, ops[n].secret, c)
  }

  /** The n-th operation adds this credential, and no later one deletes its user. */
  ghost predicate AddedAndKept(legacy: Records, iam: bool, ops: seq<Operation>, n: nat, c: Value) {
    AddedAt(legacy, iam, ops, n, c) && c.CredV? && forall m :: n < m < |ops| ==> ops[m] != DeleteUserOp(c.userID)
  }

  /** The user has this credential. */
  predicate Holds(store: Records, c: Value) {
    c.CredV? && Simple(c.userID) && CredentialPath(c.userID, c.accessKeyID) in store && store[CredentialPath(c.userID, c.accessKeyID)] == c
  }

  lemma LookupIff(store: Records, ak: string, c: Value)
    requires StoreOk(store)
    ensures Lookup(store, ak) == Some(c) <==> Holds(store, c) && c.accessKeyID == ak
  {
    var i := CredentialsIndexPath(ak);
    if Lookup(store, ak) == Some(c) {
      KeyedAt(store, i);
      var user := AtIndexPath(ak, store[i]);
      KeyedAt(store, CredentialPath(user, ak));
      AtCredentialPath(user, ak, c);
    }
    if Holds(store, c) && c.accessKeyID == ak {
      IndexIffPrimary(store, ak, c.userID);
    }
  }

  lemma AddChanges(store: Records, user: string, x: Value, c: Value)
    requires StoreOk(store) && UserPath(user) in store && x.CredV? && x.userID == user && CanAdd(store, user, x.accessKeyID)
    ensures Holds(Added(store, user, x.accessKeyID, x.secret), c) <==> Holds(store, c) || c == x
  {
    KeyedAt(store, UserPath(user));
    AtUserPath(user, store[UserPath(user)]);
    if c.CredV? && Simple(c.userID) {
      KindsDiffer(user, x.accessKeyID, c.userID, c.accessKeyID);
      KindsDiffer(c.userID, c.accessKeyID, user, x.accessKeyID);
      if CredentialPath(c.userID, c.accessKeyID) == CredentialPath(user, x.accessKeyID) {
        CredentialPathIsInjective(c.userID, c.accessKeyID, user, x.accessKeyID);
      }
    }
  }

  lemma DeleteChanges(store: Records, user: string, iam: bool, c: Value)
    requires StoreOk(store)
    ensures Holds(Without(store, user, iam), c) <==> Holds(store, c) && c.userID != user
  {
    if Holds(store, c) {
      var k := CredentialPath(c.userID, c.accessKeyID);
      KindsDiffer(user, "", c.userID, c.accessKeyID);
    }
  }

  lemma OthersKeep(store: Records, legacy: Records, iam: bool, op: Operation, c: Value)
    requires StoreOk(store) && !op.AddCredentialsOp? && !op.DeleteUserOp?
    ensures Holds(Performed(store, legacy, iam, op), c) <==> Holds(store, c)
  {
    if c.CredV? {
      match op
      case CreateUserOp(u) => KindsDiffer(u, "", c.userID, c.accessKeyID);
      case CreatePrincipalOp(u, id) =>
        KindsDiffer(c.userID, c.accessKeyID, u, id);
        KindsDiffer(c.userID, c.accessKeyID, c.userID, id);
      case DeletePrincipalOp(u, id) =>
        KindsDiffer(c.userID, c.accessKeyID, u, id);
        KindsDiffer(c.userID, c.accessKeyID, c.userID, id);
    }
  }

  /** One operation: a credential is there afterwards if it was there before and its user has
      not been deleted, or if the operation has added it. */
  lemma OperationChanges(store: Records, legacy: Records, iam: bool, op: Operation, c: Value)
    requires StoreOk(store)
    ensures Holds(Performed(store, legacy, iam, op), c) <==>
      || (Holds(store, c) && op != DeleteUserOp(c.userID))
      || (op.AddCredentialsOp? && Adds(store, legacy, op.user, op.ak, op.secret, c))
  {
    match op
    case AddCredentialsOp(u, ak, secret) =>
      AddsIff(store, legacy, u, ak, secret, c);
      var r := AddOutcome(store, legacy, u, ak, secret);
      if r.Ok? {
        AddChanges(store, u, r.value, c);
      }
    case DeleteUserOp(u) =>
      if UserExists(store, u) {
        DeleteChanges(store, u, iam, c);
      } else if Holds(store, c) {
        Parts(store);
        assert store[CredentialPath(c.userID, c.accessKeyID)].CredV?;
      }
    case _ => OthersKeep(store, legacy, iam, op, c);
  }

  lemma SameEarlier(legacy: Records, iam: bool, ops: seq<Operation>, before: seq<Operation>, n: nat, c: Value)
    requires ops != [] && before == ops[..|ops| - 1] && n < |before|
    ensures AddedAt(legacy, iam, ops, n, c) == AddedAt(legacy, iam, before, n, c)
    ensures c.CredV? ==>
      (AddedAndKept(legacy, iam, ops, n, c) <==> AddedAndKept(legacy, iam, before, n, c) && ops[|before|] != DeleteUserOp(c.userID))
  {
    assert before[..n] == ops[..n];
  }

  ghost predicate AddedSometime(legacy: Records, iam: bool, ops: seq<Operation>, c: Value) {
    exists n: nat :: AddedAndKept(legacy, iam, ops, n, c)
  }

  lemma AddedLast(legacy: Records, iam: bool, ops: seq<Operation>, c: Value)
    requires ops != [] && c.CredV?
    ensures AddedAndKept(legacy, iam, ops, |ops| - 1, c) <==> AddedAt(legacy, iam, ops, |ops| - 1, c)
  {
  }

  lemma AddedEarlier(legacy: Records, iam: bool, ops: seq<Operation>, before: seq<Operation>, c: Value)
    requires ops != [] && before == ops[..|ops| - 1] && c.CredV?
    ensures AddedSometime(legacy, iam, ops, c) <==>
      || AddedAt(legacy, iam, ops, |before|, c)
      || (AddedSometime(legacy, iam, before, c) && ops[|before|] != DeleteUserOp(c.userID))
  {
    AddedLast(legacy, iam, ops, c);
    if n: nat :| AddedAndKept(legacy, iam, ops, n, c) {
      if n < |before| {
        SameEarlier(legacy, iam, ops, before, n, c);
      }
    }
    if n: nat :| AddedAndKept(legacy, iam, before, n, c) {
      SameEarlier(legacy, iam, ops, before, n, c);
    }
  }

  lemma {:induction false} HeldIffAdded(legacy: Records, iam: bool, ops: seq<Operation>, c: Value)
    requires c.CredV?
    ensures Holds(PerformedAll(legacy, iam, ops), c) <==> AddedSometime(legacy, iam, ops, c)
  {
    if ops != [] {
      var before := ops[..|ops| - 1];
      AlwaysOk(legacy, iam, before);
      HeldIffAdded(legacy, iam, before, c);
      OperationChanges(PerformedAll(legacy, iam, before), legacy, iam, ops[|before|], c);
      AddedEarlier(legacy, iam, ops, before, c);
    }
  }

  /** After any operations, a key leads to a credential, with its secret, if and only if some
      operation has added just that and no later one has deleted its user. */
  lemma FoundIffAdded(legacy: Records, iam: bool, ops: seq<Operation>, ak: string, c: Value)
    ensures Lookup(PerformedAll(legacy, iam, ops), ak) == Some(c) <==>
      c.CredV? && c.accessKeyID == ak && exists n: nat :: AddedAndKept(legacy, iam, ops, n, c)
  {
    AlwaysOk(legacy, iam, ops);
    LookupIff(PerformedAll(legacy, iam, ops), ak, c);
    if c.CredV? {
      HeldIffAdded(legacy, iam, ops, c);
    }
  }

  /** It is the last addition of the key that succeeded. */
  lemma NoLaterAddition(legacy: Records, iam: bool, ops: seq<Operation>, n: nat, m: nat, c: Value, d: Value)
    requires AddedAndKept(legacy, iam, ops, n, c) && AddedAt(legacy, iam, ops, m, d) && d.CredV? && c.accessKeyID == d.accessKeyID
    ensures m <= n
  {
    if n < m {
      var before := ops[..m];
      assert AddedAndKept(legacy, iam, before, n, c) by {
        assert before[..n] == ops[..n];
      }
      AlwaysOk(legacy, iam, before);
      HeldIffAdded(legacy, iam, before, c);
      IndexIffPrimary(PerformedAll(legacy, iam, before), c.accessKeyID, c.userID);
    }
  }
}
