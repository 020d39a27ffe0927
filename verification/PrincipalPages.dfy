/** What a client sees that follows the page tokens of a user's external principals. A token
    is the ID of a principal, but the next call compares it with whole keys. */
module PrincipalPages {
  import opened Options
  import opened Kv
  import opened AuthKeys
  import opened AuthStore
  import opened Credentials

  /** The user's keys in order; every page shows some of them. */
  function AllKeys(store: Records, user: string): seq<string> {
    Sorted(UserPrincipalKeys(store, user))
  }

  /** What ListUserExternalPrincipals answers, for an amount and a token. */
  ghost function Service(store: Records, user: string): (int, string) -> PrincipalPage {
    (amount: int, after: string) => PageOf(user, Sorted(PrincipalsPast(store, user, after)), amount)
  }

  /** Asking for page after page, each with any amount, until no token comes; None if the
      listing has not ended after that many pages. */
  ghost function FollowTokens(service: (int, string) -> PrincipalPage, amounts: nat -> int, i: nat, after: string, pages: nat): Option<seq<string>>
    decreases pages
  {
    if pages == 0 then None
    else
      var p := service(amounts(i), after);
      if p.nextPageToken == "" then Some(p.ids)
      else
        match FollowTokens(service, amounts, i + 1, p.nextPageToken, pages - 1)
        case None => None
        case Some(ids) => Some(p.ids + ids)
  }

  ghost function Followed(store: Records, user: string, amounts: nat -> int, pages: nat): Option<seq<string>> {
    FollowTokens(Service(store, user), amounts, 0, "", pages)
  }

  /** Following the tokens from the start ends, and these IDs were seen. */
  ghost predicate Ends(store: Records, user: string, amounts: nat -> int, ids: seq<string>) {
    exists pages :: Followed(store, user, amounts, pages) == Some(ids)
  }

  // ----- a token as a position -----

  /** How many of the keys, which are in order, a token passes over. */
  ghost function Position(ks: seq<string>, token: string): (c: nat)
    ensures c <= |ks|
  {
    if ks == [] || Less(token, ks[0]) then 0 else 1 + Position(ks[1..], token)
  }

  lemma {:induction false} PositionSplits(ks: seq<string>, token: string)
    requires InOrder(ks)
    ensures forall i :: 0 <= i < |ks| ==> (i < Position(ks, token) <==> !Less(token, ks[i]))
  {
    if ks != [] && !Less(token, ks[0]) {
      PositionSplits(ks[1..], token);
      forall i | 0 <= i < |ks|
        ensures i < Position(ks, token) <==> !Less(token, ks[i])
      {
        if i > 0 {
          assert ks[i] == ks[1..][i - 1];
        }
      }
    } else {
      forall i | 0 <= i < |ks|
        ensures Less(token, ks[i])
      {
        if i > 0 {
          LessIsTransitive(token, ks[0], ks[i]);
        }
      }
    }
  }

  lemma PositionIs(ks: seq<string>, token: string, c: nat)
    requires InOrder(ks) && c <= |ks|
    requires forall i :: 0 <= i < |ks| ==> (i < c <==> !Less(token, ks[i]))
    ensures Position(ks, token) == c
  {
    PositionSplits(ks, token);
    var q := Position(ks, token);
    assert q < |ks| ==> (q < c <==> !Less(token, ks[q]));
    assert c < |ks| ==> (c < q <==> !Less(token, ks[c]));
  }

  lemma PastInOrder(ks: seq<string>, past: set<string>, token: string)
    requires InOrder(ks) && forall k :: k in past <==> k in ks && Less(token, k)
    ensures Sorted(past) == ks[Position(ks, token)..]
  {
    PositionSplits(ks, token);
    var c := Position(ks, token);
    var rest := ks[c..];
    forall k
      ensures k in rest <==> k in past
    {
      if k in past {
        var i :| 0 <= i < |ks| && ks[i] == k;
        assert rest[i - c] == k;
      }
      if k in rest {
        var i :| 0 <= i < |rest| && rest[i] == k;
        assert ks[c + i] == k;
      }
    }
    SortedIsUnique(rest, past);
  }

  /** The next page starts at the token's position. */
  lemma PastIsSuffix(store: Records, user: string, token: string)
    ensures InOrder(AllKeys(store, user))
    ensures Sorted(PrincipalsPast(store, user, token)) == AllKeys(store, user)[Position(AllKeys(store, user), token)..]
  {
    SortedIsInOrder(UserPrincipalKeys(store, user));
    SortedLists(UserPrincipalKeys(store, user));
    PastInOrder(AllKeys(store, user), PrincipalsPast(store, user, token), token);
  }

  lemma StartsAtFirst(store: Records, user: string)
    ensures Position(AllKeys(store, user), "") == 0
  {
    SortedLists(UserPrincipalKeys(store, user));
    var ks := AllKeys(store, user);
    if ks != [] {
      assert ks[0] in UserPrincipalKeys(store, user);
      assert |ks[0]| >= |UserExternalPrincipalPath(user, "")| > 0;
    }
  }

  lemma PageOfRest(user: string, ks: seq<string>, rest: seq<string>, c: nat, amount: int)
    requires c <= |ks| && rest == ks[c..]
    ensures PageOf(user, rest, amount) ==
      if 0 < amount <= |ks| - c
      then PrincipalPage(PrincipalIDs(user, ks[c..c + amount]), PrincipalIDOf(user, ks[c + amount - 1]))
      else PrincipalPage(PrincipalIDs(user, rest), "")
  {
    if 0 < amount <= |ks| - c {
      assert rest[..amount] == ks[c..c + amount] && rest[amount - 1] == ks[c + amount - 1];
    }
  }

  /** One page, in terms of positions. */
  lemma PageAt(store: Records, user: string, amount: int, after: string)
    ensures var ks := AllKeys(store, user);
      var c := Position(ks, after);
      var p := PageOf(user, Sorted(PrincipalsPast(store, user, after)), amount);
      if 0 < amount <= |ks| - c
      then p == PrincipalPage(PrincipalIDs(user, ks[c..c + amount]), PrincipalIDOf(user, ks[c + amount - 1]))
      else p == PrincipalPage(PrincipalIDs(user, ks[c..]), "")
  {
    PastIsSuffix(store, user, after);
    var ks := AllKeys(store, user);
    var c := Position(ks, after);
    PageOfRest(user, ks, ks[c..], c, amount);
  }

  // ----- following, by positions -----

  /** The IDs in key order. */
  function AllIDs(store: Records, user: string): seq<string> {
    PrincipalIDs(user, AllKeys(store, user))
  }

  /** Where each ID leads to when it is used as a token. */
  ghost function Jumps(store: Records, user: string): (jumps: seq<nat>)
    ensures |jumps| == |AllIDs(store, user)| && forall k :: 0 <= k < |jumps| ==> jumps[k] <= |jumps|
  {
    var ks, ids := AllKeys(store, user), AllIDs(store, user);
    seq(|ks|, k requires 0 <= k < |ks| => Position(ks, ids[k]))
  }

  ghost predicate GoodJumps(ids: seq<string>, jumps: seq<nat>) {
    |jumps| == |ids| && forall k :: 0 <= k < |jumps| ==> jumps[k] <= |jumps|
  }

  /** Asking page after page from position c on. */
  ghost function FollowAt(ids: seq<string>, jumps: seq<nat>, amounts: nat -> int, i: nat, c: nat, pages: nat): Option<seq<string>>
    requires GoodJumps(ids, jumps) && c <= |ids|
    decreases pages
  {
    if pages == 0 then None
    else if !(0 < amounts(i) <= |ids| - c) then Some(ids[c..])
    else
      var b := c + amounts(i);
      if ids[b - 1] == "" then Some(ids[c..b])
      else
        match FollowAt(ids, jumps, amounts, i + 1, jumps[b - 1], pages - 1)
        case None => None
        case Some(rest) => Some(ids[c..b] + rest)
  }

  lemma IDsOfSlice(user: string, ks: seq<string>, c: nat, b: nat)
    requires c <= b <= |ks|
    ensures PrincipalIDs(user, ks[c..b]) == PrincipalIDs(user, ks)[c..b]
    ensures PrincipalIDs(user, ks[c..]) == PrincipalIDs(user, ks)[c..]
  {}

  /** The page at position c. */
  ghost predicate IsPageAt(ids: seq<string>, amount: int, c: nat, p: PrincipalPage) {
    if 0 < amount <= |ids| - c then p == PrincipalPage(ids[c..c + amount], ids[c + amount - 1])
    else c <= |ids| && p == PrincipalPage(ids[c..], "")
  }

  /** The pages past this token start at position c. */
  ghost predicate LeadsTo(service: (int, string) -> PrincipalPage, ids: seq<string>, after: string, c: nat) {
    forall amount: int :: IsPageAt(ids, amount, c, service(amount, after))
  }

  lemma TokenLeadsTo(store: Records, user: string, after: string)
    ensures LeadsTo(Service(store, user), AllIDs(store, user), after, Position(AllKeys(store, user), after))
  {
    forall amount: int
      ensures IsPageAt(AllIDs(store, user), amount, Position(AllKeys(store, user), after), Service(store, user)(amount, after))
    {
      PageByPosition(store, user, amount, after);
    }
  }

  lemma PageByPosition(store: Records, user: string, amount: int, after: string)
    ensures IsPageAt(AllIDs(store, user), amount, Position(AllKeys(store, user), after),
                     PageOf(user, Sorted(PrincipalsPast(store, user, after)), amount))
  {
    var ks := AllKeys(store, user);
    var c := Position(ks, after);
    PageAt(store, user, amount, after);
    IDsOfSlice(user, ks, c, if 0 < amount <= |ks| - c then c + amount else c);
  }

  ghost predicate JumpsLead(service: (int, string) -> PrincipalPage, ids: seq<string>, jumps: seq<nat>) {
    GoodJumps(ids, jumps) && forall k :: 0 <= k < |ids| ==> LeadsTo(service, ids, ids[k], jumps[k])
  }

  lemma {:induction false} FollowByPosition(service: (int, string) -> PrincipalPage, ids: seq<string>, jumps: seq<nat>,
                                            amounts: nat -> int, i: nat, after: string, c: nat, pages: nat)
    requires JumpsLead(service, ids, jumps) && LeadsTo(service, ids, after, c) && c <= |ids|
    ensures FollowTokens(service, amounts, i, after, pages) == FollowAt(ids, jumps, amounts, i, c, pages)
    decreases pages
  {
    if pages > 0 {
      assert IsPageAt(ids, amounts(i), c, service(amounts(i), after));
      if 0 < amounts(i) <= |ids| - c && ids[c + amounts(i) - 1] != "" {
        var b := c + amounts(i);
        FollowByPosition(service, ids, jumps, amounts, i + 1, ids[b - 1], jumps[b - 1], pages - 1);
      }
    }
  }

  lemma FollowIsByPosition(store: Records, user: string, amounts: nat -> int, pages: nat)
    ensures Followed(store, user, amounts, pages) == FollowAt(AllIDs(store, user), Jumps(store, user), amounts, 0, 0, pages)
  {
    var ids, jumps := AllIDs(store, user), Jumps(store, user);
    forall k | 0 <= k < |ids|
      ensures LeadsTo(Service(store, user), ids, ids[k], jumps[k])
    {
      TokenLeadsTo(store, user, ids[k]);
    }
    StartsAtFirst(store, user);
    TokenLeadsTo(store, user, "");
    FollowByPosition(Service(store, user), ids, jumps, amounts, 0, "", 0, pages);
  }

  // ----- exactly when the pages show everything -----

  /** From position c on, every page that is full ends at an ID that leads on to the very next
      key. An empty ID ends the listing, so nothing may follow it. */
  ghost predicate TokensLeadOn(ids: seq<string>, jumps: seq<nat>, amounts: nat -> int, i: nat, c: nat)
    requires GoodJumps(ids, jumps) && c <= |ids|
    decreases |ids| - c
  {
    if !(0 < amounts(i) <= |ids| - c) then true
    else
      var b := c + amounts(i);
      if ids[b - 1] == "" then b == |ids|
      else jumps[b - 1] == b && TokensLeadOn(ids, jumps, amounts, i + 1, b)
  }

  lemma {:induction false} LeadingOnShowsAll(ids: seq<string>, jumps: seq<nat>, amounts: nat -> int, i: nat, c: nat, pages: nat)
    requires GoodJumps(ids, jumps) && c <= |ids| && TokensLeadOn(ids, jumps, amounts, i, c) && pages > |ids| - c
    ensures FollowAt(ids, jumps, amounts, i, c, pages) == Some(ids[c..])
    decreases pages
  {
    if 0 < amounts(i) <= |ids| - c {
      var b := c + amounts(i);
      assert ids[c..b] + ids[b..] == ids[c..];
      assert b == |ids| ==> ids[c..b] == ids[c..];
      if ids[b - 1] != "" {
        LeadingOnShowsAll(ids, jumps, amounts, i + 1, b, pages - 1);
      }
    }
  }

  predicate Distinct(ids: seq<string>) {
    forall i, j :: 0 <= i < j < |ids| ==> ids[i] != ids[j]
  }

  lemma {:induction false} ShownAllLeadsOn(ids: seq<string>, jumps: seq<nat>, amounts: nat -> int, i: nat, c: nat, pages: nat)
    requires GoodJumps(ids, jumps) && Distinct(ids) && c <= |ids|
    requires FollowAt(ids, jumps, amounts, i, c, pages) == Some(ids[c..])
    ensures TokensLeadOn(ids, jumps, amounts, i, c)
    decreases pages
  {
    if 0 < amounts(i) <= |ids| - c {
      var b := c + amounts(i);
      assert ids[c..b] + ids[b..] == ids[c..];
      if ids[b - 1] == "" {
        assert |ids[c..b]| == b - c;
      } else {
        var rest := FollowAt(ids, jumps, amounts, i + 1, jumps[b - 1], pages - 1).value;
        SameTail(ids[c..b], rest, ids[b..]);
        FirstSeen(ids, jumps, amounts, i + 1, jumps[b - 1], pages - 1);
        SamePosition(ids, jumps[b - 1], b, rest);
        ShownAllLeadsOn(ids, jumps, amounts, i + 1, b, pages - 1);
      }
    }
  }

  /** What is seen first, if there is anything to see. */
  lemma FirstSeen(ids: seq<string>, jumps: seq<nat>, amounts: nat -> int, i: nat, c: nat, pages: nat)
    requires GoodJumps(ids, jumps) && c <= |ids| && FollowAt(ids, jumps, amounts, i, c, pages).Some?
    ensures var seen := FollowAt(ids, jumps, amounts, i, c, pages).value;
      if c < |ids| then seen != [] && seen[0] == ids[c] else seen == []
  {}

  lemma SameTail(a: seq<string>, x: seq<string>, y: seq<string>)
    requires a + x == a + y
    ensures x == y
  {
    assert x == (a + x)[|a|..] && y == (a + y)[|a|..];
  }

  lemma SamePosition(ids: seq<string>, q: nat, b: nat, rest: seq<string>)
    requires Distinct(ids) && q <= |ids| && b <= |ids| && rest == ids[b..]
    requires if q < |ids| then rest != [] && rest[0] == ids[q] else rest == []
    ensures q == b
  {
    if q < |ids| {
      assert rest[0] == ids[b];
    }
  }

  lemma RestsDiffer(p: string, a: string, b: string)
    requires HasPrefix(a, p) && HasPrefix(b, p) && a != b
    ensures a[|p|..] != b[|p|..]
  {
    assert a == p + a[|p|..] && b == p + b[|p|..];
  }

  lemma IDsAreDistinct(store: Records, user: string)
    ensures Distinct(AllIDs(store, user))
  {
    var ks, p := AllKeys(store, user), UserExternalPrincipalPath(user, "");
    SortedLists(UserPrincipalKeys(store, user));
    SortedIsInOrder(UserPrincipalKeys(store, user));
    forall i, j | 0 <= i < j < |ks|
      ensures PrincipalIDOf(user, ks[i]) != PrincipalIDOf(user, ks[j])
    {
      assert ks[i] in UserPrincipalKeys(store, user) && ks[j] in UserPrincipalKeys(store, user);
      LessIsStrict(ks[i], ks[j]);
      RestsDiffer(p, ks[i], ks[j]);
    }
  }

  /** Whatever the IDs and the amounts: following the tokens ends and shows every principal
      once, in key order, if and only if every full page ends at an ID that leads on. */
  lemma TokensShowAllIff(store: Records, user: string, amounts: nat -> int)
    ensures Ends(store, user, amounts, AllIDs(store, user)) <==>
      TokensLeadOn(AllIDs(store, user), Jumps(store, user), amounts, 0, 0)
  {
    var ids, jumps := AllIDs(store, user), Jumps(store, user);
    StartsAtFirst(store, user);
    assert ids[0..] == ids;
    if TokensLeadOn(ids, jumps, amounts, 0, 0) {
      LeadingOnShowsAll(ids, jumps, amounts, 0, 0, |ids| + 1);
      FollowIsByPosition(store, user, amounts, |ids| + 1);
    }
    if Ends(store, user, amounts, ids) {
      var pages :| Followed(store, user, amounts, pages) == Some(ids);
      FollowIsByPosition(store, user, amounts, pages);
      IDsAreDistinct(store, user);
      ShownAllLeadsOn(ids, jumps, amounts, 0, 0, pages);
    }
  }

  // ----- IDs that come before the user's keys -----

  /** The ID as a token comes before all keys of the user, as that of an ARN does. */
  predicate Before(user: string, id: string) {
    id != "" && Less(id, UserExternalPrincipalPath(user, ""))
  }

  /** The ID as a token comes after all keys of the user. */
  predicate Behind(user: string, id: string) {
    Less(UserExternalPrincipalPath(user, ""), id) && !HasPrefix(id, UserExternalPrincipalPath(user, ""))
  }

  lemma ByFirstCharacter(user: string, id: string)
    requires id != "" && id[0] != 'u'
    ensures if id[0] < 'u' then Before(user, id) else Behind(user, id)
  {
    var p := UserExternalPrincipalPath(user, "");
    assert p[0] == 'u';
    assert |p| <= |id| ==> id[..|p|][0] == id[0];
  }

  lemma TokenPosition(store: Records, user: string, id: string)
    ensures Before(user, id) ==> Position(AllKeys(store, user), id) == 0
    ensures Behind(user, id) ==> Position(AllKeys(store, user), id) == |AllKeys(store, user)|
  {
    var ks, p := AllKeys(store, user), UserExternalPrincipalPath(user, "");
    SortedLists(UserPrincipalKeys(store, user));
    PastIsSuffix(store, user, id);
    forall i | 0 <= i < |ks|
      ensures (Before(user, id) ==> Less(id, ks[i])) && (Behind(user, id) ==> !Less(id, ks[i]))
    {
      assert ks[i] in UserPrincipalKeys(store, user);
      PrefixComesFirst(ks[i], p);
      if Before(user, id) {
        LessIsTotal(p, ks[i]);
        if p != ks[i] {
          LessIsTransitive(id, p, ks[i]);
        }
      }
      if Behind(user, id) {
        LessIsStrict(id, p);
        PrefixIsInterval(id, p, ks[i]);
        LessIsStrict(ks[i], id);
      }
    }
    if Before(user, id) {
      PositionIs(ks, id, 0);
    }
    if Behind(user, id) {
      PositionIs(ks, id, |ks|);
    }
  }

  lemma {:induction false} RestartsUntil(ids: seq<string>, jumps: seq<nat>, amounts: nat -> int, i: nat, pages: nat)
    requires GoodJumps(ids, jumps) && (forall k :: 0 <= k < |ids| ==> ids[k] != "" && jumps[k] == 0)
    ensures FollowAt(ids, jumps, amounts, i, 0, pages).Some? <==>
      exists j :: i <= j < i + pages && !(0 < amounts(j) <= |ids|)
    decreases pages
  {
    if pages > 0 && 0 < amounts(i) <= |ids| {
      RestartsUntil(ids, jumps, amounts, i + 1, pages - 1);
    }
  }

  /** When every ID comes before the keys, every full page leads back to the first one: the
      listing ends if and only if some page is asked for with a non-positive amount, or with
      more than there are. It shows every principal once if the first page is. */
  lemma BeforeEndsIff(store: Records, user: string, amounts: nat -> int)
    requires forall k :: 0 <= k < |AllIDs(store, user)| ==> Before(user, AllIDs(store, user)[k])
    ensures (exists ids :: Ends(store, user, amounts, ids)) <==>
      exists j: nat :: amounts(j) <= 0 || amounts(j) > |UserPrincipalKeys(store, user)|
    ensures amounts(0) <= 0 || amounts(0) > |UserPrincipalKeys(store, user)| <==> Ends(store, user, amounts, AllIDs(store, user))
  {
    var ids, jumps := AllIDs(store, user), Jumps(store, user);
    StartsAtFirst(store, user);
    forall k | 0 <= k < |ids|
      ensures ids[k] != "" && jumps[k] == 0
    {
      TokenPosition(store, user, ids[k]);
    }
    if j: nat :| amounts(j) <= 0 || amounts(j) > |ids| {
      RestartsUntil(ids, jumps, amounts, 0, j + 1);
      FollowIsByPosition(store, user, amounts, j + 1);
      assert Ends(store, user, amounts, Followed(store, user, amounts, j + 1).value);
    }
    if seen :| Ends(store, user, amounts, seen) {
      var pages :| Followed(store, user, amounts, pages) == Some(seen);
      FollowIsByPosition(store, user, amounts, pages);
      RestartsUntil(ids, jumps, amounts, 0, pages);
    }
    TokensShowAllIff(store, user, amounts);
  }

  // ----- IDs that come after the user's keys -----

  /** When every ID comes after the keys, the second page is empty: the listing ends, and shows
      no more than its first page. */
  lemma BehindShowsFirstPage(store: Records, user: string, amounts: nat -> int)
    requires forall k :: 0 <= k < |AllIDs(store, user)| ==> Behind(user, AllIDs(store, user)[k])
    ensures var ids := AllIDs(store, user);
      Ends(store, user, amounts, if 0 < amounts(0) <= |ids| then ids[..amounts(0)] else ids)
  {
    var ids, jumps := AllIDs(store, user), Jumps(store, user);
    StartsAtFirst(store, user);
    forall k | 0 <= k < |ids|
      ensures ids[k] != "" && jumps[k] == |ids|
    {
      TokenPosition(store, user, ids[k]);
    }
    FollowIsByPosition(store, user, amounts, 2);
    assert ids[0..] == ids && ids[|ids|..] == [];
    if 0 < amounts(0) <= |ids| {
      assert FollowAt(ids, jumps, amounts, 1, |ids|, 1) == Some([]);
      assert ids[0..amounts(0)] + [] == ids[..amounts(0)];
    }
  }

  // ----- a store that the code can leave -----

  function Each(amount: int): nat -> int {
    (i: nat) => amount
  }

  /** A user with one principal whose ID is an ARN, listed one by one: the listing never ends. */
  lemma OnePrincipalLoops(legacy: Records, user: string)
    requires ValidEntityID(user)
    ensures var store := PerformedAll(legacy, true, [CreateUserOp(user), CreatePrincipalOp(user, "arn:x")]);
      && UserPrincipalKeys(store, user) == {UserExternalPrincipalPath(user, "arn:x")}
      && forall pages :: Followed(store, user, Each(1), pages) == None
  {
    var create, add := CreateUserOp(user), CreatePrincipalOp(user, "arn:x");
    assert [create, add][..1] == [create] && [create][..0] == [];
    assert PerformedAll(legacy, true, []) == map[];
    var s1 := PerformedAll(legacy, true, [create]);
    assert s1 == map[UserPath(user) := UserV(user)];
    KindsDiffer(user, "", user, "arn:x");
    var store := PerformedAll(legacy, true, [create, add]);
    assert store == PrincipalAdded(s1, user, "arn:x");
    AlwaysOk(legacy, true, [create, add]);
    OnlyPrincipal(s1, store, user, "arn:x");
    var k := UserExternalPrincipalPath(user, "arn:x");
    SortedIsUnique([k], {k});
    assert k == UserExternalPrincipalPath(user, "") + "arn:x";
    ByFirstCharacter(user, "arn:x");
    BeforeEndsIff(store, user, Each(1));
    forall pages: nat
      ensures Followed(store, user, Each(1), pages) == None
    {
      if Followed(store, user, Each(1), pages).Some? {
        assert Ends(store, user, Each(1), Followed(store, user, Each(1), pages).value);
      }
    }
  }

  lemma OnlyPrincipal(s1: Records, store: Records, user: string, id: string)
    requires Simple(user) && s1 == map[UserPath(user) := UserV(user)] && store == PrincipalAdded(s1, user, id) && StoreOk(store)
    ensures UserPrincipalKeys(store, user) == {UserExternalPrincipalPath(user, id)}
  {
    KindsDiffer(user, id, user, id);
    UserPrincipalHasPrefix(user, id);
    forall k | k in UserPrincipalKeys(store, user)
      ensures k == UserExternalPrincipalPath(user, id)
    {
      KeyedAt(store, k);
      var x := UnderUserPrincipals(user, k, store[k]);
    }
  }
}
