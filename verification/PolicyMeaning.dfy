/** What a decision at a permission means, in terms of the texts of the statements. */
module PolicyMeaning {
  import opened Options
  import Conditions
  import Arn
  import Variables
  import opened Policy
  import opened PolicyExamples

  /** The resource with the user's name wherever it says ${user}. */
  ghost predicate Personal(resource: string, user: string, t: string) {
    exists pieces :: Variables.PiecesOf(pieces, resource, "${user}") && t == Variables.Joined(pieces, user)
  }

  /** A resource in brackets is a list of resources in JSON. */
  predicate IsList(resource: string) {
    |resource| > 0 && resource[0] == '[' && resource[|resource| - 1] == ']'
  }

  predicate Unlistable(env: Env, resource: string) {
    resource == "" || (IsList(resource) && env.unmarshal(resource).None?)
  }

  predicate Lists(env: Env, resource: string, r: string) {
    if IsList(resource) then env.unmarshal(resource).Some? && r in env.unmarshal(resource).value
    else resource != "" && r == resource
  }

  /** Everything, or well-formed names of one service and account, the resource of the one
      matching that of the other. */
  ghost predicate Reaches(env: Env, pattern: string, target: string) {
    pattern == "*" || exists a, b :: NamesMatch(env, a, b) && pattern == Arn.Format(a) && target == Arn.Format(b)
  }

  predicate NamesMatch(env: Env, a: Arn.Name, b: Arn.Name) {
    Arn.Valid(a) && Arn.Valid(b) && a.service == b.service && a.accountID == b.accountID && env.glob(a.resourceID, b.resourceID)
  }

  ghost predicate ReachesFor(env: Env, user: string, resource: string, target: string) {
    exists t :: Personal(resource, user, t) && Reaches(env, t, target)
  }

  /** One of the resources, with the user's name in it, reaches the permission's, and one of
      the actions matches the permission's. */
  ghost predicate Covers(env: Env, user: string, s: Statement, p: Permission) {
    && (exists r :: Lists(env, s.resource, r) && ReachesFor(env, user, r, p.resource))
    && exists i :: 0 <= i < |s.action| && env.glob(s.action[i], p.action)
  }

  predicate Applies(env: Env, s: Statement) {
    s.condition == map[] || env.conditions(s.condition) == Conditions.Pass
  }

  /** The conditions cannot be evaluated, or they pass and the resources cannot be read. */
  predicate Breaks(env: Env, s: Statement) {
    || (s.condition != map[] && env.conditions(s.condition).Failed?)
    || (Applies(env, s) && Unlistable(env, s.resource))
  }

  ghost predicate DeniesHere(env: Env, user: string, s: Statement, p: Permission) {
    Breaks(env, s) || (Applies(env, s) && s.effect == "deny" && Covers(env, user, s, p))
  }

  ghost predicate AllowsHere(env: Env, user: string, s: Statement, p: Permission) {
    Applies(env, s) && s.effect != "deny" && Covers(env, user, s, p)
  }

  lemma ArnMatchMeans(env: Env, pattern: string, target: string)
    ensures Arn.ArnMatch(env.glob, pattern, target) <==> Reaches(env, pattern, target)
  {
    Arn.ArnMatchIff(env.glob, pattern, target);
    if Arn.ArnMatch(env.glob, pattern, target) && pattern != "*" {
      var a, b :| Arn.Valid(a) && Arn.Valid(b) && pattern == Arn.Format(a) && target == Arn.Format(b)
                  && a.service == b.service && a.accountID == b.accountID && env.glob(a.resourceID, b.resourceID);
      assert NamesMatch(env, a, b);
    }
    if Reaches(env, pattern, target) && pattern != "*" {
      var a, b :| NamesMatch(env, a, b) && pattern == Arn.Format(a) && target == Arn.Format(b);
      assert Arn.Valid(a) && Arn.Valid(b) && a.service == b.service && a.accountID == b.accountID && env.glob(a.resourceID, b.resourceID);
    }
  }

  lemma ReachesIff(env: Env, user: string, resource: string, target: string)
    ensures ResourceHits(env, user, resource, target) <==> ReachesFor(env, user, resource, target)
  {
    var t := InterpolateUser(resource, user);
    Variables.ReplaceAllIff(resource, "${user}", user, t);
    assert Personal(resource, user, t);
    ArnMatchMeans(env, t, target);
    if other :| Personal(resource, user, other) && Reaches(env, other, target) {
      Variables.ReplaceAllIff(resource, "${user}", user, other);
    }
  }

  lemma ListsIff(env: Env, s: Statement)
    ensures Resources(env, s).None? <==> Unlistable(env, s.resource)
    ensures Resources(env, s).Some? ==> forall r :: r in Resources(env, s).value <==> Lists(env, s.resource, r)
  {
  }

  lemma MatchesIff(env: Env, user: string, s: Statement, p: Permission)
    requires Resources(env, s).Some?
    ensures Matches(env, user, s, p) <==> Covers(env, user, s, p)
  {
    ListsIff(env, s);
    forall r
      ensures ResourceHits(env, user, r, p.resource) <==> ReachesFor(env, user, r, p.resource)
    {
      ReachesIff(env, user, r, p.resource);
    }
    if a :| a in s.action && env.glob(a, p.action) {
      var i :| 0 <= i < |s.action| && s.action[i] == a;
    }
  }

  lemma JudgeMeans(env: Env, user: string, s: Statement, p: Permission)
    ensures Opposes(Judge(env, user, s, p)) <==> DeniesHere(env, user, s, p)
    ensures Judge(env, user, s, p).Allows? <==> AllowsHere(env, user, s, p) && !Breaks(env, s)
  {
    ListsIff(env, s);
    if Resources(env, s).Some? {
      MatchesIff(env, user, s, p);
    }
  }

  /** What the decision at a permission means: Deny if some statement breaks, or applies,
      denies and covers the permission; otherwise Allow if some statement applies, does not
      deny and covers it. */
  lemma LeafMeans(env: Env, user: string, stmts: set<Statement>, p: Permission)
    ensures LeafResult(env, user, stmts, p) == Deny <==> exists s :: s in stmts && DeniesHere(env, user, s, p)
    ensures LeafResult(env, user, stmts, p) == Allow <==>
      (forall s :: s in stmts ==> !DeniesHere(env, user, s, p)) && exists s :: s in stmts && AllowsHere(env, user, s, p)
  {
    forall s
      ensures Opposes(Judge(env, user, s, p)) <==> DeniesHere(env, user, s, p)
      ensures Judge(env, user, s, p).Allows? <==> AllowsHere(env, user, s, p) && !Breaks(env, s)
    {
      JudgeMeans(env, user, s, p);
    }
  }

  // ----- a resource of one's own -----

  const USERS := "arn:lakefs:auth:::user/"

  function UserArn(user: string): string {
    USERS + user
  }

  function OwnResource(effect: string, action: string): Statement {
    Statement(effect, [action], "arn:lakefs:auth:::user/${user}", map[])
  }

  function UserName(user: string): Arn.Name {
    Arn.Name("lakefs", "auth", "", "", "user/" + user)
  }

  lemma UserNameIsValid(user: string)
    ensures Arn.Valid(UserName(user))
  {
  }

  lemma UserNameFormat(user: string)
    ensures Arn.Format(UserName(user)) == UserArn(user)
  {
    var r := "user/" + user;
    FormatIs("arn", "lakefs", "auth", "", "", r);
    assert "arn" + (":" + ("lakefs" + (":" + ("auth" + (":" + ("" + (":" + ("" + (":" + r))))))))) == "arn:lakefs:auth:::" + r;
    assert "arn:lakefs:auth:::" + r == ("arn:lakefs:auth:::" + "user/") + user;
  }

  lemma JoinStep(a: string, rest: seq<string>)
    requires rest != []
    ensures Arn.Join([a] + rest) == a + (":" + Arn.Join(rest))
  {
    assert ([a] + rest)[1..] == rest;
    assert a + ":" + Arn.Join(rest) == a + (":" + Arn.Join(rest));
  }

  lemma FormatIs(a: string, b: string, c: string, d: string, e: string, r: string)
    ensures Arn.Join([a, b, c, d, e, r]) == a + (":" + (b + (":" + (c + (":" + (d + (":" + (e + (":" + r)))))))))
  {
    assert [a, b, c, d, e, r] == [a] + [b, c, d, e, r];
    assert [b, c, d, e, r] == [b] + [c, d, e, r];
    assert [c, d, e, r] == [c] + [d, e, r];
    assert [d, e, r] == [d] + [e, r];
    assert [e, r] == [e] + [r];
    JoinStep(a, [b, c, d, e, r]);
    JoinStep(b, [c, d, e, r]);
    JoinStep(c, [d, e, r]);
    JoinStep(d, [e, r]);
    JoinStep(e, [r]);
  }

  predicate WithoutDollar(s: string) {
    forall i :: 0 <= i < |s| ==> s[i] != '$'
  }

  lemma {:induction false} NoUserIn(s: string)
    requires WithoutDollar(s)
    ensures !Variables.Contains(s, "${user}")
  {
    if s != "" {
      Variables.Differs("${user}", s, 0);
      NoUserIn(s[1..]);
    }
  }

  /** A text that ends in ${user}. */
  lemma EndsInUser(p: string, what: string, user: string, t: string)
    requires what == "${user}" && WithoutDollar(p)
    ensures Personal(p + what, user, t) <==> t == p + user
  {
    var pieces := [p, ""];
    assert pieces[1..] == [""];
    NoUserIn(p);
    NoUserIn("");
    assert Variables.Joined(pieces, what) == p + what + "" == p + what;
    assert Variables.Joined(pieces, user) == p + user + "" == p + user;
    assert Variables.PiecesOf(pieces, p + what, what);
    Variables.ReplaceAllIff(p + what, what, user, t);
    Variables.ReplaceAllIff(p + what, what, user, p + user);
  }

  lemma OwnName(user: string, t: string)
    ensures Personal(OwnResource("", "").resource, user, t) <==> t == UserArn(user)
  {
    assert OwnResource("", "").resource == USERS + "${user}";
    EndsInUser(USERS, "${user}", user, t);
  }

  lemma OwnResourceReached(env: Env, user: string, other: string)
    ensures ReachesFor(env, user, OwnResource("", "").resource, UserArn(other)) <==> env.glob("user/" + user, "user/" + other)
  {
    var resource := OwnResource("", "").resource;
    OwnName(user, UserArn(user));
    UserArnReached(env, user, other);
    forall t | Personal(resource, user, t)
      ensures t == UserArn(user)
    {
      OwnName(user, t);
    }
  }

  lemma UserArnReached(env: Env, user: string, other: string)
    ensures Reaches(env, UserArn(user), UserArn(other)) <==> env.glob("user/" + user, "user/" + other)
  {
    var a, b := UserName(user), UserName(other);
    UserNameIsValid(user);
    UserNameIsValid(other);
    UserNameFormat(user);
    UserNameFormat(other);
    if env.glob("user/" + user, "user/" + other) {
      assert NamesMatch(env, a, b);
    }
    if Reaches(env, UserArn(user), UserArn(other)) {
      assert UserArn(user)[0] == 'a';
      var c, d :| NamesMatch(env, c, d) && UserArn(user) == Arn.Format(c) && UserArn(other) == Arn.Format(d);
      Arn.ParseIff(UserArn(user), a);
      Arn.ParseIff(UserArn(user), c);
      Arn.ParseIff(UserArn(other), b);
      Arn.ParseIff(UserArn(other), d);
    }
  }

  /** A statement on the user's own resource covers another user's exactly when the matcher
      takes one name for the other. */
  lemma OwnResourceDecides(env: Env, user: string, other: string, effect: string, action: string, asked: string)
    requires effect == "allow" || effect == "deny"
    ensures LeafResult(env, user, {OwnResource(effect, action)}, Permission(asked, UserArn(other)))
         == if !(env.glob("user/" + user, "user/" + other) && env.glob(action, asked)) then Neutral
            else if effect == "deny" then Deny else Allow
  {
    var s, p := OwnResource(effect, action), Permission(asked, UserArn(other));
    LeafMeans(env, user, {s}, p);
    OwnResourceReached(env, user, other);
    OwnResourceCovers(env, user, s, p);
    assert s in {s};
  }

  lemma OwnResourceCovers(env: Env, user: string, s: Statement, p: Permission)
    requires exists effect, action :: s == OwnResource(effect, action)
    ensures Covers(env, user, s, p) <==> ReachesFor(env, user, s.resource, p.resource) && env.glob(s.action[0], p.action)
    ensures s.condition == map[] && !Breaks(env, s) && s.resource == OwnResource("", "").resource
  {
    var effect, action :| s == OwnResource(effect, action);
    assert s.resource[0] == 'a';
    assert Lists(env, s.resource, s.resource);
  }

  /** When actions and resources match literally: a user may do it to itself, and to no other. */
  lemma OnlyOwnResource(user: string, other: string, action: string)
    ensures LeafResult(ExactEnv(Conditions.Pass), user, {OwnResource("allow", action)}, Permission(action, "arn:lakefs:auth:::user/" + other))
         == if user == other then Allow else Neutral
  {
    OwnResourceDecides(ExactEnv(Conditions.Pass), user, other, "allow", action, action);
    assert user == ("user/" + user)[5..] && other == ("user/" + other)[5..];
  }
}
