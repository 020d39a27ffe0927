/** Policies for which the evaluators do what their descriptions do not promise. */
module PolicyExamples {
  import opened Options
  import Conditions
  import Variables
  import opened Policy
  import opened PolicyConditions

  /** Actions and resources match literally; every condition has the same outcome. */
  function ExactEnv(outcome: Conditions.Outcome): Env {
    Env((pattern: string, s: string) => pattern == s, (s: string) => None, (c: Conditions.ConditionMap) => outcome)
  }

  const SOME_CONDITION: Conditions.ConditionMap := map[Conditions.IP_ADDRESS := map["SourceIp" := ["10.0.0.0/8"]]]

  /** One action on every resource, with or without a condition. */
  function Rule(effect: string, action: string, conditional: bool): Statement {
    Statement(effect, [action], "*", if conditional then SOME_CONDITION else map[])
  }

  lemma AnyResource(user: string)
    ensures InterpolateUser("*", user) == "*"
  {
    assert !("${user}" <= "*") && "*"[1..] == "";
    assert Variables.Scan("", "${user}", user) == "";
    assert Variables.Scan("*", "${user}", user) == ['*'] + "";
  }

  lemma StatementsOfEach(s: Statement, t: Statement)
    ensures StatementsOf([[s]]) == {s} && StatementsOf([[s], [t]]) == {s, t}
  {
    assert [s] in [[s]] && s in [s];
    assert [s] in [[s], [t]] && [t] in [[s], [t]] && t in [t];
  }

  /** What two statements that can be evaluated decide at a leaf. */
  lemma LeafOfTwo(env: Env, user: string, s: Statement, t: Statement, p: Permission)
    ensures var v, w := Judge(env, user, s, p), Judge(env, user, t, p);
      LeafResult(env, user, {s, t}, p)
        == if Opposes(v) || Opposes(w) then Deny else if v.Allows? || w.Allows? then Allow else Neutral
  {
    assert s in {s, t} && t in {s, t};
  }

  lemma JudgeRule(user: string, effect: string, action: string, conditional: bool, p: Permission)
    requires effect == EFFECT_ALLOW || effect == EFFECT_DENY
    ensures var v := Judge(ExactEnv(Conditions.Pass), user, Rule(effect, action, conditional), p);
      v == if action != p.action then Silent else if effect == EFFECT_DENY then Denies(action) else Allows
  {
    AnyResource(user);
    var env, s := ExactEnv(Conditions.Pass), Rule(effect, action, conditional);
    assert Resources(env, s) == Some(["*"]);
    assert "*" in Resources(env, s).value && ResourceHits(env, user, "*", p.resource);
    assert action in s.action;
  }

  /** An And with a denied child that is not denied. */
  lemma AndCanMissDeny(user: string, resource: string)
    ensures var env, policies := ExactEnv(Conditions.Pass), [[Rule(EFFECT_DENY, "b", false)]];
      var first, second := Leaf(Permission("a", resource)), Leaf(Permission("b", resource));
      && Eval(env, user, StatementsOf(policies), second) == Deny
      && Eval(env, user, StatementsOf(policies), And([first, second])) == Neutral
  {
    var env, d := ExactEnv(Conditions.Pass), Rule(EFFECT_DENY, "b", false);
    StatementsOfEach(d, d);
    assert {d, d} == {d};
    LeafOfTwo(env, user, d, d, Permission("a", resource));
    LeafOfTwo(env, user, d, d, Permission("b", resource));
    JudgeRule(user, EFFECT_DENY, "b", false, Permission("a", resource));
    JudgeRule(user, EFFECT_DENY, "b", false, Permission("b", resource));
    AndOfTwo(env, user, {d}, Leaf(Permission("a", resource)), Leaf(Permission("b", resource)));
  }

  /** Adding an allow statement turns Allow into Deny. */
  lemma AddedAllowCanDeny(user: string, resource: string)
    ensures var env := ExactEnv(Conditions.Pass);
      var before := [[Rule(EFFECT_DENY, "y", false)], [Rule(EFFECT_ALLOW, "z", false)]];
      var x, y, z := Leaf(Permission("x", resource)), Leaf(Permission("y", resource)), Leaf(Permission("z", resource));
      var tree := Or([And([x, y]), z]);
      && Eval(env, user, StatementsOf(before), tree) == Allow
      && Eval(env, user, StatementsOf(before) + {Rule(EFFECT_ALLOW, "x", false)}, tree) == Deny
  {
    var env := ExactEnv(Conditions.Pass);
    var d, g, a := Rule(EFFECT_DENY, "y", false), Rule(EFFECT_ALLOW, "z", false), Rule(EFFECT_ALLOW, "x", false);
    var x, y, z := Permission("x", resource), Permission("y", resource), Permission("z", resource);
    StatementsOfEach(d, g);
    BeforeTheAllow(user, x, y, z);
    JudgeRule(user, EFFECT_ALLOW, "x", false, x);
    AnyResource(user);
    AllowCanHurtBelowOr(env, user, {d, g}, a, x, y, z);
  }

  lemma BeforeTheAllow(user: string, x: Permission, y: Permission, z: Permission)
    requires x.action == "x" && y.action == "y" && z.action == "z"
    ensures var env, d, g := ExactEnv(Conditions.Pass), Rule(EFFECT_DENY, "y", false), Rule(EFFECT_ALLOW, "z", false);
      && LeafResult(env, user, {d, g}, x) == Neutral
      && LeafResult(env, user, {d, g}, y) == Deny
      && LeafResult(env, user, {d, g}, z) == Allow
  {
    var env, d, g := ExactEnv(Conditions.Pass), Rule(EFFECT_DENY, "y", false), Rule(EFFECT_ALLOW, "z", false);
    LeafOfTwo(env, user, d, g, x);
    LeafOfTwo(env, user, d, g, y);
    LeafOfTwo(env, user, d, g, z);
    JudgeRule(user, EFFECT_DENY, "y", false, x);
    JudgeRule(user, EFFECT_DENY, "y", false, y);
    JudgeRule(user, EFFECT_DENY, "y", false, z);
    JudgeRule(user, EFFECT_ALLOW, "z", false, x);
    JudgeRule(user, EFFECT_ALLOW, "z", false, y);
    JudgeRule(user, EFFECT_ALLOW, "z", false, z);
  }

  /** The filter grants what a statement with a condition denies. */
  lemma FilterCanGrantTooMuch(user: string, p: Permission)
    ensures var env, stmts := ExactEnv(Conditions.Pass), {Rule(EFFECT_ALLOW, p.action, false), Rule(EFFECT_DENY, p.action, true)};
      LeafResult(env, user, PlainOf(env, stmts), p) == Allow && LeafResult(env, user, stmts, p) == Deny
  {
    var env, a, d := ExactEnv(Conditions.Pass), Rule(EFFECT_ALLOW, p.action, false), Rule(EFFECT_DENY, p.action, true);
    JudgeRule(user, EFFECT_ALLOW, p.action, false, p);
    JudgeRule(user, EFFECT_DENY, p.action, true, p);
    OnlyUnconditional(env, a, d);
    assert Opposes(Judge(env, user, d, p));
  }

  /** The filter misses what a statement with a condition allows. */
  lemma FilterCanMissGrant(user: string, p: Permission)
    ensures var env, stmts := ExactEnv(Conditions.Pass), {Rule(EFFECT_ALLOW, p.action, true)};
      LeafResult(env, user, PlainOf(env, stmts), p) == Neutral && LeafResult(env, user, stmts, p) == Allow
  {
    JudgeRule(user, EFFECT_ALLOW, p.action, true, p);
    assert !ConditionFree(Rule(EFFECT_ALLOW, p.action, true)) by {
      assert Conditions.IP_ADDRESS in SOME_CONDITION;
    }
  }

  lemma OnlyUnconditional(env: Env, a: Statement, d: Statement)
    requires a.condition == map[] && a.resource == "*" && d.condition == SOME_CONDITION
    ensures PlainOf(env, {a, d}) == {a}
  {
    assert Conditions.IP_ADDRESS in SOME_CONDITION;
    assert Resources(env, a).Some?;
  }

  // ----- a decision that depends on the iteration order -----

  /** An address parser that accepts nothing. */
  function NoAddresses(): Conditions.NetLib {
    Conditions.NetLib((s: string) => None, (s: string) => None, (n: int, ip: int) => false, (s: string) => s)
  }

  /** One field with an unparseable value in the context, and one that the context lacks. */
  const TWO_FIELDS: Conditions.Fields := map["SourceIp" := ["10.0.0.0/8"], "VpcId" := ["10.0.0.0/8"]]

  function TwoFieldRule(action: string): Statement {
    Statement(EFFECT_ALLOW, [action], "*", map[Conditions.IP_ADDRESS := TWO_FIELDS])
  }

  /** With the unparseable field first the statement refuses, with the other first it is
      skipped: the same request is denied or only not allowed. */
  lemma OrderCanDecide(user: string, p: Permission)
    ensures var net, ctx, env := NoAddresses(), map["SourceIp" := "x"], ExactEnv(Conditions.Pass);
      && Ambiguous(net, ctx, TwoFieldRule(p.action))
      && LeafCan(net, ctx, env, user, [TwoFieldRule(p.action)], p, Neutral)
      && LeafCan(net, ctx, env, user, [TwoFieldRule(p.action)], p, Deny)
  {
    var net, ctx, env, s := NoAddresses(), map["SourceIp" := "x"], ExactEnv(Conditions.Pass), TwoFieldRule(p.action);
    BothHappen(net, ctx, s.condition);
    assert Conditions.IP_ADDRESS in s.condition;
    OneChoice(net, ctx, env, user, s, p, Conditions.Fail);
    OneChoice(net, ctx, env, user, s, p, Conditions.Failed(Conditions.InvalidIP));
  }

  lemma BothHappen(net: Conditions.NetLib, ctx: Conditions.Context, c: Conditions.ConditionMap)
    requires net == NoAddresses() && ctx == map["SourceIp" := "x"] && c == map[Conditions.IP_ADDRESS := TWO_FIELDS]
    ensures Conditions.ConditionsCan(net, c, ctx, Conditions.Fail)
    ensures Conditions.ConditionsCan(net, c, ctx, Conditions.Failed(Conditions.InvalidIP))
  {
    assert Conditions.OperatorFactory(Conditions.IP_ADDRESS) == Some(false);
    assert "VpcId" in TWO_FIELDS && Conditions.FieldOutcome(net, false, ctx, "VpcId", TWO_FIELDS["VpcId"], Conditions.Fail);
    assert "SourceIp" in TWO_FIELDS
      && Conditions.FieldOutcome(net, false, ctx, "SourceIp", TWO_FIELDS["SourceIp"], Conditions.Failed(Conditions.InvalidIP));
    assert Conditions.IP_ADDRESS in c;
    Conditions.ConditionsLaw(net, c, ctx, Conditions.Fail);
    Conditions.ConditionsLaw(net, c, ctx, Conditions.Failed(Conditions.InvalidIP));
  }

  lemma OneChoice(net: Conditions.NetLib, ctx: Conditions.Context, env: Env, user: string, s: Statement, p: Permission, o: Conditions.Outcome)
    requires Conditions.ConditionsCan(net, s.condition, ctx, o) && !ConditionFree(s) && o != Conditions.Pass
    ensures LeafCan(net, ctx, env, user, [s], p, if o.Failed? then Deny else Neutral)
  {
    assert Chosen(net, ctx, [s], [o]);
    NotPassed(env, user, s, p, o);
    LeafOfOne(env, user, s, p, o, if o.Failed? then Refuses else Silent);
  }

  lemma NotPassed(env: Env, user: string, s: Statement, p: Permission, o: Conditions.Outcome)
    requires !ConditionFree(s) && o != Conditions.Pass
    ensures JudgeWith(env, user, s, p, o) == if o.Failed? then Refuses else Silent
  {
  }

  lemma LeafOfOne(env: Env, user: string, s: Statement, p: Permission, o: Conditions.Outcome, v: Verdict)
    requires v == JudgeWith(env, user, s, p, o)
    ensures LeafWith(env, user, [s], p, [o]) == if Opposes(v) then Deny else if v.Allows? then Allow else Neutral
  {
    assert [s][0] == s && [o][0] == o;
  }
}
