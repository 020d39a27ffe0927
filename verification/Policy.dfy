/**
Policy evaluation: a three-valued evaluator over trees of required permissions, and the
two evaluators that filter listings. The glob matcher, the JSON decoder and the outcome of
conditions in the request's context are parameters.
*/
module Policy {
  import opened Options
  import Conditions
  import Arn
  import Variables

  const EFFECT_ALLOW := "allow"
  const EFFECT_DENY := "deny"

  datatype Statement = Statement(effect: string, action: seq<string>, resource: string, condition: Conditions.ConditionMap)

  type Policy = seq<Statement>

  datatype Permission = Permission(action: string, resource: string)

  /** A tree of required permissions; a node of any other type is Unknown. */
  datatype Node = Leaf(permission: Permission) | Or(nodes: seq<Node>) | And(nodes: seq<Node>) | Unknown

  datatype CheckResult = Allow | Neutral | Deny

  datatype Env = Env(
    glob: (string, string) -> bool,
    unmarshal: string -> Option<seq<string>>,
    conditions: Conditions.ConditionMap -> Conditions.Outcome)

  // ----- one statement -----

  /** What one statement says about one permission. */
  datatype Verdict = Silent | Allows | Denies(action: string) | Refuses

  function InterpolateUser(resource: string, username: string): string {
    Variables.ReplaceAll(resource, "${user}", username)
  }

  function Resources(env: Env, s: Statement): Option<seq<string>> {
    Arn.ParsePolicyResourceAsList(env.unmarshal, s.resource)
  }

  predicate ResourceHits(env: Env, user: string, resource: string, target: string) {
    Arn.ArnMatch(env.glob, InterpolateUser(resource, user), target)
  }

  /** A resource and an action of the statement match the permission. */
  ghost predicate Matches(env: Env, user: string, s: Statement, p: Permission) {
    && Resources(env, s).Some?
    && (exists r :: r in Resources(env, s).value && ResourceHits(env, user, r, p.resource))
    && (exists a :: a in s.action && env.glob(a, p.action))
  }

  function FirstAction(glob: (string, string) -> bool, actions: seq<string>, action: string): (a: string)
    ensures (exists x :: x in actions && glob(x, action)) ==> a in actions && glob(a, action)
  {
    if actions == [] then ""
    else if glob(actions[0], action) then actions[0]
    else FirstAction(glob, actions[1..], action)
  }

  predicate ConditionFree(s: Statement) {
    |s.condition| == 0
  }

  /** What a statement says when its conditions, if it has any, come out like this. */
  ghost function JudgeWith(env: Env, user: string, s: Statement, p: Permission, outcome: Conditions.Outcome): Verdict {
    if !ConditionFree(s) && outcome.Failed? then Refuses
    else if !ConditionFree(s) && outcome.Fail? then Silent
    else if Resources(env, s).None? then Refuses
    else if !Matches(env, user, s, p) then Silent
    else if s.effect == EFFECT_DENY then Denies(FirstAction(env.glob, s.action, p.action))
    else Allows
  }

  ghost function Judge(env: Env, user: string, s: Statement, p: Permission): Verdict {
    JudgeWith(env, user, s, p, env.conditions(s.condition))
  }

  ghost predicate Opposes(v: Verdict) {
    v.Denies? || v.Refuses?
  }

  ghost function LeafResult(env: Env, user: string, stmts: set<Statement>, p: Permission): CheckResult {
    if exists s :: s in stmts && Opposes(Judge(env, user, s, p)) then Deny
    else if exists s :: s in stmts && Judge(env, user, s, p).Allows? then Allow
    else Neutral
  }

  /** Deny if a child denies, Allow if one allows and none denies. */
  ghost function OrOf(results: seq<CheckResult>): CheckResult {
    if Deny in results then Deny else if Allow in results then Allow else Neutral
  }

  /** The first result that is not Allow, if any. */
  ghost function AndOf(results: seq<CheckResult>): CheckResult {
    if results == [] then Allow
    else if results[0] != Allow then results[0]
    else AndOf(results[1..])
  }

  ghost function Eval(env: Env, user: string, stmts: set<Statement>, node: Node): CheckResult {
    match node
    case Leaf(p) => LeafResult(env, user, stmts, p)
    case Or(nodes) => OrOf(seq(|nodes|, i requires 0 <= i < |nodes| => Eval(env, user, stmts, nodes[i])))
    case And(nodes) => AndOf(seq(|nodes|, i requires 0 <= i < |nodes| => Eval(env, user, stmts, nodes[i])))
    case Unknown => Deny
  }

  ghost function EvalAll(env: Env, user: string, stmts: set<Statement>, nodes: seq<Node>): (rs: seq<CheckResult>)
    ensures |rs| == |nodes| && forall i :: 0 <= i < |nodes| ==> rs[i] == Eval(env, user, stmts, nodes[i])
  {
    seq(|nodes|, i requires 0 <= i < |nodes| => Eval(env, user, stmts, nodes[i]))
  }

  ghost function StatementsOf(policies: seq<Policy>): set<Statement> {
    set p, s | p in policies && s in p :: s
  }

  // ----- what And and Or mean -----

  /** The first result that is not Allow is c. */
  ghost predicate FirstIs(rs: seq<CheckResult>, c: CheckResult) {
    exists i :: 0 <= i < |rs| && rs[i] == c && forall j :: 0 <= j < i ==> rs[j] == Allow
  }

  lemma {:induction false} AndOfIff(rs: seq<CheckResult>, c: CheckResult)
    ensures AndOf(rs) == c <==>
      if c == Allow then forall i :: 0 <= i < |rs| ==> rs[i] == Allow else FirstIs(rs, c)
  {
    if rs != [] && rs[0] == Allow {
      var t := rs[1..];
      AndOfIff(t, c);
      if c != Allow {
        if FirstIs(t, c) {
          var i :| 0 <= i < |t| && t[i] == c && forall j :: 0 <= j < i ==> t[j] == Allow;
          assert rs[i + 1] == c && forall j :: 0 <= j < i + 1 ==> rs[j] == if j == 0 then Allow else t[j - 1];
        }
        if FirstIs(rs, c) {
          var i :| 0 <= i < |rs| && rs[i] == c && forall j :: 0 <= j < i ==> rs[j] == Allow;
          assert t[i - 1] == c && forall j :: 0 <= j < i - 1 ==> t[j] == rs[j + 1];
        }
      } else {
        assert forall i :: 0 <= i < |rs| ==> rs[i] == if i == 0 then Allow else t[i - 1];
        assert forall i :: 0 <= i < |t| ==> t[i] == rs[i + 1];
      }
    } else if rs != [] {
      assert c == rs[0] ==> FirstIs(rs, c);
    }
  }

  /** The comment on And promises Deny as soon as one permission is denied. The code stops at
      the first neutral one: given a denied child, the promise is broken exactly when the first
      child that is not allowed is neutral. */
  lemma AndBreaksPromiseIff(env: Env, user: string, stmts: set<Statement>, nodes: seq<Node>)
    requires exists i :: 0 <= i < |nodes| && Eval(env, user, stmts, nodes[i]) == Deny
    ensures Eval(env, user, stmts, And(nodes)) != Deny <==>
      exists i :: 0 <= i < |nodes| && Eval(env, user, stmts, nodes[i]) == Neutral
        && forall j :: 0 <= j < i ==> Eval(env, user, stmts, nodes[j]) == Allow
    ensures Eval(env, user, stmts, And(nodes)) != Allow
  {
    var rs := EvalAll(env, user, stmts, nodes);
    AndOfIff(rs, Neutral);
    AndOfIff(rs, Allow);
    assert Eval(env, user, stmts, And(nodes)) == AndOf(rs);
    if FirstIs(rs, Neutral) {
      var i :| 0 <= i < |rs| && rs[i] == Neutral && forall j :: 0 <= j < i ==> rs[j] == Allow;
      assert Eval(env, user, stmts, nodes[i]) == Neutral;
    }
    if i :| 0 <= i < |nodes| && Eval(env, user, stmts, nodes[i]) == Neutral
            && forall j :: 0 <= j < i ==> Eval(env, user, stmts, nodes[j]) == Allow {
      assert rs[i] == Neutral && forall j :: 0 <= j < i ==> rs[j] == Allow;
    }
  }

  // ----- adding statements -----

  lemma {:induction false} AndOfDenied(rs: seq<CheckResult>, qs: seq<CheckResult>)
    requires |rs| == |qs| && forall i :: 0 <= i < |rs| ==> qs[i] == rs[i] || qs[i] == Deny
    ensures AndOf(qs) == AndOf(rs) || AndOf(qs) == Deny
  {
    if rs != [] && qs[0] == Allow {
      AndOfDenied(rs[1..], qs[1..]);
    }
  }

  /** Adding a deny statement anywhere leaves the result alone or turns it into Deny. */
  lemma {:induction false} AddingDeny(env: Env, user: string, stmts: set<Statement>, d: Statement, node: Node)
    requires d.effect == EFFECT_DENY
    ensures var r, q := Eval(env, user, stmts, node), Eval(env, user, stmts + {d}, node); q == r || q == Deny
    decreases node
  {
    match node
    case Leaf(p) =>
      LeafOfMore(env, user, stmts, d, p);
    case Or(nodes) =>
      AddingDenyAll(env, user, stmts, d, nodes);
      var rs, qs := EvalAll(env, user, stmts, nodes), EvalAll(env, user, stmts + {d}, nodes);
      if Deny !in qs {
        assert rs == qs;
      }
    case And(nodes) =>
      AddingDenyAll(env, user, stmts, d, nodes);
      AndOfDenied(EvalAll(env, user, stmts, nodes), EvalAll(env, user, stmts + {d}, nodes));
    case Unknown =>
  }

  lemma {:induction false} AddingDenyAll(env: Env, user: string, stmts: set<Statement>, d: Statement, nodes: seq<Node>)
    requires d.effect == EFFECT_DENY
    ensures var rs, qs := EvalAll(env, user, stmts, nodes), EvalAll(env, user, stmts + {d}, nodes);
      forall i :: 0 <= i < |nodes| ==> qs[i] == rs[i] || qs[i] == Deny
    decreases nodes
  {
    forall i | 0 <= i < |nodes|
      ensures var r, q := Eval(env, user, stmts, nodes[i]), Eval(env, user, stmts + {d}, nodes[i]); q == r || q == Deny
    {
      AddingDeny(env, user, stmts, d, nodes[i]);
    }
  }

  /** One more statement, at a leaf. */
  lemma LeafOfMore(env: Env, user: string, stmts: set<Statement>, s: Statement, p: Permission)
    ensures var r, v := LeafResult(env, user, stmts, p), Judge(env, user, s, p);
      LeafResult(env, user, stmts + {s}, p) ==
        if Opposes(v) then Deny else if v.Allows? && r == Neutral then Allow else r
  {
    assert s in stmts + {s};
  }

  /** An allow statement whose conditions and resources can be evaluated. */
  ghost predicate WellFormedAllow(env: Env, a: Statement) {
    && a.effect != EFFECT_DENY
    && (ConditionFree(a) || !env.conditions(a.condition).Failed?)
    && Resources(env, a).Some?
  }

  /** Along an added allow statement, Deny stays and Allow does not fade to Neutral. */
  predicate Steps(r: CheckResult, q: CheckResult) {
    (r == Deny ==> q == Deny) && (r == Allow ==> q != Neutral)
  }

  lemma {:induction false} AndOfSteps(rs: seq<CheckResult>, qs: seq<CheckResult>)
    requires |rs| == |qs| && forall i :: 0 <= i < |rs| ==> Steps(rs[i], qs[i])
    ensures Steps(AndOf(rs), AndOf(qs))
  {
    if rs != [] {
      AndOfSteps(rs[1..], qs[1..]);
    }
  }

  /** On every tree, adding a well-formed allow statement keeps Deny, and can take Allow
      only to Allow or Deny. */
  lemma {:induction false} AddingAllow(env: Env, user: string, stmts: set<Statement>, a: Statement, node: Node)
    requires WellFormedAllow(env, a)
    ensures Steps(Eval(env, user, stmts, node), Eval(env, user, stmts + {a}, node))
    decreases node
  {
    match node
    case Leaf(p) =>
      LeafOfMore(env, user, stmts, a, p);
    case Or(nodes) =>
      AddingAllowAll(env, user, stmts, a, nodes);
      OrOfSteps(EvalAll(env, user, stmts, nodes), EvalAll(env, user, stmts + {a}, nodes));
    case And(nodes) =>
      AddingAllowAll(env, user, stmts, a, nodes);
      AndOfSteps(EvalAll(env, user, stmts, nodes), EvalAll(env, user, stmts + {a}, nodes));
    case Unknown =>
  }

  lemma OrOfSteps(rs: seq<CheckResult>, qs: seq<CheckResult>)
    requires |rs| == |qs| && forall i :: 0 <= i < |rs| ==> Steps(rs[i], qs[i])
    ensures Steps(OrOf(rs), OrOf(qs))
  {
    if Deny in rs {
      var i :| 0 <= i < |rs| && rs[i] == Deny;
      assert qs[i] in qs;
    } else if Allow in rs {
      var i :| 0 <= i < |rs| && rs[i] == Allow;
      assert qs[i] in qs;
    }
  }

  lemma {:induction false} AddingAllowAll(env: Env, user: string, stmts: set<Statement>, a: Statement, nodes: seq<Node>)
    requires WellFormedAllow(env, a)
    ensures var rs, qs := EvalAll(env, user, stmts, nodes), EvalAll(env, user, stmts + {a}, nodes);
      forall i :: 0 <= i < |nodes| ==> Steps(rs[i], qs[i])
    decreases nodes
  {
    forall i | 0 <= i < |nodes|
      ensures Steps(Eval(env, user, stmts, nodes[i]), Eval(env, user, stmts + {a}, nodes[i]))
    {
      AddingAllow(env, user, stmts, a, nodes[i]);
    }
  }

  predicate AndFree(node: Node) {
    match node
    case Or(nodes) => forall i :: 0 <= i < |nodes| ==> AndFree(nodes[i])
    case And(_) => false
    case _ => true
  }

  predicate NoAndBelowOr(node: Node) {
    match node
    case Or(nodes) => AndFree(node)
    case And(nodes) => forall i :: 0 <= i < |nodes| ==> NoAndBelowOr(nodes[i])
    case _ => true
  }

  /** Without And nodes, only Neutral can change, and only to Allow. */
  lemma {:induction false} AddingAllowAndFree(env: Env, user: string, stmts: set<Statement>, a: Statement, node: Node)
    requires WellFormedAllow(env, a) && AndFree(node)
    ensures var r, q := Eval(env, user, stmts, node), Eval(env, user, stmts + {a}, node);
      q == r || (r == Neutral && q == Allow)
    decreases node
  {
    match node
    case Leaf(p) =>
      LeafOfMore(env, user, stmts, a, p);
    case Or(nodes) =>
      var rs, qs := EvalAll(env, user, stmts, nodes), EvalAll(env, user, stmts + {a}, nodes);
      forall i | 0 <= i < |nodes|
        ensures qs[i] == rs[i] || (rs[i] == Neutral && qs[i] == Allow)
      {
        AddingAllowAndFree(env, user, stmts, a, nodes[i]);
      }
      OrOfGrows(rs, qs);
    case Unknown =>
  }

  lemma OrOfGrows(rs: seq<CheckResult>, qs: seq<CheckResult>)
    requires |rs| == |qs| && forall i :: 0 <= i < |rs| ==> qs[i] == rs[i] || (rs[i] == Neutral && qs[i] == Allow)
    ensures OrOf(qs) == OrOf(rs) || (OrOf(rs) == Neutral && OrOf(qs) == Allow)
  {
    OrOfSteps(rs, qs);
    if Deny in qs {
      var i :| 0 <= i < |qs| && qs[i] == Deny;
      assert rs[i] == Deny;
    }
  }

  /** With no And below an Or, an allowed request stays allowed. */
  lemma {:induction false} AddingAllowKeepsAllow(env: Env, user: string, stmts: set<Statement>, a: Statement, node: Node)
    requires WellFormedAllow(env, a) && NoAndBelowOr(node) && Eval(env, user, stmts, node) == Allow
    ensures Eval(env, user, stmts + {a}, node) == Allow
    decreases node
  {
    match node
    case And(nodes) =>
      var rs, qs := EvalAll(env, user, stmts, nodes), EvalAll(env, user, stmts + {a}, nodes);
      AndOfIff(rs, Allow);
      AndOfIff(qs, Allow);
      forall i | 0 <= i < |nodes|
        ensures qs[i] == Allow
      {
        AddingAllowKeepsAllow(env, user, stmts, a, nodes[i]);
      }
    case _ =>
      AddingAllowAndFree(env, user, stmts, a, node);
  }

  /** The restriction is needed: below an Or, an And that was neutral can reach a denied
      permission once its first permission is allowed, and then the Or is denied. */
  lemma AllowCanHurtBelowOr(env: Env, user: string, stmts: set<Statement>, a: Statement,
                            x: Permission, y: Permission, z: Permission)
    requires WellFormedAllow(env, a)
    requires LeafResult(env, user, stmts, x) == Neutral && Judge(env, user, a, x).Allows?
    requires LeafResult(env, user, stmts, y) == Deny && LeafResult(env, user, stmts, z) == Allow
    ensures Eval(env, user, stmts, Or([And([Leaf(x), Leaf(y)]), Leaf(z)])) == Allow
    ensures Eval(env, user, stmts + {a}, Or([And([Leaf(x), Leaf(y)]), Leaf(z)])) == Deny
  {
    var more := stmts + {a};
    LeafOfMore(env, user, stmts, a, x);
    LeafOfMore(env, user, stmts, a, y);
    var inner := And([Leaf(x), Leaf(y)]);
    AndOfTwo(env, user, stmts, Leaf(x), Leaf(y));
    AndOfTwo(env, user, more, Leaf(x), Leaf(y));
    OrOfTwo(env, user, stmts, inner, Leaf(z));
    OrOfTwo(env, user, more, inner, Leaf(z));
  }

  lemma AndOfTwo(env: Env, user: string, stmts: set<Statement>, m: Node, n: Node)
    ensures var r, q := Eval(env, user, stmts, m), Eval(env, user, stmts, n);
      Eval(env, user, stmts, And([m, n])) == if r != Allow then r else q
  {
    var rs := EvalAll(env, user, stmts, [m, n]);
    assert Eval(env, user, stmts, And([m, n])) == AndOf(rs);
    assert rs[1..] == [rs[1]] && rs[1..][1..] == [];
    assert AndOf(rs[1..]) == rs[1];
  }

  lemma OrOfTwo(env: Env, user: string, stmts: set<Statement>, m: Node, n: Node)
    ensures Eval(env, user, stmts, Or([m, n])) == OrOf([Eval(env, user, stmts, m), Eval(env, user, stmts, n)])
  {
    var rs := EvalAll(env, user, stmts, [m, n]);
    assert rs == [Eval(env, user, stmts, m), Eval(env, user, stmts, n)];
    assert Eval(env, user, stmts, Or([m, n])) == OrOf(rs);
  }

  // ----- the evaluator, as the code runs it -----

  /** The audit trail of a check. */
  class MissingPermissions {
    var denied: seq<string>
    var unauthorized: seq<string>

    constructor ()
      ensures denied == [] && unauthorized == []
    {
      denied, unauthorized := [], [];
    }
  }

  /** The loops over the resources and actions of one statement. */
  method CheckStatement(env: Env, user: string, s: Statement, p: Permission) returns (v: Verdict)
    ensures v == Judge(env, user, s, p)
  {
    if |s.condition| > 0 {
      var passed := env.conditions(s.condition);
      if passed.Failed? {
        return Refuses;
      }
      if passed.Fail? {
        return Silent;
      }
    }
    var resources := Arn.ParsePolicyResourceAsList(env.unmarshal, s.resource);
    if resources.None? {
      return Refuses;
    }
    v := Silent;
    for i := 0 to |resources.value|
      invariant v == Silent || v == Allows
      invariant v == Allows <==> s.effect != EFFECT_DENY && ResourceBefore(env, user, s, p, resources.value, i) && ActionBefore(env, s, p, |s.action|)
      invariant s.effect == EFFECT_DENY ==> !(ResourceBefore(env, user, s, p, resources.value, i) && ActionBefore(env, s, p, |s.action|))
    {
      var resource := InterpolateUser(resources.value[i], user);
      if Arn.ArnMatch(env.glob, resource, p.resource) {
        assert ResourceHits(env, user, resources.value[i], p.resource);
        for j := 0 to |s.action|
          invariant v == Silent || v == Allows
          invariant s.effect == EFFECT_DENY ==> v == Silent && !ActionBefore(env, s, p, j)
          invariant s.effect != EFFECT_DENY ==> (v == Allows <==>
            ActionBefore(env, s, p, j) || (ResourceBefore(env, user, s, p, resources.value, i) && ActionBefore(env, s, p, |s.action|)))
        {
          if env.glob(s.action[j], p.action) {
            if s.effect == EFFECT_DENY {
              FirstActionAt(env.glob, s.action, p.action, j);
              return Denies(s.action[j]);
            }
            v := Allows;
          }
        }
      }
    }
  }

  ghost predicate ResourceBefore(env: Env, user: string, s: Statement, p: Permission, resources: seq<string>, n: nat)
    requires n <= |resources|
  {
    exists i :: 0 <= i < n && ResourceHits(env, user, resources[i], p.resource)
  }

  ghost predicate ActionBefore(env: Env, s: Statement, p: Permission, n: nat)
    requires n <= |s.action|
  {
    exists j :: 0 <= j < n && env.glob(s.action[j], p.action)
  }

  lemma {:induction false} FirstActionAt(glob: (string, string) -> bool, actions: seq<string>, action: string, j: nat)
    requires j < |actions| && glob(actions[j], action)
    requires forall k :: 0 <= k < j ==> !glob(actions[k], action)
    ensures FirstAction(glob, actions, action) == actions[j]
  {
    if j > 0 {
      FirstActionAt(glob, actions[1..], action, j - 1);
    }
  }

  /** Evaluating the statement fails, whatever the permission. */
  ghost predicate CannotEvaluate(env: Env, s: Statement) {
    if !ConditionFree(s) && !env.conditions(s.condition).Pass? then env.conditions(s.condition).Failed?
    else Resources(env, s).None?
  }

  predicate HasUnknown(node: Node) {
    match node
    case Unknown => true
    case Or(nodes) => exists i :: 0 <= i < |nodes| && HasUnknown(nodes[i])
    case And(nodes) => exists i :: 0 <= i < |nodes| && HasUnknown(nodes[i])
    case Leaf(_) => false
  }

  predicate NoEmptyOr(node: Node) {
    match node
    case Or(nodes) => nodes != [] && forall i :: 0 <= i < |nodes| ==> NoEmptyOr(nodes[i])
    case And(nodes) => forall i :: 0 <= i < |nodes| ==> NoEmptyOr(nodes[i])
    case _ => true
  }

  ghost predicate LeafOf(node: Node, p: Permission) {
    match node
    case Leaf(q) => p == q
    case Or(nodes) => exists i :: 0 <= i < |nodes| && LeafOf(nodes[i], p)
    case And(nodes) => exists i :: 0 <= i < |nodes| && LeafOf(nodes[i], p)
    case Unknown => false
  }

  /** An action of the tree that nothing allowed and nothing denied. */
  ghost predicate LeftNeutral(env: Env, user: string, stmts: set<Statement>, node: Node, action: string) {
    exists p :: LeafOf(node, p) && p.action == action && LeafResult(env, user, stmts, p) == Neutral
  }

  /** An action of a deny statement that matches one of the tree. */
  ghost predicate DeniedBy(env: Env, stmts: set<Statement>, node: Node, action: string) {
    exists p, s :: LeafOf(node, p) && s in stmts && s.effect == EFFECT_DENY && action in s.action && env.glob(action, p.action)
  }

  /** What the audit trail tells about a result: it only grows, a denying action of a statement
      is recorded once and only for Deny, a Deny without one comes from a statement or node that
      cannot be evaluated; what is recorded as not allowed was neutral, and a neutral result has
      left such a record. */
  ghost predicate AuditExplains(env: Env, user: string, stmts: set<Statement>, node: Node, r: CheckResult,
                                denied: seq<string>, unauthorized: seq<string>,
                                denied': seq<string>, unauthorized': seq<string>)
  {
    && unauthorized <= unauthorized'
    && (forall k :: |unauthorized| <= k < |unauthorized'| ==> LeftNeutral(env, user, stmts, node, unauthorized'[k]))
    && (denied' == denied
        || (r == Deny && |denied'| == |denied| + 1 && denied <= denied' && DeniedBy(env, stmts, node, denied'[|denied|])))
    && (r == Deny && denied' == denied ==> HasUnknown(node) || Unevaluable(env, stmts))
    && (r == Neutral && NoEmptyOr(node) ==> |unauthorized| < |unauthorized'|)
  }

  ghost function SetOf(policy: Policy): set<Statement> {
    set s | s in policy
  }

  /** Two groups of statements decide together as an Or of their own decisions. */
  lemma LeafOfUnion(env: Env, user: string, a: set<Statement>, b: set<Statement>, p: Permission)
    ensures LeafResult(env, user, a + b, p) == OrOf([LeafResult(env, user, a, p), LeafResult(env, user, b, p)])
  {
    var ra, rb := LeafResult(env, user, a, p), LeafResult(env, user, b, p);
    assert forall s :: s in a + b <==> s in a || s in b;
    assert Deny in [ra, rb] <==> ra == Deny || rb == Deny;
    assert Allow in [ra, rb] <==> ra == Allow || rb == Allow;
  }

  lemma StatementsOfNext(policies: seq<Policy>, i: nat)
    requires i < |policies|
    ensures StatementsOf(policies[..i + 1]) == StatementsOf(policies[..i]) + SetOf(policies[i])
    ensures StatementsOf(policies) == StatementsOf(policies) + SetOf(policies[i])
  {
    assert policies[..i + 1] == policies[..i] + [policies[i]];
    assert policies[i] in policies;
  }

  lemma DenialHasAction(env: Env, user: string, stmts: set<Statement>, s: Statement, p: Permission)
    requires s in stmts && Judge(env, user, s, p).Denies?
    ensures DeniedBy(env, stmts, Leaf(p), Judge(env, user, s, p).action)
  {
    assert LeafOf(Leaf(p), p);
  }

  lemma DeniedByMore(env: Env, a: set<Statement>, b: set<Statement>, node: Node, action: string)
    requires a <= b && DeniedBy(env, a, node, action)
    ensures DeniedBy(env, b, node, action)
  {
    var p, s :| LeafOf(node, p) && s in a && s.effect == EFFECT_DENY && action in s.action && env.glob(action, p.action);
  }

  lemma BelowNode(env: Env, user: string, stmts: set<Statement>, nodes: seq<Node>, i: nat, node: Node)
    requires i < |nodes| && (node == Or(nodes) || node == And(nodes))
    ensures forall a :: LeftNeutral(env, user, stmts, nodes[i], a) ==> LeftNeutral(env, user, stmts, node, a)
    ensures forall a :: DeniedBy(env, stmts, nodes[i], a) ==> DeniedBy(env, stmts, node, a)
  {
    forall p | LeafOf(nodes[i], p)
      ensures LeafOf(node, p)
    {
    }
    forall a | DeniedBy(env, stmts, nodes[i], a)
      ensures DeniedBy(env, stmts, node, a)
    {
      var p, s :| LeafOf(nodes[i], p) && s in stmts && s.effect == EFFECT_DENY && a in s.action && env.glob(a, p.action);
      assert LeafOf(node, p);
    }
    forall a | LeftNeutral(env, user, stmts, nodes[i], a)
      ensures LeftNeutral(env, user, stmts, node, a)
    {
      var p :| LeafOf(nodes[i], p) && p.action == a && LeafResult(env, user, stmts, p) == Neutral;
      assert LeafOf(node, p);
    }
  }

  /** The inner loop of the leaf case: the statements of one policy, up to an opposing one. */
  method CheckPolicy(env: Env, user: string, policy: Policy, p: Permission) returns (against: Verdict, allows: bool)
    ensures against == Silent || Opposes(against)
    ensures against.Denies? ==> DeniedBy(env, SetOf(policy), Leaf(p), against.action)
    ensures against.Refuses? ==> Unevaluable(env, SetOf(policy))
    ensures LeafResult(env, user, SetOf(policy), p)
         == if against != Silent then Deny else if allows then Allow else Neutral
  {
    allows := false;
    for i := 0 to |policy|
      invariant forall j :: 0 <= j < i ==> !Opposes(Judge(env, user, policy[j], p))
      invariant allows <==> exists j :: 0 <= j < i && Judge(env, user, policy[j], p).Allows?
    {
      var v := CheckStatement(env, user, policy[i], p);
      if v.Denies? || v.Refuses? {
        assert policy[i] in SetOf(policy);
        if v.Denies? {
          DenialHasAction(env, user, SetOf(policy), policy[i], p);
        }
        return v, false;
      }
      if v.Allows? {
        allows := true;
      }
    }
    against := Silent;
    assert allows ==> exists j :: 0 <= j < |policy| && policy[j] in SetOf(policy) && Judge(env, user, policy[j], p).Allows?;
  }

  ghost predicate Unevaluable(env: Env, stmts: set<Statement>) {
    exists s :: s in stmts && CannotEvaluate(env, s)
  }

  lemma LeafNext(env: Env, user: string, policies: seq<Policy>, i: nat, p: Permission)
    requires i < |policies|
    ensures var sofar, one := LeafResult(env, user, StatementsOf(policies[..i]), p), LeafResult(env, user, SetOf(policies[i]), p);
      && (one == Neutral ==> LeafResult(env, user, StatementsOf(policies[..i + 1]), p) == sofar)
      && (one == Allow && sofar != Deny ==> LeafResult(env, user, StatementsOf(policies[..i + 1]), p) == Allow)
      && (one == Deny ==> LeafResult(env, user, StatementsOf(policies), p) == Deny)
    ensures Unevaluable(env, SetOf(policies[i])) ==> Unevaluable(env, StatementsOf(policies))
  {
    StatementsOfNext(policies, i);
    LeafOfUnion(env, user, StatementsOf(policies[..i]), SetOf(policies[i]), p);
    LeafOfUnion(env, user, StatementsOf(policies), SetOf(policies[i]), p);
    if Unevaluable(env, SetOf(policies[i])) {
      var s :| s in SetOf(policies[i]) && CannotEvaluate(env, s);
      assert s in StatementsOf(policies) + SetOf(policies[i]);
    }
  }

  /** CheckPermissions at a leaf. The result depends on nothing but the set of statements. */
  method CheckLeaf(env: Env, user: string, policies: seq<Policy>, p: Permission, audit: MissingPermissions)
    returns (allowed: CheckResult)
    modifies audit
    ensures allowed == LeafResult(env, user, StatementsOf(policies), p)
    ensures AuditExplains(env, user, StatementsOf(policies), Leaf(p), allowed, old(audit.denied), old(audit.unauthorized),
                          audit.denied, audit.unauthorized)
  {
    allowed := Neutral;
    var hasPermission := false;
    for i := 0 to |policies|
      invariant audit.denied == old(audit.denied) && audit.unauthorized == old(audit.unauthorized)
      invariant allowed == (if hasPermission then Allow else Neutral)
      invariant allowed == LeafResult(env, user, StatementsOf(policies[..i]), p)
    {
      var against, allows := CheckPolicy(env, user, policies[i], p);
      LeafNext(env, user, policies, i, p);
      if against != Silent {
        if against.Denies? {
          StatementsOfNext(policies, i);
          DeniedByMore(env, SetOf(policies[i]), StatementsOf(policies), Leaf(p), against.action);
          audit.denied := audit.denied + [against.action];
        }
        return Deny;
      }
      if allows {
        hasPermission := true;
        allowed := Allow;
      }
    }
    assert policies[..|policies|] == policies;
    if !hasPermission {
      assert LeafOf(Leaf(p), p);
      assert LeftNeutral(env, user, StatementsOf(policies), Leaf(p), p.action);
      audit.unauthorized := audit.unauthorized + [p.action];
    }
  }

  /** CheckPermissions, for any nesting of policies: order and grouping do not matter. */
  method CheckPermissions(env: Env, node: Node, user: string, policies: seq<Policy>, audit: MissingPermissions)
    returns (allowed: CheckResult)
    modifies audit
    ensures allowed == Eval(env, user, StatementsOf(policies), node)
    ensures AuditExplains(env, user, StatementsOf(policies), node, allowed, old(audit.denied), old(audit.unauthorized),
                          audit.denied, audit.unauthorized)
    decreases node, 0
  {
    match node {
      case Leaf(p) =>
        allowed := CheckLeaf(env, user, policies, p, audit);
      case Or(nodes) =>
        allowed := CheckOr(env, nodes, user, policies, audit);
      case And(nodes) =>
        allowed := CheckAnd(env, nodes, user, policies, audit);
      case Unknown =>
        allowed := Deny;
    }
  }

  lemma OrOfNext(rs: seq<CheckResult>, i: nat)
    requires i < |rs|
    ensures OrOf(rs[..i + 1]) == OrOf([OrOf(rs[..i]), rs[i]])
    ensures rs[i] == Deny ==> OrOf(rs) == Deny
  {
    assert rs[..i + 1] == rs[..i] + [rs[i]];
    var pair := [OrOf(rs[..i]), rs[i]];
    assert Deny in pair <==> pair[0] == Deny || pair[1] == Deny;
    assert Allow in pair <==> pair[0] == Allow || pair[1] == Allow;
  }

  /** The case of an Or node. */
  method CheckOr(env: Env, nodes: seq<Node>, user: string, policies: seq<Policy>, audit: MissingPermissions)
    returns (allowed: CheckResult)
    modifies audit
    ensures allowed == Eval(env, user, StatementsOf(policies), Or(nodes))
    ensures AuditExplains(env, user, StatementsOf(policies), Or(nodes), allowed, old(audit.denied), old(audit.unauthorized),
                          audit.denied, audit.unauthorized)
    decreases nodes
  {
    ghost var rs := EvalAll(env, user, StatementsOf(policies), nodes);
    allowed := Neutral;
    for i := 0 to |nodes|
      invariant allowed == OrOf(rs[..i]) != Deny
      invariant audit.denied == old(audit.denied) && old(audit.unauthorized) <= audit.unauthorized
      invariant forall k :: |old(audit.unauthorized)| <= k < |audit.unauthorized| ==>
        LeftNeutral(env, user, StatementsOf(policies), Or(nodes), audit.unauthorized[k])
      invariant i > 0 && allowed == Neutral && NoEmptyOr(Or(nodes)) ==> |old(audit.unauthorized)| < |audit.unauthorized|
    {
      BelowNode(env, user, StatementsOf(policies), nodes, i, Or(nodes));
      var result := CheckPermissions(env, nodes[i], user, policies, audit);
      OrOfNext(rs, i);
      if result == Deny {
        return Deny;
      }
      if allowed != Allow {
        allowed := result;
      }
    }
    assert rs[..|nodes|] == rs;
  }

  /** The case of an And node. */
  method CheckAnd(env: Env, nodes: seq<Node>, user: string, policies: seq<Policy>, audit: MissingPermissions)
    returns (allowed: CheckResult)
    modifies audit
    ensures allowed == Eval(env, user, StatementsOf(policies), And(nodes))
    ensures AuditExplains(env, user, StatementsOf(policies), And(nodes), allowed, old(audit.denied), old(audit.unauthorized),
                          audit.denied, audit.unauthorized)
    decreases nodes
  {
    ghost var rs := EvalAll(env, user, StatementsOf(policies), nodes);
    for i := 0 to |nodes|
      invariant forall j :: 0 <= j < i ==> rs[j] == Allow
      invariant audit.denied == old(audit.denied) && old(audit.unauthorized) <= audit.unauthorized
      invariant forall k :: |old(audit.unauthorized)| <= k < |audit.unauthorized| ==>
        LeftNeutral(env, user, StatementsOf(policies), And(nodes), audit.unauthorized[k])
    {
      BelowNode(env, user, StatementsOf(policies), nodes, i, And(nodes));
      var result := CheckPermissions(env, nodes[i], user, policies, audit);
      if result == Neutral || result == Deny {
        assert FirstIs(rs, result);
        AndOfIff(rs, result);
        return result;
      }
    }
    AndOfIff(rs, Allow);
    allowed := Allow;
  }

  // ----- the evaluators that filter listings -----

  /** The statements CheckPermission looks at. */
  ghost predicate Plain(env: Env, s: Statement) {
    ConditionFree(s) && Resources(env, s).Some?
  }

  ghost function PlainOf(env: Env, stmts: set<Statement>): set<Statement> {
    set s | s in stmts && Plain(env, s)
  }

  /** CheckPermission: the leaf decision over the statements that have no condition and
      whose resources can be parsed. */
  method CheckPermission(env: Env, resourceArn: string, user: string, policies: seq<Policy>, action: string)
    returns (allowed: bool)
    ensures allowed <==> LeafResult(env, user, PlainOf(env, StatementsOf(policies)), Permission(action, resourceArn)) == Allow
  {
    var p := Permission(action, resourceArn);
    var hasAllow := false;
    for i := 0 to |policies|
      invariant LeafResult(env, user, PlainOf(env, StatementsOf(policies[..i])), p) == if hasAllow then Allow else Neutral
    {
      var denies, allows := FilterPolicy(env, user, policies[i], p);
      FilterNext(env, user, policies, i, p);
      if denies {
        return false;
      }
      hasAllow := hasAllow || allows;
    }
    assert policies[..|policies|] == policies;
    return hasAllow;
  }

  lemma FilterNext(env: Env, user: string, policies: seq<Policy>, i: nat, p: Permission)
    requires i < |policies|
    ensures var one := LeafResult(env, user, PlainOf(env, SetOf(policies[i])), p);
      && LeafResult(env, user, PlainOf(env, StatementsOf(policies[..i + 1])), p)
         == OrOf([LeafResult(env, user, PlainOf(env, StatementsOf(policies[..i])), p), one])
      && (one == Deny ==> LeafResult(env, user, PlainOf(env, StatementsOf(policies)), p) == Deny)
  {
    StatementsOfNext(policies, i);
    var before, all, one := StatementsOf(policies[..i]), StatementsOf(policies), SetOf(policies[i]);
    PlainOfUnion(env, before, one);
    LeafOfUnion(env, user, PlainOf(env, before), PlainOf(env, one), p);
    PlainOfUnion(env, all, one);
    LeafOfUnion(env, user, PlainOf(env, all), PlainOf(env, one), p);
  }

  lemma PlainOfUnion(env: Env, a: set<Statement>, b: set<Statement>)
    ensures PlainOf(env, a + b) == PlainOf(env, a) + PlainOf(env, b)
  {}

  /** The inner loops of CheckPermission over the resources and actions of one statement. */
  method FilterStatement(env: Env, user: string, s: Statement, resources: seq<string>, p: Permission)
    returns (denies: bool, allows: bool)
    requires ConditionFree(s) && Resources(env, s) == Some(resources)
    ensures denies <==> Opposes(Judge(env, user, s, p))
    ensures allows <==> Judge(env, user, s, p).Allows?
  {
    denies, allows := false, false;
    for i := 0 to |resources|
      invariant !denies
      invariant allows <==> s.effect != EFFECT_DENY && ResourceBefore(env, user, s, p, resources, i) && ActionBefore(env, s, p, |s.action|)
      invariant s.effect == EFFECT_DENY ==> !(ResourceBefore(env, user, s, p, resources, i) && ActionBefore(env, s, p, |s.action|))
    {
      var resource := InterpolateUser(resources[i], user);
      if !Arn.ArnMatch(env.glob, resource, p.resource) {
        continue;
      }
      assert ResourceHits(env, user, resources[i], p.resource);
      for j := 0 to |s.action|
        invariant !denies
        invariant s.effect == EFFECT_DENY ==> !allows && !ActionBefore(env, s, p, j)
        invariant s.effect != EFFECT_DENY ==> (allows <==>
          ActionBefore(env, s, p, j) || (ResourceBefore(env, user, s, p, resources, i) && ActionBefore(env, s, p, |s.action|)))
      {
        if !env.glob(s.action[j], p.action) {
          continue;
        }
        if s.effect == EFFECT_DENY {
          return true, false;
        }
        allows := true;
      }
    }
  }

  method FilterPolicy(env: Env, user: string, policy: Policy, p: Permission) returns (denies: bool, allows: bool)
    ensures LeafResult(env, user, PlainOf(env, SetOf(policy)), p)
         == if denies then Deny else if allows then Allow else Neutral
  {
    denies, allows := false, false;
    for i := 0 to |policy|
      invariant forall j :: 0 <= j < i && Plain(env, policy[j]) ==> !Opposes(Judge(env, user, policy[j], p))
      invariant allows <==> exists j :: 0 <= j < i && Plain(env, policy[j]) && Judge(env, user, policy[j], p).Allows?
    {
      if |policy[i].condition| > 0 {
        continue;
      }
      var resources := Arn.ParsePolicyResourceAsList(env.unmarshal, policy[i].resource);
      if resources.None? {
        continue;
      }
      var d, a := FilterStatement(env, user, policy[i], resources.value, p);
      if d {
        assert policy[i] in PlainOf(env, SetOf(policy));
        return true, false;
      }
      allows := allows || a;
    }
    assert allows ==> exists j :: 0 <= j < |policy| && policy[j] in PlainOf(env, SetOf(policy)) && Judge(env, user, policy[j], p).Allows?;
  }

  /** HasActionOnAnyResource. */
  method HasActionOnAnyResource(env: Env, policies: seq<Policy>, action: string) returns (has: bool)
    ensures has <==> exists s :: s in StatementsOf(policies) && GrantsAction(env, s, action)
    ensures has <==> exists s, a :: s in StatementsOf(policies) && s.effect == "allow" && a in s.action && env.glob(a, action)
  {
    for i := 0 to |policies|
      invariant forall j, s :: 0 <= j < i && s in policies[j] ==> !GrantsAction(env, s, action)
    {
      for j := 0 to |policies[i]|
        invariant forall k :: 0 <= k < j ==> !GrantsAction(env, policies[i][k], action)
      {
        var stmt := policies[i][j];
        if stmt.effect == EFFECT_ALLOW {
          for k := 0 to |stmt.action|
            invariant forall l :: 0 <= l < k ==> !env.glob(stmt.action[l], action)
          {
            if env.glob(stmt.action[k], action) {
              assert stmt.action[k] in stmt.action && stmt in policies[i] && stmt in StatementsOf(policies);
              return true;
            }
          }
        }
      }
    }
    return false;
  }

  ghost predicate GrantsAction(env: Env, s: Statement, action: string) {
    s.effect == EFFECT_ALLOW && exists a :: a in s.action && env.glob(a, action)
  }

  /** On policies without conditions and with resources that parse, the filter is the leaf
      decision. */
  lemma FilterAgrees(env: Env, user: string, stmts: set<Statement>, p: Permission)
    requires forall s :: s in stmts ==> Plain(env, s)
    ensures LeafResult(env, user, PlainOf(env, stmts), p) == LeafResult(env, user, stmts, p)
  {
    assert PlainOf(env, stmts) == stmts;
  }

  /** In general the filter errs in two ways only, exactly as follows. It grants what a
      statement with a condition or an unparseable resource opposes, when some plain statement
      allows it and none denies it; and it misses what only statements with conditions grant. */
  lemma FilterDiffers(env: Env, user: string, stmts: set<Statement>, p: Permission)
    ensures var filter, leaf := LeafResult(env, user, PlainOf(env, stmts), p), LeafResult(env, user, stmts, p);
      && (filter == Deny ==> leaf == Deny)
      && (filter == Allow && leaf != Allow <==>
            && (exists s :: s in stmts && Plain(env, s) && Judge(env, user, s, p).Allows?)
            && (forall s :: s in stmts && Plain(env, s) ==> !Opposes(Judge(env, user, s, p)))
            && (exists s :: s in stmts && !Plain(env, s) && Opposes(Judge(env, user, s, p))))
      && (filter != Allow && leaf == Allow <==>
            && (exists s :: s in stmts && !ConditionFree(s) && Judge(env, user, s, p).Allows?)
            && (forall s :: s in stmts ==> !Opposes(Judge(env, user, s, p)))
            && (forall s :: s in stmts && Plain(env, s) ==> !Judge(env, user, s, p).Allows?))
  {
    var plain := PlainOf(env, stmts);
    assert forall s :: s in plain <==> s in stmts && Plain(env, s);
  }

  /** A granted permission is found by the cheaper check for its action. */
  lemma FilterImpliesHasAction(env: Env, user: string, stmts: set<Statement>, p: Permission)
    requires forall s :: s in stmts ==> s.effect == EFFECT_ALLOW || s.effect == EFFECT_DENY
    requires LeafResult(env, user, stmts, p) == Allow
    ensures exists s :: s in stmts && GrantsAction(env, s, p.action)
  {
    var s :| s in stmts && Judge(env, user, s, p).Allows?;
    assert GrantsAction(env, s, p.action);
  }

  // ----- fetching the policies -----

  /** A page of policies, and the token of the next one; an empty token ends the listing. */
  datatype Page = Page(policies: seq<Policy>, nextPageToken: string)

  /** The server is asked for the tokens one after the other, and the last of them ends the
      listing or is answered with an error. */
  ghost predicate Serves(pages: string -> Option<Page>, tokens: seq<string>) {
    && tokens != [] && tokens[0] == ""
    && (forall i, j :: 0 <= i < |tokens| && j == i + 1 < |tokens| ==> pages(tokens[i]).Some? && pages(tokens[i]).value.nextPageToken == tokens[j] != "")
    && (pages(tokens[|tokens| - 1]).Some? ==> pages(tokens[|tokens| - 1]).value.nextPageToken == "")
  }

  ghost function Listed(pages: string -> Option<Page>, tokens: seq<string>): seq<Policy>
    requires forall i :: 0 <= i < |tokens| ==> pages(tokens[i]).Some?
  {
    if tokens == [] then []
    else Listed(pages, tokens[..|tokens| - 1]) + pages(tokens[|tokens| - 1]).value.policies
  }

  /** listAllEffectivePolicies: every page once, in order, or the error of one of them. */
  method ListAllEffectivePolicies(pages: string -> Option<Page>, ghost tokens: seq<string>)
    returns (r: Option<seq<Policy>>)
    requires Serves(pages, tokens)
    ensures r.Some? <==> forall i :: 0 <= i < |tokens| ==> pages(tokens[i]).Some?
    ensures r.Some? ==> r.value == Listed(pages, tokens)
  {
    var hasMore := true;
    var after := "";
    var policies: seq<Policy> := [];
    ghost var n := 0;
    while hasMore
      invariant 0 <= n <= |tokens| && (hasMore <==> n < |tokens|)
      invariant hasMore ==> after == tokens[n]
      invariant forall i :: 0 <= i < n ==> pages(tokens[i]).Some?
      invariant policies == Listed(pages, tokens[..n])
      decreases |tokens| - n
    {
      var page := pages(after);
      if page.None? {
        return None;
      }
      policies := policies + page.value.policies;
      after := page.value.nextPageToken;
      hasMore := page.value.nextPageToken != "";
      assert tokens[..n + 1][..n] == tokens[..n];
      assert n + 1 < |tokens| ==> after == tokens[n + 1];
      n := n + 1;
    }
    assert tokens[..n] == tokens;
    r := Some(policies);
  }
}
