/** How far a decision depends on the order in which Go iterates the condition maps. The maps
    are iterated afresh for every statement at every permission that is looked at, so each of
    these visits chooses one of the possible outcomes, whatever the others have chosen. */
module PolicyConditions {
  import opened Conditions
  import opened Policy

  /** One possible outcome of the conditions of every statement, at one permission. */
  ghost predicate Chosen(net: NetLib, ctx: Context, stmts: seq<Statement>, outcomes: seq<Outcome>) {
    |outcomes| == |stmts| && forall i :: 0 <= i < |stmts| ==> ConditionsCan(net, stmts[i].condition, ctx, outcomes[i])
  }

  /** What the statements then decide. */
  ghost function LeafWith(env: Env, user: string, stmts: seq<Statement>, p: Permission, outcomes: seq<Outcome>): CheckResult
    requires |outcomes| == |stmts|
  {
    if exists i :: 0 <= i < |stmts| && Opposes(JudgeWith(env, user, stmts[i], p, outcomes[i])) then Deny
    else if exists i :: 0 <= i < |stmts| && JudgeWith(env, user, stmts[i], p, outcomes[i]).Allows? then Allow
    else Neutral
  }

  /** The statements, in the order of their policies and each as often as it occurs, can decide
      like this at a leaf. */
  ghost predicate LeafCan(net: NetLib, ctx: Context, env: Env, user: string, stmts: seq<Statement>, p: Permission, r: CheckResult) {
    exists outcomes :: Chosen(net, ctx, stmts, outcomes) && r == LeafWith(env, user, stmts, p, outcomes)
  }

  /** The tree can come out like this. */
  ghost predicate EvalCan(net: NetLib, ctx: Context, env: Env, user: string, stmts: seq<Statement>, node: Node, r: CheckResult) {
    match node
    case Leaf(p) => LeafCan(net, ctx, env, user, stmts, p, r)
    case Or(nodes) =>
      exists rs: seq<CheckResult> :: |rs| == |nodes| && r == OrOf(rs)
        && forall i :: 0 <= i < |nodes| ==> EvalCan(net, ctx, env, user, stmts, nodes[i], rs[i])
    case And(nodes) =>
      exists rs: seq<CheckResult> :: |rs| == |nodes| && r == AndOf(rs)
        && forall i :: 0 <= i < |nodes| ==> EvalCan(net, ctx, env, user, stmts, nodes[i], rs[i])
    case Unknown => r == Deny
  }

  ghost function Members(stmts: seq<Statement>): set<Statement> {
    set s | s in stmts
  }

  /** The evaluator with one outcome for each condition map is among the possibilities. */
  lemma {:induction false} EvalIsPossible(net: NetLib, ctx: Context, env: Env, user: string, stmts: seq<Statement>, node: Node)
    requires forall c :: ConditionsCan(net, c, ctx, env.conditions(c))
    ensures EvalCan(net, ctx, env, user, stmts, node, Eval(env, user, Members(stmts), node))
    decreases node
  {
    match node
    case Leaf(p) => LeafIsPossible(net, ctx, env, user, stmts, p);
    case Or(nodes) =>
      EvalsArePossible(net, ctx, env, user, stmts, nodes);
      assert Eval(env, user, Members(stmts), node) == OrOf(EvalAll(env, user, Members(stmts), nodes));
    case And(nodes) =>
      EvalsArePossible(net, ctx, env, user, stmts, nodes);
      assert Eval(env, user, Members(stmts), node) == AndOf(EvalAll(env, user, Members(stmts), nodes));
    case Unknown =>
  }

  lemma {:induction false} EvalsArePossible(net: NetLib, ctx: Context, env: Env, user: string, stmts: seq<Statement>, nodes: seq<Node>)
    requires forall c :: ConditionsCan(net, c, ctx, env.conditions(c))
    ensures var rs := EvalAll(env, user, Members(stmts), nodes);
      forall i :: 0 <= i < |nodes| ==> EvalCan(net, ctx, env, user, stmts, nodes[i], rs[i])
    decreases nodes
  {
    forall i | 0 <= i < |nodes|
      ensures EvalCan(net, ctx, env, user, stmts, nodes[i], Eval(env, user, Members(stmts), nodes[i]))
    {
      EvalIsPossible(net, ctx, env, user, stmts, nodes[i]);
    }
  }

  lemma LeafIsPossible(net: NetLib, ctx: Context, env: Env, user: string, stmts: seq<Statement>, p: Permission)
    requires forall c :: ConditionsCan(net, c, ctx, env.conditions(c))
    ensures LeafCan(net, ctx, env, user, stmts, p, LeafResult(env, user, Members(stmts), p))
  {
    var outcomes := seq(|stmts|, i requires 0 <= i < |stmts| => env.conditions(stmts[i].condition));
    assert Chosen(net, ctx, stmts, outcomes);
    forall i | 0 <= i < |stmts|
      ensures JudgeWith(env, user, stmts[i], p, outcomes[i]) == Judge(env, user, stmts[i], p) && stmts[i] in Members(stmts)
    {
    }
    assert forall s :: s in Members(stmts) ==> exists i :: 0 <= i < |stmts| && stmts[i] == s;
  }

  // ----- statements on which the order tells -----

  /** Whether the statement is skipped or refuses depends on the order. */
  ghost predicate Ambiguous(net: NetLib, ctx: Context, s: Statement) {
    && !ConditionFree(s)
    && ConditionsCan(net, s.condition, ctx, Conditions.Fail)
    && exists e :: ConditionsCan(net, s.condition, ctx, Failed(e))
  }

  /** For a statement that is not ambiguous, all orders lead to the same verdict. */
  lemma VerdictIsFixed(net: NetLib, ctx: Context, env: Env, user: string, s: Statement, p: Permission, r: Outcome, q: Outcome)
    requires !Ambiguous(net, ctx, s)
    requires ConditionsCan(net, s.condition, ctx, r) && ConditionsCan(net, s.condition, ctx, q)
    ensures JudgeWith(env, user, s, p, r) == JudgeWith(env, user, s, p, q)
  {
    if r == Pass {
      PassIsOrderIndependent(net, s.condition, ctx, q);
    } else if q == Pass {
      PassIsOrderIndependent(net, s.condition, ctx, r);
    }
  }

  lemma LeafIsFixed(net: NetLib, ctx: Context, env: Env, user: string, stmts: seq<Statement>, p: Permission, r: CheckResult, q: CheckResult)
    requires forall s :: s in stmts ==> !Ambiguous(net, ctx, s)
    requires LeafCan(net, ctx, env, user, stmts, p, r) && LeafCan(net, ctx, env, user, stmts, p, q)
    ensures r == q
  {
    var a :| Chosen(net, ctx, stmts, a) && r == LeafWith(env, user, stmts, p, a);
    var b :| Chosen(net, ctx, stmts, b) && q == LeafWith(env, user, stmts, p, b);
    forall i | 0 <= i < |stmts|
      ensures JudgeWith(env, user, stmts[i], p, a[i]) == JudgeWith(env, user, stmts[i], p, b[i])
    {
      VerdictIsFixed(net, ctx, env, user, stmts[i], p, a[i], b[i]);
    }
  }

  /** Without ambiguous statements, no tree's result depends on iteration orders. */
  lemma {:induction false} TreeIsFixed(net: NetLib, ctx: Context, env: Env, user: string, stmts: seq<Statement>, node: Node, r: CheckResult, q: CheckResult)
    requires forall s :: s in stmts ==> !Ambiguous(net, ctx, s)
    requires EvalCan(net, ctx, env, user, stmts, node, r) && EvalCan(net, ctx, env, user, stmts, node, q)
    ensures r == q
    decreases node
  {
    match node
    case Leaf(p) => LeafIsFixed(net, ctx, env, user, stmts, p, r, q);
    case Or(nodes) =>
      var rs: seq<CheckResult> :| |rs| == |nodes| && r == OrOf(rs) && forall i :: 0 <= i < |nodes| ==> EvalCan(net, ctx, env, user, stmts, nodes[i], rs[i]);
      var qs: seq<CheckResult> :| |qs| == |nodes| && q == OrOf(qs) && forall i :: 0 <= i < |nodes| ==> EvalCan(net, ctx, env, user, stmts, nodes[i], qs[i]);
      TreesAreFixed(net, ctx, env, user, stmts, nodes, rs, qs);
    case And(nodes) =>
      var rs: seq<CheckResult> :| |rs| == |nodes| && r == AndOf(rs) && forall i :: 0 <= i < |nodes| ==> EvalCan(net, ctx, env, user, stmts, nodes[i], rs[i]);
      var qs: seq<CheckResult> :| |qs| == |nodes| && q == AndOf(qs) && forall i :: 0 <= i < |nodes| ==> EvalCan(net, ctx, env, user, stmts, nodes[i], qs[i]);
      TreesAreFixed(net, ctx, env, user, stmts, nodes, rs, qs);
    case Unknown =>
  }

  lemma {:induction false} TreesAreFixed(net: NetLib, ctx: Context, env: Env, user: string, stmts: seq<Statement>, nodes: seq<Node>,
                                         rs: seq<CheckResult>, qs: seq<CheckResult>)
    requires forall s :: s in stmts ==> !Ambiguous(net, ctx, s)
    requires |rs| == |nodes| == |qs|
    requires forall i :: 0 <= i < |nodes| ==> EvalCan(net, ctx, env, user, stmts, nodes[i], rs[i])
    requires forall i :: 0 <= i < |nodes| ==> EvalCan(net, ctx, env, user, stmts, nodes[i], qs[i])
    ensures rs == qs
    decreases nodes
  {
    forall i | 0 <= i < |nodes|
      ensures rs[i] == qs[i]
    {
      TreeIsFixed(net, ctx, env, user, stmts, nodes[i], rs[i], qs[i]);
    }
  }

  // ----- exactly when a leaf is fixed -----

  lemma SomethingPossible(net: NetLib, ctx: Context, c: ConditionMap)
    ensures exists r :: ConditionsCan(net, c, ctx, r)
  {
    if AllPass(net, c, ctx) {
      ConditionsLaw(net, c, ctx, Pass);
    } else {
      var op :| op in c && (OperatorFactory(op).None? || exists f :: f in c[op] && !FieldOutcome(net, OperatorFactory(op).value, ctx, f, c[op][f], Pass));
      if OperatorFactory(op).None? {
        ConditionsLaw(net, c, ctx, Failed(UnsupportedOperator));
      } else {
        var f :| f in c[op] && !FieldOutcome(net, OperatorFactory(op).value, ctx, f, c[op][f], Pass);
        var r := FieldOutcomeExists(net, OperatorFactory(op).value, ctx, f, c[op][f]);
        ConditionsLaw(net, c, ctx, r);
      }
    }
  }

  /** Two extremes: a statement is skipped whenever it can be, or refuses whenever it can. */
  ghost function Choice(net: NetLib, ctx: Context, c: ConditionMap, skip: bool): (r: Outcome)
    ensures ConditionsCan(net, c, ctx, r)
    ensures skip && ConditionsCan(net, c, ctx, Conditions.Fail) ==> r == Conditions.Fail
    ensures !skip && (exists e :: ConditionsCan(net, c, ctx, Failed(e))) ==> r.Failed?
  {
    SomethingPossible(net, ctx, c);
    if skip && ConditionsCan(net, c, ctx, Conditions.Fail) then Conditions.Fail
    else if !skip && exists e :: ConditionsCan(net, c, ctx, Failed(e)) then
      var e :| ConditionsCan(net, c, ctx, Failed(e));
      Failed(e)
    else
      var r :| ConditionsCan(net, c, ctx, r);
      r
  }

  ghost function Choices(net: NetLib, ctx: Context, stmts: seq<Statement>, skip: bool): (outcomes: seq<Outcome>)
    ensures Chosen(net, ctx, stmts, outcomes)
    ensures forall i :: 0 <= i < |stmts| ==> outcomes[i] == Choice(net, ctx, stmts[i].condition, skip)
  {
    seq(|stmts|, i requires 0 <= i < |stmts| => Choice(net, ctx, stmts[i].condition, skip))
  }

  /** Some order makes the statement oppose; for one that is not ambiguous, every order does. */
  ghost predicate CanOppose(net: NetLib, ctx: Context, env: Env, user: string, s: Statement, p: Permission) {
    exists o :: ConditionsCan(net, s.condition, ctx, o) && Opposes(JudgeWith(env, user, s, p, o))
  }

  ghost predicate OneResult(net: NetLib, ctx: Context, env: Env, user: string, stmts: seq<Statement>, p: Permission) {
    forall r, q :: LeafCan(net, ctx, env, user, stmts, p, r) && LeafCan(net, ctx, env, user, stmts, p, q) ==> r == q
  }

  /** All orders lead to the same result at a leaf exactly when no statement is ambiguous, or
      some unambiguous one opposes anyway. */
  lemma LeafIsFixedIff(net: NetLib, ctx: Context, env: Env, user: string, stmts: seq<Statement>, p: Permission)
    ensures OneResult(net, ctx, env, user, stmts, p) <==>
      || (forall s :: s in stmts ==> !Ambiguous(net, ctx, s))
      || exists s :: s in stmts && !Ambiguous(net, ctx, s) && CanOppose(net, ctx, env, user, s, p)
  {
    if forall s :: s in stmts ==> !Ambiguous(net, ctx, s) {
      OneWithoutAmbiguous(net, ctx, env, user, stmts, p);
    } else if s :| s in stmts && !Ambiguous(net, ctx, s) && CanOppose(net, ctx, env, user, s, p) {
      OneWhenOpposed(net, ctx, env, user, stmts, s, p);
    } else {
      var s :| s in stmts && Ambiguous(net, ctx, s);
      TwoResults(net, ctx, env, user, stmts, s, p);
    }
  }

  lemma OneWithoutAmbiguous(net: NetLib, ctx: Context, env: Env, user: string, stmts: seq<Statement>, p: Permission)
    requires forall s :: s in stmts ==> !Ambiguous(net, ctx, s)
    ensures OneResult(net, ctx, env, user, stmts, p)
  {
    forall r, q | LeafCan(net, ctx, env, user, stmts, p, r) && LeafCan(net, ctx, env, user, stmts, p, q)
      ensures r == q
    {
      LeafIsFixed(net, ctx, env, user, stmts, p, r, q);
    }
  }

  lemma OneWhenOpposed(net: NetLib, ctx: Context, env: Env, user: string, stmts: seq<Statement>, s: Statement, p: Permission)
    requires s in stmts && !Ambiguous(net, ctx, s) && CanOppose(net, ctx, env, user, s, p)
    ensures OneResult(net, ctx, env, user, stmts, p)
  {
    forall r | LeafCan(net, ctx, env, user, stmts, p, r)
      ensures r == Deny
    {
      OpposedAnyway(net, ctx, env, user, stmts, s, p, r);
    }
  }

  lemma TwoResults(net: NetLib, ctx: Context, env: Env, user: string, stmts: seq<Statement>, s: Statement, p: Permission)
    requires forall t :: t in stmts && !Ambiguous(net, ctx, t) ==> !CanOppose(net, ctx, env, user, t, p)
    requires s in stmts && Ambiguous(net, ctx, s)
    ensures !OneResult(net, ctx, env, user, stmts, p)
  {
    var skipping, refusing := Choices(net, ctx, stmts, true), Choices(net, ctx, stmts, false);
    SkippingDoesNotDeny(net, ctx, env, user, stmts, p);
    RefusingDenies(net, ctx, env, user, stmts, s, p, refusing);
    IsPossible(net, ctx, env, user, stmts, p, skipping);
    IsPossible(net, ctx, env, user, stmts, p, refusing);
  }

  lemma IsPossible(net: NetLib, ctx: Context, env: Env, user: string, stmts: seq<Statement>, p: Permission, outcomes: seq<Outcome>)
    requires Chosen(net, ctx, stmts, outcomes)
    ensures LeafCan(net, ctx, env, user, stmts, p, LeafWith(env, user, stmts, p, outcomes))
  {
  }

  lemma OpposedAnyway(net: NetLib, ctx: Context, env: Env, user: string, stmts: seq<Statement>, s: Statement, p: Permission, r: CheckResult)
    requires s in stmts && !Ambiguous(net, ctx, s) && CanOppose(net, ctx, env, user, s, p)
    requires LeafCan(net, ctx, env, user, stmts, p, r)
    ensures r == Deny
  {
    var outcomes :| Chosen(net, ctx, stmts, outcomes) && r == LeafWith(env, user, stmts, p, outcomes);
    var o :| ConditionsCan(net, s.condition, ctx, o) && Opposes(JudgeWith(env, user, s, p, o));
    var i :| 0 <= i < |stmts| && stmts[i] == s;
    VerdictIsFixed(net, ctx, env, user, s, p, o, outcomes[i]);
  }

  lemma SkippingDoesNotDeny(net: NetLib, ctx: Context, env: Env, user: string, stmts: seq<Statement>, p: Permission)
    requires forall s :: s in stmts && !Ambiguous(net, ctx, s) ==> !CanOppose(net, ctx, env, user, s, p)
    ensures LeafWith(env, user, stmts, p, Choices(net, ctx, stmts, true)) != Deny
  {
    var outcomes := Choices(net, ctx, stmts, true);
    forall i | 0 <= i < |stmts|
      ensures !Opposes(JudgeWith(env, user, stmts[i], p, outcomes[i]))
    {
      assert stmts[i] in stmts && ConditionsCan(net, stmts[i].condition, ctx, outcomes[i]);
    }
  }

  /** A condition that cannot be evaluated makes its statement oppose. */
  lemma FailedRefuses(env: Env, user: string, s: Statement, p: Permission, o: Outcome)
    requires !ConditionFree(s) && o.Failed?
    ensures JudgeWith(env, user, s, p, o) == Refuses
  {
  }

  lemma OpposedDenies(env: Env, user: string, stmts: seq<Statement>, p: Permission, outcomes: seq<Outcome>, i: nat, v: Verdict)
    requires |outcomes| == |stmts| && i < |stmts|
    requires v == JudgeWith(env, user, stmts[i], p, outcomes[i]) && Opposes(v)
    ensures LeafWith(env, user, stmts, p, outcomes) == Deny
  {
  }

  lemma ChoiceRefuses(net: NetLib, ctx: Context, s: Statement)
    requires Ambiguous(net, ctx, s)
    ensures Choice(net, ctx, s.condition, false).Failed? && !ConditionFree(s)
  {
  }

  lemma RefusingDenies(net: NetLib, ctx: Context, env: Env, user: string, stmts: seq<Statement>, s: Statement, p: Permission, outcomes: seq<Outcome>)
    requires s in stmts && Ambiguous(net, ctx, s)
    requires outcomes == Choices(net, ctx, stmts, false)
    ensures LeafWith(env, user, stmts, p, outcomes) == Deny
  {
    var i :| 0 <= i < |stmts| && stmts[i] == s;
    ChoiceRefuses(net, ctx, s);
    FailedRefuses(env, user, s, p, outcomes[i]);
    OpposedDenies(env, user, stmts, p, outcomes, i, Refuses);
  }
}
