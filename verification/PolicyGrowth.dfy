/** What an added allow statement can do to the result of a tree of permissions. */
module PolicyGrowth {
  import opened Options
  import Conditions
  import opened Policy
  import opened PolicyExamples

  /** The results of a tree before and after. */
  type Move = (CheckResult, CheckResult)

  /** What a node makes of the result of its first child and of what it makes of the others. */
  function Combine(all: bool, first: CheckResult, others: CheckResult): CheckResult {
    if all then (if first == Allow then others else first)
    else if first == Deny || others == Deny then Deny
    else if first == Allow || others == Allow then Allow
    else Neutral
  }

  /** The moves of a tree, computed along its shape. */
  function Moves(node: Node): set<Move>
    decreases node
  {
    match node
    case Leaf(_) => {(Allow, Allow), (Neutral, Neutral), (Deny, Deny), (Neutral, Allow)}
    case Or(nodes) => MovesOfAll(false, nodes)
    case And(nodes) => MovesOfAll(true, nodes)
    case Unknown => {(Deny, Deny)}
  }

  function MovesOfAll(all: bool, nodes: seq<Node>): set<Move>
    decreases nodes
  {
    if nodes == [] then {if all then (Allow, Allow) else (Neutral, Neutral)}
    else
      set m, n | m in Moves(nodes[0]) && n in MovesOfAll(all, nodes[1..]) :: CombineMoves(all, m, n)
  }

  function CombineMoves(all: bool, first: Move, others: Move): Move {
    (Combine(all, first.0, others.0), Combine(all, first.1, others.1))
  }

  // ----- every move is among them -----

  ghost function ResultOfAll(all: bool, rs: seq<CheckResult>): CheckResult {
    if all then AndOf(rs) else OrOf(rs)
  }

  lemma ResultOfFirst(all: bool, rs: seq<CheckResult>)
    requires rs != []
    ensures ResultOfAll(all, rs) == Combine(all, rs[0], ResultOfAll(all, rs[1..]))
  {
    assert rs == [rs[0]] + rs[1..];
  }

  ghost function EvalOfAll(all: bool, env: Env, user: string, stmts: set<Statement>, nodes: seq<Node>): CheckResult {
    ResultOfAll(all, EvalAll(env, user, stmts, nodes))
  }

  lemma EvalOfFirst(all: bool, env: Env, user: string, stmts: set<Statement>, nodes: seq<Node>)
    requires nodes != []
    ensures EvalOfAll(all, env, user, stmts, nodes)
         == Combine(all, Eval(env, user, stmts, nodes[0]), EvalOfAll(all, env, user, stmts, nodes[1..]))
  {
    ResultOfFirst(all, EvalAll(env, user, stmts, nodes));
    assert EvalAll(env, user, stmts, nodes)[1..] == EvalAll(env, user, stmts, nodes[1..]);
  }

  lemma EvalIsOfAll(env: Env, user: string, stmts: set<Statement>, nodes: seq<Node>)
    ensures Eval(env, user, stmts, Or(nodes)) == EvalOfAll(false, env, user, stmts, nodes)
    ensures Eval(env, user, stmts, And(nodes)) == EvalOfAll(true, env, user, stmts, nodes)
  {
    assert Eval(env, user, stmts, Or(nodes)) == OrOf(EvalAll(env, user, stmts, nodes));
    assert Eval(env, user, stmts, And(nodes)) == AndOf(EvalAll(env, user, stmts, nodes));
  }

  ghost function MoveOf(env: Env, user: string, stmts: set<Statement>, a: Statement, node: Node): Move {
    (Eval(env, user, stmts, node), Eval(env, user, stmts + {a}, node))
  }

  /** Whatever the policies say, adding an allow statement makes one of the moves of the tree. */
  lemma {:induction false} MakesMove(env: Env, user: string, stmts: set<Statement>, a: Statement, node: Node)
    requires WellFormedAllow(env, a)
    ensures MoveOf(env, user, stmts, a, node) in Moves(node)
    decreases node
  {
    match node
    case Leaf(p) => LeafOfMore(env, user, stmts, a, p);
    case Or(nodes) =>
      MakesMoveOfAll(false, env, user, stmts, a, nodes);
      EvalIsOfAll(env, user, stmts, nodes);
      EvalIsOfAll(env, user, stmts + {a}, nodes);
    case And(nodes) =>
      MakesMoveOfAll(true, env, user, stmts, a, nodes);
      EvalIsOfAll(env, user, stmts, nodes);
      EvalIsOfAll(env, user, stmts + {a}, nodes);
    case Unknown =>
  }

  lemma {:induction false} MakesMoveOfAll(all: bool, env: Env, user: string, stmts: set<Statement>, a: Statement, nodes: seq<Node>)
    requires WellFormedAllow(env, a)
    ensures (EvalOfAll(all, env, user, stmts, nodes), EvalOfAll(all, env, user, stmts + {a}, nodes)) in MovesOfAll(all, nodes)
    decreases nodes
  {
    if nodes != [] {
      MakesMove(env, user, stmts, a, nodes[0]);
      MakesMoveOfAll(all, env, user, stmts, a, nodes[1..]);
      EvalOfFirst(all, env, user, stmts, nodes);
      EvalOfFirst(all, env, user, stmts + {a}, nodes);
      var m := MoveOf(env, user, stmts, a, nodes[0]);
      var n := (EvalOfAll(all, env, user, stmts, nodes[1..]), EvalOfAll(all, env, user, stmts + {a}, nodes[1..]));
      assert CombineMoves(all, m, n) in MovesOfAll(all, nodes);
    }
  }

  // ----- every one of them is made -----

  function Actions(node: Node): set<string>
    decreases node
  {
    match node
    case Leaf(p) => {p.action}
    case Or(nodes) => ActionsOfAll(nodes)
    case And(nodes) => ActionsOfAll(nodes)
    case Unknown => {}
  }

  function ActionsOfAll(nodes: seq<Node>): set<string>
    decreases nodes
  {
    if nodes == [] then {} else Actions(nodes[0]) + ActionsOfAll(nodes[1..])
  }

  /** No two leaves have the same action. */
  predicate DifferentActions(node: Node)
    decreases node
  {
    match node
    case Or(nodes) => DifferentActionsOfAll(nodes)
    case And(nodes) => DifferentActionsOfAll(nodes)
    case _ => true
  }

  predicate DifferentActionsOfAll(nodes: seq<Node>)
    decreases nodes
  {
    nodes == [] || (DifferentActions(nodes[0]) && DifferentActionsOfAll(nodes[1..]) && Actions(nodes[0]) !! ActionsOfAll(nodes[1..]))
  }

  /** What is decided on each action before and after; on others, nothing is. */
  type Plan = map<string, Move>

  predicate Possible(plan: Plan) {
    forall a :: a in plan ==> plan[a] in Moves(Leaf(Permission(a, "")))
  }

  function Planned(plan: Plan, action: string): Move {
    if action in plan then plan[action] else (Neutral, Neutral)
  }

  function Decided(plan: Plan, node: Node): Move
    decreases node
  {
    match node
    case Leaf(p) => Planned(plan, p.action)
    case Or(nodes) => DecidedOfAll(false, plan, nodes)
    case And(nodes) => DecidedOfAll(true, plan, nodes)
    case Unknown => (Deny, Deny)
  }

  function DecidedOfAll(all: bool, plan: Plan, nodes: seq<Node>): Move
    decreases nodes
  {
    if nodes == [] then (if all then (Allow, Allow) else (Neutral, Neutral))
    else CombineMoves(all, Decided(plan, nodes[0]), DecidedOfAll(all, plan, nodes[1..]))
  }

  predicate Agree(a: Plan, b: Plan, actions: set<string>) {
    forall x :: x in actions ==> Planned(a, x) == Planned(b, x)
  }

  lemma {:induction false} DecidedAlike(a: Plan, b: Plan, node: Node)
    requires Agree(a, b, Actions(node))
    ensures Decided(a, node) == Decided(b, node)
    decreases node
  {
    match node
    case Leaf(p) =>
    case Or(nodes) => DecidedAlikeOfAll(false, a, b, nodes);
    case And(nodes) => DecidedAlikeOfAll(true, a, b, nodes);
    case Unknown =>
  }

  lemma {:induction false} DecidedAlikeOfAll(all: bool, a: Plan, b: Plan, nodes: seq<Node>)
    requires Agree(a, b, ActionsOfAll(nodes))
    ensures DecidedOfAll(all, a, nodes) == DecidedOfAll(all, b, nodes)
    decreases nodes
  {
    if nodes != [] {
      DecidedAlike(a, b, nodes[0]);
      DecidedAlikeOfAll(all, a, b, nodes[1..]);
    }
  }

  /** With different actions, the leaves can be decided independently. */
  lemma {:induction false} MoveIsPlanned(node: Node, m: Move) returns (plan: Plan)
    requires DifferentActions(node) && m in Moves(node)
    ensures Possible(plan) && plan.Keys <= Actions(node) && Decided(plan, node) == m
    decreases node
  {
    match node
    case Leaf(p) => plan := map[p.action := m];
    case Or(nodes) => plan := MoveOfAllIsPlanned(false, nodes, m);
    case And(nodes) => plan := MoveOfAllIsPlanned(true, nodes, m);
    case Unknown => plan := map[];
  }

  lemma {:induction false} MoveOfAllIsPlanned(all: bool, nodes: seq<Node>, m: Move) returns (plan: Plan)
    requires DifferentActionsOfAll(nodes) && m in MovesOfAll(all, nodes)
    ensures Possible(plan) && plan.Keys <= ActionsOfAll(nodes) && DecidedOfAll(all, plan, nodes) == m
    decreases nodes
  {
    if nodes == [] {
      plan := map[];
    } else {
      var x, y :| x in Moves(nodes[0]) && y in MovesOfAll(all, nodes[1..]) && m == CombineMoves(all, x, y);
      var first := MoveIsPlanned(nodes[0], x);
      var others := MoveOfAllIsPlanned(all, nodes[1..], y);
      plan := first + others;
      DecidedAlike(plan, first, nodes[0]);
      DecidedAlikeOfAll(all, plan, others, nodes[1..]);
    }
  }

  // ----- statements that decide so -----

  function DecisionOn(plan: Plan, action: string): Statement
    requires action in plan
  {
    Rule(if plan[action].0 == Deny then EFFECT_DENY else EFFECT_ALLOW, action, false)
  }

  /** The policies before. */
  function PoliciesFor(plan: Plan): set<Statement> {
    set a | a in plan && plan[a].0 != Neutral :: DecisionOn(plan, a)
  }

  /** The added statement allows these actions on every resource. */
  function AllowOf(actions: seq<string>): Statement {
    Statement(EFFECT_ALLOW, actions, "*", map[])
  }

  lemma JudgeAllowOf(user: string, actions: seq<string>, p: Permission)
    ensures WellFormedAllow(ExactEnv(Conditions.Pass), AllowOf(actions))
    ensures Judge(ExactEnv(Conditions.Pass), user, AllowOf(actions), p) == if p.action in actions then Allows else Silent
  {
    AnyResource(user);
    var env, s := ExactEnv(Conditions.Pass), AllowOf(actions);
    assert Resources(env, s) == Some(["*"]);
    assert "*" in Resources(env, s).value && ResourceHits(env, user, "*", p.resource);
    if p.action in actions {
      assert p.action in s.action && env.glob(p.action, p.action);
    }
  }

  lemma {:induction false} Listed(actions: set<string>) returns (l: seq<string>)
    ensures forall a :: a in l <==> a in actions
  {
    if actions == {} {
      l := [];
    } else {
      var a :| a in actions;
      l := Listed(actions - {a});
      l := [a] + l;
    }
  }

  lemma LeafBefore(user: string, plan: Plan, p: Permission)
    requires Possible(plan)
    ensures LeafResult(ExactEnv(Conditions.Pass), user, PoliciesFor(plan), p) == Planned(plan, p.action).0
  {
    var env, stmts := ExactEnv(Conditions.Pass), PoliciesFor(plan);
    forall s | s in stmts
      ensures Judge(env, user, s, p) == if s.action != [p.action] then Silent else if s.effect == EFFECT_DENY then Denies(p.action) else Allows
      ensures s.action == [p.action] ==> p.action in plan && s == DecisionOn(plan, p.action) && plan[p.action].0 != Neutral
    {
      var a :| a in plan && plan[a].0 != Neutral && s == DecisionOn(plan, a);
      JudgeRule(user, s.effect, a, false, p);
    }
    if p.action in plan && plan[p.action].0 != Neutral {
      assert DecisionOn(plan, p.action) in stmts;
    }
  }

  lemma {:induction false} EvalIsDecided(env: Env, user: string, stmts: set<Statement>, a: Statement, plan: Plan, node: Node)
    requires forall p :: (LeafResult(env, user, stmts, p), LeafResult(env, user, stmts + {a}, p)) == Planned(plan, p.action)
    ensures MoveOf(env, user, stmts, a, node) == Decided(plan, node)
    decreases node
  {
    match node
    case Leaf(p) =>
    case Or(nodes) =>
      EvalOfAllIsDecided(false, env, user, stmts, a, plan, nodes);
      EvalIsOfAll(env, user, stmts, nodes);
      EvalIsOfAll(env, user, stmts + {a}, nodes);
    case And(nodes) =>
      EvalOfAllIsDecided(true, env, user, stmts, a, plan, nodes);
      EvalIsOfAll(env, user, stmts, nodes);
      EvalIsOfAll(env, user, stmts + {a}, nodes);
    case Unknown =>
  }

  lemma {:induction false} EvalOfAllIsDecided(all: bool, env: Env, user: string, stmts: set<Statement>, a: Statement, plan: Plan, nodes: seq<Node>)
    requires forall p :: (LeafResult(env, user, stmts, p), LeafResult(env, user, stmts + {a}, p)) == Planned(plan, p.action)
    ensures (EvalOfAll(all, env, user, stmts, nodes), EvalOfAll(all, env, user, stmts + {a}, nodes)) == DecidedOfAll(all, plan, nodes)
    decreases nodes
  {
    if nodes != [] {
      EvalIsDecided(env, user, stmts, a, plan, nodes[0]);
      EvalOfAllIsDecided(all, env, user, stmts, a, plan, nodes[1..]);
      EvalOfFirst(all, env, user, stmts, nodes);
      EvalOfFirst(all, env, user, stmts + {a}, nodes);
    }
  }

  lemma LeafIsPlanned(user: string, plan: Plan, stmts: set<Statement>, allowed: seq<string>, p: Permission)
    requires Possible(plan) && stmts == PoliciesFor(plan)
    requires forall x :: x in allowed <==> x in plan && plan[x] == (Neutral, Allow)
    ensures var env := ExactEnv(Conditions.Pass);
      (LeafResult(env, user, stmts, p), LeafResult(env, user, stmts + {AllowOf(allowed)}, p)) == Planned(plan, p.action)
  {
    LeafBefore(user, plan, p);
    LeafOfMore(ExactEnv(Conditions.Pass), user, stmts, AllowOf(allowed), p);
    JudgeAllowOf(user, allowed, p);
  }

  /** When no two leaves have the same action, every move of the tree is made by some policies
      and some added statement. */
  lemma MoveIsMade(user: string, node: Node, m: Move) returns (stmts: set<Statement>, a: Statement)
    requires DifferentActions(node) && m in Moves(node)
    ensures WellFormedAllow(ExactEnv(Conditions.Pass), a) && MoveOf(ExactEnv(Conditions.Pass), user, stmts, a, node) == m
  {
    var plan := MoveIsPlanned(node, m);
    var allowed := Listed(set x | x in plan && plan[x] == (Neutral, Allow));
    stmts, a := PoliciesFor(plan), AllowOf(allowed);
    PlanIsMade(user, node, plan, stmts, allowed);
  }

  lemma PlanIsMade(user: string, node: Node, plan: Plan, stmts: set<Statement>, allowed: seq<string>)
    requires Possible(plan) && stmts == PoliciesFor(plan)
    requires forall x :: x in allowed <==> x in plan && plan[x] == (Neutral, Allow)
    ensures var env := ExactEnv(Conditions.Pass);
      WellFormedAllow(env, AllowOf(allowed)) && MoveOf(env, user, stmts, AllowOf(allowed), node) == Decided(plan, node)
  {
    JudgeAllowOf(user, allowed, Permission("", ""));
    forall p
      ensures var env := ExactEnv(Conditions.Pass);
        (LeafResult(env, user, stmts, p), LeafResult(env, user, stmts + {AllowOf(allowed)}, p)) == Planned(plan, p.action)
    {
      LeafIsPlanned(user, plan, stmts, allowed, p);
    }
    EvalIsDecided(ExactEnv(Conditions.Pass), user, stmts, AllowOf(allowed), plan, node);
  }

  // ----- exactly which trees keep Allow -----

  /** Whatever the policies, added allow statements keep an allowed request allowed. */
  ghost predicate KeepsAllow(user: string, node: Node) {
    forall env, stmts, a :: WellFormedAllow(env, a) ==> MoveOf(env, user, stmts, a, node) !in {(Allow, Neutral), (Allow, Deny)}
  }

  /** When no two leaves have the same action: a tree keeps Allow if and only if the move from
      Allow to Deny is not among those computed along its shape. */
  lemma KeepsAllowIff(user: string, node: Node)
    requires DifferentActions(node)
    ensures KeepsAllow(user, node) <==> (Allow, Deny) !in Moves(node)
  {
    if (Allow, Deny) in Moves(node) {
      var stmts, a := MoveIsMade(user, node, (Allow, Deny));
    } else {
      forall env, stmts, a | WellFormedAllow(env, a)
        ensures MoveOf(env, user, stmts, a, node) !in {(Allow, Neutral), (Allow, Deny)}
      {
        MakesMove(env, user, stmts, a, node);
        AddingAllow(env, user, stmts, a, node);
      }
    }
  }

  lemma MovesOfOne(all: bool, node: Node)
    ensures MovesOfAll(all, [node]) == Moves(node)
  {
    assert [node][1..] == [];
    var end := if all then (Allow, Allow) else (Neutral, Neutral);
    assert MovesOfAll(all, []) == {end};
    forall m
      ensures m in MovesOfAll(all, [node]) <==> m in Moves(node)
    {
      assert CombineMoves(all, m, end) == m;
    }
  }

  lemma MovesOfTwo(all: bool, a: Node, b: Node)
    ensures MovesOfAll(all, [a, b]) == set m, n | m in Moves(a) && n in Moves(b) :: CombineMoves(all, m, n)
  {
    assert [a, b][1..] == [b];
    MovesOfOne(all, b);
  }

  lemma DifferentOfOne(a: Node)
    requires DifferentActions(a)
    ensures DifferentActionsOfAll([a]) && ActionsOfAll([a]) == Actions(a)
  {
    var nodes := [a];
    assert nodes[0] == a && nodes[1..] == [];
    assert DifferentActionsOfAll([]) && ActionsOfAll([]) == {};
    assert DifferentActionsOfAll(nodes[1..]) && ActionsOfAll(nodes[1..]) == {};
  }

  lemma DifferentOfTwo(a: Node, b: Node)
    requires DifferentActions(a) && DifferentActions(b) && Actions(a) !! Actions(b)
    ensures DifferentActionsOfAll([a, b]) && ActionsOfAll([a, b]) == Actions(a) + Actions(b)
  {
    var nodes := [a, b];
    assert nodes[0] == a && nodes[1..] == [b];
    DifferentOfOne(b);
    assert DifferentActionsOfAll(nodes[1..]) && ActionsOfAll(nodes[1..]) == Actions(b);
  }

  /** The condition tells apart trees that have an And below an Or. An And of one permission
      is harmless there. */
  lemma AndOfOneBelowOr(user: string, x: Permission, z: Permission)
    requires x.action != z.action
    ensures KeepsAllow(user, Or([And([Leaf(x)]), Leaf(z)]))
  {
    var one := And([Leaf(x)]);
    DifferentOfOne(Leaf(x));
    DifferentOfTwo(one, Leaf(z));
    MovesOfOne(true, Leaf(x));
    MovesOfTwo(false, one, Leaf(z));
    LeafIsCalm(Moves(Leaf(x)), x);
    LeafIsCalm(Moves(Leaf(z)), z);
    CalmTogether(Moves(one), Moves(Leaf(z)));
    KeepsAllowIff(user, Or([one, Leaf(z)]));
  }

  predicate Calm(m: Move) {
    m.0 == m.1 || m == (Neutral, Allow)
  }

  lemma LeafIsCalm(moves: set<Move>, p: Permission)
    requires moves == Moves(Leaf(p))
    ensures forall m :: m in moves ==> Calm(m)
  {
  }

  lemma CalmTogether(a: set<Move>, b: set<Move>)
    requires (forall m :: m in a ==> Calm(m)) && forall m :: m in b ==> Calm(m)
    ensures (Allow, Deny) !in set m, n | m in a && n in b :: CombineMoves(false, m, n)
  {
    forall m, n | m in a && n in b
      ensures CombineMoves(false, m, n) != (Allow, Deny)
    {
      assert Calm(m) && Calm(n);
    }
  }

  /** An And of two, beside another permission, is not. */
  lemma AndOfTwoBelowOr(user: string, x: Permission, y: Permission, z: Permission)
    requires x.action != y.action && x.action != z.action && y.action != z.action
    ensures !KeepsAllow(user, Or([And([Leaf(x), Leaf(y)]), Leaf(z)]))
  {
    var two := And([Leaf(x), Leaf(y)]);
    DifferentOfTwo(Leaf(x), Leaf(y));
    DifferentOfTwo(two, Leaf(z));
    MovesOfTwo(true, Leaf(x), Leaf(y));
    IsCombined(true, Moves(Leaf(x)), Moves(Leaf(y)), (Neutral, Allow), (Deny, Deny));
    MovesOfTwo(false, two, Leaf(z));
    IsCombined(false, Moves(two), Moves(Leaf(z)), (Neutral, Deny), (Allow, Allow));
    KeepsAllowIff(user, Or([two, Leaf(z)]));
  }

  lemma IsCombined(all: bool, a: set<Move>, b: set<Move>, m: Move, n: Move)
    requires m in a && n in b
    ensures CombineMoves(all, m, n) in set x, y | x in a && y in b :: CombineMoves(all, x, y)
  {
  }
}
