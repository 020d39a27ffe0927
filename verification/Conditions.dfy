/**
Policy conditions: operators over fields over values, evaluated in whatever order Go
iterates the maps. Parsing of addresses and networks is a parameter.
*/
module Conditions {
  import opened Options

  datatype Error = InvalidContext | InvalidIP | InvalidCIDR | UnsupportedOperator

  /** The (bool, error) pair of an evaluation: an error comes with false. */
  datatype Outcome = Pass | Fail | Failed(error: Error)

  /** The functions of Go's net and strings packages that conditions use. */
  datatype NetLib = NetLib(
    parseIP: string -> Option<int>,
    parseCIDR: string -> Option<int>,
    contains: (int, int) -> bool,
    trimSpace: string -> string)

  type Fields = map<string, seq<string>>
  type Context = map<string, string>

  const IP_ADDRESS := "IpAddress"
  const NOT_IP_ADDRESS := "NotIpAddress"

  // ----- one field -----

  datatype Match = Matched | NoMatch | Malformed

  /** One value of a field against the address: a network, or a single address. */
  function MatchValue(net: NetLib, ip: int, value: string): Match {
    var v := net.trimSpace(value);
    match net.parseCIDR(v)
    case Some(n) => if net.contains(n, ip) then Matched else NoMatch
    case None =>
      match net.parseIP(v)
      case Some(single) => if single == ip then Matched else NoMatch
      case None => Malformed
  }

  /** The first value that is not a plain mismatch decides. */
  ghost predicate FieldMatch(net: NetLib, ip: int, values: seq<string>, m: Match) {
    if m == NoMatch then forall i :: 0 <= i < |values| ==> MatchValue(net, ip, values[i]) == NoMatch
    else exists i :: 0 <= i < |values| && MatchValue(net, ip, values[i]) == m
           && forall j :: 0 <= j < i ==> MatchValue(net, ip, values[j]) == NoMatch
  }

  /** The outcome of one field. */
  ghost predicate FieldOutcome(net: NetLib, negate: bool, ctx: Context, name: string, values: seq<string>, r: Outcome) {
    if name !in ctx || ctx[name] == "" then r == Fail
    else match net.parseIP(ctx[name])
      case None => r == Failed(InvalidIP)
      case Some(ip) =>
        match r
        case Pass => FieldMatch(net, ip, values, if negate then NoMatch else Matched)
        case Fail => FieldMatch(net, ip, values, if negate then Matched else NoMatch)
        case Failed(e) => e == InvalidCIDR && FieldMatch(net, ip, values, Malformed)
  }

  lemma FieldOutcomeIsUnique(net: NetLib, negate: bool, ctx: Context, name: string, values: seq<string>,
                             r: Outcome, q: Outcome)
    requires FieldOutcome(net, negate, ctx, name, values, r) && FieldOutcome(net, negate, ctx, name, values, q)
    ensures r == q
  {
    if name in ctx && ctx[name] != "" && net.parseIP(ctx[name]).Some? {
      var ip := net.parseIP(ctx[name]).value;
      forall m, n | FieldMatch(net, ip, values, m) && FieldMatch(net, ip, values, n)
        ensures m == n
      {
        FieldMatchIsUnique(net, ip, values, m, n);
      }
    }
  }

  lemma FieldMatchIsUnique(net: NetLib, ip: int, values: seq<string>, m: Match, n: Match)
    requires FieldMatch(net, ip, values, m) && FieldMatch(net, ip, values, n)
    ensures m == n
  {
    if m != NoMatch && n != NoMatch {
      var i :| 0 <= i < |values| && MatchValue(net, ip, values[i]) == m
               && forall j :: 0 <= j < i ==> MatchValue(net, ip, values[j]) == NoMatch;
      var k :| 0 <= k < |values| && MatchValue(net, ip, values[k]) == n
               && forall j :: 0 <= j < k ==> MatchValue(net, ip, values[j]) == NoMatch;
    }
  }

  /** The body of Evaluate's loop over fields. */
  method EvaluateField(net: NetLib, negate: bool, ctx: Context, name: string, values: seq<string>) returns (r: Outcome)
    ensures FieldOutcome(net, negate, ctx, name, values, r)
  {
    if name !in ctx || ctx[name] == "" {
      return Fail;
    }
    var parsed := net.parseIP(ctx[name]);
    if parsed.None? {
      return Failed(InvalidIP);
    }
    var contextIP := parsed.value;
    var fieldMatched := false;
    var i := 0;
    while i < |values| && !fieldMatched
      invariant 0 <= i <= |values|
      invariant fieldMatched ==> FieldMatch(net, contextIP, values, Matched)
      invariant !fieldMatched ==> forall j :: 0 <= j < i ==> MatchValue(net, contextIP, values[j]) == NoMatch
      decreases |values| - i, !fieldMatched
    {
      var value := net.trimSpace(values[i]);
      var ipNet := net.parseCIDR(value);
      if ipNet.Some? {
        if net.contains(ipNet.value, contextIP) {
          fieldMatched := true;
        } else {
          i := i + 1;
        }
      } else {
        var singleIP := net.parseIP(value);
        if singleIP.None? {
          assert MatchValue(net, contextIP, values[i]) == Malformed;
          return Failed(InvalidCIDR);
        }
        if singleIP.value == contextIP {
          fieldMatched := true;
        } else {
          i := i + 1;
        }
      }
      assert fieldMatched ==> MatchValue(net, contextIP, values[i]) == Matched;
    }
    r := if fieldMatched == negate then Fail else Pass;
  }

  // ----- iterating a map -----

  /** An order in which a map with these keys can be iterated. */
  ghost predicate IterationOrder(order: seq<string>, keys: set<string>) {
    && (forall k :: k in order <==> k in keys)
    && (forall i, j :: 0 <= i < j < |order| ==> order[i] != order[j])
  }

  /** The outcome of going through the keys in order, given the outcome for each of them:
      the first one that does not pass, if any. */
  ghost predicate InOrder(order: seq<string>, outcome: map<string, Outcome>, r: Outcome)
    requires forall k :: k in order ==> k in outcome
  {
    if r == Pass then forall i :: 0 <= i < |order| ==> outcome[order[i]] == Pass
    else exists i :: 0 <= i < |order| && outcome[order[i]] == r
           && forall j :: 0 <= j < i ==> outcome[order[j]] == Pass
  }

  /** Passing does not depend on the order; any other outcome of some key is the result for
      some order, so the rest is order-independent exactly when all failures are alike. */
  lemma InOrderLaw(keys: set<string>, outcome: map<string, Outcome>, r: Outcome)
    requires keys == outcome.Keys
    ensures (exists order :: IterationOrder(order, keys) && InOrder(order, outcome, r)) <==>
            if r == Pass then forall k :: k in keys ==> outcome[k] == Pass
            else exists k :: k in keys && outcome[k] == r
  {
    if r == Pass {
      if forall k :: k in keys ==> outcome[k] == Pass {
        var order := SomeOrder(keys);
        assert InOrder(order, outcome, r) by {
          forall i | 0 <= i < |order|
            ensures outcome[order[i]] == Pass
          {
            assert order[i] in order;
          }
        }
      }
      if order :| IterationOrder(order, keys) && InOrder(order, outcome, r) {
        forall k | k in keys
          ensures outcome[k] == Pass
        {
          assert k in order;
        }
      }
    } else {
      if k :| k in keys && outcome[k] == r {
        var rest := SomeOrder(keys - {k});
        var order := [k] + rest;
        assert IterationOrder(order, keys);
        assert order[0] == k;
        assert InOrder(order, outcome, r);
      }
      if order :| IterationOrder(order, keys) && InOrder(order, outcome, r) {
        var i :| 0 <= i < |order| && outcome[order[i]] == r;
        assert order[i] in order;
      }
    }
  }

  lemma {:induction false} SomeOrder(keys: set<string>) returns (order: seq<string>)
    ensures IterationOrder(order, keys)
    decreases |keys|
  {
    if keys == {} {
      order := [];
    } else {
      var k :| k in keys;
      var rest := SomeOrder(keys - {k});
      order := [k] + rest;
    }
  }

  // ----- operators -----

  ghost predicate FieldOutcomes(net: NetLib, negate: bool, fields: Fields, ctx: Context, outcome: map<string, Outcome>) {
    && outcome.Keys == fields.Keys
    && forall k :: k in fields ==> FieldOutcome(net, negate, ctx, k, fields[k], outcome[k])
  }

  lemma {:induction false} FieldMatchExists(net: NetLib, ip: int, values: seq<string>) returns (m: Match)
    ensures FieldMatch(net, ip, values, m)
  {
    m := NoMatch;
    for i := 0 to |values|
      invariant forall j :: 0 <= j < i ==> MatchValue(net, ip, values[j]) == NoMatch
    {
      if MatchValue(net, ip, values[i]) != NoMatch {
        m := MatchValue(net, ip, values[i]);
        return;
      }
    }
  }

  lemma FieldOutcomeExists(net: NetLib, negate: bool, ctx: Context, name: string, values: seq<string>) returns (r: Outcome)
    ensures FieldOutcome(net, negate, ctx, name, values, r)
  {
    if name !in ctx || ctx[name] == "" {
      r := Fail;
    } else if net.parseIP(ctx[name]).None? {
      r := Failed(InvalidIP);
    } else {
      var m := FieldMatchExists(net, net.parseIP(ctx[name]).value, values);
      r := match m
        case Malformed => Failed(InvalidCIDR)
        case Matched => if negate then Fail else Pass
        case NoMatch => if negate then Pass else Fail;
    }
  }

  /** The outcome of every field, which Evaluate's iteration order picks from. */
  ghost function OutcomesOf(net: NetLib, negate: bool, fields: Fields, ctx: Context): (outcome: map<string, Outcome>)
    ensures FieldOutcomes(net, negate, fields, ctx, outcome)
  {
    map k | k in fields :: TheOutcome(net, negate, ctx, k, fields[k])
  }

  ghost function TheOutcome(net: NetLib, negate: bool, ctx: Context, name: string, values: seq<string>): (r: Outcome)
    ensures FieldOutcome(net, negate, ctx, name, values, r)
  {
    assert exists r :: FieldOutcome(net, negate, ctx, name, values, r) by {
      var r := FieldOutcomeExists(net, negate, ctx, name, values);
    }
    var r :| FieldOutcome(net, negate, ctx, name, values, r);
    r
  }

  /** IpAddressOperator.Evaluate, with the iteration order of the fields. */
  method Evaluate(net: NetLib, negate: bool, fields: Fields, ctx: Option<Context>, order: seq<string>)
    returns (r: Outcome)
    requires IterationOrder(order, fields.Keys)
    ensures ctx.None? ==> r == if fields == map[] then Pass else Failed(InvalidContext)
    ensures ctx.Some? ==> InOrder(order, OutcomesOf(net, negate, fields, ctx.value), r)
  {
    if |fields| == 0 {
      assert forall i :: 0 <= i < |order| ==> order[i] in order;
      return Pass;
    }
    if ctx.None? {
      return Failed(InvalidContext);
    }
    ghost var outcome := OutcomesOf(net, negate, fields, ctx.value);
    for i := 0 to |order|
      invariant forall j :: 0 <= j < i ==> order[j] in order && outcome[order[j]] == Pass
    {
      assert order[i] in order;
      r := EvaluateField(net, negate, ctx.value, order[i], fields[order[i]]);
      FieldOutcomeIsUnique(net, negate, ctx.value, order[i], fields[order[i]], r, outcome[order[i]]);
      if r != Pass {
        return;
      }
    }
    r := Pass;
  }

  /** OperatorFactory: whether the operator negates its fields, or an error. */
  function OperatorFactory(name: string): Option<bool> {
    if name == IP_ADDRESS then Some(false)
    else if name == NOT_IP_ADDRESS then Some(true)
    else None
  }

  // ----- conditions -----

  type ConditionMap = map<string, Fields>

  /** The operator can come out as r, for some iteration order of its fields. */
  ghost predicate OperatorCan(net: NetLib, name: string, fields: Fields, ctx: Context, r: Outcome) {
    match OperatorFactory(name)
    case None => r == Failed(UnsupportedOperator)
    case Some(negate) =>
      exists order :: IterationOrder(order, fields.Keys) && InOrder(order, OutcomesOf(net, negate, fields, ctx), r)
  }

  /** Each operator can come out as listed. */
  ghost predicate OperatorsCan(net: NetLib, conditions: ConditionMap, ctx: Context, outcome: map<string, Outcome>) {
    && outcome.Keys == conditions.Keys
    && forall op :: op in conditions ==> OperatorCan(net, op, conditions[op], ctx, outcome[op])
  }

  /** The conditions can come out as r, for some iteration orders of all the maps. */
  ghost predicate ConditionsCan(net: NetLib, conditions: ConditionMap, ctx: Context, r: Outcome) {
    exists order: seq<string>, outcome: map<string, Outcome> ::
      IterationOrder(order, conditions.Keys) && OperatorsCan(net, conditions, ctx, outcome) && InOrder(order, outcome, r)
  }

  lemma OperatorCanSomething(net: NetLib, name: string, fields: Fields, ctx: Context) returns (r: Outcome)
    ensures OperatorCan(net, name, fields, ctx, r)
  {
    if OperatorFactory(name).None? {
      r := Failed(UnsupportedOperator);
    } else {
      var negate := OperatorFactory(name).value;
      var outcome := OutcomesOf(net, negate, fields, ctx);
      if k :| k in outcome && outcome[k] != Pass {
        r := outcome[k];
      } else {
        r := Pass;
      }
      InOrderLaw(fields.Keys, outcome, r);
    }
  }

  ghost function SomeOutcome(net: NetLib, name: string, fields: Fields, ctx: Context): (r: Outcome)
    ensures OperatorCan(net, name, fields, ctx, r)
  {
    assert exists r :: OperatorCan(net, name, fields, ctx, r) by {
      var r := OperatorCanSomething(net, name, fields, ctx);
    }
    var r :| OperatorCan(net, name, fields, ctx, r);
    r
  }

  ghost function SomeOutcomes(net: NetLib, conditions: ConditionMap, ctx: Context): (outcome: map<string, Outcome>)
    ensures OperatorsCan(net, conditions, ctx, outcome)
  {
    map op | op in conditions :: SomeOutcome(net, op, conditions[op], ctx)
  }

  ghost function Replaced(net: NetLib, conditions: ConditionMap, ctx: Context, outcome: map<string, Outcome>,
                          op: string, r: Outcome): (o: map<string, Outcome>)
    requires OperatorsCan(net, conditions, ctx, outcome) && op in conditions
    requires OperatorCan(net, op, conditions[op], ctx, r)
    ensures OperatorsCan(net, conditions, ctx, o) && o == outcome[op := r]
  {
    outcome[op := r]
  }

  /** What the operator comes out as for this iteration order of its fields. */
  ghost predicate OperatorGives(net: NetLib, name: string, fields: Fields, ctx: Context, order: seq<string>, r: Outcome) {
    match OperatorFactory(name)
    case None => r == Failed(UnsupportedOperator)
    case Some(negate) => IterationOrder(order, fields.Keys) && InOrder(order, OutcomesOf(net, negate, fields, ctx), r)
  }

  ghost predicate GivesAt(net: NetLib, conditions: ConditionMap, ctx: Context, fieldOrders: map<string, seq<string>>, op: string, r: Outcome) {
    op in conditions && op in fieldOrders && OperatorGives(net, op, conditions[op], ctx, fieldOrders[op], r)
  }

  /** What the conditions come out as for these iteration orders: the first operator that does
      not pass decides. */
  ghost predicate ConditionsGive(net: NetLib, conditions: ConditionMap, ctx: Context,
                                 order: seq<string>, fieldOrders: map<string, seq<string>>, r: Outcome) {
    if r == Pass then forall i :: 0 <= i < |order| ==> GivesAt(net, conditions, ctx, fieldOrders, order[i], Pass)
    else exists i :: 0 <= i < |order| && GivesAt(net, conditions, ctx, fieldOrders, order[i], r)
           && forall j :: 0 <= j < i ==> GivesAt(net, conditions, ctx, fieldOrders, order[j], Pass)
  }

  /** The body of EvaluateConditions' loop over operators. */
  method EvaluateOperator(net: NetLib, op: string, fields: Fields, ctx: Context, order: seq<string>) returns (r: Outcome)
    requires IterationOrder(order, fields.Keys)
    ensures OperatorGives(net, op, fields, ctx, order, r)
  {
    var operator := OperatorFactory(op);
    if operator.None? {
      return Failed(UnsupportedOperator);
    }
    r := Evaluate(net, operator.value, fields, Some(ctx), order);
  }

  /** EvaluateConditions, with the iteration orders of the operators and of their fields. */
  method EvaluateConditions(net: NetLib, conditions: ConditionMap, ctx: Option<Context>,
                            order: seq<string>, fieldOrders: map<string, seq<string>>)
    returns (r: Outcome)
    requires IterationOrder(order, conditions.Keys)
    requires forall op :: op in conditions ==> op in fieldOrders && IterationOrder(fieldOrders[op], conditions[op].Keys)
    ensures ctx.None? ==> r == if conditions == map[] then Pass else Failed(InvalidContext)
    ensures ctx.Some? ==> ConditionsGive(net, conditions, ctx.value, order, fieldOrders, r)
    ensures ctx.Some? ==> ConditionsCan(net, conditions, ctx.value, r)
    ensures ctx.Some? ==> (r == Pass <==> AllHold(net, conditions, ctx.value))
  {
    if |conditions| == 0 {
      assert forall i :: 0 <= i < |order| ==> order[i] in order;
      if ctx.Some? {
        GivenIsPossible(net, conditions, ctx.value, order, fieldOrders, Pass);
        PassMeansAllHold(net, conditions, ctx.value, Pass);
      }
      return Pass;
    }
    if ctx.None? {
      return Failed(InvalidContext);
    }
    for i := 0 to |order|
      invariant forall j :: 0 <= j < i ==> GivesAt(net, conditions, ctx.value, fieldOrders, order[j], Pass)
    {
      assert order[i] in order;
      r := EvaluateOperator(net, order[i], conditions[order[i]], ctx.value, fieldOrders[order[i]]);
      if r != Pass {
        assert GivesAt(net, conditions, ctx.value, fieldOrders, order[i], r);
        GivenIsPossible(net, conditions, ctx.value, order, fieldOrders, r);
        PassMeansAllHold(net, conditions, ctx.value, r);
        return;
      }
    }
    r := Pass;
    GivenIsPossible(net, conditions, ctx.value, order, fieldOrders, r);
    PassMeansAllHold(net, conditions, ctx.value, r);
  }

  lemma GivenIsPossible(net: NetLib, conditions: ConditionMap, ctx: Context,
                        order: seq<string>, fieldOrders: map<string, seq<string>>, r: Outcome)
    requires IterationOrder(order, conditions.Keys)
    requires ConditionsGive(net, conditions, ctx, order, fieldOrders, r)
    ensures ConditionsCan(net, conditions, ctx, r)
  {
    forall op, q | GivesAt(net, conditions, ctx, fieldOrders, op, q)
      ensures OperatorCan(net, op, conditions[op], ctx, q)
    {
    }
    if r == Pass {
      WentThrough(net, conditions, ctx, order);
    } else {
      var i :| 0 <= i < |order| && GivesAt(net, conditions, ctx, fieldOrders, order[i], r)
               && forall j :: 0 <= j < i ==> GivesAt(net, conditions, ctx, fieldOrders, order[j], Pass);
      StoppedAt(net, conditions, ctx, order, i, r);
    }
  }

  /** Given the orders, there is one result. */
  lemma GivenIsUnique(net: NetLib, conditions: ConditionMap, ctx: Context,
                      order: seq<string>, fieldOrders: map<string, seq<string>>, r: Outcome, q: Outcome)
    requires ConditionsGive(net, conditions, ctx, order, fieldOrders, r)
    requires ConditionsGive(net, conditions, ctx, order, fieldOrders, q)
    ensures r == q
  {
    forall op, a, b | GivesAt(net, conditions, ctx, fieldOrders, op, a) && GivesAt(net, conditions, ctx, fieldOrders, op, b)
      ensures a == b
    {
      OperatorGivesOne(net, op, conditions[op], ctx, fieldOrders[op], a, b);
    }
    if r != Pass && q != Pass {
      var i :| 0 <= i < |order| && GivesAt(net, conditions, ctx, fieldOrders, order[i], r)
               && forall j :: 0 <= j < i ==> GivesAt(net, conditions, ctx, fieldOrders, order[j], Pass);
      var k :| 0 <= k < |order| && GivesAt(net, conditions, ctx, fieldOrders, order[k], q)
               && forall j :: 0 <= j < k ==> GivesAt(net, conditions, ctx, fieldOrders, order[j], Pass);
    }
  }

  lemma OperatorGivesOne(net: NetLib, op: string, fields: Fields, ctx: Context, order: seq<string>, a: Outcome, b: Outcome)
    requires OperatorGives(net, op, fields, ctx, order, a) && OperatorGives(net, op, fields, ctx, order, b)
    ensures a == b
  {
    if OperatorFactory(op).Some? && a != Pass && b != Pass {
      var outcome := OutcomesOf(net, OperatorFactory(op).value, fields, ctx);
      var i :| 0 <= i < |order| && outcome[order[i]] == a && forall j :: 0 <= j < i ==> outcome[order[j]] == Pass;
      var k :| 0 <= k < |order| && outcome[order[k]] == b && forall j :: 0 <= j < k ==> outcome[order[j]] == Pass;
    }
  }

  /** The loop over operators ended at the i-th with a failure r. */
  lemma StoppedAt(net: NetLib, conditions: ConditionMap, ctx: Context, order: seq<string>, i: nat, r: Outcome)
    requires IterationOrder(order, conditions.Keys) && i < |order| && r != Pass
    requires forall j :: 0 <= j < i ==>
      order[j] in conditions && OperatorCan(net, order[j], conditions[order[j]], ctx, Pass)
    requires order[i] in conditions && OperatorCan(net, order[i], conditions[order[i]], ctx, r)
    ensures ConditionsCan(net, conditions, ctx, r)
  {
    var outcome := map op | op in conditions ::
      if op in order[..i] then Pass else if op == order[i] then r else SomeOutcome(net, op, conditions[op], ctx);
    forall op | op in conditions
      ensures OperatorCan(net, op, conditions[op], ctx, outcome[op])
    {
      if op in order[..i] {
        var j :| 0 <= j < i && order[..i][j] == op;
        assert order[j] == op;
      }
    }
    forall j | 0 <= j < i
      ensures order[j] in outcome && outcome[order[j]] == Pass
    {
      assert order[..i][j] == order[j];
    }
    ReachedAt(net, conditions, ctx, order, outcome, i, r);
  }

  lemma ReachedAt(net: NetLib, conditions: ConditionMap, ctx: Context, order: seq<string>,
                  outcome: map<string, Outcome>, i: nat, r: Outcome)
    requires IterationOrder(order, conditions.Keys) && i < |order| && r != Pass
    requires OperatorsCan(net, conditions, ctx, outcome)
    requires order[i] in conditions && outcome[order[i]] == r
    requires forall j :: 0 <= j < i ==> order[j] in outcome && outcome[order[j]] == Pass
    ensures ConditionsCan(net, conditions, ctx, r)
  {
    assert InOrder(order, outcome, r);
  }

  lemma WentThrough(net: NetLib, conditions: ConditionMap, ctx: Context, order: seq<string>)
    requires IterationOrder(order, conditions.Keys)
    requires forall j :: 0 <= j < |order| ==>
      order[j] in conditions && OperatorCan(net, order[j], conditions[order[j]], ctx, Pass)
    ensures ConditionsCan(net, conditions, ctx, Pass)
  {
    forall op | op in conditions
      ensures OperatorCan(net, op, conditions[op], ctx, Pass)
    {
      assert op in order;
    }
    PassIsReached(net, conditions, ctx);
  }

  /** Every operator is supported and every field of it is present, free of errors, and
      agrees with the operator. */
  ghost predicate AllPass(net: NetLib, conditions: ConditionMap, ctx: Context) {
    forall op :: op in conditions ==>
      && OperatorFactory(op).Some?
      && forall f :: f in conditions[op] ==>
           FieldOutcome(net, OperatorFactory(op).value, ctx, f, conditions[op][f], Pass)
  }

  /** Some operator is not supported, or some field of a supported one comes out as r. */
  ghost predicate SomeComesOut(net: NetLib, conditions: ConditionMap, ctx: Context, r: Outcome) {
    exists op :: op in conditions &&
      match OperatorFactory(op)
      case None => r == Failed(UnsupportedOperator)
      case Some(negate) => exists f :: f in conditions[op] && FieldOutcome(net, negate, ctx, f, conditions[op][f], r)
  }

  lemma OperatorLaw(net: NetLib, op: string, fields: Fields, ctx: Context, r: Outcome)
    requires OperatorFactory(op).Some?
    ensures OperatorCan(net, op, fields, ctx, r) <==>
      var negate := OperatorFactory(op).value;
      if r == Pass then forall f :: f in fields ==> FieldOutcome(net, negate, ctx, f, fields[f], Pass)
      else exists f :: f in fields && FieldOutcome(net, negate, ctx, f, fields[f], r)
  {
    var negate := OperatorFactory(op).value;
    var outcome := OutcomesOf(net, negate, fields, ctx);
    InOrderLaw(fields.Keys, outcome, r);
    forall f, q | f in fields
      ensures FieldOutcome(net, negate, ctx, f, fields[f], q) <==> outcome[f] == q
    {
      if FieldOutcome(net, negate, ctx, f, fields[f], q) {
        FieldOutcomeIsUnique(net, negate, ctx, f, fields[f], q, outcome[f]);
      }
    }
  }

  /** The law of conditions: they can pass exactly when everything passes, and can fail in
      some way exactly when some operator or field fails that way. */
  lemma ConditionsLaw(net: NetLib, conditions: ConditionMap, ctx: Context, r: Outcome)
    ensures ConditionsCan(net, conditions, ctx, r) <==>
            if r == Pass then AllPass(net, conditions, ctx) else SomeComesOut(net, conditions, ctx, r)
  {
    if r == Pass {
      PassLaw(net, conditions, ctx);
    } else {
      if ConditionsCan(net, conditions, ctx, r) {
        var order: seq<string>, outcome: map<string, Outcome> :|
          IterationOrder(order, conditions.Keys) && OperatorsCan(net, conditions, ctx, outcome) && InOrder(order, outcome, r);
        var i :| 0 <= i < |order| && outcome[order[i]] == r;
        assert order[i] in order;
        if OperatorFactory(order[i]).Some? {
          OperatorLaw(net, order[i], conditions[order[i]], ctx, r);
        }
      }
      if SomeComesOut(net, conditions, ctx, r) {
        FailureIsReached(net, conditions, ctx, r);
      }
    }
  }

  lemma FailureIsReached(net: NetLib, conditions: ConditionMap, ctx: Context, r: Outcome)
    requires r != Pass && SomeComesOut(net, conditions, ctx, r)
    ensures ConditionsCan(net, conditions, ctx, r)
  {
    var bad :| bad in conditions &&
      match OperatorFactory(bad)
      case None => r == Failed(UnsupportedOperator)
      case Some(negate) => exists f :: f in conditions[bad] && FieldOutcome(net, negate, ctx, f, conditions[bad][f], r);
    if OperatorFactory(bad).Some? {
      OperatorLaw(net, bad, conditions[bad], ctx, r);
    }
    var outcome := Replaced(net, conditions, ctx, SomeOutcomes(net, conditions, ctx), bad, r);
    ReachedByOutcomes(net, conditions, ctx, outcome, bad, r);
  }

  lemma ReachedByOutcomes(net: NetLib, conditions: ConditionMap, ctx: Context, outcome: map<string, Outcome>,
                          bad: string, r: Outcome)
    requires OperatorsCan(net, conditions, ctx, outcome) && bad in conditions && outcome[bad] == r != Pass
    ensures ConditionsCan(net, conditions, ctx, r)
  {
    InOrderLaw(conditions.Keys, outcome, r);
    var order :| IterationOrder(order, conditions.Keys) && InOrder(order, outcome, r);
  }

  lemma PassLaw(net: NetLib, conditions: ConditionMap, ctx: Context)
    ensures ConditionsCan(net, conditions, ctx, Pass) <==> AllPass(net, conditions, ctx)
  {
    if ConditionsCan(net, conditions, ctx, Pass) {
      var order: seq<string>, outcome: map<string, Outcome> :|
        IterationOrder(order, conditions.Keys) && OperatorsCan(net, conditions, ctx, outcome) && InOrder(order, outcome, Pass);
      forall op | op in conditions
        ensures OperatorFactory(op).Some? && OperatorCan(net, op, conditions[op], ctx, Pass)
      {
        assert op in order;
        var i :| 0 <= i < |order| && order[i] == op;
        assert outcome[order[i]] == Pass;
      }
      AllPassFromOperators(net, conditions, ctx);
    }
    if AllPass(net, conditions, ctx) {
      forall op | op in conditions
        ensures OperatorCan(net, op, conditions[op], ctx, Pass)
      {
        OperatorLaw(net, op, conditions[op], ctx, Pass);
      }
      PassIsReached(net, conditions, ctx);
    }
  }

  lemma AllPassFromOperators(net: NetLib, conditions: ConditionMap, ctx: Context)
    requires forall op :: op in conditions ==>
      OperatorFactory(op).Some? && OperatorCan(net, op, conditions[op], ctx, Pass)
    ensures AllPass(net, conditions, ctx)
  {
    forall op | op in conditions
      ensures forall f :: f in conditions[op] ==> FieldOutcome(net, OperatorFactory(op).value, ctx, f, conditions[op][f], Pass)
    {
      OperatorLaw(net, op, conditions[op], ctx, Pass);
    }
  }

  lemma PassIsReached(net: NetLib, conditions: ConditionMap, ctx: Context)
    requires forall op :: op in conditions ==> OperatorCan(net, op, conditions[op], ctx, Pass)
    ensures ConditionsCan(net, conditions, ctx, Pass)
  {
    var outcome := map op | op in conditions :: Pass;
    InOrderLaw(conditions.Keys, outcome, Pass);
    var order :| IterationOrder(order, conditions.Keys) && InOrder(order, outcome, Pass);
    assert OperatorsCan(net, conditions, ctx, outcome);
  }

  ghost predicate TwoFailures(net: NetLib, conditions: ConditionMap, ctx: Context, r: Outcome, q: Outcome) {
    r != Pass && q != Pass && SomeComesOut(net, conditions, ctx, r) && SomeComesOut(net, conditions, ctx, q)
  }

  /** Hence passing is the same for all iteration orders. */
  lemma PassIsOrderIndependent(net: NetLib, conditions: ConditionMap, ctx: Context, r: Outcome)
    requires ConditionsCan(net, conditions, ctx, Pass) && ConditionsCan(net, conditions, ctx, r)
    ensures r == Pass
  {
    ConditionsLaw(net, conditions, ctx, Pass);
    ConditionsLaw(net, conditions, ctx, r);
    if r != Pass {
      PassExcludesFailure(net, conditions, ctx, r);
    }
  }

  /** The kind of failure is the same for all iteration orders exactly when no two operators
      or fields fail in different ways. */
  lemma FailureIsOrderIndependentIff(net: NetLib, conditions: ConditionMap, ctx: Context)
    ensures (exists r, q :: BothPossible(net, conditions, ctx, r, q) && r != q)
       <==> (exists r, q :: TwoFailures(net, conditions, ctx, r, q) && r != q)
  {
    if r, q :| BothPossible(net, conditions, ctx, r, q) && r != q {
      if r == Pass {
        PassIsOrderIndependent(net, conditions, ctx, q);
      } else if q == Pass {
        PassIsOrderIndependent(net, conditions, ctx, r);
      } else {
        ConditionsLaw(net, conditions, ctx, r);
        ConditionsLaw(net, conditions, ctx, q);
        assert TwoFailures(net, conditions, ctx, r, q);
      }
    }
    if r, q :| TwoFailures(net, conditions, ctx, r, q) && r != q {
      ConditionsLaw(net, conditions, ctx, r);
      ConditionsLaw(net, conditions, ctx, q);
      assert BothPossible(net, conditions, ctx, r, q);
    }
  }

  ghost predicate BothPossible(net: NetLib, conditions: ConditionMap, ctx: Context, r: Outcome, q: Outcome) {
    ConditionsCan(net, conditions, ctx, r) && ConditionsCan(net, conditions, ctx, q)
  }

  lemma PassExcludesFailure(net: NetLib, conditions: ConditionMap, ctx: Context, r: Outcome)
    requires AllPass(net, conditions, ctx) && r != Pass
    ensures !SomeComesOut(net, conditions, ctx, r)
  {
    forall op, f | op in conditions && f in conditions[op]
      ensures !FieldOutcome(net, OperatorFactory(op).value, ctx, f, conditions[op][f], r)
    {
      if FieldOutcome(net, OperatorFactory(op).value, ctx, f, conditions[op][f], r) {
        FieldOutcomeIsUnique(net, OperatorFactory(op).value, ctx, f, conditions[op][f], r, Pass);
      }
    }
  }

  // ----- what the operators mean -----

  /** A value that names a network with the address in it, or the address itself. */
  predicate Hit(net: NetLib, ip: int, value: string) {
    var v := net.trimSpace(value);
    || (net.parseCIDR(v).Some? && net.contains(net.parseCIDR(v).value, ip))
    || (net.parseCIDR(v).None? && net.parseIP(v) == Some(ip))
  }

  /** A value that names a network without the address, or another address. */
  predicate Miss(net: NetLib, ip: int, value: string) {
    var v := net.trimSpace(value);
    || (net.parseCIDR(v).Some? && !net.contains(net.parseCIDR(v).value, ip))
    || (net.parseCIDR(v).None? && net.parseIP(v).Some? && net.parseIP(v).value != ip)
  }

  /** A value that names neither a network nor an address. */
  predicate Unreadable(net: NetLib, value: string) {
    var v := net.trimSpace(value);
    net.parseCIDR(v).None? && net.parseIP(v).None?
  }

  ghost predicate AllMiss(net: NetLib, ip: int, values: seq<string>, n: nat)
    requires n <= |values|
  {
    forall i :: 0 <= i < n ==> Miss(net, ip, values[i])
  }

  ghost predicate FirstHits(net: NetLib, ip: int, values: seq<string>) {
    exists i :: 0 <= i < |values| && Hit(net, ip, values[i]) && AllMiss(net, ip, values, i)
  }

  ghost predicate FirstUnreadable(net: NetLib, ip: int, values: seq<string>) {
    exists i :: 0 <= i < |values| && Unreadable(net, values[i]) && AllMiss(net, ip, values, i)
  }

  predicate IsSet(ctx: Context, field: string) {
    field in ctx && ctx[field] != ""
  }

  /** The context has an address for the field, and: among the values something hits it and
      everything before that is a readable miss (IpAddress), or everything is (NotIpAddress). */
  ghost predicate FieldHolds(net: NetLib, op: string, ctx: Context, field: string, values: seq<string>) {
    && IsSet(ctx, field) && net.parseIP(ctx[field]).Some?
    && if op == "IpAddress" then FirstHits(net, net.parseIP(ctx[field]).value, values)
       else AllMiss(net, net.parseIP(ctx[field]).value, values, |values|)
  }

  ghost predicate FieldFails(net: NetLib, op: string, ctx: Context, field: string, values: seq<string>) {
    || !IsSet(ctx, field)
    || (net.parseIP(ctx[field]).Some?
        && if op == "NotIpAddress" then FirstHits(net, net.parseIP(ctx[field]).value, values)
           else AllMiss(net, net.parseIP(ctx[field]).value, values, |values|))
  }

  ghost predicate FieldIsBad(net: NetLib, ctx: Context, field: string, values: seq<string>, e: Error) {
    && IsSet(ctx, field)
    && if net.parseIP(ctx[field]).None? then e == InvalidIP
       else e == InvalidCIDR && FirstUnreadable(net, net.parseIP(ctx[field]).value, values)
  }

  predicate Supported(op: string) {
    op == "IpAddress" || op == "NotIpAddress"
  }

  /** Every operator is supported, and every field of it holds. */
  ghost predicate AllHold(net: NetLib, conditions: ConditionMap, ctx: Context) {
    forall op :: op in conditions ==>
      Supported(op) && forall f :: f in conditions[op] ==> FieldHolds(net, op, ctx, f, conditions[op][f])
  }

  ghost predicate SomeFails(net: NetLib, conditions: ConditionMap, ctx: Context) {
    exists op, f :: op in conditions && Supported(op) && f in conditions[op] && FieldFails(net, op, ctx, f, conditions[op][f])
  }

  ghost predicate SomeIsBad(net: NetLib, conditions: ConditionMap, ctx: Context, e: Error) {
    || (e == UnsupportedOperator && exists op :: op in conditions && !Supported(op))
    || exists op, f :: op in conditions && Supported(op) && f in conditions[op] && FieldIsBad(net, ctx, f, conditions[op][f], e)
  }

  lemma MatchMeans(net: NetLib, ip: int, values: seq<string>)
    ensures FieldMatch(net, ip, values, Matched) <==> FirstHits(net, ip, values)
    ensures FieldMatch(net, ip, values, Malformed) <==> FirstUnreadable(net, ip, values)
    ensures FieldMatch(net, ip, values, NoMatch) <==> AllMiss(net, ip, values, |values|)
  {
    forall i | 0 <= i < |values|
      ensures MatchValue(net, ip, values[i]) ==
        if Hit(net, ip, values[i]) then Matched else if Miss(net, ip, values[i]) then NoMatch else Malformed
      ensures !Hit(net, ip, values[i]) && !Miss(net, ip, values[i]) <==> Unreadable(net, values[i])
      ensures !(Hit(net, ip, values[i]) && Miss(net, ip, values[i]))
      ensures AllMiss(net, ip, values, i) <==> forall j :: 0 <= j < i ==> MatchValue(net, ip, values[j]) == NoMatch
    {
    }
  }

  lemma FieldMeans(net: NetLib, op: string, ctx: Context, field: string, values: seq<string>, r: Outcome)
    requires Supported(op)
    ensures OperatorFactory(op).Some?
    ensures FieldOutcome(net, OperatorFactory(op).value, ctx, field, values, r) <==>
      match r
      case Pass => FieldHolds(net, op, ctx, field, values)
      case Fail => FieldFails(net, op, ctx, field, values)
      case Failed(e) => FieldIsBad(net, ctx, field, values, e)
  {
    if IsSet(ctx, field) && net.parseIP(ctx[field]).Some? {
      MatchMeans(net, net.parseIP(ctx[field]).value, values);
    }
  }

  /** What conditions mean, for every map of conditions and every context: the results that
      some iteration order gives, in terms of addresses and networks. */
  lemma ConditionsMean(net: NetLib, conditions: ConditionMap, ctx: Context, r: Outcome)
    ensures ConditionsCan(net, conditions, ctx, r) <==>
      match r
      case Pass => AllHold(net, conditions, ctx)
      case Fail => SomeFails(net, conditions, ctx)
      case Failed(e) => SomeIsBad(net, conditions, ctx, e)
  {
    ConditionsLaw(net, conditions, ctx, r);
    forall op | op in conditions
      ensures OperatorFactory(op).Some? <==> Supported(op)
    {
    }
    forall op, f | op in conditions && Supported(op) && f in conditions[op]
      ensures FieldOutcome(net, OperatorFactory(op).value, ctx, f, conditions[op][f], r) <==>
        match r
        case Pass => FieldHolds(net, op, ctx, f, conditions[op][f])
        case Fail => FieldFails(net, op, ctx, f, conditions[op][f])
        case Failed(e) => FieldIsBad(net, ctx, f, conditions[op][f], e)
    {
      FieldMeans(net, op, ctx, f, conditions[op][f], r);
    }
  }

  lemma PassMeansAllHold(net: NetLib, conditions: ConditionMap, ctx: Context, r: Outcome)
    requires ConditionsCan(net, conditions, ctx, r)
    ensures r == Pass <==> AllHold(net, conditions, ctx)
  {
    ConditionsMean(net, conditions, ctx, Pass);
    if AllHold(net, conditions, ctx) {
      PassIsOrderIndependent(net, conditions, ctx, r);
    }
  }
}
