/**
embedVariables and expandVariables: values in a text are replaced by references such as
${REPO}, and references are replaced by their values again.
*/
module Variables {

  datatype Error = ValueNotUnique | VariableNotFound

  datatype Result = Ok(s: string) | Err(error: Error)

  // ----- strings.ReplaceAll and the reference pattern -----

  /** Leftmost, non-overlapping replacement of a non-empty `what`. */
  function Scan(s: string, what: string, repl: string): string
    requires what != ""
  {
    if s == "" then ""
    else if what <= s then repl + Scan(s[|what|..], what, repl)
    else [s[0]] + Scan(s[1..], what, repl)
  }

  /** ReplaceAll of the empty string: before, between and after the characters. */
  function Interleave(s: string, repl: string): string {
    if s == "" then repl else repl + [s[0]] + Interleave(s[1..], repl)
  }

  function ReplaceAll(s: string, what: string, repl: string): string {
    if what == "" then Interleave(s, repl) else Scan(s, what, repl)
  }

  predicate NameChar(c: char) {
    c != '$' && c != '{' && c != '}'
  }

  predicate AllNameChars(s: string) {
    forall i :: 0 <= i < |s| ==> NameChar(s[i])
  }

  /** How many characters at the start may belong to a name. */
  function NameRun(s: string): (n: nat)
    ensures n <= |s| && AllNameChars(s[..n]) && (n < |s| ==> !NameChar(s[n]))
  {
    if s != "" && NameChar(s[0]) then
      var n := NameRun(s[1..]);
      assert s[..n + 1] == [s[0]] + s[1..][..n];
      n + 1
    else 0
  }

  /** The length of the reference `\$\{[^${}]+}` at the start of s; 0 if there is none. */
  function RefLength(s: string): (m: nat)
    ensures m <= |s| && (m > 0 ==> m > 3)
  {
    if "${" <= s then
      var n := NameRun(s[2..]);
      if n > 0 && n + 2 < |s| && s[n + 2] == '}' then n + 3 else 0
    else 0
  }

  /** The pattern matches somewhere in s. */
  predicate HasRef(s: string) {
    s != "" && (RefLength(s) > 0 || HasRef(s[1..]))
  }

  function Reference(name: string): string {
    "${" + name + "}"
  }

  // ----- the two functions -----

  function ReplaceRefs(s: string, vars: map<string, string>): string {
    if s == "" then ""
    else
      var m := RefLength(s);
      if m > 0 then
        var name := s[2..m - 1];
        (if name in vars then vars[name] else s[..m]) + ReplaceRefs(s[m..], vars)
      else [s[0]] + ReplaceRefs(s[1..], vars)
  }

  function ExpandVariables(s: string, vars: map<string, string>): Result {
    var r := ReplaceRefs(s, vars);
    if HasRef(r) then Err(VariableNotFound) else Ok(r)
  }

  /** A variable: its name and its value. */
  datatype Var = Var(name: string, value: string)

  /** The text after the first n variables of `order` were embedded. */
  function EmbedTo(s: string, order: seq<Var>, n: nat): string
    requires n <= |order|
  {
    if n == 0 then s
    else ReplaceAll(EmbedTo(s, order, n - 1), order[n - 1].value, Reference(order[n - 1].name))
  }

  function Embed(s: string, order: seq<Var>): string {
    EmbedTo(s, order, |order|)
  }

  /** The variables in an order in which embedVariables may process them: each once, and
      from the longest to the shortest value. */
  ghost predicate ProcessingOrder(order: seq<Var>, vars: map<string, string>) {
    && (forall i :: 0 <= i < |order| ==> order[i].name in vars && vars[order[i].name] == order[i].value)
    && (forall name :: name in vars ==> Var(name, vars[name]) in order)
    && (forall i, j :: 0 <= i < j < |order| ==> order[i].name != order[j].name)
    && (forall i, j :: 0 <= i < j < |order| ==> |order[i].value| >= |order[j].value|)
  }

  ghost predicate DistinctValues(vars: map<string, string>) {
    forall a, b :: a in vars && b in vars && vars[a] == vars[b] ==> a == b
  }

  ghost predicate ValuesUpTo(vars: map<string, string>, names: seq<string>, n: nat, revMap: map<string, string>)
    requires n <= |names| && forall k :: k in names ==> k in vars
  {
    && (forall v :: v in revMap ==> revMap[v] in names[..n] && vars[revMap[v]] == v)
    && (forall j :: 0 <= j < n ==> vars[names[j]] in revMap && revMap[vars[names[j]]] == names[j])
  }

  /** The first loop of embedVariables: the reverse map, or nothing if a value repeats. */
  method ReverseMap(vars: map<string, string>, names: seq<string>) returns (ok: bool, revMap: map<string, string>)
    requires forall k :: k in names <==> k in vars
    requires forall i, j :: 0 <= i < j < |names| ==> names[i] != names[j]
    ensures ok <==> DistinctValues(vars)
    ensures ok ==> forall k :: k in vars ==> vars[k] in revMap && revMap[vars[k]] == k
    ensures ok ==> forall v :: v in revMap ==> revMap[v] in vars && vars[revMap[v]] == v
  {
    revMap := map[];
    for i := 0 to |names|
      invariant ValuesUpTo(vars, names, i, revMap)
    {
      assert names[i] in names && names[..i + 1] == names[..i] + [names[i]];
      var v := vars[names[i]];
      if v in revMap {
        var j :| 0 <= j < i && names[j] == revMap[v];
        assert names[j] in vars && names[i] in vars;
        return false, revMap;
      }
      revMap := revMap[v := names[i]];
    }
    ok := true;
    forall k | k in vars
      ensures vars[k] in revMap && revMap[vars[k]] == k
    {
      assert k in names;
    }
  }

  /** embedVariables, for an iteration order `names` of the map and an outcome `sorted` of
      sorting the collected values by descending length. It fails exactly when two variables
      share a value; otherwise it embeds the variables in one of the processing orders. */
  method EmbedVariables(s: string, vars: map<string, string>, names: seq<string>, sorted: seq<string>)
    returns (r: Result, ghost order: seq<Var>)
    requires forall k :: k in names <==> k in vars
    requires forall i, j :: 0 <= i < j < |names| ==> names[i] != names[j]
    requires forall v :: v in sorted <==> v in vars.Values
    requires forall i, j :: 0 <= i < j < |sorted| ==> sorted[i] != sorted[j] && |sorted[i]| >= |sorted[j]|
    ensures r == Err(ValueNotUnique) <==> !DistinctValues(vars)
    ensures DistinctValues(vars) ==> ProcessingOrder(order, vars) && r == Ok(Embed(s, order))
  {
    var ok, revMap := ReverseMap(vars, names);
    if !ok {
      return Err(ValueNotUnique), [];
    }
    forall v | v in sorted
      ensures v in revMap
    {
      var k :| k in vars && vars[k] == v;
    }
    order := OrderOf(revMap, sorted);
    var text := s;
    for i := 0 to |sorted|
      invariant text == EmbedTo(s, order, i)
    {
      assert sorted[i] in sorted;
      text := ReplaceAll(text, sorted[i], Reference(revMap[sorted[i]]));
    }
    SortedIsProcessingOrder(vars, revMap, sorted);
    r := Ok(text);
  }

  ghost function OrderOf(revMap: map<string, string>, sorted: seq<string>): (order: seq<Var>)
    requires forall v :: v in sorted ==> v in revMap
    ensures |order| == |sorted|
    ensures forall i :: 0 <= i < |sorted| ==> order[i] == Var(revMap[sorted[i]], sorted[i])
  {
    seq(|sorted|, i requires 0 <= i < |sorted| => assert sorted[i] in sorted; Var(revMap[sorted[i]], sorted[i]))
  }

  lemma SortedIsProcessingOrder(vars: map<string, string>, revMap: map<string, string>, sorted: seq<string>)
    requires forall k :: k in vars ==> vars[k] in revMap && revMap[vars[k]] == k
    requires forall v :: v in revMap ==> revMap[v] in vars && vars[revMap[v]] == v
    requires forall v :: v in sorted <==> v in vars.Values
    requires forall v :: v in sorted ==> v in revMap
    requires forall i, j :: 0 <= i < j < |sorted| ==> sorted[i] != sorted[j] && |sorted[i]| >= |sorted[j]|
    ensures ProcessingOrder(OrderOf(revMap, sorted), vars)
  {
    var order := OrderOf(revMap, sorted);
    forall i | 0 <= i < |order|
      ensures order[i].name in vars && vars[order[i].name] == order[i].value
    {
      assert sorted[i] in sorted;
    }
    forall name | name in vars
      ensures Var(name, vars[name]) in order
    {
      assert vars[name] in sorted;
      var j :| 0 <= j < |sorted| && sorted[j] == vars[name];
      assert order[j] == Var(name, vars[name]);
    }
  }

  // ----- texts with references marked -----

  /** A character of the original text, or a reference that was embedded. */
  datatype Token = Ch(c: char) | Ref(name: string)

  function Chars(s: string): (t: seq<Token>)
    ensures |t| == |s| && forall i :: 0 <= i < |s| ==> t[i] == Ch(s[i])
  {
    seq(|s|, i requires 0 <= i < |s| => Ch(s[i]))
  }

  /** The text with its references written out. */
  function Render(t: seq<Token>): string {
    if t == [] then "" else (if t[0].Ch? then [t[0].c] else Reference(t[0].name)) + Render(t[1..])
  }

  predicate KnownNames(t: seq<Token>, vars: map<string, string>) {
    forall i :: 0 <= i < |t| && t[i].Ref? ==> t[i].name in vars
  }

  /** The text with the values of its references. */
  function Plain(t: seq<Token>, vars: map<string, string>): string
    requires KnownNames(t, vars)
  {
    if t == [] then "" else (if t[0].Ch? then [t[0].c] else vars[t[0].name]) + Plain(t[1..], vars)
  }

  /** The tokens start with the characters of v. */
  predicate Spells(t: seq<Token>, v: string) {
    |v| <= |t| && forall i :: 0 <= i < |v| ==> t[i] == Ch(v[i])
  }

  function Mark(t: seq<Token>, v: string, name: string): seq<Token>
    requires v != ""
    decreases |t|
  {
    if t == [] then []
    else if Spells(t, v) then [Ref(name)] + Mark(t[|v|..], v, name)
    else [t[0]] + Mark(t[1..], v, name)
  }

  predicate Contains(s: string, v: string) {
    v <= s || (s != "" && Contains(s[1..], v))
  }

  lemma {:induction false} ContainsAt(s: string, v: string, i: nat)
    requires i <= |s| && v <= s[i..]
    ensures Contains(s, v)
  {
    if i > 0 {
      assert s[1..][i - 1..] == s[i..];
      ContainsAt(s[1..], v, i - 1);
    } else {
      assert s[0..] == s;
    }
  }

  // ----- one replacement step -----

  lemma Differs(v: string, u: string, i: nat)
    requires i < |v| && i < |u| && v[i] != u[i]
    ensures !(v <= u)
  {}

  lemma NotPrefix(v: string, u: string, i: nat)
    requires AllNameChars(v) && i < |v| && i < |u| && !NameChar(u[i])
    ensures !(v <= u)
  {
    Differs(v, u, i);
  }

  /** The rendered text starts with v exactly when the tokens spell v. */
  lemma {:induction false} RenderStartsWith(t: seq<Token>, v: string)
    requires (forall i :: 1 <= i < |v| ==> v[i] != '$') && (t != [] && v != "" ==> t[0].Ch?)
    ensures v <= Render(t) <==> Spells(t, v)
  {
    if t != [] && v != "" {
      var rest := Render(t[1..]);
      assert Render(t) == [t[0].c] + rest;
      if |t| > 1 && |v| > 1 && t[1].Ref? {
        assert Render(t)[1] == rest[0] == '$';
        Differs(v, Render(t), 1);
      } else {
        RenderStartsWith(t[1..], v[1..]);
        assert v == [v[0]] + v[1..];
        assert v <= Render(t) <==> v[0] == t[0].c && v[1..] <= rest;
        SpellsCons(t, v);
      }
    }
  }

  lemma {:induction false} ScanSkips(p: string, rest: string, v: string, repl: string)
    requires v != "" && forall i :: 0 <= i < |p| ==> !(v <= (p + rest)[i..])
    ensures Scan(p + rest, v, repl) == p + Scan(rest, v, repl)
  {
    if p == "" {
      assert p + rest == rest;
    } else {
      assert (p + rest)[0..] == p + rest;
      assert (p + rest)[1..] == p[1..] + rest;
      forall i | 0 <= i < |p| - 1
        ensures !(v <= (p[1..] + rest)[i..])
      {
        assert (p[1..] + rest)[i..] == (p + rest)[i + 1..];
      }
      ScanSkips(p[1..], rest, v, repl);
      assert p == [p[0]] + p[1..];
    }
  }

  /** Laid over r from position d on, which may be before its start, v agrees with it. */
  predicate Fits(r: string, v: string, d: int) {
    forall k :: 0 <= k < |v| && 0 <= d + k < |r| ==> v[k] == r[d + k]
  }

  /** Some text has an occurrence of v that meets this part of it. */
  ghost predicate Meets(r: string, v: string) {
    exists d :: -|v| < d < |r| && Fits(r, v, d)
  }

  /** Syntax-free values meet a reference just inside its name. */
  lemma MeetsReferenceIff(name: string, v: string)
    requires v != "" && AllNameChars(v)
    ensures Meets(Reference(name), v) <==> Contains(name, v)
  {
    if Contains(name, v) {
      var i := ContainedAt(name, v);
      assert Fits(Reference(name), v, i + 2);
    }
    if d :| -|v| < d < |Reference(name)| && Fits(Reference(name), v, d) {
      FitsInName(name, v, d);
      assert v <= name[d - 2..];
      ContainsAt(name, v, d - 2);
    }
  }

  lemma FitsInName(name: string, v: string, d: int)
    requires v != "" && AllNameChars(v) && -|v| < d < |Reference(name)| && Fits(Reference(name), v, d)
    ensures 2 <= d && d - 2 + |v| <= |name| && v == name[d - 2..d - 2 + |v|]
  {
    var r := Reference(name);
    assert r[0] == '$' && r[1] == '{' && r[|name| + 2] == '}';
    if d < 2 {
      NameCharHere(r, v, d, if d <= 0 then 0 else 1);
    } else if d + |v| > |name| + 2 {
      NameCharHere(r, v, d, |name| + 2);
    }
  }

  lemma NameCharHere(r: string, v: string, d: int, p: nat)
    requires AllNameChars(v) && Fits(r, v, d) && p < |r| && 0 <= p - d < |v|
    ensures NameChar(r[p])
  {
    assert v[p - d] == r[d + (p - d)];
  }

  lemma {:induction false} ContainedAt(s: string, v: string) returns (i: nat)
    requires Contains(s, v)
    ensures i <= |s| && v <= s[i..]
  {
    if v <= s {
      i := 0;
      assert s[0..] == s;
    } else {
      i := ContainedAt(s[1..], v);
      i := i + 1;
      assert s[1..][i - 1..] == s[i..];
    }
  }

  /** No occurrence of v starts in a reference that it does not meet. */
  lemma ScanSkipsReference(name: string, rest: string, v: string, repl: string)
    requires v != "" && !Meets(Reference(name), v)
    ensures Scan(Reference(name) + rest, v, repl) == Reference(name) + Scan(rest, v, repl)
  {
    var p := Reference(name);
    forall i | 0 <= i < |p|
      ensures !(v <= (p + rest)[i..])
    {
      if v <= (p + rest)[i..] {
        assert (p + rest)[i..][..|v|] == v;
        assert Fits(p, v, i);
      }
    }
    ScanSkips(p, rest, v, repl);
  }

  lemma RunsInto(t: seq<Token>, w: string, j: nat)
    requires t != [] && t[0].Ref? && j < |w| && w[j..] <= Render(t)
    ensures Meets(Reference(t[0].name), w)
  {
    var v, r := w[j..], Reference(t[0].name);
    assert forall k :: 0 <= k < |v| && k < |r| ==> v[k] == Render(t)[k] == r[k];
    assert Fits(r, w, 0 - j);
  }

  /** What is left of w spells the start of the text, or does not, as the tokens say: an
      occurrence that ran into a reference would meet it. */
  lemma {:induction false} RenderSpells(t: seq<Token>, w: string, j: nat)
    requires j <= |w| && NoneMet(t, w)
    ensures w[j..] <= Render(t) <==> Spells(t, w[j..])
  {
    if j < |w| && t != [] {
      var v := w[j..];
      if t[0].Ref? {
        if v <= Render(t) {
          RunsInto(t, w, j);
        }
      } else {
        assert v == [w[j]] + w[j + 1..] && Render(t) == [t[0].c] + Render(t[1..]);
        RenderSpells(t[1..], w, j + 1);
        SpellsCons(t, v);
      }
    }
  }

  lemma SpellsCons(t: seq<Token>, v: string)
    requires t != [] && v != ""
    ensures Spells(t, v) <==> t[0] == Ch(v[0]) && Spells(t[1..], v[1..])
  {
    if Spells(t, v) {
      SpellsTail(t, v);
    }
    if t[0] == Ch(v[0]) && Spells(t[1..], v[1..]) {
      forall i | 0 <= i < |v|
        ensures t[i] == Ch(v[i])
      {
        assert i > 0 ==> t[1..][i - 1] == Ch(v[1..][i - 1]);
      }
    }
  }

  ghost predicate NoneMet(t: seq<Token>, v: string) {
    forall i :: 0 <= i < |t| && t[i].Ref? ==> !Meets(Reference(t[i].name), v)
  }

  lemma {:induction false} ReplaceIsMark(t: seq<Token>, v: string, name: string)
    requires v != "" && NoneMet(t, v)
    ensures Scan(Render(t), v, Reference(name)) == Render(Mark(t, v, name))
    decreases |t|
  {
    if t != [] {
      if t[0].Ref? {
        ScanSkipsReference(t[0].name, Render(t[1..]), v, Reference(name));
        ReplaceIsMark(t[1..], v, name);
        assert ([t[0]] + Mark(t[1..], v, name))[1..] == Mark(t[1..], v, name);
      } else {
        RenderSpells(t, v, 0);
        assert v[0..] == v;
        if Spells(t, v) {
          RenderDrop(t, v);
          ReplaceIsMark(t[|v|..], v, name);
          assert ([Ref(name)] + Mark(t[|v|..], v, name))[1..] == Mark(t[|v|..], v, name);
        } else {
          ReplaceIsMark(t[1..], v, name);
          assert Render(t)[1..] == Render(t[1..]);
          assert ([t[0]] + Mark(t[1..], v, name))[1..] == Mark(t[1..], v, name);
        }
      }
    }
  }

  lemma SpellsTail(t: seq<Token>, v: string)
    requires v != "" && Spells(t, v)
    ensures t[0] == Ch(v[0]) && Spells(t[1..], v[1..])
    ensures t[1..][|v| - 1..] == t[|v|..] && v == [v[0]] + v[1..]
  {
    forall i | 0 <= i < |v| - 1
      ensures t[1..][i] == Ch(v[1..][i])
    {
      assert t[i + 1] == Ch(v[i + 1]);
    }
  }

  lemma {:induction false} RenderDrop(t: seq<Token>, v: string)
    requires Spells(t, v)
    ensures Render(t) == v + Render(t[|v|..])
  {
    if v == "" {
      assert t[0..] == t;
    } else {
      var rest := Render(t[|v|..]);
      SpellsTail(t, v);
      RenderDrop(t[1..], v[1..]);
      assert Render(t[1..]) == v[1..] + rest;
      assert [v[0]] + (v[1..] + rest) == v + rest;
    }
  }

  lemma {:induction false} PlainDrop(t: seq<Token>, v: string, vars: map<string, string>)
    requires Spells(t, v) && KnownNames(t, vars)
    ensures Plain(t, vars) == v + Plain(t[|v|..], vars)
  {
    if v == "" {
      assert t[0..] == t;
    } else {
      SpellsTail(t, v);
      PlainDrop(t[1..], v[1..], vars);
    }
  }

  /** Marking a value leaves the meaning of the text alone. */
  lemma {:induction false} MarkKeepsPlain(t: seq<Token>, v: string, name: string, vars: map<string, string>)
    requires v != "" && KnownNames(t, vars) && name in vars && vars[name] == v
    ensures KnownNames(Mark(t, v, name), vars) && Plain(Mark(t, v, name), vars) == Plain(t, vars)
    ensures forall x :: x in Mark(t, v, name) ==> x in t || x == Ref(name)
    decreases |t|
  {
    if t != [] {
      if Spells(t, v) {
        var rest := t[|v|..];
        MarkKeepsPlain(rest, v, name, vars);
        PlainDrop(t, v, vars);
        assert ([Ref(name)] + Mark(rest, v, name))[1..] == Mark(rest, v, name);
        assert forall x :: x in rest ==> x in t;
      } else {
        var rest := t[1..];
        MarkKeepsPlain(rest, v, name, vars);
        assert ([t[0]] + Mark(rest, v, name))[1..] == Mark(rest, v, name);
        assert forall x :: x in rest ==> x in t;
      }
    }
  }

  /** No literal run spells w. */
  ghost predicate Clean(t: seq<Token>, w: string) {
    forall k :: 0 <= k <= |t| ==> !Spells(t[k..], w)
  }

  lemma CleanCons(x: Token, t: seq<Token>, w: string)
    requires Clean(t, w) && !Spells([x] + t, w)
    ensures Clean([x] + t, w)
  {
    var u := [x] + t;
    forall k | 0 <= k <= |u|
      ensures !Spells(u[k..], w)
    {
      if k == 0 {
        assert u[0..] == u;
      } else {
        assert u[k..] == t[k - 1..];
      }
    }
  }

  lemma {:induction false} CleanDrop(t: seq<Token>, n: nat, w: string)
    requires n <= |t| && Clean(t, w)
    ensures Clean(t[n..], w)
  {
    forall k | 0 <= k <= |t| - n
      ensures !Spells(t[n..][k..], w)
    {
      assert t[n..][k..] == t[n + k..];
    }
  }

  /** A run of literals at the start of the marked tokens was there before. */
  lemma {:induction false} MarkSpells(t: seq<Token>, v: string, name: string, w: string)
    requires v != "" && Spells(Mark(t, v, name), w)
    ensures Spells(t, w) && (w != "" ==> !Spells(t, v))
  {
    if w != "" {
      var m := Mark(t, v, name);
      assert m[0] == Ch(w[0]);
      assert m[1..] == Mark(t[1..], v, name);
      forall i | 0 <= i < |w| - 1
        ensures m[1..][i] == Ch(w[1..][i])
      {
        assert m[i + 1] == Ch(w[i + 1]);
      }
      MarkSpells(t[1..], v, name, w[1..]);
      forall i | 0 <= i < |w|
        ensures t[i] == Ch(w[i])
      {
        assert i > 0 ==> t[1..][i - 1] == Ch(w[1..][i - 1]);
      }
    }
  }

  /** Marking a value removes it from the literal runs, and never creates another value. */
  lemma {:induction false} MarkCleans(t: seq<Token>, v: string, name: string, w: string)
    requires v != "" && w != "" && (w == v || Clean(t, w))
    ensures Clean(Mark(t, v, name), w)
    decreases |t|
  {
    var m := Mark(t, v, name);
    if t == [] {
    } else {
      var n := if Spells(t, v) then |v| else 1;
      if w != v {
        CleanDrop(t, n, w);
      }
      MarkCleans(t[n..], v, name, w);
      assert t[0..] == t;
      if Spells(m, w) {
        MarkSpells(t, v, name, w);
      }
      CleanCons(m[0], Mark(t[n..], v, name), w);
    }
  }

  // ----- expanding marked texts -----

  lemma {:induction false} NameRunOf(name: string, rest: string)
    requires AllNameChars(name) && rest != "" && !NameChar(rest[0])
    ensures NameRun(name + rest) == |name|
  {
    if name == "" {
      assert name + rest == rest;
    } else {
      assert (name + rest)[1..] == name[1..] + rest;
      NameRunOf(name[1..], rest);
    }
  }

  lemma RefLengthOf(name: string, rest: string)
    requires name != "" && AllNameChars(name)
    ensures RefLength(Reference(name) + rest) == |name| + 3
    ensures (Reference(name) + rest)[2..|name| + 2] == name
    ensures (Reference(name) + rest)[|name| + 3..] == rest
  {
    var u := Reference(name) + rest;
    assert u[2..] == name + ("}" + rest);
    NameRunOf(name, "}" + rest);
    assert "${" <= u;
  }

  lemma RefIsReference(s: string)
    requires RefLength(s) > 0
    ensures var name := s[2..RefLength(s) - 1];
      name != "" && AllNameChars(name) && s[..RefLength(s)] == Reference(name)
  {
    var n := NameRun(s[2..]);
    assert s[2..n + 2] == s[2..][..n];
    assert s[..n + 3] == s[..2] + s[2..n + 2] + [s[n + 2]];
  }

  lemma {:induction false} HasRefSuffix(a: string, b: string)
    requires HasRef(b)
    ensures HasRef(a + b)
  {
    if a == "" {
      assert a + b == b;
    } else {
      assert (a + b)[1..] == a[1..] + b;
      HasRefSuffix(a[1..], b);
    }
  }

  ghost predicate NamesOk(t: seq<Token>, vars: map<string, string>) {
    forall i :: 0 <= i < |t| && t[i].Ref? ==>
      t[i].name in vars && t[i].name != "" && AllNameChars(t[i].name)
  }

  /** A reference that starts at a literal is literal throughout. */
  lemma LiteralReference(t: seq<Token>, vars: map<string, string>)
    requires t != [] && t[0].Ch? && KnownNames(t, vars) && RefLength(Render(t)) > 0
    ensures HasRef(Plain(t, vars))
  {
    var m := RefLength(Render(t));
    RefIsReference(Render(t));
    var name := Render(t)[2..m - 1];
    var v := Render(t)[..m];
    assert v <= Render(t);
    RenderStartsWith(t, v);
    PlainDrop(t, v, vars);
    RefLengthOf(name, Plain(t[m..], vars));
  }

  /** Expanding gives every embedded reference its value and touches nothing else. */
  lemma {:induction false} ExpandIsPlain(t: seq<Token>, vars: map<string, string>)
    requires NamesOk(t, vars) && KnownNames(t, vars) && !HasRef(Plain(t, vars))
    ensures ReplaceRefs(Render(t), vars) == Plain(t, vars)
  {
    if t != [] {
      var rest := t[1..];
      if HasRef(Plain(rest, vars)) {
        HasRefSuffix(if t[0].Ch? then [t[0].c] else vars[t[0].name], Plain(rest, vars));
      }
      ExpandIsPlain(rest, vars);
      if t[0].Ref? {
        RefLengthOf(t[0].name, Render(rest));
      } else {
        if RefLength(Render(t)) > 0 {
          LiteralReference(t, vars);
        }
        assert Render(t)[1..] == Render(rest);
      }
    }
  }

  // ----- all replacement steps -----

  /** Names are references the pattern can match, and values can be found. */
  ghost predicate Usable(order: seq<Var>) {
    forall i :: 0 <= i < |order| ==> order[i].name != "" && AllNameChars(order[i].name) && order[i].value != ""
  }

  /** Moreover the values are different, and no syntax. */
  ghost predicate WellFormed(order: seq<Var>) {
    && Usable(order)
    && (forall i :: 0 <= i < |order| ==> AllNameChars(order[i].value))
    && (forall i, j :: 0 <= i < j < |order| ==> order[i].value != order[j].value)
  }

  /** No reference can be met by the value of a variable that is processed later. */
  ghost predicate NoLaterValueMeets(order: seq<Var>) {
    forall i, j :: 0 <= i < j < |order| ==> !Meets(Reference(order[i].name), order[j].value)
  }

  /** For values that are no syntax this is about the names alone. */
  lemma MeetsOnlyNames(order: seq<Var>)
    requires WellFormed(order)
    ensures NoLaterValueMeets(order) <==> NoLaterValueInName(order)
  {
    forall i, j | 0 <= i < j < |order|
      ensures Meets(Reference(order[i].name), order[j].value) <==> Contains(order[i].name, order[j].value)
    {
      MeetsReferenceIff(order[i].name, order[j].value);
    }
  }

  /** No name contains the value of a variable that is processed later. */
  ghost predicate NoLaterValueInName(order: seq<Var>) {
    forall i, j :: 0 <= i < j < |order| ==> !Contains(order[i].name, order[j].value)
  }

  lemma {:induction false} PlainOfChars(s: string, vars: map<string, string>)
    ensures KnownNames(Chars(s), vars) && Plain(Chars(s), vars) == s && Render(Chars(s)) == s
  {
    if s != "" {
      assert Chars(s)[1..] == Chars(s[1..]);
      PlainOfChars(s[1..], vars);
    }
  }

  ghost predicate NamesFrom(t: seq<Token>, order: seq<Var>, n: nat)
    requires n <= |order|
  {
    forall x :: x in t && x.Ref? ==> exists i :: 0 <= i < n && order[i].name == x.name
  }

  /** The tokens render to the text after n steps, and stand for the original. */
  ghost predicate MarkedTo(t: seq<Token>, s: string, order: seq<Var>, vars: map<string, string>, n: nat)
    requires n <= |order|
  {
    && Render(t) == EmbedTo(s, order, n)
    && KnownNames(t, vars) && Plain(t, vars) == s
    && NamesFrom(t, order, n)
    && forall i :: 0 <= i < n ==> Clean(t, order[i].value)
  }

  lemma MarkStep(t: seq<Token>, s: string, order: seq<Var>, vars: map<string, string>, n: nat)
    returns (m: seq<Token>)
    requires ProcessingOrder(order, vars) && Usable(order) && NoLaterValueMeets(order) && 0 < n <= |order|
    requires MarkedTo(t, s, order, vars, n - 1)
    ensures MarkedTo(m, s, order, vars, n)
  {
    var v, name := order[n - 1].value, order[n - 1].name;
    m := Mark(t, v, name);
    forall i | 0 <= i < |t| && t[i].Ref?
      ensures !Meets(Reference(t[i].name), v)
    {
      assert t[i] in t;
    }
    ReplaceIsMark(t, v, name);
    MarkKeepsPlain(t, v, name, vars);
    assert NamesFrom(m, order, n) by {
      forall x | x in m && x.Ref?
        ensures exists i :: 0 <= i < n && order[i].name == x.name
      {
        if x == Ref(name) {
          assert order[n - 1].name == x.name;
        } else {
          var i :| 0 <= i < n - 1 && order[i].name == x.name;
        }
      }
    }
    forall i | 0 <= i < n
      ensures Clean(m, order[i].value)
    {
      MarkCleans(t, v, name, order[i].value);
    }
  }

  lemma EmbedIsMarked(s: string, order: seq<Var>, vars: map<string, string>, n: nat)
    returns (t: seq<Token>)
    requires ProcessingOrder(order, vars) && Usable(order) && NoLaterValueMeets(order) && n <= |order|
    ensures MarkedTo(t, s, order, vars, n)
  {
    t := Chars(s);
    MarkedAtStart(s, order, vars);
    for i := 0 to n
      invariant MarkedTo(t, s, order, vars, i)
    {
      t := MarkStep(t, s, order, vars, i + 1);
    }
  }

  lemma MarkedAtStart(s: string, order: seq<Var>, vars: map<string, string>)
    ensures MarkedTo(Chars(s), s, order, vars, 0)
  {
    PlainOfChars(s, vars);
    forall x | x in Chars(s)
      ensures x.Ch?
    {
      var i :| 0 <= i < |s| && Chars(s)[i] == x;
    }
  }

  // ----- theorems -----

  ghost predicate RoundTrips(s: string, order: seq<Var>, vars: map<string, string>) {
    ExpandVariables(Embed(s, order), vars) == Ok(s)
  }

  /** Every occurrence that can be embedded is: the embedded text consists of literals and
      references, its references stand for what they replaced, and no literal run contains
      any of the values. */
  lemma EmbedIsComplete(s: string, order: seq<Var>, vars: map<string, string>) returns (t: seq<Token>)
    requires ProcessingOrder(order, vars) && Usable(order) && NoLaterValueMeets(order)
    ensures Embed(s, order) == Render(t) && KnownNames(t, vars) && Plain(t, vars) == s
    ensures forall i :: 0 <= i < |order| ==> Clean(t, order[i].value)
  {
    t := EmbedIsMarked(s, order, vars, |order|);
  }

  /** For a safe order, whatever the values hold, a text survives the round trip exactly when
      it holds no reference. */
  lemma RoundTripsIff(s: string, order: seq<Var>, vars: map<string, string>)
    requires ProcessingOrder(order, vars) && Usable(order) && NoLaterValueMeets(order)
    ensures RoundTrips(s, order, vars) <==> !HasRef(s)
  {
    if !HasRef(s) {
      var t := EmbedIsMarked(s, order, vars, |order|);
      assert NamesOk(t, vars) by {
        forall i | 0 <= i < |t| && t[i].Ref?
          ensures t[i].name in vars && t[i].name != "" && AllNameChars(t[i].name)
        {
          assert t[i] in t;
        }
      }
      ExpandIsPlain(t, vars);
    }
  }

  // ----- an unsafe order breaks some text -----

  lemma {:induction false} ScanWithoutOccurrence(s: string, v: string, repl: string)
    requires v != "" && !Contains(s, v)
    ensures Scan(s, v, repl) == s
  {
    if s != "" {
      ScanWithoutOccurrence(s[1..], v, repl);
    }
  }

  lemma {:induction false} ContainsIsShorter(s: string, v: string)
    requires Contains(s, v)
    ensures |v| <= |s| && (|v| == |s| ==> v == s)
  {
    if !(v <= s) {
      ContainsIsShorter(s[1..], v);
    }
  }

  /** The first character that is not a name character is a dollar sign. */
  predicate DollarFirst(u: string) {
    u != "" && (u[0] == '$' || (NameChar(u[0]) && DollarFirst(u[1..])))
  }

  predicate Blocked(s: string) {
    "${" <= s && DollarFirst(s[2..])
  }

  lemma {:induction false} ScanKeepsDollarFirst(u: string, v: string, name: string)
    requires v != "" && AllNameChars(v) && DollarFirst(u)
    ensures DollarFirst(Scan(u, v, Reference(name)))
  {
    if v <= u {
    } else if u[0] != '$' {
      ScanKeepsDollarFirst(u[1..], v, name);
      var r := Scan(u[1..], v, Reference(name));
      assert ([u[0]] + r)[1..] == r;
    }
  }

  lemma {:induction false} ScanMakesDollarFirst(n: string, rest: string, v: string, name: string)
    requires v != "" && AllNameChars(n) && Contains(n, v)
    ensures DollarFirst(Scan(n + rest, v, Reference(name)))
  {
    if v <= n {
      assert v <= n + rest;
    } else if !(v <= n + rest) {
      assert (n + rest)[1..] == n[1..] + rest;
      ScanMakesDollarFirst(n[1..], rest, v, name);
      var r := Scan(n[1..] + rest, v, Reference(name));
      assert ([n[0]] + r)[1..] == r;
    }
  }

  lemma ScanInside(u: string, v: string, repl: string)
    requires v != "" && AllNameChars(v)
    ensures Scan("${" + u, v, repl) == "${" + Scan(u, v, repl)
  {
    forall i | 0 <= i < 2
      ensures !(v <= ("${" + u)[i..])
    {
      NotPrefix(v, ("${" + u)[i..], 0);
    }
    ScanSkips("${", u, v, repl);
  }

  lemma {:induction false} DollarFirstRun(u: string)
    requires DollarFirst(u)
    ensures NameRun(u) < |u| && u[NameRun(u)] == '$'
  {
    if u[0] != '$' {
      DollarFirstRun(u[1..]);
    }
  }

  /** A variable's own value is left alone by the longer and equally long values before it. */
  lemma {:induction false} OwnValueUntilProcessed(order: seq<Var>, vars: map<string, string>, i: nat, n: nat)
    requires ProcessingOrder(order, vars) && WellFormed(order) && n <= i < |order|
    ensures EmbedTo(order[i].value, order, n) == order[i].value
  {
    if n > 0 {
      OwnValueUntilProcessed(order, vars, i, n - 1);
      if Contains(order[i].value, order[n - 1].value) {
        ContainsIsShorter(order[i].value, order[n - 1].value);
      }
      ScanWithoutOccurrence(order[i].value, order[n - 1].value, Reference(order[n - 1].name));
    }
  }

  lemma BlockedStays(t: string, v: string, name: string)
    requires v != "" && AllNameChars(v) && Blocked(t)
    ensures Blocked(Scan(t, v, Reference(name)))
  {
    var u := t[2..];
    assert t == "${" + u;
    ScanInside(u, v, Reference(name));
    ScanKeepsDollarFirst(u, v, name);
    assert ("${" + Scan(u, v, Reference(name)))[2..] == Scan(u, v, Reference(name));
  }

  /** A value inside the name of a reference blocks it; another value leaves it alone. */
  lemma ReferenceHit(n: string, v: string, name: string)
    requires v != "" && AllNameChars(v) && AllNameChars(n)
    ensures var r := Scan(Reference(n), v, Reference(name));
      if Contains(n, v) then Blocked(r) else r == Reference(n)
  {
    if Contains(n, v) {
      var u := n + "}";
      assert Reference(n) == "${" + u;
      ScanInside(u, v, Reference(name));
      ScanMakesDollarFirst(n, "}", v, name);
      assert ("${" + Scan(u, v, Reference(name)))[2..] == Scan(u, v, Reference(name));
    } else {
      MeetsReferenceIff(n, v);
      ScanSkipsReference(n, "", v, Reference(name));
      assert Reference(n) + "" == Reference(n);
    }
  }

  ghost predicate HitBefore(order: seq<Var>, i: nat, n: nat)
    requires i < n <= |order|
  {
    exists k :: i < k < n && Contains(order[i].name, order[k].value)
  }

  /** From then on it is a reference, which is blocked once a later value hits its name. */
  lemma {:induction false} OwnValueAfterProcessed(order: seq<Var>, vars: map<string, string>, i: nat, n: nat)
    requires ProcessingOrder(order, vars) && WellFormed(order) && i < n <= |order|
    ensures var t := EmbedTo(order[i].value, order, n);
      if HitBefore(order, i, n) then Blocked(t) else t == Reference(order[i].name)
  {
    if n == i + 1 {
      OwnValueBecomesReference(order, vars, i);
    } else {
      OwnValueAfterProcessed(order, vars, i, n - 1);
      var before := EmbedTo(order[i].value, order, n - 1);
      if HitBefore(order, i, n - 1) {
        BlockedStays(before, order[n - 1].value, order[n - 1].name);
      } else {
        ReferenceHit(order[i].name, order[n - 1].value, order[n - 1].name);
      }
      HitBeforeStep(order, i, n);
    }
  }

  lemma OwnValueBecomesReference(order: seq<Var>, vars: map<string, string>, i: nat)
    requires ProcessingOrder(order, vars) && WellFormed(order) && i < |order|
    ensures EmbedTo(order[i].value, order, i + 1) == Reference(order[i].name)
  {
    var v, r := order[i].value, Reference(order[i].name);
    OwnValueUntilProcessed(order, vars, i, i);
    assert v <= v && v[|v|..] == "" && r + "" == r;
    assert Scan(v, v, r) == r;
  }

  lemma HitBeforeStep(order: seq<Var>, i: nat, n: nat)
    requires i + 1 < n <= |order|
    ensures HitBefore(order, i, n) <==> HitBefore(order, i, n - 1) || Contains(order[i].name, order[n - 1].value)
  {}

  /** If a name contains a value processed later, the value of that name is not restored. */
  lemma UnsafeOrderBreaks(order: seq<Var>, vars: map<string, string>, i: nat, j: nat)
    requires ProcessingOrder(order, vars) && WellFormed(order) && i < j < |order|
    requires Contains(order[i].name, order[j].value)
    ensures !HasRef(order[i].value) && !RoundTrips(order[i].value, order, vars)
  {
    var t := Embed(order[i].value, order);
    OwnValueAfterProcessed(order, vars, i, |order|);
    assert HitBefore(order, i, |order|);
    DollarFirstRun(t[2..]);
    assert ReplaceRefs(t, vars)[0] == '$';
    WithoutDollar(order[i].value, "", vars);
  }

  /** Without a dollar sign there is nothing to find and nothing to expand. */
  lemma {:induction false} WithoutDollar(s: string, repl: string, vars: map<string, string>)
    requires forall i :: 0 <= i < |s| ==> s[i] != '$'
    ensures !HasRef(s) && ReplaceRefs(s, vars) == s && Scan(s, "$", repl) == s
  {
    if s != "" {
      Differs("${", s, 0);
      WithoutDollar(s[1..], repl, vars);
    }
  }

  /** The law: with a given processing order, every text without references survives the
      round trip if and only if no name contains a value that is processed later. */
  lemma RoundTripLaw(order: seq<Var>, vars: map<string, string>)
    requires ProcessingOrder(order, vars) && WellFormed(order)
    ensures (forall s: string :: !HasRef(s) ==> RoundTrips(s, order, vars)) <==> NoLaterValueInName(order)
  {
    if NoLaterValueInName(order) {
      MeetsOnlyNames(order);
      forall s: string | !HasRef(s)
        ensures RoundTrips(s, order, vars)
      {
        RoundTripsIff(s, order, vars);
      }
    } else {
      var i, j :| 0 <= i < j < |order| && Contains(order[i].name, order[j].value);
      UnsafeOrderBreaks(order, vars, i, j);
    }
  }

  /** What a caller can check: no name contains another value that is no longer than its own. */
  ghost predicate SafeNames(vars: map<string, string>) {
    forall a, b :: a in vars && b in vars && a != b && |vars[b]| <= |vars[a]| ==> !Contains(a, vars[b])
  }

  lemma SafeNamesSuffice(order: seq<Var>, vars: map<string, string>)
    requires ProcessingOrder(order, vars) && WellFormed(order) && SafeNames(vars)
    ensures NoLaterValueInName(order)
  {
    forall i, j | 0 <= i < j < |order|
      ensures !Contains(order[i].name, order[j].value)
    {
      assert order[i].name != order[j].name;
    }
  }

  /** If the names are not safe, some processing order is not safe either. */
  lemma UnsafeNamesHaveBadOrder(some: seq<Var>, vars: map<string, string>) returns (order: seq<Var>)
    requires ProcessingOrder(some, vars) && WellFormed(some) && !SafeNames(vars)
    ensures ProcessingOrder(order, vars) && WellFormed(order) && !NoLaterValueInName(order)
  {
    var a, b :| a in vars && b in vars && a != b && |vars[b]| <= |vars[a]| && Contains(a, vars[b]);
    var i :| 0 <= i < |some| && some[i] == Var(a, vars[a]);
    var j :| 0 <= j < |some| && some[j] == Var(b, vars[b]);
    order := PutFirst(some, vars, i, j);
  }

  lemma PutFirst(some: seq<Var>, vars: map<string, string>, i: nat, j: nat) returns (order: seq<Var>)
    requires ProcessingOrder(some, vars) && WellFormed(some) && i < |some| && j < |some| && i != j
    requires |some[j].value| <= |some[i].value| && Contains(some[i].name, some[j].value)
    ensures ProcessingOrder(order, vars) && WellFormed(order) && !NoLaterValueInName(order)
  {
    if i > j {
      order := Swapped(some, j, i);
      SwapIsProcessingOrder(some, vars, j, i);
      assert Contains(order[j].name, order[i].value);
    } else {
      order := some;
      assert Contains(order[i].name, order[j].value);
    }
  }

  /** The same law over all orders that map iteration and unstable sorting can produce. */
  lemma RoundTripLawForAllOrders(some: seq<Var>, vars: map<string, string>)
    requires ProcessingOrder(some, vars) && WellFormed(some)
    ensures SafeNames(vars) <==>
      forall order: seq<Var>, s: string ::
        ProcessingOrder(order, vars) && WellFormed(order) && !HasRef(s) ==> RoundTrips(s, order, vars)
  {
    if SafeNames(vars) {
      forall order: seq<Var>, s: string | ProcessingOrder(order, vars) && WellFormed(order) && !HasRef(s)
        ensures RoundTrips(s, order, vars)
      {
        SafeNamesSuffice(order, vars);
        MeetsOnlyNames(order);
        RoundTripsIff(s, order, vars);
      }
    } else {
      var order := UnsafeNamesHaveBadOrder(some, vars);
      RoundTripLaw(order, vars);
    }
  }

  function Swapped(order: seq<Var>, i: nat, j: nat): seq<Var>
    requires i < j < |order|
  {
    order[i := order[j]][j := order[i]]
  }

  lemma SwapIsProcessingOrder(order: seq<Var>, vars: map<string, string>, i: nat, j: nat)
    requires ProcessingOrder(order, vars) && WellFormed(order) && i < j < |order|
    requires |order[i].value| == |order[j].value|
    ensures ProcessingOrder(Swapped(order, i, j), vars) && WellFormed(Swapped(order, i, j))
  {
    var o := Swapped(order, i, j);
    SwapKeepsVars(order, vars, i, j);
    forall a, b | 0 <= a < b < |o|
      ensures o[a].name != o[b].name && o[a].value != o[b].value && |o[a].value| >= |o[b].value|
    {
      SwappedPair(order, vars, i, j, a, b);
    }
  }

  lemma SwapKeepsVars(order: seq<Var>, vars: map<string, string>, i: nat, j: nat)
    requires ProcessingOrder(order, vars) && i < j < |order|
    ensures forall k :: 0 <= k < |order| ==> Swapped(order, i, j)[k] in order
    ensures forall name :: name in vars ==> Var(name, vars[name]) in Swapped(order, i, j)
  {
    var o := Swapped(order, i, j);
    forall name | name in vars
      ensures Var(name, vars[name]) in o
    {
      var k :| 0 <= k < |order| && order[k] == Var(name, vars[name]);
      assert o[if k == i then j else if k == j then i else k] == order[k];
    }
  }

  lemma SwappedPair(order: seq<Var>, vars: map<string, string>, i: nat, j: nat, a: nat, b: nat)
    requires ProcessingOrder(order, vars) && WellFormed(order) && i < j < |order| && a < b < |order|
    requires |order[i].value| == |order[j].value|
    ensures var o := Swapped(order, i, j);
      o[a].name != o[b].name && o[a].value != o[b].value && |o[a].value| >= |o[b].value|
  {
    var o := Swapped(order, i, j);
    var p := if a == i then j else if a == j then i else a;
    var q := if b == i then j else if b == j then i else b;
    var lo, hi := if p < q then p else q, if p < q then q else p;
    assert order[lo].name != order[hi].name && order[lo].value != order[hi].value;
    assert |order[a].value| >= |order[b].value|;
  }

  /** Why values must not hold syntax: a dollar sign that is a value of its own, embedded
      after any other value v, as embedVariables may do, breaks the reference to v. */
  lemma DollarValueBreaks(name: string, v: string, dollar: string, order: seq<Var>, vars: map<string, string>)
    requires name != "" && dollar != "" && AllNameChars(name) && AllNameChars(dollar) && name != dollar
    requires v != "" && AllNameChars(v)
    requires order == [Var(name, v), Var(dollar, "$")] && vars == map[name := v, dollar := "$"]
    ensures ProcessingOrder(order, vars) && !HasRef(v)
    ensures ExpandVariables(Embed(v, order), vars) == Err(VariableNotFound)
  {
    assert NameChar(v[0]);
    DollarValueIsProcessed(name, v, dollar, order, vars);
    DollarValueFails(name, v, dollar, order, vars);
  }

  lemma DollarValueFails(name: string, v: string, dollar: string, order: seq<Var>, vars: map<string, string>)
    requires name != "" && dollar != "" && AllNameChars(name) && AllNameChars(dollar) && name != dollar
    requires v != "" && AllNameChars(v)
    requires order == [Var(name, v), Var(dollar, "$")] && vars == map[name := v, dollar := "$"]
    ensures !HasRef(v) && ExpandVariables(Embed(v, order), vars) == Err(VariableNotFound)
  {
    WithoutDollar(v, "", vars);
    EmbedWithDollar(name, v, dollar, order);
    DollarComesBack(name, dollar, vars);
    ReferenceSplit(name);
    RefLengthOf(name, "");
  }

  /** Expanding the reference to the dollar sign restores a reference that nothing expands. */
  lemma DollarComesBack(name: string, dollar: string, vars: map<string, string>)
    requires dollar != "" && AllNameChars(name) && AllNameChars(dollar) && dollar in vars && vars[dollar] == "$"
    ensures ReplaceRefs(Reference(dollar) + ("{" + name + "}"), vars) == "$" + ("{" + name + "}")
  {
    var braces := "{" + name + "}";
    WithoutDollar(braces, "", vars);
    RefLengthOf(dollar, braces);
  }

  lemma ReferenceSplit(name: string)
    ensures Reference(name) + "" == Reference(name) == "$" + ("{" + name + "}")
  {}

  lemma EmbedWithDollar(name: string, v: string, dollar: string, order: seq<Var>)
    requires AllNameChars(name) && v != "" && order == [Var(name, v), Var(dollar, "$")]
    ensures Embed(v, order) == Reference(dollar) + ("{" + name + "}")
  {
    var braces, r := "{" + name + "}", Reference(dollar);
    ReferenceSplit(name);
    assert v <= v && v[|v|..] == "" && EmbedTo(v, order, 0) == v;
    assert Scan(v, v, Reference(name)) == Reference(name) + "";
    assert EmbedTo(v, order, 1) == "$" + braces;
    WithoutDollar(braces, r, map[]);
    assert ("$" + braces)[1..] == braces;
    assert "$" <= "$" + braces;
  }

  lemma DollarValueIsProcessed(name: string, v: string, dollar: string, order: seq<Var>, vars: map<string, string>)
    requires name != dollar && v != "" && v != "$"
    requires order == [Var(name, v), Var(dollar, "$")] && vars == map[name := v, dollar := "$"]
    ensures ProcessingOrder(order, vars)
  {
    assert order[0] in order && order[1] in order;
  }

  // ----- what replacing means -----

  /** The pieces with a separator between them. */
  function Joined(pieces: seq<string>, separator: string): string
    requires pieces != []
  {
    if |pieces| == 1 then pieces[0] else pieces[0] + separator + Joined(pieces[1..], separator)
  }

  /** The pieces between the occurrences of a text. */
  ghost predicate PiecesOf(pieces: seq<string>, s: string, what: string) {
    pieces != [] && s == Joined(pieces, what) && forall i :: 0 <= i < |pieces| ==> !Contains(pieces[i], what)
  }

  /** The first character occurs only there, so occurrences cannot overlap. */
  predicate StartsOnce(what: string) {
    what != "" && forall k :: 0 < k < |what| ==> what[k] != what[0]
  }

  lemma NoneStartsIn(a: string, what: string, rest: string, i: nat)
    requires StartsOnce(what) && !Contains(a, what) && i < |a|
    requires rest == "" || what <= rest
    ensures !(what <= (a + rest)[i..])
  {
    var u := (a + rest)[i..];
    assert u == a[i..] + rest;
    NotContainedAt(a, what, i);
    if i + |what| > |a| && |what| <= |u| {
      assert u[|a| - i] == rest[0] == what[0];
      Differs(what, u, |a| - i);
    }
  }

  lemma NotContainedAt(s: string, v: string, i: nat)
    requires !Contains(s, v) && i <= |s|
    ensures !(v <= s[i..])
  {
    if v <= s[i..] {
      ContainsAt(s, v, i);
    }
  }

  lemma ReplacedPiece(a: string, what: string, rest: string, repl: string)
    requires StartsOnce(what) && !Contains(a, what) && (rest == "" || what <= rest)
    ensures Scan(a + rest, what, repl) == a + Scan(rest, what, repl)
  {
    forall i | 0 <= i < |a|
      ensures !(what <= (a + rest)[i..])
    {
      NoneStartsIn(a, what, rest, i);
    }
    ScanSkips(a, rest, what, repl);
  }

  lemma {:induction false} ReplacedBetween(pieces: seq<string>, what: string, repl: string)
    requires StartsOnce(what) && pieces != [] && PiecesOf(pieces, Joined(pieces, what), what)
    ensures Scan(Joined(pieces, what), what, repl) == Joined(pieces, repl)
  {
    var a := pieces[0];
    if |pieces| == 1 {
      ReplacedPiece(a, what, "", repl);
      assert a + "" == a;
    } else {
      var rest := Joined(pieces[1..], what);
      ReplacedBetween(pieces[1..], what, repl);
      assert what <= what + rest && (what + rest)[|what|..] == rest;
      ReplacedPiece(a, what, what + rest, repl);
      assert a + what + rest == a + (what + rest);
      assert a + (repl + Joined(pieces[1..], repl)) == a + repl + Joined(pieces[1..], repl);
    }
  }

  lemma {:induction false} HasPieces(s: string, what: string) returns (pieces: seq<string>)
    requires StartsOnce(what)
    ensures PiecesOf(pieces, s, what)
    decreases |s|
  {
    if Contains(s, what) {
      var i := FirstContained(s, what);
      var rest := s[i + |what|..];
      var others := HasPieces(rest, what);
      pieces := [s[..i]] + others;
      assert pieces[1..] == others;
      assert s == s[..i] + what + rest;
    } else {
      pieces := [s];
    }
  }

  lemma {:induction false} FirstContained(s: string, what: string) returns (i: nat)
    requires what != "" && Contains(s, what)
    ensures i + |what| <= |s| && s[i..i + |what|] == what && !Contains(s[..i], what)
  {
    if what <= s {
      i := 0;
    } else {
      var k := FirstContained(s[1..], what);
      i := k + 1;
      assert s[1..][k..k + |what|] == s[i..i + |what|];
      assert s[..i][1..] == s[1..][..k];
      assert s[..i] <= s;
    }
  }

  /** Replacing a text in another: the pieces between its occurrences stay, in their order,
      and the replacement stands between them. */
  lemma ReplaceAllIff(s: string, what: string, repl: string, t: string)
    requires StartsOnce(what)
    ensures ReplaceAll(s, what, repl) == t <==> exists pieces :: PiecesOf(pieces, s, what) && t == Joined(pieces, repl)
  {
    var some := HasPieces(s, what);
    ReplacedBetween(some, what, repl);
    if pieces :| PiecesOf(pieces, s, what) && t == Joined(pieces, repl) {
      ReplacedBetween(pieces, what, repl);
    }
  }

  /** The pieces of a text around an empty one: nothing before, each character, nothing after. */
  function Single(s: string): (pieces: seq<string>)
    ensures |pieces| == |s| + 1
    ensures pieces[|s|] == "" && forall i :: 0 <= i < |s| ==> pieces[i] == [s[i]]
  {
    seq(|s| + 1, i requires 0 <= i <= |s| => if i < |s| then [s[i]] else "")
  }

  /** Replacing the empty text: the replacement stands before, between and after the
      characters. */
  lemma {:induction false} ReplaceEmptyIs(s: string, repl: string)
    ensures ReplaceAll(s, "", repl) == repl + Joined(Single(s), repl)
  {
    if s == "" {
      assert Single(s) == [""];
      assert repl + "" == repl;
    } else {
      ReplaceEmptyIs(s[1..], repl);
      assert Single(s)[1..] == Single(s[1..]);
      assert repl + [s[0]] + (repl + Joined(Single(s[1..]), repl)) == repl + ([s[0]] + repl + Joined(Single(s[1..]), repl));
    }
  }
}
