/** The key-value store: keys in byte order, paths, and iterators over a prefix. */
module Kv {
  import opened Options

  // ----- byte order -----

  predicate Less(a: string, b: string) {
    if b == "" then false
    else if a == "" then true
    else a[0] < b[0] || (a[0] == b[0] && Less(a[1..], b[1..]))
  }

  lemma {:induction false} LessIsStrict(a: string, b: string)
    ensures !(Less(a, b) && Less(b, a))
  {
    if a != "" && b != "" {
      LessIsStrict(a[1..], b[1..]);
    }
  }

  lemma {:induction false} LessIsTotal(a: string, b: string)
    ensures Less(a, b) || a == b || Less(b, a)
  {
    if a != "" && b != "" && a[0] == b[0] {
      LessIsTotal(a[1..], b[1..]);
      assert a == [a[0]] + a[1..] && b == [b[0]] + b[1..];
    }
  }

  lemma {:induction false} LessIsTransitive(a: string, b: string, c: string)
    requires Less(a, b) && Less(b, c)
    ensures Less(a, c)
  {
    if a != "" && a[0] == b[0] && b[0] == c[0] {
      LessIsTransitive(a[1..], b[1..], c[1..]);
    }
  }

  lemma {:induction false} LessAfter(p: string, a: string, b: string)
    ensures Less(p + a, p + b) <==> Less(a, b)
  {
    if p != "" {
      LessAfter(p[1..], a, b);
      assert (p + a)[1..] == p[1..] + a && (p + b)[1..] == p[1..] + b;
    } else {
      assert p + a == a && p + b == b;
    }
  }

  /** The first key after k in byte order. */
  function Successor(k: string): string {
    k + [0 as char]
  }

  lemma {:induction false} NothingBetween(k: string, x: string)
    ensures Less(x, Successor(k)) <==> !Less(k, x)
  {
    if k == "" {
      if x != "" {
        assert Successor(k)[1..] == "";
      }
    } else if x != "" {
      NothingBetween(k[1..], x[1..]);
      assert Successor(k)[1..] == Successor(k[1..]);
    }
  }

  // ----- prefixes -----

  predicate HasPrefix(k: string, p: string) {
    |p| <= |k| && k[..|p|] == p
  }

  lemma PrefixIsSplit(k: string, p: string)
    ensures HasPrefix(k, p) <==> exists x: string :: k == p + x
  {
    if HasPrefix(k, p) {
      assert k == p + k[|p|..];
    }
  }

  lemma {:induction false} PrefixComesFirst(k: string, p: string)
    requires HasPrefix(k, p)
    ensures !Less(k, p)
  {
    if p != "" {
      assert k[1..][..|p| - 1] == k[..|p|][1..];
      PrefixComesFirst(k[1..], p[1..]);
    }
  }

  /** The keys with a prefix are one interval: a key that comes after the prefix without
      having it comes after all of them. */
  lemma {:induction false} PrefixIsInterval(k: string, p: string, x: string)
    requires !Less(k, p) && !HasPrefix(k, p) && HasPrefix(x, p)
    ensures Less(x, k)
  {
    if p != "" {
      assert x[0] == x[..|p|][0] == p[0];
      if k != "" && k[0] == p[0] {
        assert x[1..][..|p| - 1] == x[..|p|][1..];
        assert |p| <= |k| ==> k[..|p|] == [k[0]] + k[1..][..|p| - 1];
        assert p == [p[0]] + p[1..];
        PrefixIsInterval(k[1..], p[1..], x[1..]);
      }
    }
  }

  // ----- paths -----

  const DELIMITER := '/'

  /** FormatPath, for two components. */
  function Path(a: string, b: string): string {
    a + [DELIMITER] + b
  }

  predicate Simple(id: string) {
    DELIMITER !in id
  }

  /** The first component of a path can be read back when it has no delimiter. */
  lemma CutFirst(a: string, x: string, b: string, y: string)
    requires Simple(a) && Simple(b) && Path(a, x) == Path(b, y)
    ensures a == b && x == y
  {
    var s := Path(a, x);
    assert s == Path(b, y);
    assert s[|a|] == DELIMITER && s[|b|] == DELIMITER;
    assert (forall i :: 0 <= i < |a| ==> s[i] == a[i]) && (forall i :: 0 <= i < |b| ==> s[i] == b[i]);
    assert |a| == |b|;
    assert a == s[..|a|] == b && x == s[|a| + 1..] == y;
  }

  /** The last component of a path can be read back when it has no delimiter. */
  lemma CutLast(a: string, x: string, b: string, y: string)
    requires Simple(x) && Simple(y) && Path(a, x) == Path(b, y)
    ensures a == b && x == y
  {
    var s := Path(a, x);
    assert s == Path(b, y);
    assert s[|a|] == DELIMITER && s[|b|] == DELIMITER;
    assert forall i :: |a| < i < |s| ==> s[i] == x[i - |a| - 1];
    assert forall i :: |b| < i < |s| ==> s[i] == y[i - |b| - 1];
    assert |a| == |b|;
    assert a == s[..|a|] == b && x == s[|a| + 1..] == y;
  }

  lemma PathExtends(a: string, x: string)
    ensures HasPrefix(Path(a, x), a) && HasPrefix(Path(a, x), a + [DELIMITER])
    ensures Less(a, Path(a, x))
  {
    assert Path(a, x)[..|a| + 1] == a + [DELIMITER];
    LessAfter(a, "", [DELIMITER] + x);
    assert a + "" == a && a + ([DELIMITER] + x) == Path(a, x);
  }

  lemma PathOrder(a: string, x: string, y: string)
    ensures Less(Path(a, x), Path(a, y)) <==> Less(x, y)
  {
    LessAfter(a + [DELIMITER], x, y);
  }

  // ----- keys in order -----

  predicate IsLeast(k: string, keys: set<string>) {
    k in keys && forall x :: x in keys && x != k ==> Less(k, x)
  }

  lemma {:induction false} LeastExists(keys: set<string>)
    requires keys != {}
    ensures exists k :: IsLeast(k, keys)
  {
    var x :| x in keys;
    var rest := keys - {x};
    if rest == {} {
      assert forall z :: z in keys ==> z == x || z in rest;
      assert IsLeast(x, keys);
    } else {
      LeastExists(rest);
      var y :| IsLeast(y, rest);
      LessIsTotal(x, y);
      if Less(x, y) {
        forall z | z in keys && z != x
          ensures Less(x, z)
        {
          if z != y {
            LessIsTransitive(x, y, z);
          }
        }
        assert IsLeast(x, keys);
      } else {
        assert IsLeast(y, keys);
      }
    }
  }

  lemma LeastIsUnique(keys: set<string>)
    ensures forall k, x :: IsLeast(k, keys) && IsLeast(x, keys) ==> k == x
  {
    forall k, x | IsLeast(k, keys) && IsLeast(x, keys)
      ensures k == x
    {
      LessIsStrict(k, x);
    }
  }

  function Least(keys: set<string>): (k: string)
    requires keys != {}
    ensures IsLeast(k, keys)
  {
    LeastExists(keys);
    LeastIsUnique(keys);
    var k :| IsLeast(k, keys) && k in keys;
    k
  }

  /** The keys of a set in byte order. */
  function Sorted(keys: set<string>): (ks: seq<string>)
    ensures |ks| == |keys|
  {
    if keys == {} then []
    else
      var k := Least(keys);
      [k] + Sorted(keys - {k})
  }

  lemma {:induction false} SortedLists(keys: set<string>)
    ensures forall k :: k in Sorted(keys) <==> k in keys
  {
    if keys != {} {
      SortedLists(keys - {Least(keys)});
    }
  }

  lemma SortedFirst(keys: set<string>)
    requires keys != {}
    ensures Sorted(keys) == [Least(keys)] + Sorted(keys - {Least(keys)})
  {}

  predicate InOrder(ks: seq<string>) {
    forall i, j :: 0 <= i < j < |ks| ==> Less(ks[i], ks[j])
  }

  lemma {:induction false} SortedIsInOrder(keys: set<string>)
    ensures InOrder(Sorted(keys))
  {
    if keys != {} {
      SortedIsInOrder(keys - {Least(keys)});
      SortedLists(keys - {Least(keys)});
    }
  }

  /** Sorted is the only list of the set in order. */
  lemma {:induction false} SortedIsUnique(ks: seq<string>, keys: set<string>)
    requires InOrder(ks) && forall k :: k in ks <==> k in keys
    ensures ks == Sorted(keys)
  {
    if ks == [] {
      assert keys == {};
    } else {
      assert ks[0] in ks;
      forall x | x in keys && x != ks[0]
        ensures Less(ks[0], x)
      {
        assert x in ks;
      }
      assert IsLeast(ks[0], keys);
      LeastIsUnique(keys);
      forall k
        ensures k in ks[1..] <==> k in keys - {ks[0]}
      {
        if k in ks[1..] {
          LessIsStrict(ks[0], k);
          assert k in ks;
        } else if k in keys {
          var i :| 0 <= i < |ks| && ks[i] == k;
          assert i == 0 || ks[1..][i - 1] == k;
        }
      }
      SortedIsUnique(ks[1..], keys - {ks[0]});
    }
  }

  // ----- iterators -----

  /** PrimaryIterator over an unchanged store: Scan from a start key, cut off at the end of
      the prefix, and without the start key itself when that is the first. */
  class PrimaryIterator<V> {
    const store: map<string, V>
    const prefix: string
    const after: string
    var start: string
    var nextCalled: bool
    var completed: bool
    var entry: Option<string>

    ghost predicate Valid()
      reads this
    {
      && !Less(start, prefix)
      && (!nextCalled ==> start == (if Less(prefix, after) then after else prefix) && !completed)
    }

    /** The keys still to come. */
    ghost function Pending(): set<string>
      reads this
    {
      if completed then {} else KeysFrom(store, prefix, start) - (if nextCalled then {} else {after})
    }

    constructor (store: map<string, V>, prefix: string, after: string)
      ensures this.store == store && this.prefix == prefix && this.after == after && Valid() && entry == None
      ensures Pending() == KeysAfter(store, prefix, after)
    {
      this.store, this.prefix, this.after := store, prefix, after;
      start := if Less(prefix, after) then after else prefix;
      nextCalled, completed := false, false;
      entry := None;
      new;
      LessIsStrict(start, prefix);
      forall k | k in store && HasPrefix(k, prefix)
        ensures k in Pending() <==> Less(after, k)
      {
        StartsAfter(prefix, after, k);
      }
    }

    /** PrefixIterator.Next over the store's Scan. */
    method Advance() returns (ok: bool)
      requires Valid()
      modifies this
      ensures nextCalled == old(nextCalled) && !Less(start, prefix)
      ensures ok <==> !old(completed) && KeysFrom(store, prefix, old(start)) != {}
      ensures ok ==> !completed && entry.Some? && IsLeast(entry.value, KeysFrom(store, prefix, old(start)))
      ensures ok ==> KeysFrom(store, prefix, start) == KeysFrom(store, prefix, old(start)) - {entry.value}
      ensures !ok ==> completed && entry == None
    {
      entry := None;
      if completed {
        return false;
      }
      var k := ScanNext(store, prefix, start);
      if k.None? {
        completed := true;
        return false;
      }
      entry := k;
      start := Successor(k.value);
      ok := true;
    }

    /** PrimaryIterator.Next over SkipFirstIterator.Next. */
    method Next() returns (ok: bool)
      requires Valid()
      modifies this
      ensures Valid() && nextCalled
      ensures ok <==> old(Pending()) != {}
      ensures ok ==> entry == Some(Least(old(Pending()))) && Pending() == old(Pending()) - {entry.value}
      ensures !ok ==> Pending() == {} && entry == None
    {
      LeastIsUnique(Pending());
      ghost var pending := Pending();
      if !nextCalled {
        ok := Advance();
        nextCalled := true;
        if !ok {
          return;
        }
        if entry.value != after {
          FirstIsNotAfter(store, prefix, after, old(start), entry.value);
          assert IsLeast(entry.value, pending);
          return;
        }
      }
      ok := Advance();
      assert ok ==> IsLeast(entry.value, pending);
    }
  }

  /** One step of a scan over the store as it is now: the first key from the start on, unless
      that has left the prefix. */
  method ScanNext<V>(store: map<string, V>, prefix: string, start: string) returns (k: Option<string>)
    requires !Less(start, prefix)
    ensures k.None? <==> KeysFrom(store, prefix, start) == {}
    ensures k.Some? ==> IsLeast(k.value, KeysFrom(store, prefix, start)) && !Less(Successor(k.value), prefix)
    ensures k.Some? ==> KeysFrom(store, prefix, Successor(k.value)) == KeysFrom(store, prefix, start) - {k.value}
  {
    var rest := set k | k in store && !Less(k, start);
    if rest == {} {
      return None;
    }
    var first := Least(rest);
    if !HasPrefix(first, prefix) {
      ScanLeftPrefix(store, prefix, start, first);
      return None;
    }
    ScanMoves(store, prefix, start, first);
    k := Some(first);
  }

  /** The keys of a prefix from a start key on. */
  ghost function KeysFrom<V>(store: map<string, V>, prefix: string, start: string): set<string> {
    set k | k in store && HasPrefix(k, prefix) && !Less(k, start)
  }

  /** The keys of a prefix after a given key. */
  ghost function KeysAfter<V>(store: map<string, V>, prefix: string, after: string): set<string> {
    set k | k in store && HasPrefix(k, prefix) && Less(after, k)
  }

  lemma ScanLeftPrefix<V>(store: map<string, V>, prefix: string, start: string, k: string)
    requires !Less(start, prefix) && !HasPrefix(k, prefix)
    requires IsLeast(k, set x | x in store && !Less(x, start))
    ensures KeysFrom(store, prefix, start) == {}
  {
    forall x | x in KeysFrom(store, prefix, start)
      ensures false
    {
      NotBelow(k, start, prefix);
      PrefixIsInterval(k, prefix, x);
      LessIsStrict(k, x);
    }
  }

  lemma StartsAfter(prefix: string, after: string, k: string)
    requires HasPrefix(k, prefix)
    ensures var start := if Less(prefix, after) then after else prefix;
      !Less(k, start) && k != after <==> Less(after, k)
  {
    PrefixComesFirst(k, prefix);
    LessIsTotal(after, k);
    LessIsStrict(after, k);
    if !Less(prefix, after) && !Less(after, k) && k != after {
      NotBelow(k, prefix, after);
    }
  }

  lemma NotBelow(a: string, b: string, c: string)
    requires !Less(a, b) && !Less(b, c)
    ensures !Less(a, c)
  {
    LessIsTotal(a, b);
    LessIsTotal(b, c);
    if Less(b, a) && Less(c, b) {
      LessIsTransitive(c, b, a);
    }
    LessIsStrict(a, c);
  }

  lemma ScanMoves<V>(store: map<string, V>, prefix: string, start: string, k: string)
    requires !Less(start, prefix) && HasPrefix(k, prefix)
    requires IsLeast(k, set x | x in store && !Less(x, start))
    ensures IsLeast(k, KeysFrom(store, prefix, start))
    ensures KeysFrom(store, prefix, Successor(k)) == KeysFrom(store, prefix, start) - {k}
    ensures !Less(Successor(k), prefix)
  {
    PrefixComesFirst(k, prefix);
    assert HasPrefix(Successor(k), prefix) by {
      assert Successor(k)[..|prefix|] == k[..|prefix|];
    }
    PrefixComesFirst(Successor(k), prefix);
    forall x | x in store
      ensures !Less(x, Successor(k)) <==> !Less(x, start) && x != k
    {
      NothingBetween(k, x);
      LessIsStrict(k, k);
      assert !Less(x, start) ==> x == k || Less(k, x);
      if Less(k, x) {
        LessIsStrict(x, k);
        NotBelow(x, k, start);
      }
    }
  }

  lemma FirstIsNotAfter<V>(store: map<string, V>, prefix: string, after: string, start: string, k: string)
    requires start == (if Less(prefix, after) then after else prefix)
    requires IsLeast(k, KeysFrom(store, prefix, start)) && k != after
    ensures after !in KeysFrom(store, prefix, start)
  {
    if after in KeysFrom(store, prefix, start) {
      PrefixComesFirst(after, prefix);
      LessIsTotal(after, prefix);
      LessIsStrict(k, after);
    }
  }
}
