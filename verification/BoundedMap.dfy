/** The two-level map: a sorted slice of padded keys, and a small arena map for new values. */
module BoundedMap {
  import opened Options
  import opened PaddedKeys
  import opened SortedEntries
  import Arena

  // ----- what the sorted level stands for -----

  ghost predicate Padded<V>(s: seq<Entry<V>>) {
    forall i :: 0 <= i < |s| ==> |s[i].k| == KEY_SIZE_BOUND
  }

  /** The value the sorted level holds for a proper key. */
  ghost function Lookup<V>(s: seq<Entry<V>>, k: Key): Option<V> {
    if Proper(k) then Last(s, Trim(k)) else None
  }

  ghost function Keys<V>(s: seq<Entry<V>>): set<Key> {
    set i | 0 <= i < |s| :: Strip(s[i].k)
  }

  ghost function BigContents<V>(s: seq<Entry<V>>): map<Key, V> {
    map k | k in Keys(s) && Lookup(s, k).Some? :: Lookup(s, k).value
  }

  lemma BigContentsAt<V>(s: seq<Entry<V>>, k: Key)
    requires Padded(s)
    ensures k in BigContents(s) <==> Lookup(s, k).Some?
    ensures k in BigContents(s) <==> Proper(k) && exists i :: 0 <= i < |s| && s[i].k == Trim(k)
  {
    if Proper(k) {
      LastIsThere(s, Trim(k));
      if Lookup(s, k).Some? {
        var i :| 0 <= i < |s| && s[i].k == Trim(k);
        StripInvertsTrim(k);
        assert Strip(s[i].k) in Keys(s);
      }
    }
  }

  lemma KeysInBig<V>(s: seq<Entry<V>>)
    requires Padded(s)
    ensures BigContents(s).Keys == Keys(s)
  {
    forall k | k in Keys(s)
      ensures k in BigContents(s)
    {
      var i :| 0 <= i < |s| && Strip(s[i].k) == k;
      TrimInvertsStrip(s[i].k);
      BigContentsAt(s, k);
    }
  }

  lemma KeysOneMore<V>(s: seq<Entry<V>>)
    requires s != []
    ensures Keys(s) == Keys(s[..|s| - 1]) + {Strip(s[|s| - 1].k)}
  {
    var init := s[..|s| - 1];
    forall k | k in Keys(s)
      ensures k in Keys(init) + {Strip(s[|s| - 1].k)}
    {
      var i :| 0 <= i < |s| && Strip(s[i].k) == k;
      assert i < |init| ==> init[i] == s[i];
    }
    forall k | k in Keys(init)
      ensures k in Keys(s)
    {
      var i :| 0 <= i < |init| && Strip(init[i].k) == k;
      assert s[i] == init[i];
    }
  }

  /** Strictly sorted entries have as many keys as entries. */
  lemma {:induction false} CountKeys<V>(s: seq<Entry<V>>)
    requires Padded(s) && StrictlySorted(s)
    ensures |Keys(s)| == |s|
  {
    if s == [] {
      assert Keys(s) == {};
    } else {
      var init, last := s[..|s| - 1], s[|s| - 1].k;
      CountKeys(init);
      KeysOneMore(s);
      forall i | 0 <= i < |init|
        ensures Strip(init[i].k) != Strip(last)
      {
        TrimInvertsStrip(init[i].k);
        TrimInvertsStrip(last);
        CompareIsEquality(s[i].k, last);
      }
      assert Strip(last) !in Keys(init);
    }
  }

  // ----- what Optimize does, on values -----

  /** The keys are proper keys of the small map. */
  ghost predicate ProperKeysOf<V>(order: seq<Key>, small: map<Key, V>) {
    forall k :: k in order ==> k in small && Proper(k)
  }

  /** The sorted level with the small map's entries appended, in some order. */
  ghost function Appended<V>(s: seq<Entry<V>>, order: seq<Key>, small: map<Key, V>): (r: seq<Entry<V>>)
    requires ProperKeysOf(order, small)
    ensures |r| == |s| + |order|
  {
    if order == [] then s
    else
      var k := order[|order| - 1];
      assert k in order;
      Appended(s, order[..|order| - 1], small) + [Entry(Trim(k), small[k])]
  }

  lemma {:induction false} LastOfAppended<V>(s: seq<Entry<V>>, order: seq<Key>, small: map<Key, V>, k: Key)
    requires Proper(k) && ProperKeysOf(order, small)
    ensures Last(Appended(s, order, small), Trim(k)) == if k in order then Some(small[k]) else Last(s, Trim(k))
  {
    if order != [] {
      var init, last := order[..|order| - 1], order[|order| - 1];
      assert last in order;
      LastOfAppended(s, init, small, k);
      var r := Appended(s, init, small);
      assert (r + [Entry(Trim(last), small[last])])[..|r|] == r;
      if Trim(k) == Trim(last) {
        TrimIsInjective(k, last);
      }
    }
  }

  lemma {:induction false} AppendedIsPadded<V>(s: seq<Entry<V>>, order: seq<Key>, small: map<Key, V>)
    requires Padded(s) && ProperKeysOf(order, small)
    ensures Padded(Appended(s, order, small))
  {
    if order != [] {
      AppendedIsPadded(s, order[..|order| - 1], small);
    }
  }

  lemma {:induction false} InsertIsPadded<V>(s: seq<Entry<V>>, e: Entry<V>)
    requires Padded(s) && |e.k| == KEY_SIZE_BOUND
    ensures Padded(Insert(s, e))
  {
    if s != [] && Compare(s[|s| - 1].k, e.k) > 0 {
      InsertIsPadded(s[..|s| - 1], e);
    }
  }

  lemma {:induction false} SortStableIsPadded<V>(s: seq<Entry<V>>)
    requires Padded(s)
    ensures Padded(SortStable(s))
  {
    if s != [] {
      SortStableIsPadded(s[..|s| - 1]);
      InsertIsPadded(SortStable(s[..|s| - 1]), s[|s| - 1]);
    }
  }

  lemma {:induction false} DedupIsPadded<V>(s: seq<Entry<V>>)
    requires Padded(s)
    ensures Padded(Dedup(s))
  {
    if |s| > 1 {
      DedupIsPadded(s[..|s| - 1]);
    }
  }

  lemma OptimizeLookup<V>(s: seq<Entry<V>>, order: seq<Key>, small: map<Key, V>, k: Key)
    requires Padded(s) && ProperKeysOf(order, small)
    ensures Lookup(Dedup(SortStable(Appended(s, order, small))), k)
         == if k in order then Some(small[k]) else Lookup(s, k)
  {
    if Proper(k) {
      var appended := Appended(s, order, small);
      var sorted := SortStable(appended);
      SortStableSorts(appended);
      DedupKeepsLast(sorted, Trim(k));
      LastOfSelect(sorted, Trim(k));
      SortStableIsStable(appended, Trim(k));
      LastOfSelect(appended, Trim(k));
      LastOfAppended(s, order, small, k);
    }
  }

  lemma OptimizeKeepsShape<V>(s: seq<Entry<V>>, order: seq<Key>, small: map<Key, V>)
    requires Padded(s) && ProperKeysOf(order, small)
    ensures var r := Dedup(SortStable(Appended(s, order, small))); Padded(r) && StrictlySorted(r)
  {
    var appended := Appended(s, order, small);
    AppendedIsPadded(s, order, small);
    SortStableIsPadded(appended);
    SortStableSorts(appended);
    DedupIsPadded(SortStable(appended));
    DedupIsStrict(SortStable(appended));
  }

  /** Appending the small map's entries, in any order, then sorting stably and keeping the
      last entry of each key merges the two levels, and the newer value wins. */
  lemma OptimizeMerges<V>(s: seq<Entry<V>>, order: seq<Key>, small: map<Key, V>)
    requires Padded(s) && ProperKeysOf(order, small) && forall k :: k in small ==> k in order
    ensures var r := Dedup(SortStable(Appended(s, order, small)));
      Padded(r) && StrictlySorted(r) && BigContents(r) == BigContents(s) + small
  {
    OptimizeKeepsShape(s, order, small);
    var r := Dedup(SortStable(Appended(s, order, small)));
    var merged := BigContents(s) + small;
    forall k: Key
      ensures k in BigContents(r) <==> k in merged
      ensures k in merged ==> BigContents(r)[k] == merged[k]
    {
      OptimizeLookup(s, order, small, k);
      BigContentsAt(r, k);
      BigContentsAt(s, k);
    }
    assert BigContents(r) == merged;
  }

  // ----- the algorithms on slices -----

  /** slices.SortStableFunc, as characterised by SortStableIsUnique. */
  method SortStableFunc<V>(a: array<Entry<V>>)
    modifies a
    ensures a[..] == SortStable(old(a[..]))
  {
    SortStableSorts(a[..]);
    var sorted := SortStable(a[..]);
    forall i | 0 <= i < a.Length {
      a[i] := sorted[i];
    }
  }

  /** Dedup of the first n entries. */
  ghost function DedupTo<V>(s: seq<Entry<V>>, n: nat): (d: seq<Entry<V>>)
    requires 0 < n <= |s|
    ensures d != [] && d[|d| - 1] == s[n - 1]
  {
    if n == 1 then [s[0]]
    else
      var d := DedupTo(s, n - 1);
      if d[|d| - 1].k != s[n - 1].k then d + [s[n - 1]] else d[|d| - 1 := s[n - 1]]
  }

  lemma {:induction false} DedupToIsDedup<V>(s: seq<Entry<V>>, n: nat)
    requires 0 < n <= |s|
    ensures DedupTo(s, n) == Dedup(s[..n])
  {
    if n > 1 {
      DedupToIsDedup(s, n - 1);
      assert s[..n][..n - 1] == s[..n - 1];
    }
  }

  lemma DedupToAll<V>(s: seq<Entry<V>>)
    requires s != []
    ensures DedupTo(s, |s|) == Dedup(s)
  {
    DedupToIsDedup(s, |s|);
    assert s[..|s|] == s;
  }

  /** Deduplicate in place: `n` entries remain at the front. */
  method Compact<V>(a: array<Entry<V>>) returns (n: nat)
    modifies a
    ensures n <= a.Length && a[..n] == Dedup(old(a[..]))
  {
    if a.Length <= 1 {
      return a.Length;
    }
    DedupToAll(a[..]);
    n := CompactLoop(a);
  }

  /** The array `b` with the first `readIdx` entries of `s` already deduplicated. */
  ghost predicate Halfway<V>(b: seq<Entry<V>>, s: seq<Entry<V>>, writeIdx: nat, readIdx: nat) {
    && |b| == |s| && writeIdx < readIdx <= |s|
    && b[..writeIdx + 1] == DedupTo(s, readIdx)
    && (forall i :: readIdx <= i < |s| ==> b[i] == s[i])
  }

  lemma HalfwayStep<V>(b: seq<Entry<V>>, s: seq<Entry<V>>, writeIdx: nat, readIdx: nat)
    requires Halfway(b, s, writeIdx, readIdx) && readIdx < |s|
    ensures var w := if b[writeIdx].k != b[readIdx].k then writeIdx + 1 else writeIdx;
      Halfway(b[w := b[readIdx]], s, w, readIdx + 1)
  {
    var w := if b[writeIdx].k != b[readIdx].k then writeIdx + 1 else writeIdx;
    var d := b[..writeIdx + 1];
    assert d[|d| - 1] == b[writeIdx];
    var c := b[w := b[readIdx]];
    assert c[..w + 1] == if w > writeIdx then d + [s[readIdx]] else d[|d| - 1 := s[readIdx]];
  }

  method CompactLoop<V>(a: array<Entry<V>>) returns (n: nat)
    requires a.Length > 0
    modifies a
    ensures n <= a.Length && a[..n] == DedupTo(old(a[..]), a.Length)
  {
    ghost var s := a[..];
    var writeIdx := 0;
    var readIdx := 1;
    while readIdx < a.Length
      invariant 0 <= writeIdx < readIdx <= a.Length
      invariant Halfway(a[..], s, writeIdx, readIdx)
    {
      ghost var b := a[..];
      HalfwayStep(b, s, writeIdx, readIdx);
      CompareIsEquality(a[writeIdx].k, a[readIdx].k);
      if Compare(a[writeIdx].k, a[readIdx].k) != 0 {
        writeIdx := writeIdx + 1;
      }
      a[writeIdx] := a[readIdx];
      assert a[..] == b[writeIdx := b[readIdx]];
      readIdx := readIdx + 1;
    }
    n := writeIdx + 1;
    assert a[..][..n] == a[..n];
  }

  /** slices.BinarySearchFunc with compareKey: the position of the key, or where it would go. */
  method BinarySearch<V>(a: array<Entry<V>>, n: nat, k: Key) returns (pos: nat, found: bool)
    requires n <= a.Length && StrictlySorted(a[..n]) && (n > 0 ==> |k| <= KEY_SIZE_BOUND)
    ensures pos <= n
    ensures found <==> exists i :: 0 <= i < n && a[i].k == Trim(k)
    ensures found ==> pos < n && a[pos].k == Trim(k)
  {
    ghost var s := a[..n];
    if n == 0 {
      return 0, false;
    }
    var target := Trim(k);
    var i, j := 0, n;
    while i < j
      invariant 0 <= i <= j <= n
      invariant forall x :: 0 <= x < i ==> Compare(s[x].k, target) < 0
      invariant forall x :: j <= x < n ==> Compare(s[x].k, target) >= 0
    {
      var h := (i + j) / 2;
      assert s[h] == a[h];
      if Compare(a[h].k, target) < 0 {
        BelowToo(s, h, target);
        i := h + 1;
      } else {
        AboveToo(s, h, target);
        j := h;
      }
    }
    pos := i;
    found := i < n && Compare(a[i].k, target) == 0;
    if i < n {
      CompareIsEquality(a[i].k, target);
    }
    FoundAtBoundary(s, i, target);
  }

  lemma BelowToo<V>(s: seq<Entry<V>>, h: nat, target: Key)
    requires StrictlySorted(s) && h < |s| && Compare(s[h].k, target) < 0
    ensures forall x :: 0 <= x <= h ==> Compare(s[x].k, target) < 0
  {
    forall x | 0 <= x < h
      ensures Compare(s[x].k, target) < 0
    {
      CompareIsTransitive(s[x].k, s[h].k, target);
    }
  }

  lemma AboveToo<V>(s: seq<Entry<V>>, h: nat, target: Key)
    requires StrictlySorted(s) && h < |s| && Compare(s[h].k, target) >= 0
    ensures forall x :: h <= x < |s| ==> Compare(s[x].k, target) >= 0
  {
    forall x | h < x < |s|
      ensures Compare(s[x].k, target) >= 0
    {
      CompareFlips(s[h].k, target);
      CompareFlips(s[x].k, target);
      CompareIsTransitive(target, s[h].k, s[x].k);
    }
  }

  lemma StrictlyAbove<V>(s: seq<Entry<V>>, i: nat, x: nat, target: Key)
    requires StrictlySorted(s) && i < x < |s| && Compare(s[i].k, target) >= 0
    ensures Compare(s[x].k, target) > 0
  {
    CompareFlips(s[i].k, target);
    CompareFlips(s[x].k, target);
    CompareIsTransitive(target, s[i].k, s[x].k);
  }

  /** A key can only be at the first position that is not below it. */
  lemma FoundAtBoundary<V>(s: seq<Entry<V>>, i: nat, target: Key)
    requires StrictlySorted(s) && i <= |s|
    requires forall x :: 0 <= x < i ==> Compare(s[x].k, target) < 0
    requires i < |s| ==> Compare(s[i].k, target) >= 0
    ensures forall x :: 0 <= x < |s| && s[x].k == target ==> x == i
  {
    forall x | 0 <= x < |s| && x != i
      ensures s[x].k != target
    {
      if x > i {
        StrictlyAbove(s, i, x, target);
      }
      CompareIsEquality(s[x].k, target);
    }
  }

  // ----- the map -----

  class BoundedArenaMap<V(0)> {
    var bigMap: array<Entry<V>>
    var bigLen: nat
    var smallMap: Arena.ArenaMap<Key, V>

    ghost function Big(): seq<Entry<V>>
      reads this, bigMap
      requires bigLen <= bigMap.Length
    {
      bigMap[..bigLen]
    }

    ghost predicate Valid()
      reads this, bigMap, smallMap, smallMap.arena, smallMap.arena.objects
    {
      && bigLen <= bigMap.Length
      && Padded(Big()) && StrictlySorted(Big())
      && smallMap.Valid() && (bigMap as object) != smallMap.arena.objects
      && (forall k :: k in smallMap.Contents() ==> Proper(k))
    }

    /** The plain map this object behaves as. */
    ghost function Contents(): map<Key, V>
      reads this, bigMap, smallMap, smallMap.arena, smallMap.arena.objects
      requires Valid()
    {
      BigContents(Big()) + smallMap.Contents()
    }

    /** The keys present in both levels. */
    ghost function InBoth(): set<Key>
      reads this, bigMap, smallMap, smallMap.arena, smallMap.arena.objects
      requires Valid()
    {
      BigContents(Big()).Keys * smallMap.Contents().Keys
    }

    constructor ()
      ensures Valid() && Contents() == map[]
      ensures fresh(bigMap) && fresh(smallMap) && fresh(smallMap.arena) && fresh(smallMap.arena.objects)
    {
      bigMap := new Entry<V>[0];
      bigLen := 0;
      smallMap := new Arena.ArenaMap<Key, V>();
    }

    method Put(k: Key, v: V, slack: nat)
      requires Valid() && Proper(k)
      modifies smallMap, smallMap.arena, smallMap.arena.objects
      ensures Valid() && smallMap.arena == old(smallMap.arena)
      ensures smallMap.arena.objects == old(smallMap.arena.objects) || fresh(smallMap.arena.objects)
      ensures Contents() == old(Contents())[k := v]
    {
      ghost var big, small := Big(), smallMap.Contents();
      smallMap.Put(k, v, slack);
      assert Big() == big;
      assert BigContents(big) + small[k := v] == (BigContents(big) + small)[k := v];
    }

    method Get(k: Key) returns (r: Option<V>)
      requires Valid() && Proper(k)
      ensures r == if k in Contents() then Some(Contents()[k]) else None
    {
      r := smallMap.Get(k);
      if r.Some? {
        return;
      }
      var pos, found := BinarySearch(bigMap, bigLen, k);
      BigContentsAt(Big(), k);
      if !found {
        assert forall i :: 0 <= i < bigLen ==> Big()[i] == bigMap[i];
        return None;
      }
      assert Big()[pos] == bigMap[pos];
      LastOfStrict(Big(), pos);
      return Some(bigMap[pos].v);
    }

    /** Len counts twice exactly the keys that are present in both levels. */
    method Len() returns (n: nat)
      requires Valid()
      ensures n == |Contents()| + |InBoth()|
    {
      var small := smallMap.Len();
      n := bigLen + small;
      CountKeys(Big());
      KeysInBig(Big());
      var a, b := BigContents(Big()).Keys, smallMap.Contents().Keys;
      assert Contents().Keys == a + b;
      assert |a + b| + |a * b| == |a| + |b|;
    }

    /** Optimize moves everything to the sorted level, for any iteration order of the small
        map, and changes no value; after it, Len is exact. */
    method Optimize(order: seq<Key>)
      requires Valid()
      requires forall k :: k in order <==> k in smallMap.Contents()
      modifies this, smallMap
      ensures Valid() && Contents() == old(Contents()) && InBoth() == {}
      ensures fresh(bigMap) && smallMap == old(smallMap) && smallMap.Contents() == map[]
      ensures fresh(smallMap.arena) && fresh(smallMap.arena.objects)
    {
      var grown, n := Merge(order);
      Install(grown, n);
    }

    /** The end of Optimize: the new sorted level is in place and the small map is empty. */
    method Install(sorted: array<Entry<V>>, n: nat)
      requires n <= sorted.Length && Padded(sorted[..n]) && StrictlySorted(sorted[..n])
      modifies this, smallMap
      ensures Valid() && bigMap == sorted && Big() == old(sorted[..n])
      ensures Contents() == BigContents(old(sorted[..n])) && InBoth() == {}
      ensures smallMap == old(smallMap) && smallMap.Contents() == map[]
      ensures fresh(smallMap.arena) && fresh(smallMap.arena.objects)
    {
      bigMap, bigLen := sorted, n;
      smallMap.Clear();
      assert Big() == old(sorted[..n]);
      assert BigContents(Big()) + map[] == BigContents(Big());
    }

    /** What Optimize does to the entries: the result stands for the whole map. */
    method Merge(order: seq<Key>) returns (grown: array<Entry<V>>, n: nat)
      requires Valid() && forall k :: k in order <==> k in smallMap.Contents()
      ensures fresh(grown) && n <= grown.Length
      ensures Padded(grown[..n]) && StrictlySorted(grown[..n])
      ensures BigContents(grown[..n]) == Contents()
    {
      OptimizeMerges(Big(), order, smallMap.Contents());
      grown, n := SortAndCompact(order);
    }

    method SortAndCompact(order: seq<Key>) returns (grown: array<Entry<V>>, n: nat)
      requires Valid() && ProperKeysOf(order, smallMap.Contents())
      ensures fresh(grown) && n <= grown.Length
      ensures grown[..n] == Dedup(SortStable(Appended(Big(), order, smallMap.Contents())))
    {
      grown := Extend(order);
      SortStableFunc(grown);
      n := Compact(grown);
    }

    /** slices.Grow, then one append for each entry of the small map. */
    method Extend(order: seq<Key>) returns (grown: array<Entry<V>>)
      requires Valid() && ProperKeysOf(order, smallMap.Contents())
      ensures fresh(grown) && grown[..] == Appended(Big(), order, smallMap.Contents())
    {
      var entries := smallMap.Entries(order);
      grown := new Entry<V>[bigLen + |order|];
      forall i | 0 <= i < bigLen {
        grown[i] := bigMap[i];
      }
      assert grown[..bigLen] == Big();
      WriteEntries(grown, bigLen, order, entries, smallMap.Contents());
    }
  }

  method WriteEntries<V>(grown: array<Entry<V>>, start: nat, order: seq<Key>, entries: seq<(Key, V)>,
                         ghost small: map<Key, V>)
    requires start + |order| == grown.Length && |entries| == |order| && ProperKeysOf(order, small)
    requires forall i :: 0 <= i < |order| ==> order[i] in small && entries[i] == (order[i], small[order[i]])
    modifies grown
    ensures grown[..] == Appended(old(grown[..start]), order, small)
  {
    ghost var s := grown[..start];
    for i := 0 to |order|
      invariant grown[..start + i] == Appended(s, order[..i], small)
    {
      assert order[i] in order && order[..i + 1][..i] == order[..i];
      ghost var before := grown[..start + i];
      grown[start + i] := Entry(Trim(entries[i].0), entries[i].1);
      assert grown[..start + i + 1] == before + [grown[start + i]];
    }
    assert order[..|order|] == order && grown[..start + |order|] == grown[..];
  }
}
