/** Sequences of entries: stable sorting by key, and keeping the last entry of each key. */
module SortedEntries {
  import opened Options
  import opened PaddedKeys


  datatype Entry<+V> = Entry(k: Key, v: V)

  predicate Sorted<V>(s: seq<Entry<V>>) {
    forall i, j :: 0 <= i < j < |s| ==> Compare(s[i].k, s[j].k) <= 0
  }

  predicate StrictlySorted<V>(s: seq<Entry<V>>) {
    forall i, j :: 0 <= i < j < |s| ==> Compare(s[i].k, s[j].k) < 0
  }

  /** The entries for one key, in their order. */
  function Select<V>(s: seq<Entry<V>>, k: Key): seq<Entry<V>> {
    if s == [] then []
    else Select(s[..|s| - 1], k) + if s[|s| - 1].k == k then [s[|s| - 1]] else []
  }

  /** The value of the last entry for a key. */
  function Last<V>(s: seq<Entry<V>>, k: Key): Option<V> {
    if s == [] then None
    else if s[|s| - 1].k == k then Some(s[|s| - 1].v)
    else Last(s[..|s| - 1], k)
  }

  lemma {:induction false} LastOfSelect<V>(s: seq<Entry<V>>, k: Key)
    ensures Last(s, k) == if Select(s, k) == [] then None else Some(Select(s, k)[|Select(s, k)| - 1].v)
  {
    if s != [] {
      LastOfSelect(s[..|s| - 1], k);
    }
  }

  lemma {:induction false} LastIsThere<V>(s: seq<Entry<V>>, k: Key)
    ensures Last(s, k).Some? <==> exists i :: 0 <= i < |s| && s[i].k == k
    ensures Last(s, k).Some? ==> exists i :: 0 <= i < |s| && s[i] == Entry(k, Last(s, k).value)
  {
    if s != [] {
      var init := s[..|s| - 1];
      LastIsThere(init, k);
      if s[|s| - 1].k == k {
        assert s[|s| - 1] == Entry(k, Last(s, k).value);
      } else if Last(init, k).Some? {
        var i :| 0 <= i < |init| && init[i] == Entry(k, Last(init, k).value);
        assert s[i] == init[i];
      } else {
        forall i | 0 <= i < |s|
          ensures s[i].k != k
        {
          assert i < |init| ==> s[i] == init[i];
        }
      }
    }
  }

  /** With strictly sorted keys there is nothing to choose from. */
  lemma LastOfStrict<V>(s: seq<Entry<V>>, i: nat)
    requires StrictlySorted(s) && i < |s|
    ensures Last(s, s[i].k) == Some(s[i].v)
  {
    LastIsThere(s, s[i].k);
    var j :| 0 <= j < |s| && s[j] == Entry(s[i].k, Last(s, s[i].k).value);
    CompareIsEquality(s[i].k, s[j].k);
    CompareFlips(s[i].k, s[j].k);
  }

  // ----- stable sort -----

  function Insert<V>(s: seq<Entry<V>>, e: Entry<V>): seq<Entry<V>> {
    if s == [] || Compare(s[|s| - 1].k, e.k) <= 0 then s + [e]
    else Insert(s[..|s| - 1], e) + [s[|s| - 1]]
  }

  /** What slices.SortStableFunc leaves: SortStableIsUnique shows that its two promises
      admit no other result. */
  function SortStable<V>(s: seq<Entry<V>>): seq<Entry<V>> {
    if s == [] then [] else Insert(SortStable(s[..|s| - 1]), s[|s| - 1])
  }

  lemma {:induction false} InsertKeeps<V>(s: seq<Entry<V>>, e: Entry<V>, k: Key)
    ensures |Insert(s, e)| == |s| + 1
    ensures Select(Insert(s, e), k) == Select(s, k) + if e.k == k then [e] else []
  {
    if s == [] || Compare(s[|s| - 1].k, e.k) <= 0 {
      assert (s + [e])[..|s|] == s;
    } else {
      var init := s[..|s| - 1];
      InsertKeeps(init, e, k);
      assert (Insert(init, e) + [s[|s| - 1]])[..|s|] == Insert(init, e);
      CompareIsEquality(s[|s| - 1].k, e.k);
    }
  }

  lemma {:induction false} InsertSorts<V>(s: seq<Entry<V>>, e: Entry<V>)
    requires Sorted(s)
    ensures Sorted(Insert(s, e))
    ensures forall x :: x in Insert(s, e) ==> x == e || x in s
  {
    if s == [] {
    } else if Compare(s[|s| - 1].k, e.k) <= 0 {
      forall i | 0 <= i < |s|
        ensures Compare(s[i].k, e.k) <= 0
      {
        if i < |s| - 1 {
          CompareIsTransitive(s[i].k, s[|s| - 1].k, e.k);
        }
      }
    } else {
      var init, last := s[..|s| - 1], s[|s| - 1];
      InsertSorts(init, e);
      CompareFlips(last.k, e.k);
      var r := Insert(init, e);
      forall i | 0 <= i < |r|
        ensures Compare(r[i].k, last.k) <= 0
      {
        assert r[i] in r;
      }
    }
  }

  lemma {:induction false} SortStableSorts<V>(s: seq<Entry<V>>)
    ensures Sorted(SortStable(s)) && |SortStable(s)| == |s|
  {
    if s != [] {
      SortStableSorts(s[..|s| - 1]);
      InsertSorts(SortStable(s[..|s| - 1]), s[|s| - 1]);
      InsertKeeps(SortStable(s[..|s| - 1]), s[|s| - 1], []);
    }
  }

  /** Sorting moves no entry past another one with the same key. */
  lemma {:induction false} SortStableIsStable<V>(s: seq<Entry<V>>, k: Key)
    ensures Select(SortStable(s), k) == Select(s, k)
  {
    if s != [] {
      SortStableIsStable(s[..|s| - 1], k);
      InsertKeeps(SortStable(s[..|s| - 1]), s[|s| - 1], k);
    }
  }

  lemma SelectOfLast<V>(s: seq<Entry<V>>)
    requires s != []
    ensures var last := s[|s| - 1]; Select(s, last.k) != [] && Select(s, last.k)[|Select(s, last.k)| - 1] == last
  {}

  lemma {:induction false} SelectIsThere<V>(s: seq<Entry<V>>, k: Key)
    ensures Select(s, k) != [] <==> exists i :: 0 <= i < |s| && s[i].k == k
  {
    LastOfSelect(s, k);
    LastIsThere(s, k);
  }

  /** A sorted arrangement with the same entries per key, in the same order, is unique. */
  lemma {:induction false} SortStableIsUnique<V>(s: seq<Entry<V>>, t: seq<Entry<V>>)
    requires Sorted(s) && Sorted(t)
    requires forall k :: Select(s, k) == Select(t, k)
    ensures s == t
  {
    if s == [] || t == [] {
      if s != [] {
        SelectOfLast(s);
      } else if t != [] {
        SelectOfLast(t);
      }
    } else {
      SameLast(s, t);
      SameLast(t, s);
      var s0, t0 := s[..|s| - 1], t[..|t| - 1];
      var a, b := s[|s| - 1], t[|t| - 1];
      CompareFlips(a.k, b.k);
      CompareIsEquality(a.k, b.k);
      SelectOfLast(s);
      SelectOfLast(t);
      assert Select(s, a.k) == Select(t, a.k);
      forall k
        ensures Select(s0, k) == Select(t0, k)
      {
        assert Select(s, k) == Select(t, k);
        var x, y := Select(s0, k), Select(t0, k);
        if a.k == k {
          assert (x + [a])[..|x|] == x && (y + [a])[..|y|] == y;
        } else {
          assert x + [] == x && y + [] == y;
        }
      }
      SortStableIsUnique(s0, t0);
      assert s == s0 + [a] && t == t0 + [b];
    }
  }

  /** The largest key of one arrangement is bounded by the largest of the other. */
  lemma SameLast<V>(s: seq<Entry<V>>, t: seq<Entry<V>>)
    requires Sorted(s) && Sorted(t) && s != [] && t != []
    requires forall k :: Select(s, k) == Select(t, k)
    ensures Compare(s[|s| - 1].k, t[|t| - 1].k) <= 0
  {
    var k := s[|s| - 1].k;
    SelectOfLast(s);
    assert Select(s, k) == Select(t, k);
    SelectIsThere(t, k);
    var i :| 0 <= i < |t| && t[i].k == k;
    CompareIsEquality(k, k);
  }

  // ----- one entry per key -----

  /** Adjacent entries with the same key collapse to the later one. */
  function Dedup<V>(s: seq<Entry<V>>): (r: seq<Entry<V>>)
    ensures s != [] ==> r != [] && r[|r| - 1] == s[|s| - 1]
    ensures |r| <= |s|
  {
    if |s| <= 1 then s
    else
      var d := Dedup(s[..|s| - 1]);
      if d[|d| - 1].k != s[|s| - 1].k then d + [s[|s| - 1]] else d[|d| - 1 := s[|s| - 1]]
  }

  /** Of a sorted sequence, Dedup keeps every key once, with its last value. */
  lemma {:induction false} DedupKeepsLast<V>(s: seq<Entry<V>>, k: Key)
    requires Sorted(s)
    ensures Last(Dedup(s), k) == Last(s, k)
  {
    if |s| > 1 {
      var init, last := s[..|s| - 1], s[|s| - 1];
      DedupKeepsLast(init, k);
      var d := Dedup(init);
      assert (d + [last])[..|d|] == d;
      assert d[|d| - 1 := last][..|d| - 1] == d[..|d| - 1];
      CompareIsEquality(d[|d| - 1].k, last.k);
    }
  }

  lemma {:induction false} DedupIsStrict<V>(s: seq<Entry<V>>)
    requires Sorted(s)
    ensures StrictlySorted(Dedup(s))
  {
    if |s| > 1 {
      var init, last := s[..|s| - 1], s[|s| - 1];
      DedupIsStrict(init);
      var d := Dedup(init);
      StrictlyBelow(d, last);
    }
  }

  lemma StrictlyBelow<V>(d: seq<Entry<V>>, last: Entry<V>)
    requires StrictlySorted(d) && d != [] && Compare(d[|d| - 1].k, last.k) <= 0
    ensures StrictlySorted(if d[|d| - 1].k != last.k then d + [last] else d[|d| - 1 := last])
  {
    CompareIsEquality(d[|d| - 1].k, last.k);
    forall i | 0 <= i < |d| - 1
      ensures Compare(d[i].k, last.k) < 0
    {
      CompareIsTransitive(d[i].k, d[|d| - 1].k, last.k);
    }
  }
}
