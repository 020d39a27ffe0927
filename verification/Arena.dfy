/** A typed arena and the map that keeps its values in one. */
module Arena {
  import opened Options

  /** What Append asks slices.Grow for, beyond a capacity that is used up. */
  function GrowBy(capacity: nat): nat {
    capacity * 3 / 20 + 2
  }

  /** An arena backed by a slice: `objects.Length` is the capacity, `length` the number of
      elements in use. `copied` counts the elements moved by reallocations. */
  class SliceArena<T(0)> {
    var objects: array<T>
    var length: nat
    ghost var copied: nat

    /** The last two bounds are the amortised cost of growing. */
    ghost predicate Valid()
      reads this
    {
      && length <= objects.Length
      && 3 * copied <= 23 * length
      && 3 * copied <= 20 * objects.Length
    }

    ghost function Contents(): seq<T>
      reads this, objects
      requires length <= objects.Length
    {
      objects[..length]
    }

    constructor ()
      ensures Valid() && Contents() == [] && copied == 0 && fresh(objects)
    {
      objects := new T[0];
      length, copied := 0, 0;
    }

    /** slices.Grow: room for n more, with as much slack as the runtime rounds up to. */
    method Grow(n: nat, slack: nat)
      requires Valid() && length == objects.Length && 20 * n >= 3 * length
      modifies this
      ensures Valid() && length == old(length) && Contents() == old(Contents())
      ensures objects.Length == old(objects.Length) + n + slack && fresh(objects)
      ensures copied == old(copied) + length
    {
      var grown := new T[objects.Length + n + slack];
      forall i | 0 <= i < length {
        grown[i] := objects[i];
      }
      copied := copied + length;
      objects := grown;
      assert objects[..length] == old(objects[..length]);
    }

    /** Appending adds one element and moves none: every index handed out before still
        denotes the element it was handed out for. */
    method Append(t: T, slack: nat) returns (index: nat)
      requires Valid()
      modifies this, objects
      ensures Valid() && (objects == old(objects) || fresh(objects))
      ensures Contents() == old(Contents()) + [t]
      ensures index == |old(Contents())| == |Contents()| - 1
      ensures copied <= old(copied) + old(length)
    {
      index := length;
      if length == objects.Length {
        Grow(GrowBy(objects.Length), slack);
      }
      objects[length] := t;
      length := length + 1;
    }

    method Get(index: int) returns (r: Option<T>)
      requires Valid()
      ensures r == if 0 <= index < |Contents()| then Some(Contents()[index]) else None
    {
      if index < 0 || index >= length {
        return None;
      }
      return Some(objects[index]);
    }

    /** A write through the pointer Get returned. */
    method SetAt(index: nat, t: T)
      requires Valid() && index < length
      modifies objects
      ensures Valid() && Contents() == old(Contents())[index := t]
    {
      objects[index] := t;
    }

    method Len() returns (n: nat)
      requires Valid()
      ensures n == |Contents()|
    {
      n := length;
    }
  }

  /** Over any sequence of n appends to a new arena, reallocation moves at most 23n/3
      elements, and the k-th index denotes the k-th element ever after. */
  method AppendAll<T(0)>(ts: seq<T>, slack: seq<nat>) returns (a: SliceArena<T>, indices: seq<nat>)
    requires |slack| == |ts|
    ensures fresh(a) && a.Valid() && a.Contents() == ts && 3 * a.copied <= 23 * |ts|
    ensures |indices| == |ts| && forall k :: 0 <= k < |ts| ==> indices[k] < |ts| && a.Contents()[indices[k]] == ts[k]
  {
    a := new SliceArena<T>();
    indices := [];
    for n := 0 to |ts|
      invariant fresh(a) && fresh(a.objects) && a.Valid() && a.Contents() == ts[..n]
      invariant |indices| == n && forall k :: 0 <= k < n ==> indices[k] == k
    {
      var index := a.Append(ts[n], slack[n]);
      indices := indices + [index];
    }
  }

  /** Every key has its own element of the arena, and every element a key. */
  ghost predicate GoodIndices<K>(indices: map<K, nat>, n: nat) {
    && |indices| == n
    && (forall k :: k in indices ==> indices[k] < n)
    && (forall k, l :: k in indices && l in indices && indices[k] == indices[l] ==> k == l)
  }

  /** The map that an index into a sequence of values stands for. */
  ghost function Denotes<K, V>(indices: map<K, nat>, values: seq<V>): map<K, V>
    requires GoodIndices(indices, |values|)
  {
    map k | k in indices :: values[indices[k]]
  }

  lemma OverwriteDenotes<K, V>(indices: map<K, nat>, values: seq<V>, k: K, v: V)
    requires GoodIndices(indices, |values|) && k in indices
    ensures Denotes(indices, values[indices[k] := v]) == Denotes(indices, values)[k := v]
  {}

  lemma AppendDenotes<K, V>(indices: map<K, nat>, values: seq<V>, k: K, v: V)
    requires GoodIndices(indices, |values|) && k !in indices
    ensures GoodIndices(indices[k := |values|], |values + [v]|)
    ensures Denotes(indices[k := |values|], values + [v]) == Denotes(indices, values)[k := v]
  {}

  /** A map that holds its values in an arena. */
  class ArenaMap<K(==), V(0)> {
    var indices: map<K, nat>
    var arena: SliceArena<V>

    ghost predicate Valid()
      reads this, arena
    {
      arena.Valid() && GoodIndices(indices, arena.length)
    }

    ghost function Contents(): map<K, V>
      reads this, arena, arena.objects
      requires Valid()
    {
      Denotes(indices, arena.Contents())
    }

    /** NewMap. */
    constructor ()
      ensures Valid() && Contents() == map[] && fresh(arena) && fresh(arena.objects)
    {
      indices := map[];
      arena := new SliceArena<V>();
    }

    method Put(k: K, v: V, slack: nat)
      requires Valid()
      modifies this, arena, arena.objects
      ensures Valid() && arena == old(arena) && (arena.objects == old(arena.objects) || fresh(arena.objects))
      ensures Contents() == old(Contents())[k := v]
    {
      ghost var values := arena.Contents();
      if k in indices {
        OverwriteDenotes(indices, values, k, v);
        arena.SetAt(indices[k], v);
      } else {
        AppendDenotes(indices, values, k, v);
        var index := arena.Append(v, slack);
        indices := indices[k := index];
      }
    }

    method Get(k: K) returns (r: Option<V>)
      requires Valid()
      ensures r == if k in Contents() then Some(Contents()[k]) else None
    {
      if k in indices {
        r := arena.Get(indices[k]);
      } else {
        r := None;
      }
    }

    method Len() returns (n: nat)
      requires Valid()
      ensures n == |Contents()|
    {
      n := |indices|;
      assert Contents().Keys == indices.Keys;
    }

    /** Entries, in one of the orders in which the map can be iterated. */
    method Entries(order: seq<K>) returns (entries: seq<(K, V)>)
      requires Valid() && forall k :: k in order ==> k in Contents()
      ensures |entries| == |order|
      ensures forall i :: 0 <= i < |order| ==> entries[i] == (order[i], Contents()[order[i]])
    {
      entries := [];
      for i := 0 to |order|
        invariant |entries| == i
        invariant forall j :: 0 <= j < i ==> entries[j] == (order[j], Contents()[order[j]])
      {
        assert order[i] in Contents();
        var v := arena.Get(indices[order[i]]);
        entries := entries + [(order[i], v.value)];
      }
    }

    /** Clear empties the map, releasing everything. */
    method Clear()
      modifies this
      ensures Valid() && Contents() == map[] && fresh(arena) && fresh(arena.objects)
    {
      indices := map[];
      arena := new SliceArena<V>();
    }
  }
}
