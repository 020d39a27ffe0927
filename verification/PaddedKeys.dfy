/** Byte strings in the order of bytes.Compare, and the fixed-size padding of map keys. */
module PaddedKeys {

  newtype Byte = x: int | 0 <= x < 256

  type Key = seq<Byte>

  const KEY_SIZE_BOUND := 32

  function Compare(a: Key, b: Key): int {
    if a == [] && b == [] then 0
    else if a == [] then -1
    else if b == [] then 1
    else if a[0] < b[0] then -1
    else if a[0] > b[0] then 1
    else Compare(a[1..], b[1..])
  }

  lemma {:induction false} CompareIsEquality(a: Key, b: Key)
    ensures Compare(a, b) == 0 <==> a == b
  {
    if a != [] && b != [] && a[0] == b[0] {
      CompareIsEquality(a[1..], b[1..]);
      assert a == [a[0]] + a[1..] && b == [b[0]] + b[1..];
    }
  }

  lemma {:induction false} CompareFlips(a: Key, b: Key)
    ensures Compare(a, b) == -Compare(b, a)
  {
    if a != [] && b != [] && a[0] == b[0] {
      CompareFlips(a[1..], b[1..]);
    }
  }

  lemma {:induction false} CompareIsTransitive(a: Key, b: Key, c: Key)
    requires Compare(a, b) <= 0 && Compare(b, c) <= 0
    ensures Compare(a, c) <= 0
    ensures Compare(a, b) < 0 || Compare(b, c) < 0 ==> Compare(a, c) < 0
  {
    if a != [] && b != [] && c != [] && a[0] == b[0] && b[0] == c[0] {
      CompareIsTransitive(a[1..], b[1..], c[1..]);
    }
  }

  function Zeros(n: nat): (z: Key)
    ensures |z| == n && forall i :: 0 <= i < n ==> z[i] == 0
  {
    seq(n, _ => 0)
  }

  /** The key in a fixed-size array, zero padded. The code panics on a longer key. */
  function Trim(key: Key): (padded: Key)
    requires |key| <= KEY_SIZE_BOUND
    ensures |padded| == KEY_SIZE_BOUND && key <= padded
    ensures forall i :: |key| <= i < KEY_SIZE_BOUND ==> padded[i] == 0
  {
    key + Zeros(KEY_SIZE_BOUND - |key|)
  }

  /** A key without its trailing zero bytes. */
  function Strip(key: Key): (r: Key)
    ensures r <= key
  {
    if key != [] && key[|key| - 1] == 0 then Strip(key[..|key| - 1]) else key
  }

  /** What the map demands of its keys: bounded, and not ending in a zero byte. */
  predicate Proper(key: Key) {
    |key| <= KEY_SIZE_BOUND && (key != [] ==> key[|key| - 1] != 0)
  }

  lemma {:induction false} StripIsProper(key: Key)
    requires |key| <= KEY_SIZE_BOUND
    ensures Proper(Strip(key)) && Strip(key) + Zeros(|key| - |Strip(key)|) == key
  {
    if key != [] && key[|key| - 1] == 0 {
      StripIsProper(key[..|key| - 1]);
    }
  }

  lemma {:induction false} StripDropsZeros(key: Key, n: nat)
    ensures Strip(key + Zeros(n)) == Strip(key)
  {
    if n > 0 {
      assert (key + Zeros(n))[..|key| + n - 1] == key + Zeros(n - 1);
      StripDropsZeros(key, n - 1);
    } else {
      assert key + Zeros(0) == key;
    }
  }

  /** Padding only adds what stripping removes. */
  lemma StripOfTrim(key: Key)
    requires |key| <= KEY_SIZE_BOUND
    ensures Strip(Trim(key)) == Strip(key)
  {
    var n := KEY_SIZE_BOUND - |key|;
    StripDropsZeros(key, n);
    assert Trim(key) == key + Zeros(n);
  }

  /** Padding and stripping are inverse to each other on proper keys. */
  lemma StripInvertsTrim(key: Key)
    requires Proper(key)
    ensures Strip(Trim(key)) == key
  {
    StripOfTrim(key);
  }

  lemma TrimInvertsStrip(padded: Key)
    requires |padded| == KEY_SIZE_BOUND
    ensures Proper(Strip(padded)) && Trim(Strip(padded)) == padded
  {
    StripIsProper(padded);
  }

  /** Two keys collide in the array exactly when they differ in trailing zeros only. */
  lemma TrimCollidesIff(a: Key, b: Key)
    requires |a| <= KEY_SIZE_BOUND && |b| <= KEY_SIZE_BOUND
    ensures Trim(a) == Trim(b) <==> Strip(a) == Strip(b)
  {
    StripOfTrim(a);
    StripOfTrim(b);
    TrimInvertsStrip(Trim(a));
    TrimInvertsStrip(Trim(b));
  }

  /** So padding is injective on proper keys. */
  lemma TrimIsInjective(a: Key, b: Key)
    requires Proper(a) && Proper(b) && Trim(a) == Trim(b)
    ensures a == b
  {
    StripInvertsTrim(a);
    StripInvertsTrim(b);
  }

  /** Padding keeps the order of proper keys. */
  lemma {:induction false} TrimKeepsOrder(a: Key, b: Key)
    requires Proper(a) && Proper(b)
    ensures Compare(Trim(a), Trim(b)) == Compare(a, b)
  {
    PaddingKeepsOrder(a, b, KEY_SIZE_BOUND - |a|, KEY_SIZE_BOUND - |b|);
  }

  lemma {:induction false} PaddingKeepsOrder(a: Key, b: Key, m: nat, n: nat)
    requires |a| + m == |b| + n
    requires (a != [] ==> a[|a| - 1] != 0) && (b != [] ==> b[|b| - 1] != 0)
    ensures Compare(a + Zeros(m), b + Zeros(n)) == Compare(a, b)
  {
    if a == [] && b == [] {
      CompareIsEquality(a + Zeros(m), b + Zeros(n));
    } else if a == [] {
      assert (b + Zeros(n))[|b| - 1] != 0;
      ZerosAreSmaller(b + Zeros(n), m);
      assert a + Zeros(m) == Zeros(m);
    } else if b == [] {
      assert (a + Zeros(m))[|a| - 1] != 0;
      ZerosAreSmaller(a + Zeros(m), n);
      CompareFlips(a + Zeros(m), Zeros(n));
      assert b + Zeros(n) == Zeros(n);
    } else {
      assert (a + Zeros(m))[1..] == a[1..] + Zeros(m);
      assert (b + Zeros(n))[1..] == b[1..] + Zeros(n);
      if a[0] == b[0] {
        PaddingKeepsOrder(a[1..], b[1..], m, n);
      }
    }
  }

  lemma {:induction false} ZerosAreSmaller(b: Key, m: nat)
    requires |b| == m && exists i :: 0 <= i < m && b[i] != 0
    ensures Compare(Zeros(m), b) == -1
  {
    assert Zeros(m)[1..] == Zeros(m - 1);
    if b[0] == 0 {
      var i :| 0 <= i < m && b[i] != 0;
      assert b[1..][i - 1] != 0;
      ZerosAreSmaller(b[1..], m - 1);
    }
  }
}
