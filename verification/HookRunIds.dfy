/** Hook run IDs: the two indices of a hook, each padded to four decimal digits. */
module HookRunIds {
  import opened Kv

  function Digit(d: nat): char
    requires d < 10
  {
    '0' + d as char
  }

  function Decimal(n: nat): string {
    if n < 10 then [Digit(n)] else Decimal(n / 10) + [Digit(n % 10)]
  }

  function Zeros(n: nat): string {
    seq(n, i => '0')
  }

  function Pad4(n: nat): string {
    var d := Decimal(n);
    if |d| < 4 then Zeros(4 - |d|) + d else d
  }

  const UNDERSCORE := '_'

  function NewHookRunID(action: nat, hook: nat): string {
    Pad4(action) + [UNDERSCORE] + Pad4(hook)
  }

  // ----- reading the digits back -----

  predicate Digits(s: string) {
    forall i :: 0 <= i < |s| ==> '0' <= s[i] <= '9'
  }

  ghost function ValueOf(s: string): nat
    requires Digits(s)
  {
    if s == "" then 0 else ValueOf(s[..|s| - 1]) * 10 + (s[|s| - 1] - '0') as nat
  }

  lemma {:induction false} DecimalReadsBack(n: nat)
    ensures Digits(Decimal(n)) && ValueOf(Decimal(n)) == n
  {
    if n >= 10 {
      DecimalReadsBack(n / 10);
      assert Decimal(n)[..|Decimal(n)| - 1] == Decimal(n / 10);
    }
  }

  lemma {:induction false} ZerosDoNotCount(k: nat, d: string)
    requires Digits(d)
    ensures Digits(Zeros(k) + d) && ValueOf(Zeros(k) + d) == ValueOf(d)
    decreases k + |d|
  {
    var s := Zeros(k) + d;
    if d != "" {
      ZerosDoNotCount(k, d[..|d| - 1]);
      assert s[..|s| - 1] == Zeros(k) + d[..|d| - 1];
    } else if k > 0 {
      ZerosDoNotCount(k - 1, d);
      assert s[..|s| - 1] == Zeros(k - 1) + d;
    }
  }

  lemma {:induction false} DecimalLength(n: nat, width: nat, bound: nat)
    requires width > 0 && bound == Power10(width) && n < bound
    ensures 0 < |Decimal(n)| <= width
  {
    if n >= 10 {
      DecimalLength(n / 10, width - 1, bound / 10);
    }
  }

  function Power10(n: nat): nat {
    if n == 0 then 1 else 10 * Power10(n - 1)
  }

  lemma PadReadsBack(n: nat)
    ensures Digits(Pad4(n)) && ValueOf(Pad4(n)) == n
    ensures n < 10000 ==> |Pad4(n)| == 4
  {
    var d := Decimal(n);
    DecimalReadsBack(n);
    if |d| < 4 {
      ZerosDoNotCount(4 - |d|, d);
    }
    if n < 10000 {
      assert Power10(4) == 10000;
      DecimalLength(n, 4, 10000);
    }
  }

  // ----- order -----

  lemma {:induction false} LessSnoc(a: string, x: char, b: string, y: char)
    requires |a| == |b|
    ensures Less(a + [x], b + [y]) <==> Less(a, b) || (a == b && x < y)
  {
    if a != "" {
      LessSnoc(a[1..], x, b[1..], y);
      assert (a + [x])[1..] == a[1..] + [x] && (b + [y])[1..] == b[1..] + [y];
      assert a == [a[0]] + a[1..] && b == [b[0]] + b[1..];
    }
  }

  /** Digit strings of one length are in byte order as their values are. */
  lemma {:induction false} ValueOrder(a: string, b: string)
    requires |a| == |b| && Digits(a) && Digits(b)
    ensures Less(a, b) <==> ValueOf(a) < ValueOf(b)
    ensures a == b <==> ValueOf(a) == ValueOf(b)
  {
    if a != "" {
      var n := |a| - 1;
      ValueOrder(a[..n], b[..n]);
      LessSnoc(a[..n], a[n], b[..n], b[n]);
      assert a == a[..n] + [a[n]] && b == b[..n] + [b[n]];
    }
  }

  predicate PairLess(a: nat, h: nat, a': nat, h': nat) {
    a < a' || (a == a' && h < h')
  }

  /** Different indices give different IDs, however large the indices are. */
  lemma HookRunIdIsInjective(a: nat, h: nat, a': nat, h': nat)
    requires NewHookRunID(a, h) == NewHookRunID(a', h')
    ensures a == a' && h == h'
  {
    PadReadsBack(a);
    PadReadsBack(h);
    PadReadsBack(a');
    PadReadsBack(h');
    var s, p, p' := NewHookRunID(a, h), Pad4(a), Pad4(a');
    assert s[|p|] == UNDERSCORE && s[|p'|] == UNDERSCORE;
    assert (forall i :: 0 <= i < |p| ==> s[i] == p[i]) && (forall i :: 0 <= i < |p'| ==> s[i] == p'[i]);
    assert |p| == |p'|;
    assert p == s[..|p|] == p';
    assert Pad4(h) == s[|p| + 1..] == Pad4(h');
  }

  lemma {:induction false} LessSameLength(p: string, x: string, q: string, y: string)
    requires |p| == |q| && p != q
    ensures Less(p + x, q + y) <==> Less(p, q)
  {
    if p != "" {
      assert p == [p[0]] + p[1..] && q == [q[0]] + q[1..];
      assert (p + x)[1..] == p[1..] + x && (q + y)[1..] == q[1..] + y;
      if p[0] == q[0] {
        LessSameLength(p[1..], x, q[1..], y);
      }
    }
  }

  /** Below 10000 the IDs are in byte order as the index pairs are. */
  lemma HookRunIdOrder(a: nat, h: nat, a': nat, h': nat)
    requires a < 10000 && h < 10000 && a' < 10000 && h' < 10000
    ensures Less(NewHookRunID(a, h), NewHookRunID(a', h')) <==> PairLess(a, h, a', h')
  {
    PadReadsBack(a);
    PadReadsBack(h);
    PadReadsBack(a');
    PadReadsBack(h');
    ValueOrder(Pad4(a), Pad4(a'));
    ValueOrder(Pad4(h), Pad4(h'));
    var x, y := [UNDERSCORE] + Pad4(h), [UNDERSCORE] + Pad4(h');
    assert NewHookRunID(a, h) == Pad4(a) + x && NewHookRunID(a', h') == Pad4(a') + y;
    if a == a' {
      LessAfter(Pad4(a) + [UNDERSCORE], Pad4(h), Pad4(h'));
    } else {
      LessSameLength(Pad4(a), x, Pad4(a'), y);
    }
  }

  ghost predicate InIndexOrder(bound: nat) {
    forall a: nat, h: nat, a': nat, h': nat :: a < bound && h < bound && a' < bound && h' < bound ==>
      (Less(NewHookRunID(a, h), NewHookRunID(a', h')) <==> PairLess(a, h, a', h'))
  }

  /** The bound is exact: "10000_0000" comes before "9999_0000". */
  lemma OrderHoldsExactlyBelow10000(bound: nat)
    ensures InIndexOrder(bound) <==> bound <= 10000
  {
    if bound <= 10000 {
      forall a: nat, h: nat, a': nat, h': nat | a < bound && h < bound && a' < bound && h' < bound
        ensures Less(NewHookRunID(a, h), NewHookRunID(a', h')) <==> PairLess(a, h, a', h')
      {
        HookRunIdOrder(a, h, a', h');
      }
    } else {
      FirstOutOfOrder();
      assert !PairLess(10000, 0, 9999, 0);
    }
  }

  lemma FirstOutOfOrder()
    ensures Less(NewHookRunID(10000, 0), NewHookRunID(9999, 0))
  {
    assert Decimal(10000)[0] == '1' by {
      assert Decimal(100) == Decimal(10) + ['0'];
      assert Decimal(1000) == Decimal(100) + ['0'];
      assert Decimal(10000) == Decimal(1000) + ['0'];
    }
    assert Decimal(9999)[0] == '9' by {
      assert Decimal(99) == Decimal(9) + ['9'];
      assert Decimal(999) == Decimal(99) + ['9'];
      assert Decimal(9999) == Decimal(999) + ['9'];
    }
    assert NewHookRunID(10000, 0)[0] == '1' && NewHookRunID(9999, 0)[0] == '9';
  }

  lemma HookRunIdIsSimple(a: nat, h: nat)
    ensures Simple(NewHookRunID(a, h)) && NewHookRunID(a, h) != ""
  {
    PadReadsBack(a);
    PadReadsBack(h);
  }
}
