/** `encontra_divisores` (utilidades/utils.py): the bucket sizes that tile the day. */
module Divisors {

  predicate StrictlyIncreasing(s: seq<int>)
  {
    forall a, b :: 0 <= a < b < |s| ==> s[a] < s[b]
  }

  /** The divisors of `n` among 1..k, in ascending order. */
  function DivisorsUpTo(n: int, k: int): (ds: seq<int>)
    decreases k
    ensures forall d :: d in ds <==> 1 <= d <= k && n % d == 0
    ensures StrictlyIncreasing(ds)
  {
    if k <= 0 then []
    else
      var below := DivisorsUpTo(n, k - 1);
      assert forall a :: 0 <= a < |below| ==> below[a] in below;
      below + (if n % k == 0 then [k] else [])
  }

  /** All positive divisors of `n`, ascending; none when `n <= 0`, as `range(1, n + 1)` is then empty. */
  function Divisors(n: int): (ds: seq<int>)
  {
    DivisorsUpTo(n, n)
  }

  /** `encontra_divisores(n)` (utils.py:112-124): trial division by 1..n, appending each divisor. */
  method FindDivisors(n: int) returns (divisors: seq<int>)
    ensures divisors == Divisors(n)
    ensures StrictlyIncreasing(divisors)
    ensures forall d :: d in divisors <==> 1 <= d <= n && n % d == 0
  {
    divisors := [];
    var i := 1;
    while i <= n
      invariant 1 <= i <= (if n < 1 then 1 else n + 1)
      invariant divisors == DivisorsUpTo(n, i - 1)
    {
      if n % i == 0 {
        divisors := divisors + [i];
      }
      i := i + 1;
    }
  }

  /** Two ascending sequences with the same elements are equal. */
  lemma {:induction false} AscendingUnique(s: seq<int>, t: seq<int>)
    requires StrictlyIncreasing(s) && StrictlyIncreasing(t)
    requires forall x :: x in s <==> x in t
    ensures s == t
  {
    // a non-empty sequence has its first element in it
    assert s != [] ==> s[0] in s;
    assert t != [] ==> t[0] in t;
    if s != [] && t != [] {
      // both start with their least element, which they share
      assert s[0] in t && t[0] in s;
      assert s[0] == t[0];
      forall x
        ensures x in s[1..] <==> x in t[1..]
      {
        if x in s[1..] {
          assert x in t && x != t[0];
        }
        if x in t[1..] {
          assert x in s && x != s[0];
        }
      }
      AscendingUnique(s[1..], t[1..]);
      assert s == [s[0]] + s[1..] && t == [t[0]] + t[1..];
    }
  }

  /** For a positive `n` the list starts with 1 and ends with `n`. */
  lemma DivisorsEnds(n: int)
    requires n >= 1
    ensures var ds := Divisors(n); |ds| >= 1 && ds[0] == 1 && ds[|ds| - 1] == n
  {
    var ds := Divisors(n);
    assert 1 in ds && n in ds;
    var a :| 0 <= a < |ds| && ds[a] == 1;
    var b :| 0 <= b < |ds| && ds[b] == n;
    assert ds[0] <= ds[a] && ds[0] in ds;
    assert ds[b] <= ds[|ds| - 1] && ds[|ds| - 1] in ds;
  }

  /** `encontra_divisores(15) == [1, 3, 5, 15]`. */
  lemma DivisorsOfFifteen()
    ensures Divisors(15) == [1, 3, 5, 15]
  {
    var ds := Divisors(15);
    forall d
      ensures d in ds <==> d in [1, 3, 5, 15]
    {
      if 1 <= d <= 15 && 15 % d == 0 {
        assert d in [1, 3, 5, 15];
      }
    }
    AscendingUnique(ds, [1, 3, 5, 15]);
  }

  /** For a day of `hours` whole hours, 15 minutes is among the offered bucket
      sizes, as the caller's `divisores.index(15)` (main.py:43-47) relies on. */
  lemma FifteenDividesDay(hours: int)
    requires hours >= 1
    ensures 15 in Divisors(hours * 60)
  {
    assert hours * 60 == 15 * (hours * 4);
  }
}
