/**
 * The circular coverage window `retorna_lista` (utilidades/utils.py), written
 * over a model of Python's list slicing.
 */
module Window {

  /** Where a slice bound `b` lands in a Python list of length `n`: a negative
      bound counts from the end, and the result is clamped to 0..n. */
  function SliceBound(b: int, n: nat): nat
  {
    if b < 0 then (if n + b < 0 then 0 else n + b)
    else if b > n then n
    else b
  }

  /** Python's `s[start:stop]`; an omitted start is 0 and an omitted stop is `len(s)`. */
  function Slice<T>(s: seq<T>, start: int, stop: int): seq<T>
  {
    var a, b := SliceBound(start, |s|), SliceBound(stop, |s|);
    if a <= b then s[a..b] else []
  }

  /** The periods 0..n-1, that is `list(inicios)` for a dictionary with keys 0..n-1. */
  function Periods(n: nat): (ps: seq<nat>)
    ensures |ps| == n
    ensures forall i :: 0 <= i < n ==> ps[i] == i
  {
    seq(n, i requires 0 <= i < n => i)
  }

  lemma ModOfSmall(a: int, n: int)
    requires 0 < n && -n <= a < 2 * n
    ensures a % n == if a < 0 then a + n else if a < n then a else a - n
  {
  }

  /**
   * `retorna_lista(j, tamanho, lista_momentos)` (utils.py:9-14): the entries of
   * `moments` that a shift of `size` periods ending at period `j` covers.
   */
  function CoveredPeriods<T>(j: int, size: int, moments: seq<T>): seq<T>
  {
    if j >= size - 1 then
      Slice(moments, j - size + 1, j + 1)
    else
      Slice(moments, j - size + 1, |moments|) + Slice(moments, 0, j + 1)
  }

  /** For a period `j` of the list and `1 <= size <= n`, the window is the
      cyclic block `(j - size + 1) mod n, ..., j`, in cyclic order, ending at `moments[j]`. */
  lemma CoveredPeriodsCyclic<T>(j: int, size: int, moments: seq<T>)
    requires 0 <= j < |moments| && 1 <= size <= |moments|
    ensures var w := CoveredPeriods(j, size, moments);
      && |w| == size
      && (forall k :: 0 <= k < size ==> w[k] == moments[(j - size + 1 + k) % |moments|])
      && w[size - 1] == moments[j]
  {
    var n, w := |moments|, CoveredPeriods(j, size, moments);
    CoveredPeriodsShape(j, size, moments);
    forall k | 0 <= k < size
      ensures w[k] == moments[(j - size + 1 + k) % n]
    {
      ModOfSmall(j - size + 1 + k, n);
    }
    ModOfSmall(j, n);
  }

  /** The two shapes of the window: a plain slice when it does not wrap, and
      otherwise the last `size - 1 - j` entries followed by the first `j + 1`. */
  lemma CoveredPeriodsShape<T>(j: int, size: int, moments: seq<T>)
    requires 0 <= j < |moments| && 1 <= size <= |moments|
    ensures j >= size - 1 ==> CoveredPeriods(j, size, moments) == moments[j - size + 1..j + 1]
    ensures j < size - 1 ==>
      CoveredPeriods(j, size, moments) == moments[|moments| - (size - 1 - j)..] + moments[..j + 1]
  {
  }

  /** For two periods of the day, the steps back from `j` to `i` without the modulus. */
  lemma StepsBackOf(j: int, i: int, n: nat)
    requires 0 <= j < n && 0 <= i < n
    ensures StepsBack(j, i, n) == if j >= i then j - i else j - i + n
  {
    ModOfSmall(j - i, n);
  }

  /** The `k`-th entry of the window ending at `j` is a period `size - 1 - k` steps back from `j`. */
  lemma WindowEntry(j: int, size: int, n: nat, k: int)
    requires 0 <= j < n && 1 <= size <= n && 0 <= k < size
    ensures 0 <= (j - size + 1 + k) % n < n
    ensures StepsBack(j, (j - size + 1 + k) % n, n) == size - 1 - k
  {
    ModOfSmall(j - size + 1 + k, n);
    StepsBackOf(j, (j - size + 1 + k) % n, n);
  }

  /** Over the period indices, period `i` is covered by the window ending at `j`
      exactly when it lies fewer than `size` steps back round the cycle from `j`. */
  lemma WindowMembership(j: int, size: int, n: nat, i: int)
    requires 0 <= j < n && 1 <= size <= n
    ensures i in CoveredPeriods(j, size, Periods(n)) <==> 0 <= i < n && StepsBack(j, i, n) < size
  {
    var w := CoveredPeriods(j, size, Periods(n));
    CoveredPeriodsCyclic(j, size, Periods(n));
    if i in w {
      var k :| 0 <= k < size && w[k] == i;
      WindowEntry(j, size, n, k);
    }
    if 0 <= i < n && StepsBack(j, i, n) < size {
      StepsBackOf(j, i, n);
      var k := size - 1 - StepsBack(j, i, n);
      ModOfSmall(j - size + 1 + k, n);
      assert w[k] == i;
    }
  }

  /** Over the period indices the window never repeats a period. */
  lemma WindowDistinct(j: int, size: int, n: nat)
    requires 0 <= j < n && 1 <= size <= n
    ensures var w := CoveredPeriods(j, size, Periods(n));
      forall a, b :: 0 <= a < b < |w| ==> w[a] != w[b]
  {
    var w := CoveredPeriods(j, size, Periods(n));
    CoveredPeriodsCyclic(j, size, Periods(n));
    forall a, b | 0 <= a < b < |w|
      ensures w[a] != w[b]
    {
      WindowEntry(j, size, n, a);
      WindowEntry(j, size, n, b);
    }
  }

  /** How many steps back round a cycle of `n` periods period `i` lies from period `j`. */
  function StepsBack(j: int, i: int, n: nat): int
    requires n > 0
  {
    (j - i) % n
  }

  /** The periods `j` whose window of length `size` contains period `i`. */
  function WindowsContaining(i: int, size: int, n: nat): set<int>
    requires n > 0
  {
    set j | 0 <= j < n && StepsBack(j, i, n) < size
  }

  /** Exactly `size` of the `n` windows of length `size` contain a given period. */
  lemma {:induction false} WindowCount(i: int, size: int, n: nat)
    requires 0 <= i < n && 0 <= size <= n
    ensures |WindowsContaining(i, size, n)| == size
  {
    if size == 0 {
      assert WindowsContaining(i, size, n) == {};
    } else {
      WindowCount(i, size - 1, n);
      var S, T := WindowsContaining(i, size, n), WindowsContaining(i, size - 1, n);
      var c := if i + size - 1 < n then i + size - 1 else i + size - 1 - n;
      StepsBackOf(c, i, n);
      forall j
        ensures j in S <==> j in T + {c}
      {
        if 0 <= j < n {
          StepsBackOf(j, i, n);
        }
      }
      assert S == T + {c};
    }
  }

  /** A shift of 4 periods ending at period 2 of a 96-period day covers 95, 0, 1 and 2. */
  lemma WindowExample()
    ensures CoveredPeriods(2, 4, Periods(96)) == [95, 0, 1, 2]
  {
    CoveredPeriodsShape(2, 4, Periods(96));
  }
}
