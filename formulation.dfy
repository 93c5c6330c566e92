/**
 * The integer program that `attentus` (modelo/attentus.py) hands to the
 * solver: one nonnegative integer variable per (regime, start period), the
 * cost objective, and one covering row per period. The solve itself is not
 * modelled; assignments are checked against the rows instead.
 */
module Formulation {
  import opened Window

  /** The variable `A[(r, i)]`: how many agents work regime `r` in a shift starting at period `i`. */
  datatype Var = Var(regime: nat, start: nat)

  /** `lpSum(terms) >= bound`. */
  datatype Constraint = AtLeast(terms: seq<Var>, bound: int)

  /** The assembled problem: the variables, the objective coefficient of each
      (aligned with `vars`), and the rows, one per period. */
  datatype Problem = Problem(vars: seq<Var>, costs: seq<int>, rows: seq<Constraint>)

  /** The order of `itertools.product`: by regime, then by start period. */
  predicate Before(u: Var, v: Var)
  {
    u.regime < v.regime || (u.regime == v.regime && u.start < v.start)
  }

  /** The variables of regime `r`, by start period. */
  function Block(r: nat, numPeriods: nat): (vs: seq<Var>)
    ensures |vs| == numPeriods
    ensures forall i :: 0 <= i < numPeriods ==> vs[i] == Var(r, i)
  {
    seq(numPeriods, i requires 0 <= i < numPeriods => Var(r, i))
  }

  /** `list(product(regimes, inicios))` (attentus.py:11) for regimes 0..R-1 and periods 0..P-1. */
  function Product(numRegimes: nat, numPeriods: nat): (vars: seq<Var>)
    ensures |vars| == numRegimes * numPeriods
    ensures forall v :: v in vars <==> v.regime < numRegimes && v.start < numPeriods
    ensures forall a, b :: 0 <= a < b < |vars| ==> Before(vars[a], vars[b])
  {
    if numRegimes == 0 then []
    else
      var prev := Product(numRegimes - 1, numPeriods);
      assert forall a :: 0 <= a < |prev| ==> prev[a] in prev;
      prev + Block(numRegimes - 1, numPeriods)
  }

  /** `[(indice_regime, i) for i in lista]` (attentus.py:40). */
  function Tagged(r: nat, starts: seq<nat>): (vs: seq<Var>)
    ensures |vs| == |starts|
    ensures forall k :: 0 <= k < |starts| ==> vs[k] == Var(r, starts[k])
  {
    seq(|starts|, k requires 0 <= k < |starts| => Var(r, starts[k]))
  }

  /** The objective coefficient of each variable: the cost of its regime
      (attentus.py:21-24). */
  function Coefficients(vars: seq<Var>, costs: seq<int>): (cs: seq<int>)
    requires forall v :: v in vars ==> v.regime < |costs|
    ensures |cs| == |vars|
    ensures forall k :: 0 <= k < |vars| ==> cs[k] == costs[vars[k].regime]
  {
    seq(|vars|, k requires 0 <= k < |vars| => assert vars[k] in vars; costs[vars[k].regime])
  }

  /** The window of each regime for the row of period `j`:
      `retorna_lista(j, tamanho, list(inicios))` (attentus.py:36-38). */
  function Windows(j: int, sizes: seq<int>, numPeriods: nat): seq<seq<nat>>
  {
    seq(|sizes|, r requires 0 <= r < |sizes| => CoveredPeriods(j, sizes[r], Periods(numPeriods)))
  }

  /** The terms that the windows of regimes 0..m-1 contribute, regime by regime. */
  function RowOf(ws: seq<seq<nat>>, m: nat): seq<Var>
    requires m <= |ws|
  {
    if m == 0 then [] else RowOf(ws, m - 1) + Tagged(m - 1, ws[m - 1])
  }

  /** The terms of the row of period `j` (attentus.py:34-44); `sizes[r]` is
      the length of regime `r` in periods, `int(regime * 60 / minutos_dividir)`. */
  function Row(j: int, sizes: seq<int>, numPeriods: nat): seq<Var>
  {
    RowOf(Windows(j, sizes, numPeriods), |sizes|)
  }

  /** The problem `attentus` builds from the requirement of each period, the
      length of each regime in periods and the cost of each regime. */
  function Formulate(required: seq<nat>, sizes: seq<int>, costs: seq<int>): (p: Problem)
    requires |sizes| == |costs|
    ensures p.vars == Product(|sizes|, |required|)
    ensures |p.costs| == |p.vars|
    ensures forall k :: 0 <= k < |p.vars| ==> p.vars[k].regime < |costs| && p.costs[k] == costs[p.vars[k].regime]
    ensures p.costs == Coefficients(p.vars, costs)
    ensures |p.rows| == |required|
    ensures forall j :: 0 <= j < |required| ==> p.rows[j] == AtLeast(Row(j, sizes, |required|), required[j])
  {
    var vars := Product(|sizes|, |required|);
    Problem(vars,
            Coefficients(vars, costs),
            seq(|required|, j requires 0 <= j < |required| => AtLeast(Row(j, sizes, |required|), required[j])))
  }

  /** The inner loop of attentus.py:35-44: the terms of period `j`'s row,
      regime by regime. */
  method RowTerms(j: int, sizes: seq<int>, numPeriods: nat) returns (terms: seq<Var>)
    ensures terms == Row(j, sizes, numPeriods)
  {
    terms := [];
    ghost var ws := Windows(j, sizes, numPeriods);
    var r := 0;
    while r < |sizes|
      invariant 0 <= r <= |sizes|
      invariant terms == RowOf(ws, r)
    {
      var window := CoveredPeriods(j, sizes[r], Periods(numPeriods));
      terms := terms + Tagged(r, window);
      r := r + 1;
    }
  }

  /** The loop of attentus.py:21-24: each variable's coefficient is the cost
      of its regime. */
  method CoefficientList(vars: seq<Var>, costs: seq<int>) returns (coefficients: seq<int>)
    requires forall v :: v in vars ==> v.regime < |costs|
    ensures coefficients == Coefficients(vars, costs)
  {
    coefficients := [];
    var k := 0;
    while k < |vars|
      invariant 0 <= k <= |vars|
      invariant |coefficients| == k
      invariant forall m :: 0 <= m < k ==> coefficients[m] == costs[vars[m].regime]
    {
      assert vars[k] in vars;
      coefficients := coefficients + [costs[vars[k].regime]];
      k := k + 1;
    }
  }

  /** `attentus` (attentus.py:5-45) up to the solve: the variables, the
      objective's coefficients, and the rows added one period at a time. */
  method Attentus(required: seq<nat>, sizes: seq<int>, costs: seq<int>) returns (p: Problem)
    requires |sizes| == |costs|
    ensures p == Formulate(required, sizes, costs)
  {
    var numPeriods := |required|;
    var vars := Product(|sizes|, numPeriods);
    var coefficients := CoefficientList(vars, costs);
    var rows: seq<Constraint> := [];
    var j := 0;
    while j < numPeriods
      invariant 0 <= j <= numPeriods
      invariant |rows| == j
      invariant forall q :: 0 <= q < j ==> rows[q] == AtLeast(Row(q, sizes, numPeriods), required[q])
    {
      var terms := RowTerms(j, sizes, numPeriods);
      rows := rows + [AtLeast(terms, required[j])];
      j := j + 1;
    }
    p := Problem(vars, coefficients, rows);
    AssembledProblem(required, sizes, costs, rows);
  }

  /** The rows the loop of `Attentus` collects are those of `Formulate`. */
  lemma AssembledProblem(required: seq<nat>, sizes: seq<int>, costs: seq<int>, rows: seq<Constraint>)
    requires |sizes| == |costs|
    requires |rows| == |required|
    requires forall q :: 0 <= q < |rows| ==> rows[q] == AtLeast(Row(q, sizes, |required|), required[q])
    ensures Formulate(required, sizes, costs) == Problem(Product(|sizes|, |required|), Coefficients(Product(|sizes|, |required|), costs), rows)
  {
    var p := Formulate(required, sizes, costs);
    assert p.rows == rows;
  }

  // ---------------------------------------------------------------------------
  // The rows

  /** Every regime lasts between one period and the whole day. */
  predicate ValidSizes(sizes: seq<int>, numPeriods: nat)
  {
    forall r :: 0 <= r < |sizes| ==> 1 <= sizes[r] <= numPeriods
  }

  function Total(sizes: seq<int>): int
  {
    if sizes == [] then 0 else Total(sizes[..|sizes| - 1]) + sizes[|sizes| - 1]
  }

  lemma TaggedMembership(r: nat, starts: seq<nat>, v: Var)
    ensures v in Tagged(r, starts) <==> v.regime == r && v.start in starts
  {
    var t := Tagged(r, starts);
    if v.regime == r && v.start in starts {
      var k :| 0 <= k < |starts| && starts[k] == v.start;
      assert t[k] == v;
    }
  }

  lemma {:induction false} RowOfMembership(ws: seq<seq<nat>>, m: nat, v: Var)
    requires m <= |ws|
    ensures v in RowOf(ws, m) <==> v.regime < m && v.start in ws[v.regime]
  {
    if m > 0 {
      RowOfMembership(ws, m - 1, v);
      var prev, t := RowOf(ws, m - 1), Tagged(m - 1, ws[m - 1]);
      assert RowOf(ws, m) == prev + t;
      assert v in prev + t <==> v in prev || v in t;
      TaggedMembership(m - 1, ws[m - 1], v);
    }
  }

  /** Variable `(r, i)` is a term of the row of period `j` exactly when a shift
      of regime `r` starting at period `i` is still on duty at period `j`,
      going round the day (attentus.py:35-44 with utils.py:9-14). */
  lemma RowMembership(j: int, sizes: seq<int>, numPeriods: nat, v: Var)
    requires 0 <= j < numPeriods && ValidSizes(sizes, numPeriods)
    ensures v in Row(j, sizes, numPeriods) <==>
      v.regime < |sizes| && v.start < numPeriods && StepsBack(j, v.start, numPeriods) < sizes[v.regime]
  {
    var ws := Windows(j, sizes, numPeriods);
    RowOfMembership(ws, |sizes|, v);
    if v.regime < |sizes| {
      WindowMembership(j, sizes[v.regime], numPeriods, v.start);
    }
  }

  lemma {:induction false} RowOfShape(ws: seq<seq<nat>>, sizes: seq<int>, m: nat)
    requires m <= |ws| == |sizes|
    requires forall r :: 0 <= r < |ws| ==> |ws[r]| == sizes[r]
    requires forall r, a, b :: 0 <= r < |ws| && 0 <= a < b < |ws[r]| ==> ws[r][a] != ws[r][b]
    ensures var row := RowOf(ws, m);
      && |row| == Total(sizes[..m])
      && (forall a :: 0 <= a < |row| ==> row[a].regime < m)
      && (forall a, b :: 0 <= a < b < |row| ==> row[a] != row[b])
  {
    if m > 0 {
      RowOfShape(ws, sizes, m - 1);
      assert sizes[..m][..m - 1] == sizes[..m - 1];
    }
  }

  /** The row of period `j` has one term per period of each regime's shift,
      `sizes[0] + ... + sizes[R-1]` terms, and no variable twice (attentus.py:34-44). */
  lemma RowShape(j: int, sizes: seq<int>, numPeriods: nat)
    requires 0 <= j < numPeriods && ValidSizes(sizes, numPeriods)
    ensures var row := Row(j, sizes, numPeriods);
      && |row| == Total(sizes)
      && (forall a, b :: 0 <= a < b < |row| ==> row[a] != row[b])
  {
    var ws := Windows(j, sizes, numPeriods);
    forall r | 0 <= r < |sizes|
      ensures |ws[r]| == sizes[r]
      ensures forall a, b :: 0 <= a < b < |ws[r]| ==> ws[r][a] != ws[r][b]
    {
      CoveredPeriodsCyclic(j, sizes[r], Periods(numPeriods));
      WindowDistinct(j, sizes[r], numPeriods);
    }
    RowOfShape(ws, sizes, |sizes|);
    assert sizes[..|sizes|] == sizes;
  }

  /** The periods whose row holds variable `v`. */
  function RowsHolding(p: Problem, v: Var): set<int>
  {
    set j | 0 <= j < |p.rows| && v in p.rows[j].terms
  }

  /** Each variable `(r, i)` is a term of exactly `sizes[r]` rows: one per
      period its shift covers (attentus.py:32-45). */
  lemma VariableRowCount(required: seq<nat>, sizes: seq<int>, costs: seq<int>, v: Var)
    requires |sizes| == |costs| && ValidSizes(sizes, |required|)
    requires v.regime < |sizes| && v.start < |required|
    ensures |RowsHolding(Formulate(required, sizes, costs), v)| == sizes[v.regime]
  {
    var p, n := Formulate(required, sizes, costs), |required|;
    forall j
      ensures j in RowsHolding(p, v) <==> j in WindowsContaining(v.start, sizes[v.regime], n)
    {
      if 0 <= j < n {
        RowMembership(j, sizes, n, v);
      }
    }
    assert RowsHolding(p, v) == WindowsContaining(v.start, sizes[v.regime], n);
    WindowCount(v.start, sizes[v.regime], n);
  }

  // ---------------------------------------------------------------------------
  // Assignments: a nonnegative integer for every variable

  /** The left-hand side `lpSum(terms)` under assignment `x`. */
  function TermSum(terms: seq<Var>, x: Var -> nat): nat
  {
    if terms == [] then 0 else TermSum(terms[..|terms| - 1], x) + x(terms[|terms| - 1])
  }

  /** An assignment meets every row of `p` (attentus.py:45). */
  predicate Satisfies(p: Problem, x: Var -> nat)
  {
    forall j :: 0 <= j < |p.rows| ==> TermSum(p.rows[j].terms, x) >= p.rows[j].bound
  }

  /** `sum(c * x for c, x in zip(costs, vars))`. */
  function Weighted(vars: seq<Var>, costs: seq<int>, x: Var -> nat): int
    requires |vars| == |costs|
  {
    if vars == [] then 0
    else Weighted(vars[..|vars| - 1], costs[..|costs| - 1], x) + costs[|costs| - 1] * x(vars[|vars| - 1])
  }

  /** The objective `fo` (attentus.py:26-30) under assignment `x`. */
  function Cost(p: Problem, x: Var -> nat): int
    requires |p.vars| == |p.costs|
  {
    Weighted(p.vars, p.costs, x)
  }

  /** A sum of nonnegative values is at least each of them. */
  lemma {:induction false} TermSumAtLeast(terms: seq<Var>, x: Var -> nat, v: Var)
    requires v in terms
    ensures TermSum(terms, x) >= x(v)
  {
    if terms[|terms| - 1] != v {
      assert v in terms[..|terms| - 1] by {
        var a :| 0 <= a < |terms| && terms[a] == v;
        assert terms[..|terms| - 1][a] == v;
      }
      TermSumAtLeast(terms[..|terms| - 1], x, v);
    }
  }

  lemma {:induction false} TermSumOfZero(terms: seq<Var>)
    ensures TermSum(terms, _ => 0) == 0
  {
    if terms != [] {
      TermSumOfZero(terms[..|terms| - 1]);
    }
  }

  lemma {:induction false} WeightedNonnegative(vars: seq<Var>, costs: seq<int>, x: Var -> nat)
    requires |vars| == |costs|
    requires forall k :: 0 <= k < |costs| ==> costs[k] >= 0
    ensures Weighted(vars, costs, x) >= 0
  {
    if vars != [] {
      WeightedNonnegative(vars[..|vars| - 1], costs[..|costs| - 1], x);
    }
  }

  lemma {:induction false} WeightedOfZero(vars: seq<Var>, costs: seq<int>)
    requires |vars| == |costs|
    ensures Weighted(vars, costs, _ => 0) == 0
  {
    if vars != [] {
      WeightedOfZero(vars[..|vars| - 1], costs[..|costs| - 1]);
    }
  }

  /** With no agent required anywhere, hiring nobody meets every row at cost 0,
      and no assignment costs less, since regime costs are nonnegative (at least
      100 at the caller, main.py:82-86) and variables are nonnegative. */
  lemma ZeroPlanOptimal(required: seq<nat>, sizes: seq<int>, costs: seq<int>)
    requires |sizes| == |costs|
    requires forall j :: 0 <= j < |required| ==> required[j] == 0
    requires forall r :: 0 <= r < |costs| ==> costs[r] >= 0
    ensures var p := Formulate(required, sizes, costs);
      && Satisfies(p, _ => 0)
      && Cost(p, _ => 0) == 0
      && forall x: Var -> nat :: Cost(p, x) >= 0
  {
    var p := Formulate(required, sizes, costs);
    forall j | 0 <= j < |p.rows|
      ensures TermSum(p.rows[j].terms, _ => 0) >= p.rows[j].bound
    {
      TermSumOfZero(p.rows[j].terms);
    }
    WeightedOfZero(p.vars, p.costs);
    forall x: Var -> nat
      ensures Cost(p, x) >= 0
    {
      WeightedNonnegative(p.vars, p.costs, x);
    }
  }

  /** The largest requirement of any period. */
  function Peak(required: seq<nat>): (m: nat)
    ensures forall j :: 0 <= j < |required| ==> required[j] <= m
  {
    if required == [] then 0
    else
      var m := Peak(required[..|required| - 1]);
      if required[|required| - 1] > m then required[|required| - 1] else m
  }

  /** Every row is met by an assignment that puts at least the peak
      requirement on every start period of regime 0. */
  lemma PeakOnFirstRegime(required: seq<nat>, sizes: seq<int>, costs: seq<int>, x: Var -> nat)
    requires |sizes| == |costs| && |sizes| >= 1 && ValidSizes(sizes, |required|)
    requires forall i :: 0 <= i < |required| ==> x(Var(0, i)) >= Peak(required)
    ensures Satisfies(Formulate(required, sizes, costs), x)
  {
    var p, n := Formulate(required, sizes, costs), |required|;
    forall j | 0 <= j < |p.rows|
      ensures TermSum(p.rows[j].terms, x) >= p.rows[j].bound
    {
      var row := Row(j, sizes, n);
      assert p.rows[j] == AtLeast(row, required[j]);
      assert StepsBack(j, j, n) == 0 by {
        ModOfSmall(0, n);
      }
      RowMembership(j, sizes, n, Var(0, j));
      TermSumAtLeast(row, x, Var(0, j));
    }
  }

  /** As the variables have no upper bound, the rows can always be met once
      there is a regime: no requirement vector makes the problem infeasible. */
  lemma AlwaysSatisfiable(required: seq<nat>, sizes: seq<int>, costs: seq<int>)
    requires |sizes| == |costs| && |sizes| >= 1 && ValidSizes(sizes, |required|)
    ensures exists x: Var -> nat :: Satisfies(Formulate(required, sizes, costs), x)
  {
    var x: Var -> nat := (v: Var) => if v.regime == 0 then Peak(required) else 0;
    PeakOnFirstRegime(required, sizes, costs, x);
  }

  // ---------------------------------------------------------------------------
  // The objective, regime by regime

  /** The agents hired on regime `r` over start periods 0..n-1. */
  function Hired(r: nat, n: nat, x: Var -> nat): nat
  {
    if n == 0 then 0 else Hired(r, n - 1, x) + x(Var(r, n - 1))
  }

  /** `costs[0] * Hired(0) + ... + costs[m-1] * Hired(m-1)`. */
  function RegimeCost(costs: seq<int>, numPeriods: nat, x: Var -> nat, m: nat): int
    requires m <= |costs|
  {
    if m == 0 then 0
    else RegimeCost(costs, numPeriods, x, m - 1) + costs[m - 1] * Hired(m - 1, numPeriods, x)
  }

  lemma {:induction false} WeightedAppend(a: seq<Var>, ca: seq<int>, b: seq<Var>, cb: seq<int>, x: Var -> nat)
    requires |a| == |ca| && |b| == |cb|
    ensures Weighted(a + b, ca + cb, x) == Weighted(a, ca, x) + Weighted(b, cb, x)
  {
    if b != [] {
      var n := |b| - 1;
      assert (a + b)[..|a + b| - 1] == a + b[..n];
      assert (ca + cb)[..|ca + cb| - 1] == ca + cb[..n];
      WeightedAppend(a, ca, b[..n], cb[..n], x);
    } else {
      assert a + b == a && ca + cb == ca;
    }
  }

  lemma {:induction false} BlockCost(r: nat, n: nat, costs: seq<int>, x: Var -> nat)
    requires r < |costs|
    ensures Weighted(Block(r, n), Coefficients(Block(r, n), costs), x) == costs[r] * Hired(r, n, x)
  {
    if n > 0 {
      BlockCost(r, n - 1, costs, x);
      assert Block(r, n)[..n - 1] == Block(r, n - 1);
      assert Coefficients(Block(r, n), costs)[..n - 1] == Coefficients(Block(r, n - 1), costs);
      calc {
        costs[r] * Hired(r, n, x);
        costs[r] * (Hired(r, n - 1, x) + x(Var(r, n - 1)));
        costs[r] * Hired(r, n - 1, x) + costs[r] * x(Var(r, n - 1));
      }
    }
  }

  lemma CoefficientsAppend(a: seq<Var>, b: seq<Var>, costs: seq<int>)
    requires forall v :: v in a + b ==> v.regime < |costs|
    ensures Coefficients(a + b, costs) == Coefficients(a, costs) + Coefficients(b, costs)
  {
    assert forall v :: v in a ==> v in a + b;
    assert forall v :: v in b ==> v in a + b;
  }

  lemma {:induction false} ProductCost(m: nat, numPeriods: nat, costs: seq<int>, x: Var -> nat)
    requires m <= |costs|
    ensures Weighted(Product(m, numPeriods), Coefficients(Product(m, numPeriods), costs), x)
         == RegimeCost(costs, numPeriods, x, m)
  {
    if m > 0 {
      var prev, block := Product(m - 1, numPeriods), Block(m - 1, numPeriods);
      assert Product(m, numPeriods) == prev + block;
      ProductCost(m - 1, numPeriods, costs, x);
      BlockCost(m - 1, numPeriods, costs, x);
      CoefficientsAppend(prev, block, costs);
      WeightedAppend(prev, Coefficients(prev, costs), block, Coefficients(block, costs), x);
    }
  }

  /** The objective is the cost of each regime times the agents hired on it,
      whatever their start periods (attentus.py:21-30). */
  lemma CostByRegime(required: seq<nat>, sizes: seq<int>, costs: seq<int>, x: Var -> nat)
    requires |sizes| == |costs|
    ensures Cost(Formulate(required, sizes, costs), x) == RegimeCost(costs, |required|, x, |costs|)
  {
    ProductCost(|costs|, |required|, costs, x);
  }
}
