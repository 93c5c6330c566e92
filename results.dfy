/**
 * The result rows of `gera_resultados` (utilidades/utils.py:17-50): each
 * solved variable's name is parsed back into its (regime, start period) pair,
 * which selects the regime and the start time of the row.
 */
module Results {
  import opened Wrappers
  import opened Text
  import opened Formulation

  /** The name PuLP gives to entry `(r, i)` of `LpVariable.dicts("A", ...)`:
      "A_" and the tuple's text, its space turned into "_". */
  function VarName(v: Var): string
  {
    "A_(" + Decimal(v.regime) + ",_" + Decimal(v.start) + ")"
  }

  /** utils.py:32: drop every "A_(" and ")", split at ",_", convert each piece
      with `int` and unpack exactly two; any failure is Python's `ValueError`. */
  function DecodeName(name: string): Option<Var>
  {
    var parts := Split(Replace(Replace(name, "A_(", ""), ")", ""), ",_");
    if |parts| != 2 then None
    else
      match (ParseNat(parts[0]), ParseNat(parts[1]))
      case (Some(r), Some(i)) => Some(Var(r, i))
      case _ => None
  }

  lemma DigitsAvoid(s: string, c: char)
    requires AllDigits(s) && !IsDigit(c)
    ensures Avoids(s, c)
  {
  }

  /** The first replacement drops only the leading "A_(". */
  lemma DropOpening(d1: string, d2: string)
    requires AllDigits(d1) && AllDigits(d2)
    ensures Replace("A_(" + (d1 + ",_" + d2 + ")"), "A_(", "") == d1 + ",_" + d2 + ")"
  {
    var rest := d1 + ",_" + d2 + ")";
    ReplaceFront("A_(", "", rest);
    DigitsAvoid(d1, 'A');
    DigitsAvoid(d2, 'A');
    assert Avoids(rest, 'A');
    ReplaceSkips(rest, [], "A_(", "");
    assert rest + [] == rest;
  }

  /** The second replacement drops only the trailing ")". */
  lemma DropClosing(d1: string, d2: string)
    requires AllDigits(d1) && AllDigits(d2)
    ensures Replace(d1 + ",_" + d2 + ")", ")", "") == d1 + ",_" + d2
  {
    var inner := d1 + ",_" + d2;
    DigitsAvoid(d1, ')');
    DigitsAvoid(d2, ')');
    assert Avoids(inner, ')');
    ReplaceSkips(inner, ")", ")", "");
    ReplaceFront(")", "", "");
  }

  /** Splitting at ",_" gives back the two numbers. */
  lemma SplitPair(d1: string, d2: string)
    requires AllDigits(d1) && AllDigits(d2)
    ensures Split(d1 + ",_" + d2, ",_") == [d1, d2]
  {
    DigitsAvoid(d1, ',');
    DigitsAvoid(d2, ',');
    SplitFirst(d1, ",_", d2);
    SplitWhole(d2, ",_");
  }

  /** Decoding a variable's name gives back its regime and start period. */
  lemma DecodeVarName(v: Var)
    ensures DecodeName(VarName(v)) == Some(v)
  {
    var d1, d2 := Decimal(v.regime), Decimal(v.start);
    assert VarName(v) == "A_(" + (d1 + ",_" + d2 + ")");
    DropOpening(d1, d2);
    DropClosing(d1, d2);
    SplitPair(d1, d2);
    ParseDecimal(v.regime);
    ParseDecimal(v.start);
  }

  /** Two variables never share a name. */
  lemma VarNameInjective(u: Var, v: Var)
    requires VarName(u) == VarName(v)
    ensures u == v
  {
    DecodeVarName(u);
    DecodeVarName(v);
  }

  /** One solved variable: its name and its value `varValue`. */
  datatype Solved = Solved(name: string, value: int)

  /** One entry of `resultados` (utils.py:36-42). */
  datatype Entry = Entry(regime: real, start: string, value: int)

  /** What `gera_resultados` raises: `ValueError` on a name it cannot parse,
      `KeyError` on an index missing from `regimes` or from `inicios`. */
  datatype ProjectError = BadName(name: string) | NoRegime(index: nat) | NoStart(index: nat)

  /** utils.py:32-42 for one variable. */
  function ProjectOne(s: Solved, regimes: seq<real>, starts: seq<string>): Result<Entry, ProjectError>
  {
    match DecodeName(s.name)
    case None => Failure(BadName(s.name))
    case Some(v) =>
      if v.regime >= |regimes| then Failure(NoRegime(v.regime))
      else if v.start >= |starts| then Failure(NoStart(v.start))
      else Success(Entry(regimes[v.regime], starts[v.start], s.value))
  }

  /** The entries for the solved variables in order, or the error of the first
      variable that fails. */
  function Project(solution: seq<Solved>, regimes: seq<real>, starts: seq<string>): (r: Result<seq<Entry>, ProjectError>)
    ensures r.Success? <==> forall k :: 0 <= k < |solution| ==> ProjectOne(solution[k], regimes, starts).Success?
    ensures r.Success? ==>
      && |r.value| == |solution|
      && forall k :: 0 <= k < |solution| ==> ProjectOne(solution[k], regimes, starts) == Success(r.value[k])
    ensures r.Failure? ==>
      exists k :: 0 <= k < |solution|
        && ProjectOne(solution[k], regimes, starts) == Failure(r.error)
        && forall m :: 0 <= m < k ==> ProjectOne(solution[m], regimes, starts).Success?
  {
    if solution == [] then Success([])
    else
      var n := |solution| - 1;
      var init := solution[..n];
      assert forall k :: 0 <= k < n ==> init[k] == solution[k];
      match Project(init, regimes, starts)
      case Failure(e) => Failure(e)
      case Success(entries) =>
        match ProjectOne(solution[n], regimes, starts)
        case Failure(e) => Failure(e)
        case Success(entry) => Success(entries + [entry])
  }

  /** When every variable before `k` projects and variable `k` does not, the
      projection fails with variable `k`'s error. */
  lemma FirstFailure(solution: seq<Solved>, regimes: seq<real>, starts: seq<string>, k: nat)
    requires k < |solution|
    requires forall m :: 0 <= m < k ==> ProjectOne(solution[m], regimes, starts).Success?
    requires ProjectOne(solution[k], regimes, starts).Failure?
    ensures Project(solution, regimes, starts) == Failure(ProjectOne(solution[k], regimes, starts).error)
  {
    var r := Project(solution, regimes, starts);
    var first :| 0 <= first < |solution|
      && ProjectOne(solution[first], regimes, starts) == Failure(r.error)
      && forall m :: 0 <= m < first ==> ProjectOne(solution[m], regimes, starts).Success?;
    assert first == k;
  }

  /** The loop of `gera_resultados` (utils.py:30-42), up to the pivot table. */
  method GenerateResults(solution: seq<Solved>, regimes: seq<real>, starts: seq<string>)
    returns (r: Result<seq<Entry>, ProjectError>)
    ensures r == Project(solution, regimes, starts)
  {
    var entries: seq<Entry> := [];
    var k := 0;
    while k < |solution|
      invariant 0 <= k <= |solution|
      invariant Project(solution[..k], regimes, starts) == Success(entries)
    {
      assert solution[..k + 1][..k] == solution[..k];
      var one := ProjectOne(solution[k], regimes, starts);
      if one.Failure? {
        assert forall m :: 0 <= m < k ==> solution[..k][m] == solution[m];
        FirstFailure(solution, regimes, starts, k);
        return Failure(one.error);
      }
      entries := entries + [one.value];
      k := k + 1;
    }
    assert solution[..k] == solution;
    r := Success(entries);
  }

  /** The solved variables of a problem as the solver reports them. */
  function Named(vars: seq<Var>, x: Var -> nat): seq<Solved>
  {
    seq(|vars|, k requires 0 <= k < |vars| => Solved(VarName(vars[k]), x(vars[k])))
  }

  /** Projecting a solution listed in any order (`prob.variables()` lists the
      variables in the solver library's own order) gives, for each variable
      `(r, i)` in that order, the row of regime `regimes[r]`, start time
      `starts[i]` and the variable's value; nothing fails when every variable
      is one of the problem's, as every variable of `Product(R, P)` is. */
  lemma ProjectSolution(vars: seq<Var>, regimes: seq<real>, starts: seq<string>, x: Var -> nat)
    requires forall v :: v in vars ==> v.regime < |regimes| && v.start < |starts|
    ensures Project(Named(vars, x), regimes, starts)
        == Success(seq(|vars|, k requires 0 <= k < |vars| =>
             Entry(regimes[vars[k].regime], starts[vars[k].start], x(vars[k]))))
  {
    var solution := Named(vars, x);
    var expected := seq(|vars|, k requires 0 <= k < |vars| =>
      assert vars[k] in vars; Entry(regimes[vars[k].regime], starts[vars[k].start], x(vars[k])));
    forall k | 0 <= k < |vars|
      ensures ProjectOne(solution[k], regimes, starts) == Success(expected[k])
    {
      assert vars[k] in vars;
      DecodeVarName(vars[k]);
    }
    var r := Project(solution, regimes, starts);
    assert r.value == expected;
  }
}
