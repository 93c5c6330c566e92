# Attentus, modelled in Dafny

Attentus sizes the staff of a call centre. The day is cut into periods of
`minutos_dividir` minutes, for example 96 periods of 15 minutes. The program
then works in two steps.

1. It estimates how many agents each period needs (`nan`). It simulates the
   period's calls one by one. Each call goes to the first agent who will
   have finished resting before the caller's patience runs out. When no
   agent qualifies, a new agent is created. The period's requirement is the
   number of agents created.
2. It builds an integer program, `attentus`. The program has one
   nonnegative integer variable `A[(r, i)]` per shift regime `r` and start
   period `i`. The objective sums the regime costs. There is one covering
   row per period `j`. Row `j` adds up every variable whose shift, going
   round the day, is still on duty at `j`. The window of periods a shift
   covers is computed by `retorna_lista`. The solver's answer is then read
   back by parsing each variable name `"A_(r,_i)"` (`gera_resultados`).

The model has one module per part:

- `Window`: `retorna_lista`, written over an exact model of Python list
  slicing (negative bounds, clamping).
- `Divisors`: `encontra_divisores`, the loop that lists the period lengths
  offered.
- `Demand`: the first-fit agent simulation inside `gerar_tabela_nan`. It is
  written as methods over a sequence of agents, and proved against the
  functions `FirstFree`, `Dispatch` and `Simulate`.
- `Formulation`: the variables, the objective coefficients and the rows
  that `attentus` builds. The `Attentus` method keeps the source's loops. It
  is proved equal to the function `Formulate`. Assignments are total
  functions from variables to `nat`, and `Satisfies` checks an assignment
  against every row.
- `Results`: the name decoding and the projection loop of
  `gera_resultados`, with the error Python would raise. `Text` holds the
  string operations they use: `str.replace`, `str.split`, `int` and `str`.
  `Wrappers` holds `Option` and `Result`.

Times in `Demand` are exact reals. Points of the code's behaviour that the
model keeps as written:

- An agent who takes a call starts it at `arrival + tempo_maximo_espera`
  (utilidades/utils.py:211-213), even when the agent was free earlier, not
  at `max(arrival, fim_atendimento + tempo_descanso)`. The `else` at
  utils.py:214-215 sits under the test at :211, which repeats the test at
  :203, so it is never taken. The model keeps it as dead code in
  `Demand.ServeCall`.
- Results are decoded by parsing the name that the solver library gives
  each variable (utils.py:32). No separate tag table exists.
- No requirement vector can make the problem infeasible. The variables
  have no upper bound, so `Formulation.AlwaysSatisfiable` proves that every
  requirement vector can be met once there is one regime and every shift
  lasts between 1 and P periods, as the shift lengths main.py offers do. A
  shift shorter than one period gets length 0 at modelo/attentus.py:36; if
  every shift has length 0, every row is empty and any positive requirement
  cannot be met.

## Model

| member | source | states |
|---|---|---|
| Window.CoveredPeriods | utilidades/utils.py:9-14 | definition: the two branches of `retorna_lista` over Python slice semantics (negative start, clamping); its meaning is proved in `CoveredPeriodsCyclic`, `CoveredPeriodsShape` and `WindowMembership` |
| Window.CoveredPeriodsCyclic | utilidades/utils.py:9-14 | for `0 <= j < n` and `1 <= size <= n` the window has exactly `size` entries, entry `k` is `moments[(j - size + 1 + k) mod n]` (cyclic order), and the last one is `moments[j]` |
| Window.CoveredPeriodsShape | utilidades/utils.py:11-14 | without wrap-around the window is the plain slice `moments[j-size+1..j]`; with it, the last `size-1-j` entries followed by the first `j+1` |
| Window.WindowExample | utilidades/utils.py:9-14 | a 4-period shift ending at period 2 of a 96-period day covers `[95, 0, 1, 2]` |
| Window.WindowMembership | utilidades/utils.py:9-14 | over period indices, `i` is in the window ending at `j` iff `0 <= i < n` and `(j - i) mod n < size` |
| Window.WindowDistinct | utilidades/utils.py:9-14 | over period indices, the window never repeats a period |
| Window.WindowCount | utilidades/utils.py:9-14 | of the `n` windows of length `size`, exactly `size` contain a given period |
| Divisors.DivisorsUpTo | utilidades/utils.py:120-124 | after trying `1..k`, the list holds exactly the `d` in `1..k` dividing `n`, strictly ascending |
| Divisors.FindDivisors | utilidades/utils.py:112-124 | the loop returns exactly the divisors of `n` in `1..n`, strictly ascending (empty for `n < 1`) |
| Divisors.DivisorsEnds | utilidades/utils.py:120-124 | for `n >= 1` the list is nonempty, starts with 1 and ends with `n` |
| Divisors.DivisorsOfFifteen | utilidades/utils.py:120-124 | `encontra_divisores(15) == [1, 3, 5, 15]` |
| Divisors.FifteenDividesDay | main.py:43-47 | for a whole number of hours `h >= 1`, 15 is among the divisors of `60 * h`, so `divisores.index(15)` succeeds |
| Demand.Free | utilidades/utils.py:199-206 | definition: an agent can take the call when `arrival + maxWait > fim_atendimento + descanso`; its use is proved in `FirstFree` and `Dispatch` |
| Demand.FirstFree | utilidades/utils.py:197-208 | the position returned is free for the call and no earlier agent is; the length of the list when none is free |
| Demand.Dispatch | utilidades/utils.py:197-226 | one agent is appended (starting at the arrival, busy for the duration) exactly when no agent is free; otherwise exactly the first free agent changes, to start `arrival + maxWait` and end `arrival + maxWait + duration`, and no other agent changes |
| Demand.Simulate | utilidades/utils.py:183-231 | after the calls of a period there are at most as many agents as calls, and at least one when there was a call |
| Demand.DispatchTiming | utilidades/utils.py:203-225 | for `maxWait >= 0`, the agent who takes a call starts within `[arrival, arrival + maxWait]`, is busy exactly the call's duration, and an existing agent had finished resting before starting |
| Demand.DispatchKeepsBusy | utilidades/utils.py:203-218 | with nonnegative rest and duration, a call never makes any agent free earlier |
| Demand.RequirementMonotone | utilidades/utils.py:183-231 | the agent count after a prefix of the calls is at most the count after all of them |
| Demand.BusyUntilMonotone | utilidades/utils.py:183-226 | every agent present after a prefix of the calls is still present after all of them, busy until no earlier |
| Demand.ServeCall | utilidades/utils.py:197-226 | the `for ... else` loop over the agents for one call yields `Dispatch` of that call |
| Demand.SimulatePeriod | utilidades/utils.py:183-231 | the loop over a period's calls yields `Simulate` of them, and the requirement is the number of agents |
| Demand.EstimateDemand | utilidades/utils.py:168-237 | one requirement per period, equal to the simulated agent count; 0 exactly for a period without calls, and never more than its number of calls |
| Formulation.Product | modelo/attentus.py:11 | `R * P` variables, exactly the pairs `(r, i)` with `r < R` and `i < P`, in strictly increasing (regime, start) order |
| Formulation.Formulate | modelo/attentus.py:5-45 | the variables are the product; each coefficient is the cost of the variable's regime, whatever its start period; one `>= required[j]` row per period over `Row(j)` |
| Formulation.CoefficientList | modelo/attentus.py:21-24 | the loop gives each variable the cost of its regime |
| Formulation.RowTerms | modelo/attentus.py:34-44 | the nested loop builds `Row(j)`, regime by regime |
| Formulation.Attentus | modelo/attentus.py:5-45 | the assembled problem equals `Formulate` of the requirements, regime sizes and costs |
| Formulation.RowMembership | modelo/attentus.py:35-44 | for valid sizes, `(r, i)` is a term of row `j` iff `r < R`, `i < P` and `(j - i) mod P < size[r]` |
| Formulation.RowShape | modelo/attentus.py:34-44 | for valid sizes, row `j` has exactly `size[0] + ... + size[R-1]` terms, none repeated |
| Formulation.VariableRowCount | modelo/attentus.py:32-45 | for valid sizes, variable `(r, i)` is a term of exactly `size[r]` rows |
| Formulation.Satisfies | modelo/attentus.py:45 | definition: an assignment meets every row `lpSum(row) >= nan_j`; its properties are proved in `ZeroPlanOptimal`, `PeakOnFirstRegime` and `AlwaysSatisfiable` |
| Formulation.Cost | modelo/attentus.py:26-30 | definition: the objective `sum(coef * var)` under an assignment; its properties are proved in `CostByRegime` and `ZeroPlanOptimal` |
| Formulation.ZeroPlanOptimal | modelo/attentus.py:17-45 | when every requirement is 0 and costs are nonnegative, hiring nobody meets every row at cost 0 and no assignment costs less |
| Formulation.PeakOnFirstRegime | modelo/attentus.py:32-45 | any assignment that hires at least the peak requirement at every start period of regime 0 meets every row |
| Formulation.AlwaysSatisfiable | modelo/attentus.py:17-45 | with at least one regime and valid sizes, some assignment meets every row |
| Formulation.CostByRegime | modelo/attentus.py:21-30 | the objective equals the sum over regimes of the regime's cost times the agents hired on it |
| Text.ParseDecimal | utilidades/utils.py:32 | `int` applied to the decimal text of a natural gives it back |
| Results.DecodeName | utilidades/utils.py:32 | definition: drop every `"A_("` and `")"`, split at `",_"`, require exactly two pieces and parse each with `int`, `None` standing for the `ValueError`; its round trip is proved in `DecodeVarName` |
| Results.ProjectOne | utilidades/utils.py:32-34 | definition: one variable gives its entry, or fails first with `BadName` (`ValueError`), then `NoRegime`, then `NoStart` (`KeyError`); its use is proved in `Project` and `ProjectSolution` |
| Results.DecodeVarName | utilidades/utils.py:32 | decoding the name `"A_(r,_i)"` of a variable gives back `(r, i)` |
| Results.VarNameInjective | utilidades/utils.py:31-32 | two variables with the same name are the same variable |
| Results.Project | utilidades/utils.py:31-42 | the projection succeeds iff every variable projects, with one entry per variable in order; otherwise it fails with the error of the first variable that fails |
| Results.FirstFailure | utilidades/utils.py:31-34 | when every variable before `k` projects and variable `k` does not, the projection fails with variable `k`'s error |
| Results.GenerateResults | utilidades/utils.py:30-42 | the loop returns `Project` of the solution: the entries, or the first error Python would raise |
| Results.ProjectSolution | utilidades/utils.py:31-42 | for a solution listing the problem's variables in any order, as `prob.variables()` does, projecting never fails and gives, for each variable in that order, `regimes[r]`, `starts[i]` and its value |

## Left out

- Window.CoveredPeriods: outside `0 <= j < n` and `1 <= size <= n` it follows Python slicing as written, and no property is proved there.
- Shift lengths longer than the day (`tamanho > P`): the row lemmas require `1 <= size[r] <= P` (`ValidSizes`). For longer shifts Python's slice clamping yields repeated periods. `Formulate` and `Attentus` still model them as written.
- The conversion `int(regime * 60 / minutos_dividir)` (modelo/attentus.py:36): shift lengths in periods are inputs, because the float division is not modelled.
- The random arrivals and durations, their sorting, `np.polyval` and the least-squares fit (utilidades/utils.py:160-163, 177-192): randomness, floating point and foreign code. Sorted arrivals and durations are inputs.
- Demand.Simulate: times are exact reals, not floating point.
- `ajusta_polinomio`, `gera_tabelas` and `lista_turnos_possiveis` (utilidades/utils.py:52-110, 126-137): plotting, pandas date ranges and float ranges.
- The PuLP/CBC solve and `LpStatus` (modelo/attentus.py:47-48): an external solver. Assignments are checked with `Satisfies` and `Cost`, but optimality is not modelled.
- The order of `prob.variables()`: the order the solver library lists the variables in is not modelled. `Project` and `ProjectSolution` hold for a solution in any order.
- Text.ParseNat: accepts only plain ASCII digit strings. Python's `int` also accepts a sign, surrounding whitespace, underscores between digits and non-ASCII Unicode decimal digits. `Results.DecodeName` inherits this, but variable names never contain any of them.
- Results.GenerateResults: `varValue` is taken as an integer (the variables are integer), and the `pivot_table` that follows (utilidades/utils.py:44-50) is not modelled.
- main.py: the Streamlit interface, file input and output, and the display of results.
