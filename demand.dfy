/**
 * The staffing-requirement simulation of `gerar_tabela_nan`
 * (utilidades/utils.py:140-237), without its random draws: each period's
 * calls, already sorted by arrival and with their sampled durations, are
 * inputs. Times are in seconds within the period.
 */
module Demand {

  /** One simulated agent: `inicio_atendimento` and `fim_atendimento`. */
  datatype Agent = Agent(start: real, busyUntil: real)

  /** One simulated call: its arrival offset and its sampled duration. */
  datatype Call = Call(arrival: real, duration: real)

  /** An agent can take a call when, after resting, it is free before the caller's
      patience runs out (utils.py:199-206). */
  predicate Free(a: Agent, arrival: real, maxWait: real, rest: real)
  {
    arrival + maxWait > a.busyUntil + rest
  }

  /** The position, in creation order, of the first agent free for a call
      arriving at `arrival`; `|agents|` when none is. */
  function FirstFree(agents: seq<Agent>, arrival: real, maxWait: real, rest: real): (k: nat)
    ensures k <= |agents|
    ensures k < |agents| ==> Free(agents[k], arrival, maxWait, rest)
    ensures forall m :: 0 <= m < k ==> !Free(agents[m], arrival, maxWait, rest)
  {
    if agents == [] then 0
    else if Free(agents[0], arrival, maxWait, rest) then 0
    else 1 + FirstFree(agents[1..], arrival, maxWait, rest)
  }

  /** What one call does to the agent list (utils.py:197-226): the first free
      agent starts it when the caller's patience runs out; if none is free a
      new agent is created and starts it at once. */
  function Dispatch(agents: seq<Agent>, c: Call, maxWait: real, rest: real): (after: seq<Agent>)
    // either one new agent is appended, exactly when no existing agent is free ...
    ensures |after| == |agents| + 1 <==> forall m :: 0 <= m < |agents| ==> !Free(agents[m], c.arrival, maxWait, rest)
    ensures |after| == |agents| + 1 ==>
      after == agents + [Agent(c.arrival, c.arrival + c.duration)]
    // ... or exactly one agent changes, the first free one in creation order
    ensures |after| != |agents| + 1 ==>
      exists k :: 0 <= k < |agents|
        && Free(agents[k], c.arrival, maxWait, rest)
        && (forall m :: 0 <= m < k ==> !Free(agents[m], c.arrival, maxWait, rest))
        && after == agents[k := Agent(c.arrival + maxWait, c.arrival + maxWait + c.duration)]
  {
    var k := FirstFree(agents, c.arrival, maxWait, rest);
    if k < |agents| then
      agents[k := Agent(c.arrival + maxWait, c.arrival + maxWait + c.duration)]
    else
      agents + [Agent(c.arrival, c.arrival + c.duration)]
  }

  /** The agent list after the period's calls, taken in order. */
  function Simulate(calls: seq<Call>, maxWait: real, rest: real): (agents: seq<Agent>)
    // the list starts empty and only ever grows by one agent per call
    ensures |agents| <= |calls|
    ensures |calls| > 0 ==> |agents| >= 1
  {
    if calls == [] then []
    else Dispatch(Simulate(calls[..|calls| - 1], maxWait, rest), calls[|calls| - 1], maxWait, rest)
  }

  /** The agent that takes a call (position `FirstFree`, or the new last
      one) starts it no later than `maxWait` after it arrives, is busy for
      exactly the call's duration, and, if it existed, had finished resting first. */
  lemma DispatchTiming(agents: seq<Agent>, c: Call, maxWait: real, rest: real)
    requires maxWait >= 0.0
    ensures var after, k := Dispatch(agents, c, maxWait, rest), FirstFree(agents, c.arrival, maxWait, rest);
      && k < |after|
      && c.arrival <= after[k].start <= c.arrival + maxWait
      && after[k].busyUntil == after[k].start + c.duration
      && (k < |agents| ==> agents[k].busyUntil + rest < after[k].start)
  {
  }

  /** A call never makes an agent free earlier, when resting and calls take no negative time. */
  lemma DispatchKeepsBusy(agents: seq<Agent>, c: Call, maxWait: real, rest: real)
    requires rest >= 0.0 && c.duration >= 0.0
    ensures var after := Dispatch(agents, c, maxWait, rest);
      forall m :: 0 <= m < |agents| ==> agents[m].busyUntil <= after[m].busyUntil
  {
  }

  /** Agents are never removed: the requirement after the first `m` calls is at
      most the requirement after all of them, so it never decreases as calls are added. */
  lemma {:induction false} RequirementMonotone(calls: seq<Call>, m: nat, maxWait: real, rest: real)
    requires m <= |calls|
    ensures |Simulate(calls[..m], maxWait, rest)| <= |Simulate(calls, maxWait, rest)|
  {
    if m < |calls| {
      var init := calls[..|calls| - 1];
      assert init[..m] == calls[..m];
      RequirementMonotone(init, m, maxWait, rest);
    } else {
      assert calls[..m] == calls;
    }
  }

  /** Each agent existing after the first `m` calls is still there after all of
      them, busy until no earlier a time. */
  lemma {:induction false} BusyUntilMonotone(calls: seq<Call>, m: nat, maxWait: real, rest: real)
    requires m <= |calls|
    requires rest >= 0.0
    requires forall i :: 0 <= i < |calls| ==> calls[i].duration >= 0.0
    ensures var early, late := Simulate(calls[..m], maxWait, rest), Simulate(calls, maxWait, rest);
      && |early| <= |late|
      && forall a :: 0 <= a < |early| ==> early[a].busyUntil <= late[a].busyUntil
  {
    if m < |calls| {
      var init := calls[..|calls| - 1];
      assert init[..m] == calls[..m];
      BusyUntilMonotone(init, m, maxWait, rest);
      DispatchKeepsBusy(Simulate(init, maxWait, rest), calls[|calls| - 1], maxWait, rest);
    } else {
      assert calls[..m] == calls;
    }
  }

  /** The `for atendente ... else` loop of utils.py:197-226 for one call:
      the agents are tried in creation order and the first free one breaks
      out; when none is, a new agent is appended. */
  method ServeCall(agents: seq<Agent>, call: Call, maxWait: real, rest: real) returns (after: seq<Agent>)
    ensures after == Dispatch(agents, call, maxWait, rest)
  {
    after := agents;
    var k := 0;
    var served := false;
    while k < |after| && !served
      invariant 0 <= k <= |after| == |agents|
      invariant !served ==> after == agents
      invariant forall m :: 0 <= m < k ==> !Free(agents[m], call.arrival, maxWait, rest)
      invariant served ==> after == Dispatch(agents, call, maxWait, rest)
      decreases |after| - k, if served then 0 else 1
    {
      var finish := after[k].busyUntil + rest;
      var busy := !(call.arrival + maxWait > finish);
      if !busy {
        var start: real;
        if call.arrival + maxWait > finish {
          start := call.arrival + maxWait;
        } else {
          // never taken: the same test as `busy` above (utils.py:214-215)
          start := finish;
        }
        after := after[k := Agent(start, start + call.duration)];
        served := true;
      } else {
        k := k + 1;
      }
    }
    if !served {
      after := after + [Agent(call.arrival, call.arrival + call.duration)];
    }
  }

  /** The body of the loop over one period's calls (utils.py:183-231): returns
      the agents created and their number, the period's requirement. */
  method SimulatePeriod(calls: seq<Call>, maxWait: real, rest: real) returns (agents: seq<Agent>, required: nat)
    ensures agents == Simulate(calls, maxWait, rest)
    ensures required == |agents|
  {
    agents := [];
    var c := 0;
    while c < |calls|
      invariant 0 <= c <= |calls|
      invariant agents == Simulate(calls[..c], maxWait, rest)
    {
      agents := ServeCall(agents, calls[c], maxWait, rest);
      assert calls[..c + 1][..c] == calls[..c];
      c := c + 1;
    }
    assert calls[..|calls|] == calls;
    required := |agents|;
  }

  /** `gerar_tabela_nan` (utils.py:168-237) given each period's calls: one
      requirement per period, 0 for a period without calls. */
  method EstimateDemand(callsPerPeriod: seq<seq<Call>>, maxWait: real, rest: real) returns (required: seq<nat>)
    ensures |required| == |callsPerPeriod|
    ensures forall p :: 0 <= p < |callsPerPeriod| ==>
      required[p] == |Simulate(callsPerPeriod[p], maxWait, rest)|
    ensures forall p :: 0 <= p < |callsPerPeriod| ==>
      (required[p] == 0 <==> callsPerPeriod[p] == []) && required[p] <= |callsPerPeriod[p]|
  {
    required := [];
    var p := 0;
    while p < |callsPerPeriod|
      invariant 0 <= p <= |callsPerPeriod|
      invariant |required| == p
      invariant forall q :: 0 <= q < p ==> required[q] == |Simulate(callsPerPeriod[q], maxWait, rest)|
    {
      var _, n := SimulatePeriod(callsPerPeriod[p], maxWait, rest);
      required := required + [n];
      p := p + 1;
    }
  }
}
