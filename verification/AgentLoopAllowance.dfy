/** The number of nodes a run visits, against the graph's allowance. */
module AgentLoopAllowance {
  import opened Common
  import opened AgentTurns
  import opened AgentCompaction
  import opened AgentLoop
  import opened AgentLoopRuns
  import opened AgentLoopTheorems
  import opened AgentLoopSteady
  import opened AgentLoopLongest

  /** The graph's visit allowance; a limit of 0 counts as unset. */
  function RecursionLimit(limit: nat): nat {
    var steps := if limit == 0 then 64 else limit;
    if steps * 8 + 16 > 32 then steps * 8 + 16 else 32
  }

  lemma RecursionLimitWithoutRecovery(p: Policy, request: seq<Msg>, es: seq<Env>)
    requires p.stepLimit.Some?
    ensures var past, limit := Run(p, Initial(request), es).past, p.stepLimit.value;
            3 * past.recovered <= 2 * limit + 14 ==> past.visits <= RecursionLimit(limit)
  {
    VisitsBound(p, request, es);
  }

  ghost predicate AllowanceSuffices(limit: nat) {
    forall p: Policy, request, es | Declares(p) && p.stepLimit == Some(limit) ::
      Run(p, Initial(request), es).past.visits <= RecursionLimit(limit)
  }

  /** The graph's allowance covers every run exactly when the step limit is at most 3. */
  lemma RecursionLimitExact(limit: nat)
    ensures AllowanceSuffices(limit) <==> limit <= 3
  {
    if limit <= 3 {
      forall p: Policy, request, es | Declares(p) && p.stepLimit == Some(limit)
        ensures Run(p, Initial(request), es).past.visits <= RecursionLimit(limit)
      {
        VisitsBound(p, request, es);
      }
    } else {
      LongestRun(limit, true);
      var es :| Longest(limit, true, es);
      assert Run(Worst(limit), Initial(REQUEST), es).past.visits > RecursionLimit(limit);
    }
  }

  ghost predicate AllowanceSufficesSteadily(limit: nat) {
    forall p: Policy, request, es, notes | Declares(p) && p.stepLimit == Some(limit) && Steady(p, request, es, notes) ::
      Run(p, Initial(request), es).past.visits <= RecursionLimit(limit)
  }

  /** With notes that list what was read, and no input between recoveries, exactly when it is at most 14. */
  lemma SteadyRecursionLimitExact(limit: nat)
    ensures AllowanceSufficesSteadily(limit) <==> limit <= 14
  {
    if limit <= 14 {
      forall p: Policy, request, es, notes
        | Declares(p) && p.stepLimit == Some(limit) && Steady(p, request, es, notes)
        ensures Run(p, Initial(request), es).past.visits <= RecursionLimit(limit)
      {
        SteadyVisitsBound(p, request, es, notes);
      }
    } else {
      LongestRun(limit, false);
      var es :| Longest(limit, false, es);
      assert Steady(Worst(limit), REQUEST, es, (steps: nat) => NOTES);
      assert Run(Worst(limit), Initial(REQUEST), es).past.visits > RecursionLimit(limit);
    }
  }
}
