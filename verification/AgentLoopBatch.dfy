/** The loops of one tool batch: planning, executing and evaluating it, with the ledger they keep. */
module AgentLoopBatch {
  import opened Common
  import opened AgentTurns
  import opened AgentLoop
  import opened AgentLoopRuns

  // ---- the ledger ----------------------------------------------------------------------------------------------

  function CountOf(m: map<string, nat>, name: string): nat { if name in m then m[name] else 0 }

  ghost function Sum(m: map<string, nat>): nat
    decreases |m|
  {
    if m == map[] then 0
    else
      var name :| name in m;
      m[name] + Sum(m - {name})
  }

  /** The sum does not depend on the order in which names are taken out. */
  lemma {:induction false} SumWithout(m: map<string, nat>, name: string)
    requires name in m
    ensures Sum(m) == m[name] + Sum(m - {name})
    decreases |m|
  {
    var first :| first in m && Sum(m) == m[first] + Sum(m - {first});
    if first != name {
      SumWithout(m - {first}, name);
      SumWithout(m - {name}, first);
      assert m - {first} - {name} == m - {name} - {first};
    }
  }

  lemma SumCounted(m: map<string, nat>, name: string)
    ensures Sum(m[name := CountOf(m, name) + 1]) == Sum(m) + 1
  {
    var m1 := m[name := CountOf(m, name) + 1];
    SumWithout(m1, name);
    assert m1 - {name} == m - {name};
    if name in m {
      SumWithout(m, name);
    } else {
      assert m - {name} == m;
    }
  }

  class BudgetLedger {
    var callsByName: map<string, nat>
    var resultChars: nat

    constructor ()
      ensures callsByName == map[] && resultChars == 0
      ensures Sum(callsByName) == 0
    {
      callsByName := map[];
      resultChars := 0;
    }

    method Total() returns (n: nat)
      ensures n == Sum(callsByName)
    {
      n := 0;
      var rest := callsByName;
      while rest != map[]
        invariant n + Sum(rest) == Sum(callsByName)
        decreases |rest|
      {
        var name :| name in rest;
        SumWithout(rest, name);
        n := n + rest[name];
        rest := rest - {name};
      }
    }

    /** Counts one execution; calls refused for the budget itself cost nothing but their text. */
    method Record(x: Execution)
      modifies this
      ensures callsByName == CountOne(old(callsByName), x)
      ensures resultChars == old(resultChars) + x.chars
    {
      if !x.overLimit {
        callsByName := callsByName[x.tool := if x.tool in callsByName then callsByName[x.tool] + 1 else 1];
      }
      resultChars := resultChars + x.chars;
    }
  }

  lemma UnionOfNew(seen: set<string>, keys: set<string>)
    ensures seen + (keys - seen) == seen + keys
    ensures keys - seen == {} ==> seen == seen + keys
  {
    assert keys - seen == {} ==> forall k | k in keys :: k !in seen ==> k in keys - seen;
  }

  // ---- planning ------------------------------------------------------------------------------------------------

  method NamesSubmission(calls: seq<Call>, name: string) returns (found: bool)
    ensures found <==> Names(calls, name)
  {
    for i := 0 to |calls|
      invariant forall j | 0 <= j < i :: calls[j].name != name
    {
      if calls[i].name == name { return true; }
    }
    return false;
  }

  method PlanToolBatch(p: Policy, calls: seq<Call>, ledger: BudgetLedger) returns (planned: seq<Planned>)
    ensures planned == Plan(p, calls, Sum(ledger.callsByName))
  {
    var separate := false;
    if |calls| > 1 { separate := NamesSubmission(calls, p.submission); }
    if separate {
      return seq(|calls|, i requires 0 <= i < |calls| => Planned(calls[i].id, calls[i].name, Some(SubmissionNotAlone)));
    }
    var completed := ledger.Total();
    var remaining := Remaining(p, completed);
    ghost var all := PlanFrom(p, calls, remaining);
    planned := [];
    for i := 0 to |calls|
      invariant planned + PlanFrom(p, calls[i..], remaining) == all
    {
      var call, fault := calls[i], None;
      if call.form.Unparsed? {
        fault := Some(InvalidArguments);
      } else if call.form.NotObject? || call.name !in p.tools {
        fault := Some(Undeclared);
      } else if call.name !in p.permitted {
        fault := Some(NotAuthorized);
      } else if remaining.Some? && remaining.value <= 0 {
        fault := Some(CallBudgetSpent);
      }
      ghost var rest := PlanFrom(p, calls[i + 1..], Spend(remaining, fault));
      assert calls[i..][1..] == calls[i + 1..];
      var plan := Planned(call.id, call.name, fault);
      assert planned + ([plan] + rest) == (planned + [plan]) + rest;
      planned := planned + [plan];
      if fault.None? && remaining.Some? { remaining := Some(remaining.value - 1); }
    }
  }

  // ---- executing -----------------------------------------------------------------------------------------------

  /** Runs the planned calls one after another; every planned call gets its reply, whatever became of it. */
  method ExecuteToolBatch(p: Policy, planned: seq<Planned>, tools: seq<ToolRun>, messages: seq<Msg>)
    returns (executions: seq<Execution>, history: seq<Msg>)
    ensures executions == Execute(p, planned, tools)
    ensures history == messages + Replies(ExecutionIds(executions))
  {
    var replies: seq<Msg>;
    executions, replies := [], [];
    for i := 0 to |planned|
      invariant executions == Execute(p, planned, tools)[..i]
      invariant |replies| == i && forall j | 0 <= j < i :: replies[j] == Reply(executions[j].id)
    {
      var execution := ExecuteOne(p, planned[i], ToolAt(tools, i));
      executions := executions + [execution];
      replies := replies + [Reply(execution.id)];
    }
    assert replies == Replies(ExecutionIds(executions));
    history := messages + replies;
  }

  // ---- evaluating ----------------------------------------------------------------------------------------------

  /** The ledger's calls by tool after a batch. */
  function CountAll(m: map<string, nat>, xs: seq<Execution>): map<string, nat> {
    if xs == [] then m else CountOne(CountAll(m, xs[..|xs| - 1]), xs[|xs| - 1])
  }

  function CountOne(m: map<string, nat>, x: Execution): map<string, nat> {
    if x.overLimit then m else m[x.tool := CountOf(m, x.tool) + 1]
  }

  /** How many of the executions count against this tool. */
  function CountedFor(xs: seq<Execution>, name: string): nat {
    if xs == [] then 0
    else
      CountedFor(xs[..|xs| - 1], name)
      + if xs[|xs| - 1].tool == name && !xs[|xs| - 1].overLimit then 1 else 0
  }

  /** Each tool is charged its own calls, and the ledger's sum is the total the budget checks look at. */
  lemma {:induction false} LedgerExact(m: map<string, nat>, t: Tally, xs: seq<Execution>, name: string)
    requires Sum(m) == t.counted
    ensures CountOf(CountAll(m, xs), name) == CountOf(m, name) + CountedFor(xs, name)
    ensures Sum(CountAll(m, xs)) == TallyAll(t, xs).counted
  {
    if xs != [] {
      LedgerExact(m, t, xs[..|xs| - 1], name);
      SumCounted(CountAll(m, xs[..|xs| - 1]), xs[|xs| - 1].tool);
    }
  }

  datatype Evaluation = Evaluation(seenCalls: set<int>, seenKeys: set<string>, noProgress: nat, made: bool)

  method EvaluateProgress(executions: seq<Execution>, ledger: BudgetLedger, seenCalls: set<int>,
                          seenKeys: set<string>, noProgress: nat)
    returns (r: Evaluation)
    modifies ledger
    ensures ledger.callsByName == CountAll(old(ledger.callsByName), executions)
    ensures var t := TallyAll(Tally(seenCalls, seenKeys, executions != [], false, old(Sum(ledger.callsByName)),
                                    old(ledger.resultChars)), executions);
            && Sum(ledger.callsByName) == t.counted && ledger.resultChars == t.chars
            && r == Evaluation(t.seenCalls, t.seenKeys, if t.repeated && !t.made then noProgress + 1 else 0, t.made)
  {
    var calls, keys, repeated, made := seenCalls, seenKeys, executions != [], false;
    ghost var start := Tally(seenCalls, seenKeys, repeated, false, Sum(ledger.callsByName), ledger.resultChars);
    assert executions[..0] == [];
    for i := 0 to |executions|
      invariant ledger.callsByName == CountAll(old(ledger.callsByName), executions[..i])
      invariant var t := TallyAll(start, executions[..i]);
                t == Tally(calls, keys, repeated, made, t.counted, ledger.resultChars)
    {
      var x := executions[i];
      TallyStep(start, executions, i);
      assert executions[..i + 1][..i] == executions[..i];
      if x.digest !in calls { repeated := false; }
      calls := calls + {x.digest};
      ledger.Record(x);
      UnionOfNew(keys, x.keys);
      var news := x.keys - keys;
      if news != {} {
        made := true;
        keys := keys + news;
      }
    }
    assert executions[..|executions|] == executions;
    LedgerExact(old(ledger.callsByName), start, executions, "");
    r := Evaluation(calls, keys, if repeated && !made then noProgress + 1 else 0, made);
  }

  /** The first accepted submission of a batch, if any. */
  method FindSubmission(p: Policy, executions: seq<Execution>) returns (found: Option<Execution>)
    ensures found == FirstAccepted(p, executions)
  {
    for i := 0 to |executions|
      invariant FirstAccepted(p, executions[..i]).None?
    {
      assert executions[..i + 1][..i] == executions[..i];
      if Accepts(p, executions[i]) {
        FirstStays(p, executions, i);
        return Some(executions[i]);
      }
    }
    assert executions[..|executions|] == executions;
    return None;
  }

  lemma {:induction false} FirstStays(p: Policy, xs: seq<Execution>, i: nat)
    requires i < |xs| && FirstAccepted(p, xs[..i]).None? && Accepts(p, xs[i])
    ensures FirstAccepted(p, xs) == Some(xs[i])
  {
    if i < |xs| - 1 {
      assert xs[..|xs| - 1][..i] == xs[..i];
      FirstStays(p, xs[..|xs| - 1], i);
    }
  }
}
