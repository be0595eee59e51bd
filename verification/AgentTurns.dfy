/** The message history of an agent: its tool-call protocol, and the trimming that keeps recent turns whole. */
module AgentTurns {
  import opened Common

  type CallId = string

  /** `parsed` holds when the message has a tool call whose arguments were read; `calls` lists the unread ones too. */
  datatype Msg =
    | System(text: int)
    | Human(text: int)
    | Ai(calls: seq<CallId>, parsed: bool, text: int)
    | Reply(call: CallId)
  {
    predicate Neutral() { System? || Human? }
  }

  /**
   Reads a history left to right. The state is the list of call ids still to be answered: a reply must answer the
   first of them, and an AI message must find it empty. None marks a broken history.
  */
  function Scan(ms: seq<Msg>): Option<seq<CallId>> {
    if ms == [] then Some([]) else ScanOne(Scan(ms[..|ms| - 1]), ms[|ms| - 1])
  }

  function ScanOne(open: Option<seq<CallId>>, m: Msg): Option<seq<CallId>> {
    if open.None? then None
    else
      match m
      case System(_) => open
      case Human(_) => open
      case Ai(calls, _, _) => if open.value == [] then Some(calls) else None
      case Reply(call) => if open.value != [] && open.value[0] == call then Some(open.value[1..]) else None
  }

  /** Every AI message's calls are answered exactly once, in order, before the next AI message. */
  predicate Answered(ms: seq<Msg>) { Scan(ms) == Some([]) }

  lemma ScanAppend(ms: seq<Msg>, m: Msg)
    ensures Scan(ms + [m]) == ScanOne(Scan(ms), m)
  {
    assert (ms + [m])[..|ms|] == ms;
  }

  function Replies(calls: seq<CallId>): seq<Msg> {
    seq(|calls|, i requires 0 <= i < |calls| => Reply(calls[i]))
  }

  lemma RepliesSnoc(calls: seq<CallId>, call: CallId)
    ensures Replies(calls + [call]) == Replies(calls) + [Reply(call)]
  {
  }

  lemma {:induction false} ScanReplies(ms: seq<Msg>, calls: seq<CallId>, n: nat)
    requires Scan(ms) == Some(calls) && n <= |calls|
    ensures Scan(ms + Replies(calls[..n])) == Some(calls[n..])
  {
    if n == 0 {
      assert ms + Replies(calls[..0]) == ms;
    } else {
      var before := ms + Replies(calls[..n - 1]);
      ScanReplies(ms, calls, n - 1);
      ScanAppend(before, Reply(calls[n - 1]));
      RepliesSnoc(calls[..n - 1], calls[n - 1]);
      assert calls[..n] == calls[..n - 1] + [calls[n - 1]];
      assert ms + Replies(calls[..n]) == before + [Reply(calls[n - 1])];
    }
  }

  /** A whole batch of replies, in call order, closes the AI message before it. */
  lemma RepliesClose(ms: seq<Msg>, calls: seq<CallId>)
    requires Scan(ms) == Some(calls)
    ensures Answered(ms + Replies(calls))
  {
    ScanReplies(ms, calls, |calls|);
    assert calls[..|calls|] == calls && calls[|calls|..] == [];
  }

  lemma {:induction false} NeutralKeepsScan(ms: seq<Msg>, notes: seq<Msg>)
    requires forall i | 0 <= i < |notes| :: notes[i].Neutral()
    ensures Scan(ms + notes) == Scan(ms)
  {
    if notes == [] {
      assert ms + notes == ms;
    } else {
      NeutralKeepsScan(ms, notes[..|notes| - 1]);
      assert ms + notes == (ms + notes[..|notes| - 1]) + [notes[|notes| - 1]];
      ScanAppend(ms + notes[..|notes| - 1], notes[|notes| - 1]);
    }
  }

  // ---- retain_recent_turns ---------------------------------------------------------------------------------

  function FirstSystem(ms: seq<Msg>): Option<nat> {
    if ms == [] then None
    else
      var before := FirstSystem(ms[..|ms| - 1]);
      if before.Some? then before else if ms[|ms| - 1].System? then Some(|ms| - 1) else None
  }

  function FirstHuman(ms: seq<Msg>): Option<nat> {
    if ms == [] then None
    else
      var before := FirstHuman(ms[..|ms| - 1]);
      if before.Some? then before else if ms[|ms| - 1].Human? then Some(|ms| - 1) else None
  }

  predicate StartsTurn(m: Msg, toolTurnsOnly: bool) { m.Ai? && (!toolTurnsOnly || m.parsed) }

  /** Positions of the messages that open a turn, ascending. */
  function Starts(ms: seq<Msg>, toolTurnsOnly: bool): seq<nat> {
    if ms == [] then []
    else
      var before := Starts(ms[..|ms| - 1], toolTurnsOnly);
      if StartsTurn(ms[|ms| - 1], toolTurnsOnly) then before + [|ms| - 1] else before
  }

  /** Where the kept turns begin. */
  function KeepFrom(ms: seq<Msg>, keep: nat, toolTurnsOnly: bool): nat
    requires keep >= 1
  {
    var starts := Starts(ms, toolTurnsOnly);
    if |starts| >= keep then starts[|starts| - keep] else if starts != [] then starts[0] else |ms|
  }

  /** The messages from `from` on, without the two anchored positions. */
  function Tail(ms: seq<Msg>, from: nat, skip: set<nat>): seq<Msg> {
    if |ms| <= from then []
    else
      var before := Tail(ms[..|ms| - 1], from, skip);
      if |ms| - 1 in skip then before else before + [ms[|ms| - 1]]
  }

  function At(o: Option<nat>): set<nat> { if o.Some? then {o.value} else {} }

  lemma {:induction false} FirstsExact(ms: seq<Msg>)
    ensures FirstSystem(ms).Some? ==> FirstSystem(ms).value < |ms| && ms[FirstSystem(ms).value].System?
    ensures FirstHuman(ms).Some? ==> FirstHuman(ms).value < |ms| && ms[FirstHuman(ms).value].Human?
    ensures FirstSystem(ms).None? <==> forall i | 0 <= i < |ms| :: !ms[i].System?
    ensures FirstHuman(ms).None? <==> forall i | 0 <= i < |ms| :: !ms[i].Human?
  {
    if ms != [] { FirstsExact(ms[..|ms| - 1]); }
  }

  function Anchored(ms: seq<Msg>, o: Option<nat>): seq<Msg>
    requires o.Some? ==> o.value < |ms|
  {
    if o.Some? then [ms[o.value]] else []
  }

  /** The first system message, then the first human message. */
  function Anchors(ms: seq<Msg>): seq<Msg> {
    FirstsExact(ms);
    Anchored(ms, FirstSystem(ms)) + Anchored(ms, FirstHuman(ms))
  }

  function Anchor(ms: seq<Msg>): set<nat> { At(FirstSystem(ms)) + At(FirstHuman(ms)) }

  /** retain_recent_turns; None where the code raises. */
  function Retain(ms: seq<Msg>, keep: int, notes: seq<Msg>, toolTurnsOnly: bool): Option<seq<Msg>> {
    if keep < 1 then None
    else Some(Anchors(ms) + notes + Tail(ms, KeepFrom(ms, keep, toolTurnsOnly), Anchor(ms)))
  }

  lemma AnchorsNeutral(ms: seq<Msg>)
    ensures forall i | 0 <= i < |Anchors(ms)| :: Anchors(ms)[i].Neutral() && Anchors(ms)[i] in ms
    ensures forall i | i in Anchor(ms) :: i < |ms| && ms[i].Neutral()
  {
    FirstsExact(ms);
  }

  // ---- trimming keeps the protocol -------------------------------------------------------------------------

  /** The history without its system and human messages. */
  function Turns(ms: seq<Msg>): seq<Msg> {
    if ms == [] then []
    else
      var before := Turns(ms[..|ms| - 1]);
      if ms[|ms| - 1].Neutral() then before else before + [ms[|ms| - 1]]
  }

  lemma {:induction false} ScanTurns(ms: seq<Msg>)
    ensures Scan(Turns(ms)) == Scan(ms)
  {
    if ms != [] {
      ScanTurns(ms[..|ms| - 1]);
      ScanAppend(Turns(ms[..|ms| - 1]), ms[|ms| - 1]);
    }
  }

  lemma {:induction false} TurnsConcat(s: seq<Msg>, t: seq<Msg>)
    ensures Turns(s + t) == Turns(s) + Turns(t)
  {
    if t == [] {
      assert s + t == s;
    } else {
      assert (s + t)[..|s + t| - 1] == s + t[..|t| - 1];
      TurnsConcat(s, t[..|t| - 1]);
    }
  }

  lemma {:induction false} TurnsOfNeutral(ms: seq<Msg>)
    requires forall i | 0 <= i < |ms| :: ms[i].Neutral()
    ensures Turns(ms) == []
  {
    if ms != [] { TurnsOfNeutral(ms[..|ms| - 1]); }
  }

  lemma {:induction false} TurnsOfTail(ms: seq<Msg>, from: nat, skip: set<nat>)
    requires from <= |ms| && forall i | i in skip && i < |ms| :: ms[i].Neutral()
    ensures Turns(Tail(ms, from, skip)) == Turns(ms[from..])
  {
    if from < |ms| {
      var n := |ms| - 1;
      forall i | i in skip && i < n ensures ms[..n][i].Neutral() { assert ms[i].Neutral(); }
      TurnsOfTail(ms[..n], from, skip);
      assert ms[from..] == ms[..n][from..] + [ms[n]];
      TurnsConcat(ms[..n][from..], [ms[n]]);
      TurnsConcat(Tail(ms[..n], from, skip), [ms[n]]);
    }
  }

  /** What is left of the turns is exactly what follows the kept beginning. */
  lemma RetainedTurns(ms: seq<Msg>, keep: int, notes: seq<Msg>, toolTurnsOnly: bool)
    requires keep >= 1 && forall i | 0 <= i < |notes| :: notes[i].Neutral()
    ensures KeepFrom(ms, keep, toolTurnsOnly) <= |ms|
    ensures Turns(Retain(ms, keep, notes, toolTurnsOnly).value) == Turns(ms[KeepFrom(ms, keep, toolTurnsOnly)..])
  {
    AnchorsNeutral(ms);
    StartsExact(ms, toolTurnsOnly);
    var from := KeepFrom(ms, keep, toolTurnsOnly);
    TurnsConcat(Anchors(ms) + notes, Tail(ms, from, Anchor(ms)));
    TurnsOfNeutral(Anchors(ms) + notes);
    TurnsOfTail(ms, from, Anchor(ms));
  }

  lemma {:induction false} StartsExact(ms: seq<Msg>, toolTurnsOnly: bool)
    ensures forall k | 0 <= k < |Starts(ms, toolTurnsOnly)| ::
              Starts(ms, toolTurnsOnly)[k] < |ms| && StartsTurn(ms[Starts(ms, toolTurnsOnly)[k]], toolTurnsOnly)
    ensures forall k, l | 0 <= k < l < |Starts(ms, toolTurnsOnly)| ::
              Starts(ms, toolTurnsOnly)[k] < Starts(ms, toolTurnsOnly)[l]
    ensures forall k | 0 <= k < |Starts(ms, toolTurnsOnly)| ::
              Starts(ms, toolTurnsOnly)[k] + |Starts(ms, toolTurnsOnly)| - k <= |ms|
  {
    if ms != [] { StartsExact(ms[..|ms| - 1], toolTurnsOnly); }
  }

  lemma {:induction false} ScanFromTurn(ms: seq<Msg>, from: nat)
    requires from < |ms| && ms[from].Ai? && Scan(ms).Some?
    ensures Scan(ms[from..]) == Scan(ms)
  {
    var n := |ms| - 1;
    if from == n {
      assert ms[from..] == [ms[n]] && [ms[n]][..0] == [];
    } else {
      ScanFromTurn(ms[..n], from);
      assert ms[from..] == ms[..n][from..] + [ms[n]];
      ScanAppend(ms[..n][from..], ms[n]);
    }
  }

  /** Trimming a well-formed history leaves a well-formed history. */
  lemma RetainKeepsProtocol(ms: seq<Msg>, keep: int, notes: seq<Msg>, toolTurnsOnly: bool)
    requires keep >= 1 && Answered(ms) && forall i | 0 <= i < |notes| :: notes[i].Neutral()
    ensures Answered(Retain(ms, keep, notes, toolTurnsOnly).value)
  {
    var r, from := Retain(ms, keep, notes, toolTurnsOnly).value, KeepFrom(ms, keep, toolTurnsOnly);
    RetainedTurns(ms, keep, notes, toolTurnsOnly);
    ScanTurns(r);
    ScanTurns(ms[from..]);
    StartsExact(ms, toolTurnsOnly);
    if from < |ms| { ScanFromTurn(ms, from); }
  }

  // ---- how many turns are kept, and trimming twice ---------------------------------------------------------

  lemma {:induction false} StartsOfTurns(ms: seq<Msg>, toolTurnsOnly: bool)
    ensures |Starts(Turns(ms), toolTurnsOnly)| == |Starts(ms, toolTurnsOnly)|
  {
    if ms != [] {
      StartsOfTurns(ms[..|ms| - 1], toolTurnsOnly);
      var before := Turns(ms[..|ms| - 1]);
      assert (before + [ms[|ms| - 1]])[..|before|] == before;
    }
  }

  lemma {:induction false} StartsFrom(ms: seq<Msg>, k: nat, toolTurnsOnly: bool)
    requires k < |Starts(ms, toolTurnsOnly)|
    ensures Starts(ms, toolTurnsOnly)[k] < |ms|
    ensures |Starts(ms[Starts(ms, toolTurnsOnly)[k]..], toolTurnsOnly)| == |Starts(ms, toolTurnsOnly)| - k
  {
    StartsExact(ms, toolTurnsOnly);
    var n, starts := |ms| - 1, Starts(ms, toolTurnsOnly);
    var from := starts[k];
    if from == n {
      assert ms[n..] == [ms[n]] && [ms[n]][..0] == [];
    } else {
      StartsFrom(ms[..n], k, toolTurnsOnly);
      assert ms[from..][..n - from] == ms[..n][from..];
    }
  }

  lemma KeptStarts(ms: seq<Msg>, keep: int, toolTurnsOnly: bool)
    requires keep >= 1
    ensures var from, total := KeepFrom(ms, keep, toolTurnsOnly), |Starts(ms, toolTurnsOnly)|;
            && from <= |ms| && (from < |ms| ==> StartsTurn(ms[from], toolTurnsOnly))
            && |Starts(ms[from..], toolTurnsOnly)| == if total < keep then total else keep
  {
    StartsExact(ms, toolTurnsOnly);
    var starts := Starts(ms, toolTurnsOnly);
    if |starts| >= keep {
      StartsFrom(ms, |starts| - keep, toolTurnsOnly);
    } else if starts != [] {
      StartsFrom(ms, 0, toolTurnsOnly);
    }
  }

  /** Trimming keeps exactly the last `keep` turns, or all of them when there are fewer. */
  lemma RetainCountsTurns(ms: seq<Msg>, keep: int, notes: seq<Msg>, toolTurnsOnly: bool)
    requires keep >= 1 && forall i | 0 <= i < |notes| :: notes[i].Neutral()
    ensures var total := |Starts(ms, toolTurnsOnly)|;
            |Starts(Retain(ms, keep, notes, toolTurnsOnly).value, toolTurnsOnly)|
            == if total < keep then total else keep
  {
    var r := Retain(ms, keep, notes, toolTurnsOnly).value;
    KeptStarts(ms, keep, toolTurnsOnly);
    RetainedTurns(ms, keep, notes, toolTurnsOnly);
    StartsOfTurns(r, toolTurnsOnly);
    StartsOfTurns(ms[KeepFrom(ms, keep, toolTurnsOnly)..], toolTurnsOnly);
  }

  lemma {:induction false} TailMembers(ms: seq<Msg>, from: nat, skip: set<nat>)
    ensures forall m | m in Tail(ms, from, skip) :: m in ms
    ensures from < |ms| && from !in skip ==> Tail(ms, from, skip) != [] && Tail(ms, from, skip)[0] == ms[from]
  {
    if from < |ms| { TailMembers(ms[..|ms| - 1], from, skip); }
  }

  lemma {:induction false} TailOfUnskipped(ms: seq<Msg>, from: nat, skip: set<nat>)
    requires from <= |ms| && forall i | i in skip :: i < from
    ensures Tail(ms, from, skip) == ms[from..]
  {
    if from < |ms| {
      TailOfUnskipped(ms[..|ms| - 1], from, skip);
      assert ms[from..] == ms[..|ms| - 1][from..] + [ms[|ms| - 1]];
    }
  }

  lemma {:induction false} FirstsAt(ms: seq<Msg>, i: nat)
    requires i < |ms|
    ensures ms[i].System? && (forall j | 0 <= j < i :: !ms[j].System?) ==> FirstSystem(ms) == Some(i)
    ensures ms[i].Human? && (forall j | 0 <= j < i :: !ms[j].Human?) ==> FirstHuman(ms) == Some(i)
  {
    FirstsExact(ms[..|ms| - 1]);
    if i < |ms| - 1 { FirstsAt(ms[..|ms| - 1], i); }
  }

  lemma {:induction false} NoStarts(ms: seq<Msg>, toolTurnsOnly: bool)
    requires forall j | 0 <= j < |ms| :: !StartsTurn(ms[j], toolTurnsOnly)
    ensures Starts(ms, toolTurnsOnly) == []
  {
    if ms != [] { NoStarts(ms[..|ms| - 1], toolTurnsOnly); }
  }

  lemma {:induction false} FirstStart(ms: seq<Msg>, i: nat, toolTurnsOnly: bool)
    requires i < |ms| && StartsTurn(ms[i], toolTurnsOnly)
    requires forall j | 0 <= j < i :: !StartsTurn(ms[j], toolTurnsOnly)
    ensures Starts(ms, toolTurnsOnly) != [] && Starts(ms, toolTurnsOnly)[0] == i
  {
    StartsExact(ms[..|ms| - 1], toolTurnsOnly);
    if i < |ms| - 1 {
      FirstStart(ms[..|ms| - 1], i, toolTurnsOnly);
    } else {
      NoStarts(ms[..i], toolTurnsOnly);
    }
  }

  /** The anchors of a trimmed history stand in front of it. */
  lemma RetainedAnchors(ms: seq<Msg>, tail: seq<Msg>)
    requires forall m | m in tail :: m in ms
    ensures Anchors(Anchors(ms) + tail) == Anchors(ms)
    ensures forall i | i in Anchor(Anchors(ms) + tail) :: i < |Anchors(ms)|
  {
    FirstsExact(ms);
    AnchorsNeutral(ms);
    var r, s, h := Anchors(ms) + tail, FirstSystem(ms), FirstHuman(ms);
    FirstsExact(r);
    forall i | 0 <= i < |r| ensures r[i] in ms { assert r[i] in r; }
    if s.Some? { FirstsAt(r, 0); }
    if h.Some? { FirstsAt(r, if s.Some? then 1 else 0); }
  }

  lemma KeepFromFront(front: seq<Msg>, tail: seq<Msg>, keep: int, toolTurnsOnly: bool)
    requires keep >= 1 && |Starts(front + tail, toolTurnsOnly)| <= keep
    requires forall i | 0 <= i < |front| :: front[i].Neutral()
    requires tail == [] || StartsTurn(tail[0], toolTurnsOnly)
    ensures KeepFrom(front + tail, keep, toolTurnsOnly) == |front|
  {
    if tail == [] {
      assert front + tail == front;
      NoStarts(front, toolTurnsOnly);
    } else {
      FirstStart(front + tail, |front|, toolTurnsOnly);
    }
  }

  lemma TailOpens(ms: seq<Msg>, keep: int, toolTurnsOnly: bool)
    requires keep >= 1
    ensures var t := Tail(ms, KeepFrom(ms, keep, toolTurnsOnly), Anchor(ms));
            && (t == [] || StartsTurn(t[0], toolTurnsOnly))
            && (forall m | m in t :: m in ms)
  {
    AnchorsNeutral(ms);
    KeptStarts(ms, keep, toolTurnsOnly);
    TailMembers(ms, KeepFrom(ms, keep, toolTurnsOnly), Anchor(ms));
  }

  /** Trimming again, with no new notes, changes nothing. */
  lemma RetainIdempotent(ms: seq<Msg>, keep: int, toolTurnsOnly: bool)
    requires keep >= 1
    ensures var r := Retain(ms, keep, [], toolTurnsOnly).value;
            Retain(r, keep, [], toolTurnsOnly) == Some(r)
  {
    var front, tail := Anchors(ms), Tail(ms, KeepFrom(ms, keep, toolTurnsOnly), Anchor(ms));
    var r := front + tail;
    assert front + [] + tail == r;
    AnchorsNeutral(ms);
    TailOpens(ms, keep, toolTurnsOnly);
    RetainCountsTurns(ms, keep, [], toolTurnsOnly);
    KeepFromFront(front, tail, keep, toolTurnsOnly);
    RetainedAnchors(ms, tail);
    TailOfUnskipped(r, |front|, Anchor(r));
    assert front + [] + r[|front|..] == r;
  }
}
