/** What the repository's compactors and input refreshers do to a history, and what a second trim can still change. */
module AgentCompaction {
  import opened Common
  import opened AgentTurns

  /**
   A compactor keeps `keep + 1` recent turns and writes its notes in front of them. Some also write the task anew, and
   one appends a note behind the turns.
  */
  datatype Compaction = Compaction(keep: nat, notes: seq<int>, toolTurnsOnly: bool, task: Option<int>,
                                   trailing: seq<int>)

  function Humans(texts: seq<int>): seq<Msg> { seq(|texts|, i requires 0 <= i < |texts| => Human(texts[i])) }

  /** The history with the text of its first human message replaced. */
  function Rewritten(ms: seq<Msg>, text: Option<int>): seq<Msg> {
    FirstsExact(ms);
    if text.Some? && FirstHuman(ms).Some? then ms[FirstHuman(ms).value := Human(text.value)] else ms
  }

  function Kept(ms: seq<Msg>, c: Compaction): seq<Msg> {
    Retain(ms, c.keep + 1, Humans(c.notes), c.toolTurnsOnly).value
  }

  function Compact(ms: seq<Msg>, c: Compaction): seq<Msg> { Rewritten(Kept(ms, c), c.task) + Humans(c.trailing) }

  /** New inputs are appended as human messages, or written over the text of the first one. */
  function Refreshed(ms: seq<Msg>, text: Option<int>, added: seq<int>): seq<Msg> { Rewritten(ms, text) + Humans(added) }

  // ---- the tool-call protocol ----------------------------------------------------------------------------------

  lemma {:induction false} ReplaceKeepsTurns(ms: seq<Msg>, i: nat, text: int)
    requires i < |ms| && ms[i].Human?
    ensures Turns(ms[i := Human(text)]) == Turns(ms)
  {
    var n := |ms| - 1;
    if i < n {
      ReplaceKeepsTurns(ms[..n], i, text);
      assert ms[i := Human(text)][..n] == ms[..n][i := Human(text)];
    } else {
      assert ms[i := Human(text)][..n] == ms[..n];
    }
  }

  lemma RewriteKeepsTurns(ms: seq<Msg>, text: Option<int>)
    ensures Turns(Rewritten(ms, text)) == Turns(ms)
  {
    FirstsExact(ms);
    if text.Some? && FirstHuman(ms).Some? { ReplaceKeepsTurns(ms, FirstHuman(ms).value, text.value); }
  }

  lemma RefreshKeepsProtocol(ms: seq<Msg>, text: Option<int>, added: seq<int>)
    requires Answered(ms)
    ensures Answered(Refreshed(ms, text, added))
  {
    RewriteKeepsTurns(ms, text);
    ScanTurns(ms);
    ScanTurns(Rewritten(ms, text));
    NeutralKeepsScan(Rewritten(ms, text), Humans(added));
  }

  lemma CompactKeepsProtocol(ms: seq<Msg>, c: Compaction)
    requires Answered(ms)
    ensures Answered(Compact(ms, c))
  {
    RetainKeepsProtocol(ms, c.keep + 1, Humans(c.notes), c.toolTurnsOnly);
    RefreshKeepsProtocol(Kept(ms, c), c.task, c.trailing);
  }

  // ---- trimming again with the same notes ------------------------------------------------------------------------

  /** The history begins with its first system message, if it has one, and its first human message. */
  predicate Headed(ms: seq<Msg>) {
    && |ms| >= 1
    && if ms[0].System? then |ms| >= 2 && ms[1].Human?
       else ms[0].Human? && forall i | 0 <= i < |ms| :: !ms[i].System?
  }

  function Head(ms: seq<Msg>): nat
    requires |ms| >= 1
  {
    if ms[0].System? then 2 else 1
  }

  lemma HeadedFirsts(ms: seq<Msg>)
    requires Headed(ms)
    ensures FirstSystem(ms) == if ms[0].System? then Some(0) else None
    ensures FirstHuman(ms) == Some(Head(ms) - 1)
  {
    FirstsExact(ms);
    FirstsAt(ms, Head(ms) - 1);
    if ms[0].System? { FirstsAt(ms, 0); }
  }

  lemma HeadedAnchors(ms: seq<Msg>)
    requires Headed(ms)
    ensures Anchors(ms) == ms[..Head(ms)] && forall i | i in Anchor(ms) :: i < Head(ms)
  {
    HeadedFirsts(ms);
  }

  /** After the head and the notes come at most `keep + 1` whole turns. */
  predicate Shaped(ms: seq<Msg>, c: Compaction) {
    && Headed(ms)
    && var front := Head(ms) + |c.notes|;
       && front <= |ms| && ms[Head(ms)..front] == Humans(c.notes)
       && (front < |ms| ==> StartsTurn(ms[front], c.toolTurnsOnly))
       && |Starts(ms, c.toolTurnsOnly)| <= c.keep + 1
  }

  /** Trimmed already, with these notes and this task. */
  predicate Trimmed(ms: seq<Msg>, c: Compaction) {
    Shaped(ms, c) && c.trailing == [] && (c.task.Some? ==> ms[Head(ms) - 1] == Human(c.task.value))
  }

  lemma FrontIsNeutral(ms: seq<Msg>, c: Compaction)
    requires Shaped(ms, c)
    ensures forall i | 0 <= i < Head(ms) + |c.notes| :: ms[i].Neutral()
  {
    forall i | Head(ms) <= i < Head(ms) + |c.notes| ensures ms[i].Neutral() {
      assert ms[i] == ms[Head(ms)..Head(ms) + |c.notes|][i - Head(ms)];
    }
  }

  lemma ShapedKeepFrom(ms: seq<Msg>, c: Compaction)
    requires Shaped(ms, c)
    ensures KeepFrom(ms, c.keep + 1, c.toolTurnsOnly) == Head(ms) + |c.notes|
  {
    var front := Head(ms) + |c.notes|;
    FrontIsNeutral(ms, c);
    assert ms == ms[..front] + ms[front..];
    KeepFromFront(ms[..front], ms[front..], c.keep + 1, c.toolTurnsOnly);
  }

  lemma HeadedTail(ms: seq<Msg>, from: nat)
    requires Headed(ms) && Head(ms) <= from <= |ms|
    ensures Tail(ms, from, Anchor(ms)) == ms[from..]
  {
    HeadedAnchors(ms);
    TailOfUnskipped(ms, from, Anchor(ms));
  }

  lemma Rejoined(ms: seq<Msg>, head: nat, front: nat)
    requires head <= front <= |ms|
    ensures ms[..head] + ms[head..front] + ms[front..] == ms
  {
  }

  lemma ShapedIsKept(ms: seq<Msg>, c: Compaction)
    requires Shaped(ms, c)
    ensures Kept(ms, c) == ms
  {
    HeadedAnchors(ms);
    ShapedKeepFrom(ms, c);
    HeadedTail(ms, Head(ms) + |c.notes|);
    Rejoined(ms, Head(ms), Head(ms) + |c.notes|);
  }

  lemma HeadedRewritten(ms: seq<Msg>, text: Option<int>)
    requires Headed(ms)
    ensures Rewritten(ms, text) == if text.Some? then ms[Head(ms) - 1 := Human(text.value)] else ms
  {
    HeadedFirsts(ms);
  }

  lemma NothingBehind(ms: seq<Msg>)
    ensures ms + Humans([]) == ms
  {
  }

  lemma KeptIsCompact(ms: seq<Msg>, r: seq<Msg>, c: Compaction)
    requires Kept(ms, c) == r && Trimmed(r, c)
    ensures Compact(ms, c) == r
  {
    HeadedRewritten(r, c.task);
    NothingBehind(r);
  }

  lemma TrimmedIsFixed(ms: seq<Msg>, c: Compaction)
    requires Trimmed(ms, c)
    ensures Compact(ms, c) == ms
  {
    ShapedIsKept(ms, c);
    KeptIsCompact(ms, ms, c);
  }

  lemma ReplaceKeepsShape(ms: seq<Msg>, text: int, c: Compaction)
    requires Shaped(ms, c)
    ensures var r := ms[Head(ms) - 1 := Human(text)]; Shaped(r, c) && Head(r) == Head(ms)
  {
    var r, front := ms[Head(ms) - 1 := Human(text)], Head(ms) + |c.notes|;
    ReplaceKeepsTurns(ms, Head(ms) - 1, text);
    StartsOfTurns(ms, c.toolTurnsOnly);
    StartsOfTurns(r, c.toolTurnsOnly);
    assert r[Head(ms)..front] == ms[Head(ms)..front];
  }

  lemma RewriteTrims(ms: seq<Msg>, c: Compaction)
    requires Shaped(ms, c) && c.trailing == []
    ensures Trimmed(Rewritten(ms, c.task), c)
  {
    HeadedRewritten(ms, c.task);
    if c.task.Some? { ReplaceKeepsShape(ms, c.task.value, c); }
  }

  lemma HeadedByAnchors(ms: seq<Msg>, notes: seq<int>, tail: seq<Msg>)
    requires FirstHuman(ms).Some? && forall i | 0 <= i < |tail| :: tail[i] in ms
    ensures var r := Anchors(ms) + Humans(notes) + tail; Headed(r) && Head(r) == |Anchors(ms)|
  {
    var r := Anchors(ms) + Humans(notes) + tail;
    FirstsExact(ms);
    if FirstSystem(ms).None? {
      forall i | 0 <= i < |r| ensures !r[i].System? {
        if i >= |Anchors(ms)| + |notes| { assert r[i] == tail[i - |Anchors(ms)| - |notes|]; }
      }
    }
  }

  lemma JoinedIsShaped(front: seq<Msg>, tail: seq<Msg>, c: Compaction)
    requires var r := front + Humans(c.notes) + tail;
             Headed(r) && Head(r) == |front| && |Starts(r, c.toolTurnsOnly)| <= c.keep + 1
    requires tail == [] || StartsTurn(tail[0], c.toolTurnsOnly)
    ensures Shaped(front + Humans(c.notes) + tail, c)
  {
    var r := front + Humans(c.notes) + tail;
    assert r[|front|..|front| + |c.notes|] == Humans(c.notes);
  }

  lemma KeptParts(ms: seq<Msg>, c: Compaction) returns (tail: seq<Msg>)
    ensures Kept(ms, c) == Anchors(ms) + Humans(c.notes) + tail
    ensures tail == [] || StartsTurn(tail[0], c.toolTurnsOnly)
    ensures forall i | 0 <= i < |tail| :: tail[i] in ms
  {
    tail := Tail(ms, KeepFrom(ms, c.keep + 1, c.toolTurnsOnly), Anchor(ms));
    TailOpens(ms, c.keep + 1, c.toolTurnsOnly);
  }

  lemma KeptIsShaped(ms: seq<Msg>, c: Compaction)
    requires FirstHuman(ms).Some?
    ensures Shaped(Kept(ms, c), c)
  {
    var tail := KeptParts(ms, c);
    RetainCountsTurns(ms, c.keep + 1, Humans(c.notes), c.toolTurnsOnly);
    HeadedByAnchors(ms, c.notes, tail);
    JoinedIsShaped(Anchors(ms), tail, c);
  }

  /** Every trim of a history that has a task leaves a trimmed one. */
  lemma CompactTrims(ms: seq<Msg>, c: Compaction)
    requires FirstHuman(ms).Some? && c.trailing == []
    ensures Trimmed(Compact(ms, c), c)
  {
    KeptIsShaped(ms, c);
    RewriteTrims(Kept(ms, c), c);
    NothingBehind(Rewritten(Kept(ms, c), c.task));
  }

  /** Trimming again with the same notes changes nothing. */
  lemma CompactIdempotent(ms: seq<Msg>, c: Compaction)
    requires FirstHuman(ms).Some? && c.trailing == []
    ensures Compact(Compact(ms, c), c) == Compact(ms, c)
  {
    CompactTrims(ms, c);
    TrimmedIsFixed(Compact(ms, c), c);
  }

  /** Some turn is left. */
  predicate KeepsTurn(ms: seq<Msg>, c: Compaction) { Starts(ms, c.toolTurnsOnly) != [] }

  lemma TurnIsKept(ms: seq<Msg>, c: Compaction)
    requires Trimmed(ms, c)
    ensures KeepsTurn(ms, c) <==> |ms| > Head(ms) + |c.notes|
  {
    var front := Head(ms) + |c.notes|;
    FrontIsNeutral(ms, c);
    if |ms| > front {
      FirstStart(ms, front, c.toolTurnsOnly);
    } else {
      NoStarts(ms, c.toolTurnsOnly);
    }
  }

  lemma StartsWithHumans(ms: seq<Msg>, added: seq<int>, toolTurnsOnly: bool)
    ensures |Starts(ms + Humans(added), toolTurnsOnly)| == |Starts(ms, toolTurnsOnly)|
  {
    TurnsConcat(ms, Humans(added));
    TurnsOfNeutral(Humans(added));
    assert Turns(ms) + [] == Turns(ms);
    StartsOfTurns(ms, toolTurnsOnly);
    StartsOfTurns(ms + Humans(added), toolTurnsOnly);
  }

  lemma ArrivalsKeepTrimmed(ms: seq<Msg>, added: seq<int>, c: Compaction)
    requires Trimmed(ms, c) && (added == [] || KeepsTurn(ms, c))
    ensures Trimmed(ms + Humans(added), c)
  {
    var r, front := ms + Humans(added), Head(ms) + |c.notes|;
    TurnIsKept(ms, c);
    StartsWithHumans(ms, added, c.toolTurnsOnly);
    assert Head(r) == Head(ms) && r[Head(ms)..front] == ms[Head(ms)..front];
  }

  lemma RetainWithoutTurns(ms: seq<Msg>, c: Compaction)
    requires Headed(ms) && !KeepsTurn(ms, c)
    ensures Kept(ms, c) == ms[..Head(ms)] + Humans(c.notes)
  {
    HeadedAnchors(ms);
    assert Tail(ms, |ms|, Anchor(ms)) == [];
    assert ms[..Head(ms)] + Humans(c.notes) + [] == ms[..Head(ms)] + Humans(c.notes);
  }

  lemma HeadedWithHumans(ms: seq<Msg>, added: seq<int>)
    requires Headed(ms)
    ensures var r := ms + Humans(added); Headed(r) && Head(r) == Head(ms) <= |ms| && r[..Head(r)] == ms[..Head(ms)]
  {
  }

  lemma ArrivalsDropped(ms: seq<Msg>, added: seq<int>, c: Compaction)
    requires Trimmed(ms, c) && !KeepsTurn(ms, c)
    ensures Compact(ms + Humans(added), c) == ms
  {
    TurnIsKept(ms, c);
    StartsWithHumans(ms, added, c.toolTurnsOnly);
    HeadedWithHumans(ms, added);
    RetainWithoutTurns(ms + Humans(added), c);
    assert ms[..Head(ms)] + Humans(c.notes) == ms;
    KeptIsCompact(ms + Humans(added), ms, c);
  }

  /**
   When inputs arrive after a trim, the next trim with the same notes changes the history exactly when no turn is
   kept; it then drops those inputs.
  */
  lemma SecondTrimExact(ms: seq<Msg>, added: seq<int>, c: Compaction)
    requires FirstHuman(ms).Some? && c.trailing == []
    ensures var r := Compact(ms, c);
            && (Compact(r + Humans(added), c) == r + Humans(added) <==> added == [] || KeepsTurn(r, c))
            && (!KeepsTurn(r, c) ==> Compact(r + Humans(added), c) == r)
  {
    var r := Compact(ms, c);
    CompactTrims(ms, c);
    if added == [] || KeepsTurn(r, c) {
      ArrivalsKeepTrimmed(r, added, c);
      TrimmedIsFixed(r + Humans(added), c);
    }
    if !KeepsTurn(r, c) { ArrivalsDropped(r, added, c); }
  }

  lemma TrailingApart(ms: seq<Msg>, c: Compaction)
    ensures Compact(ms, c) == Compact(ms, c.(trailing := [])) + Humans(c.trailing)
  {
    NothingBehind(Rewritten(Kept(ms, c), c.task));
  }

  /** A note written behind the turns is not replaced by the next trim, once a turn is kept: the notes pile up. */
  lemma TrailingNotesPileUp(ms: seq<Msg>, c: Compaction)
    requires FirstHuman(ms).Some? && c.trailing != []
    ensures var r := Compact(ms, c);
            if KeepsTurn(r, c) then Compact(r, c) == r + Humans(c.trailing) else Compact(r, c) == r
  {
    var d := c.(trailing := []);
    var r := Compact(ms, d);
    CompactTrims(ms, d);
    TrailingApart(ms, c);
    TrailingApart(r + Humans(c.trailing), c);
    StartsWithHumans(r, c.trailing, c.toolTurnsOnly);
    if KeepsTurn(r, d) {
      ArrivalsKeepTrimmed(r, c.trailing, d);
      TrimmedIsFixed(r + Humans(c.trailing), d);
    } else {
      ArrivalsDropped(r, c.trailing, d);
    }
  }
}
