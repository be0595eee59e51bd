/**
 The bisection against the plain way: unmask one unit after another and keep what the provider accepts. With budget
 enough and a steady, monotone provider both end on the same mask.
*/
module MaskElimination {
  import opened Common
  import opened MaskedMessages
  import opened MaskSearch
  import opened MaskRecovery
  import StableSort

  /** Tries to unmask each reference in turn. */
  function OneByOne(refs: seq<string>, m: Mask, accepts: Oracle): Mask {
    if refs == [] then m
    else
      var smaller := Unref(m, {refs[0]});
      OneByOne(refs[1..], if accepts(0, smaller) then smaller else m, accepts)
  }

  /** Then each free text. */
  function TextByText(raw: seq<nat>, m: Mask, accepts: Oracle): Mask {
    if raw == [] then m
    else
      var smaller := Unraw(m, raw[0]);
      TextByText(raw[1..], if accepts(0, smaller) then smaller else m, accepts)
  }

  /** The groups of the stack in turn, the top first. */
  function StackOneByOne(pending: seq<seq<string>>, m: Mask, accepts: Oracle): Mask {
    if pending == [] then m
    else StackOneByOne(pending[..|pending| - 1], OneByOne(pending[|pending| - 1], m, accepts), accepts)
  }

  lemma {:induction false} OneByOneConcat(a: seq<string>, b: seq<string>, m: Mask, accepts: Oracle)
    ensures OneByOne(a + b, m, accepts) == OneByOne(b, OneByOne(a, m, accepts), accepts)
  {
    if a == [] {
      assert a + b == b;
    } else {
      assert (a + b)[1..] == a[1..] + b;
      var smaller := Unref(m, {a[0]});
      OneByOneConcat(a[1..], b, if accepts(0, smaller) then smaller else m, accepts);
    }
  }

  /** What can be unmasked at once can be unmasked one by one. */
  lemma {:induction false} AtOnce(group: seq<string>, m: Mask, accepts: Oracle)
    requires Monotone(accepts) && accepts(0, Unref(m, ToSet(group)))
    ensures OneByOne(group, m, accepts) == Unref(m, ToSet(group))
  {
    if group == [] {
      assert Unref(m, ToSet(group)) == m;
    } else {
      var smaller := Unref(m, {group[0]});
      assert group == [group[0]] + group[1..];
      assert Within(Unref(m, ToSet(group)), smaller);
      assert Unref(smaller, ToSet(group[1..])) == Unref(m, ToSet(group));
      AtOnce(group[1..], smaller, accepts);
    }
  }

  lemma StackPush(rest: seq<seq<string>>, group: seq<string>, m: Mask, accepts: Oracle)
    ensures StackOneByOne(rest + [group], m, accepts) == StackOneByOne(rest, OneByOne(group, m, accepts), accepts)
  {
    assert (rest + [group])[..|rest|] == rest;
  }

  lemma SingleStep(group: seq<string>, m: Mask, accepts: Oracle)
    requires |group| == 1
    ensures ToSet(group) == {group[0]}
    ensures OneByOne(group, m, accepts) == if accepts(0, Unref(m, ToSet(group))) then Unref(m, ToSet(group)) else m
  {
    assert group[1..] == [];
  }

  /** One turn of the bisection leaves the same work to do. */
  lemma NarrowKeepsWork(h: Hunt, max: nat, accepts: Oracle)
    requires Steady(accepts) && Monotone(accepts) && h.pending != [] && OnTrack(h, max, accepts)
    ensures var h' := Narrow(h, accepts);
            StackOneByOne(h'.pending, h'.mask, accepts) == StackOneByOne(h.pending, h.mask, accepts)
  {
    var rest, group, m := h.Rest(), h.Top(), h.mask;
    assert h.pending == rest + [group];
    StackPush(rest, group, m, accepts);
    if |group| == 1 {
      SingleStep(group, m, accepts);
    } else if |group| > 1 {
      HalvesKeepWork(rest, group, m, accepts);
    }
  }

  lemma HalvesKeepWork(rest: seq<seq<string>>, group: seq<string>, m: Mask, accepts: Oracle)
    requires Monotone(accepts) && |group| > 1
    ensures var first, second := group[..|group| / 2], group[|group| / 2..];
            && StackOneByOne(rest + [second] + [first], m, accepts)
               == StackOneByOne(rest, OneByOne(group, m, accepts), accepts)
            && (accepts(0, Unref(m, ToSet(first))) ==>
                  StackOneByOne(rest + [second], Unref(m, ToSet(first)), accepts)
                  == StackOneByOne(rest, OneByOne(group, m, accepts), accepts))
  {
    var first, second := group[..|group| / 2], group[|group| / 2..];
    assert group == first + second;
    OneByOneConcat(first, second, m, accepts);
    StackPush(rest + [second], first, m, accepts);
    StackPush(rest, second, OneByOne(first, m, accepts), accepts);
    if accepts(0, Unref(m, ToSet(first))) { AtOnce(first, m, accepts); }
  }

  lemma {:induction false} EmptyStack(pending: seq<seq<string>>, m: Mask, accepts: Oracle)
    requires Cost(pending) == 0
    ensures StackOneByOne(pending, m, accepts) == m
  {
    if pending != [] { EmptyStack(pending[..|pending| - 1], m, accepts); }
  }

  lemma {:induction false} BisectIsOneByOne(h: Hunt, max: nat, accepts: Oracle)
    requires Steady(accepts) && Monotone(accepts) && OnTrack(h, max, accepts)
    ensures Bisect(h, max, accepts).mask == StackOneByOne(h.pending, h.mask, accepts)
    decreases if h.trials < max then max - h.trials else 0, |h.pending|
  {
    if h.trials >= max {
      EmptyStack(h.pending, h.mask, accepts);
    } else if h.pending != [] {
      NarrowOnTrack(h, max, accepts);
      NarrowKeepsWork(h, max, accepts);
      BisectIsOneByOne(Narrow(h, accepts), max, accepts);
    }
  }

  lemma {:induction false} PeelIsTextByText(todo: seq<nat>, m: Mask, trials: nat, max: nat, accepts: Oracle)
    requires Steady(accepts) && trials + |todo| <= max
    ensures Peel(todo, m, trials, max, accepts).0 == TextByText(todo, m, accepts)
  {
    if todo != [] {
      var smaller := Unraw(m, todo[0]);
      assert accepts(trials, smaller) == accepts(0, smaller);
      PeelIsTextByText(todo[1..], if accepts(0, smaller) then smaller else m, trials + 1, max, accepts);
    }
  }

  /** The search ends where trying every reference and then every free text once, in order, would end. */
  lemma SearchIsOneByOne(refs: seq<string>, raw: seq<nat>, max: nat, accepts: Oracle)
    requires Steady(accepts) && Monotone(accepts) && NoDup(refs) && Need(|refs|, |raw|) <= max
    ensures Search(refs, raw, max, accepts).0 == TextByText(raw, OneByOne(refs, Full(refs, raw), accepts), accepts)
  {
    var full := Full(refs, raw);
    var start := Hunt([refs], full, 1);
    PushGroup([], refs);
    assert [] + [refs] == [refs] && Stacked([refs], full.refs);
    BisectMinimal(start, max, accepts);
    BisectIsOneByOne(start, max, accepts);
    StackPush([], refs, full, accepts);
    var h := Bisect(start, max, accepts);
    PeelIsTextByText(raw, h.mask, h.trials, max, accepts);
  }

  /** References are tried in alphabetical order. */
  lemma SortedRefsInOrder(ms: seq<Message>)
    ensures forall i, j | 0 <= i < j < |SortedRefs(ms)| :: NotAfter(SortedRefs(ms)[i], SortedRefs(ms)[j])
  {
    StringOrderIsTotal();
    StableSort.SortCorrect(RefUnits(ms), StringOrder);
    forall i, j | 0 <= i < j < |SortedRefs(ms)| ensures NotAfter(SortedRefs(ms)[i], SortedRefs(ms)[j]) {
      StringLeqExactly(SortedRefs(ms)[i], SortedRefs(ms)[j]);
    }
  }

  /** So a recovery with trials enough settles on the mask that the plain way finds, whatever the bisection skipped. */
  lemma RecoveryIsOneByOne(ms: seq<Message>, max: nat, accepts: Oracle)
    requires Steady(accepts) && Monotone(accepts) && Need(|RefUnits(ms)|, |RawUnits(ms)|) <= max
    requires FoundMask(ms, max, accepts).Some?
    ensures var refs, raw := SortedRefs(ms), RawUnits(ms);
            FoundMask(ms, max, accepts).value.0 == TextByText(raw, OneByOne(refs, Full(refs, raw), accepts), accepts)
  {
    SortedRefsAreUnits(ms);
    SearchIsOneByOne(SortedRefs(ms), RawUnits(ms), max, accepts);
  }
}
