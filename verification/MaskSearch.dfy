/**
 The search for a minimal mask: bisect the references under a trial budget, then try the free texts one by one.
 The oracle answers the k-th call on a mask; nothing is assumed of it unless a lemma says so.
*/
module MaskSearch {
  datatype Mask = Mask(refs: set<string>, raw: set<nat>)

  type Oracle = (nat, Mask) -> bool

  function ToSet<T>(s: seq<T>): set<T> { set x | x in s }

  predicate NoDup<T(==)>(s: seq<T>) { forall i, j | 0 <= i < j < |s| :: s[i] != s[j] }

  function Unref(m: Mask, refs: set<string>): Mask { m.(refs := m.refs - refs) }

  function Unraw(m: Mask, i: nat): Mask { m.(raw := m.raw - {i}) }

  /** The stack of groups still to narrow, its top last; the current mask; and the trials spent. */
  datatype Hunt = Hunt(pending: seq<seq<string>>, mask: Mask, trials: nat)
  {
    function Rest(): seq<seq<string>>
      requires pending != []
    {
      pending[..|pending| - 1]
    }

    function Top(): seq<string>
      requires pending != []
    {
      pending[|pending| - 1]
    }
  }

  /** One turn of the depth-first bisection. */
  function Narrow(h: Hunt, accepts: Oracle): Hunt
    requires h.pending != []
  {
    var rest, group := h.Rest(), h.Top();
    if group == [] || !(ToSet(group) <= h.mask.refs) then Hunt(rest, h.mask, h.trials)
    else if |group| == 1 then
      var smaller := Unref(h.mask, ToSet(group));
      Hunt(rest, if accepts(h.trials, smaller) then smaller else h.mask, h.trials + 1)
    else
      var first, second := group[..|group| / 2], group[|group| / 2..];
      var smaller := Unref(h.mask, ToSet(first));
      if accepts(h.trials, smaller) then Hunt(rest + [second], smaller, h.trials + 1)
      else Hunt(rest + [second] + [first], h.mask, h.trials + 1)
  }

  function Bisect(h: Hunt, max: nat, accepts: Oracle): Hunt
    decreases if h.trials < max then max - h.trials else 0, |h.pending|
  {
    if h.pending == [] || h.trials >= max then h else Bisect(Narrow(h, accepts), max, accepts)
  }

  /** One trial per free text, in position order. */
  function Peel(todo: seq<nat>, m: Mask, trials: nat, max: nat, accepts: Oracle): (r: (Mask, nat)) {
    if todo == [] || trials >= max then (m, trials)
    else
      var smaller := Unraw(m, todo[0]);
      Peel(todo[1..], if accepts(trials, smaller) then smaller else m, trials + 1, max, accepts)
  }

  function Full(refs: seq<string>, raw: seq<nat>): Mask { Mask(ToSet(refs), ToSet(raw)) }

  /** The mask left after the search and the number of trials spent, the first of them on the full mask. */
  function Search(refs: seq<string>, raw: seq<nat>, max: nat, accepts: Oracle): (r: (Mask, nat)) {
    var h := Bisect(Hunt([refs], Full(refs, raw), 1), max, accepts);
    Peel(raw, h.mask, h.trials, max, accepts)
  }

  // ---- any oracle, however erratic -------------------------------------------------------------------------

  /** Some trial so far accepted this very mask. */
  ghost predicate Accepted(m: Mask, trials: nat, accepts: Oracle) { exists k: nat | k < trials :: accepts(k, m) }

  ghost predicate Within(m: Mask, outer: Mask) { m.refs <= outer.refs && m.raw <= outer.raw }

  lemma {:induction false} BisectAccepted(h: Hunt, max: nat, accepts: Oracle)
    requires h.trials <= max && Accepted(h.mask, h.trials, accepts)
    ensures var h' := Bisect(h, max, accepts);
            && h.trials <= h'.trials <= max && Accepted(h'.mask, h'.trials, accepts)
            && Within(h'.mask, h.mask) && h'.mask.raw == h.mask.raw
    decreases if h.trials < max then max - h.trials else 0, |h.pending|
  {
    if h.pending != [] && h.trials < max { BisectAccepted(Narrow(h, accepts), max, accepts); }
  }

  lemma {:induction false} PeelAccepted(todo: seq<nat>, m: Mask, trials: nat, max: nat, accepts: Oracle)
    requires trials <= max && Accepted(m, trials, accepts)
    ensures var (m', trials') := Peel(todo, m, trials, max, accepts);
            trials <= trials' <= max && Accepted(m', trials', accepts) && Within(m', m) && m'.refs == m.refs
  {
    if todo != [] && trials < max {
      var smaller := Unraw(m, todo[0]);
      PeelAccepted(todo[1..], if accepts(trials, smaller) then smaller else m, trials + 1, max, accepts);
    }
  }

  /** The search stays in budget and ends on a mask, inside the full one, that a trial has accepted. */
  lemma SearchAccepted(refs: seq<string>, raw: seq<nat>, max: nat, accepts: Oracle)
    requires 1 <= max && accepts(0, Full(refs, raw))
    ensures var (m, trials) := Search(refs, raw, max, accepts);
            1 <= trials <= max && Accepted(m, trials, accepts) && Within(m, Full(refs, raw))
  {
    var full := Full(refs, raw);
    assert Accepted(full, 1, accepts);
    BisectAccepted(Hunt([refs], full, 1), max, accepts);
    var h := Bisect(Hunt([refs], full, 1), max, accepts);
    PeelAccepted(raw, h.mask, h.trials, max, accepts);
  }

  // ---- steady, monotone oracles ----------------------------------------------------------------------------

  ghost predicate Steady(accepts: Oracle) { forall k, m :: accepts(k, m) == accepts(0, m) }

  /** Masking more never turns an accepted mask into a rejected one. */
  ghost predicate Monotone(accepts: Oracle) {
    forall m, m' :: accepts(0, m) && Within(m, m') ==> accepts(0, m')
  }

  /** No single unit can be unmasked. */
  ghost predicate Minimal(m: Mask, accepts: Oracle) {
    && (forall x | x in m.refs :: !accepts(0, Unref(m, {x})))
    && (forall i | i in m.raw :: !accepts(0, Unraw(m, i)))
  }

  function GroupCost(group: seq<string>): nat { if group == [] then 0 else 2 * |group| - 1 }

  /** The most trials the bisection of these groups can take. */
  function Cost(pending: seq<seq<string>>): nat {
    if pending == [] then 0 else Cost(pending[..|pending| - 1]) + GroupCost(pending[|pending| - 1])
  }

  function Members(pending: seq<seq<string>>): set<string> {
    if pending == [] then {} else Members(pending[..|pending| - 1]) + ToSet(pending[|pending| - 1])
  }

  /** The groups on the stack are still fully masked, repeat nothing and share nothing. */
  ghost predicate Stacked(pending: seq<seq<string>>, refs: set<string>) {
    pending == [] ||
    (var rest, group := pending[..|pending| - 1], pending[|pending| - 1];
     NoDup(group) && ToSet(group) <= refs && ToSet(group) !! Members(rest) && Stacked(rest, refs))
  }

  lemma {:induction false} StackedShrinks(pending: seq<seq<string>>, refs: set<string>, gone: set<string>)
    requires Stacked(pending, refs) && gone !! Members(pending)
    ensures Stacked(pending, refs - gone)
  {
    if pending != [] { StackedShrinks(pending[..|pending| - 1], refs, gone); }
  }

  lemma PushGroup(rest: seq<seq<string>>, group: seq<string>)
    ensures (rest + [group])[..|rest|] == rest
    ensures Cost(rest + [group]) == Cost(rest) + GroupCost(group)
    ensures Members(rest + [group]) == Members(rest) + ToSet(group)
  {
    assert (rest + [group])[..|rest|] == rest;
  }

  lemma HalvesSplit(group: seq<string>)
    requires |group| >= 2 && NoDup(group)
    ensures var first, second := group[..|group| / 2], group[|group| / 2..];
            && NoDup(first) && NoDup(second) && ToSet(first) !! ToSet(second)
            && ToSet(first) + ToSet(second) == ToSet(group)
            && GroupCost(first) + GroupCost(second) + 1 == GroupCost(group)
  {
    var first, second := group[..|group| / 2], group[|group| / 2..];
    assert group == first + second;
  }

  lemma PushHalves(rest: seq<seq<string>>, group: seq<string>, refs: set<string>)
    requires |group| >= 2 && Stacked(rest + [group], refs)
    ensures var first, second := group[..|group| / 2], group[|group| / 2..];
            && Stacked(rest + [second] + [first], refs)
            && Members(rest + [second] + [first]) == Members(rest + [group])
            && Cost(rest + [second] + [first]) + 1 == Cost(rest + [group])
            && Stacked(rest + [second], refs - ToSet(first))
            && Members(rest + [second]) + ToSet(first) == Members(rest + [group])
            && Cost(rest + [second]) < Cost(rest + [group])
  {
    var first, second := group[..|group| / 2], group[|group| / 2..];
    PushGroup(rest, group);
    PushGroup(rest, second);
    PushGroup(rest + [second], first);
    HalvesSplit(group);
    StackedShrinks(rest, refs, ToSet(first));
  }

  /** References off the stack cannot be unmasked alone. */
  ghost predicate Settled(pending: seq<seq<string>>, m: Mask, accepts: Oracle) {
    forall x | x in m.refs && x !in Members(pending) :: !accepts(0, Unref(m, {x}))
  }

  lemma SettledShrinks(before: seq<seq<string>>, after: seq<seq<string>>, m: Mask, gone: set<string>, accepts: Oracle)
    requires Monotone(accepts) && Settled(before, m, accepts) && Members(before) <= Members(after) + gone
    ensures Settled(after, Unref(m, gone), accepts)
  {
    var smaller := Unref(m, gone);
    forall x | x in smaller.refs && x !in Members(after) ensures !accepts(0, Unref(smaller, {x})) {
      assert !accepts(0, Unref(m, {x})) && Within(Unref(smaller, {x}), Unref(m, {x}));
    }
  }

  lemma SettleOne(rest: seq<seq<string>>, x: string, m: Mask, accepts: Oracle)
    requires Settled(rest + [[x]], m, accepts) && !accepts(0, Unref(m, {x}))
    ensures Settled(rest, m, accepts)
  {
    PushGroup(rest, [x]);
    assert ToSet([x]) == {x};
  }

  ghost predicate OnTrack(h: Hunt, max: nat, accepts: Oracle) {
    Stacked(h.pending, h.mask.refs) && Settled(h.pending, h.mask, accepts) && h.trials + Cost(h.pending) <= max
  }

  lemma NarrowOnTrack(h: Hunt, max: nat, accepts: Oracle)
    requires Steady(accepts) && Monotone(accepts) && h.pending != [] && OnTrack(h, max, accepts)
    ensures OnTrack(Narrow(h, accepts), max, accepts)
  {
    var rest, group, m := h.Rest(), h.Top(), h.mask;
    assert h.pending == rest + [group];
    PushGroup(rest, group);
    if |group| == 1 {
      var gone := ToSet(group);
      assert group == [group[0]] && gone == {group[0]};
      if accepts(h.trials, Unref(m, gone)) {
        StackedShrinks(rest, m.refs, gone);
        SettledShrinks(h.pending, rest, m, gone, accepts);
      } else {
        SettleOne(rest, group[0], m, accepts);
      }
    } else if |group| > 1 {
      var first, second := group[..|group| / 2], group[|group| / 2..];
      PushHalves(rest, group, m.refs);
      if accepts(h.trials, Unref(m, ToSet(first))) {
        SettledShrinks(h.pending, rest + [second], m, ToSet(first), accepts);
      }
    }
  }

  lemma {:induction false} BisectMinimal(h: Hunt, max: nat, accepts: Oracle)
    requires Steady(accepts) && Monotone(accepts) && OnTrack(h, max, accepts)
    ensures var h' := Bisect(h, max, accepts); Settled([], h'.mask, accepts) && h'.trials <= h.trials + Cost(h.pending)
    decreases if h.trials < max then max - h.trials else 0, |h.pending|
  {
    if h.trials >= max {
      EmptyGroups(h.pending);
    } else if h.pending != [] {
      NarrowOnTrack(h, h.trials + Cost(h.pending), accepts);
      NarrowOnTrack(h, max, accepts);
      BisectMinimal(Narrow(h, accepts), max, accepts);
    }
  }

  lemma {:induction false} EmptyGroups(pending: seq<seq<string>>)
    requires Cost(pending) == 0
    ensures Members(pending) == {}
  {
    if pending != [] { EmptyGroups(pending[..|pending| - 1]); }
  }

  lemma {:induction false} PeelMinimal(todo: seq<nat>, m: Mask, trials: nat, max: nat, accepts: Oracle)
    requires Steady(accepts) && Monotone(accepts) && trials + |todo| <= max
    requires forall i | i in m.raw && i !in todo :: !accepts(0, Unraw(m, i))
    ensures var (m', trials') := Peel(todo, m, trials, max, accepts);
            forall i | i in m'.raw :: !accepts(0, Unraw(m', i))
  {
    if todo != [] {
      var smaller := Unraw(m, todo[0]);
      assert todo == [todo[0]] + todo[1..];
      if accepts(trials, smaller) {
        forall i | i in smaller.raw && i !in todo[1..] ensures !accepts(0, Unraw(smaller, i)) {
          assert !accepts(0, Unraw(m, i)) && Within(Unraw(smaller, i), Unraw(m, i));
        }
        PeelMinimal(todo[1..], smaller, trials + 1, max, accepts);
        assert Peel(todo, m, trials, max, accepts) == Peel(todo[1..], smaller, trials + 1, max, accepts);
      } else {
        PeelMinimal(todo[1..], m, trials + 1, max, accepts);
        assert Peel(todo, m, trials, max, accepts) == Peel(todo[1..], m, trials + 1, max, accepts);
      }
    }
  }

  /** Trials that always suffice for n references and r free texts. */
  function Need(n: nat, r: nat): nat { 1 + (if n == 0 then 0 else 2 * n - 1) + r }

  lemma SearchMinimal(refs: seq<string>, raw: seq<nat>, max: nat, accepts: Oracle)
    requires Steady(accepts) && Monotone(accepts) && accepts(0, Full(refs, raw))
    requires NoDup(refs) && Need(|refs|, |raw|) <= max
    ensures Minimal(Search(refs, raw, max, accepts).0, accepts)
  {
    var full := Full(refs, raw);
    PushGroup([], refs);
    assert [] + [refs] == [refs] && Stacked([refs], full.refs);
    var start := Hunt([refs], full, 1);
    BisectMinimal(start, max, accepts);
    assert Accepted(full, 1, accepts);
    BisectAccepted(start, max, accepts);
    var (m, trials) := (Bisect(start, max, accepts).mask, Bisect(start, max, accepts).trials);
    PeelMinimal(raw, m, trials, max, accepts);
    PeelAccepted(raw, m, trials, max, accepts);
    var final := Peel(raw, m, trials, max, accepts).0;
    forall x | x in final.refs ensures !accepts(0, Unref(final, {x})) {
      assert !accepts(0, Unref(m, {x})) && Within(Unref(final, {x}), Unref(m, {x}));
    }
  }

  // ---- the budget is exact ---------------------------------------------------------------------------------

  /** Accepts exactly the masks that keep these units covered. */
  function Covering(refs: set<string>, raw: set<nat>): Oracle { (k: nat, m: Mask) => refs <= m.refs && raw <= m.raw }

  /** The stack holds one spare reference, at the very end of its bottom group; every other one is needed. */
  ghost predicate SpareAtBottom(pending: seq<seq<string>>, spare: string, needed: set<string>) {
    && pending != [] && pending[0] != []
    && pending[0][|pending[0]| - 1] == spare
    && (forall x | x in pending[0][..|pending[0]| - 1] :: x in needed)
    && (forall i | 1 <= i < |pending| :: pending[i] != [] && forall x | x in pending[i] :: x in needed)
  }

  lemma CoveringMonotone(refs: set<string>, raw: set<nat>)
    ensures Steady(Covering(refs, raw)) && Monotone(Covering(refs, raw))
  {
  }

  lemma HalfCost(group: seq<string>)
    requires |group| >= 2
    ensures GroupCost(group[..|group| / 2]) + GroupCost(group[|group| / 2..]) + 1 == GroupCost(group)
  {
  }

  /** Masking every needed unit, the bisection removes nothing and spends all it can. */
  lemma {:induction false} BisectAllNeeded(h: Hunt, max: nat, refs: set<string>, raw: set<nat>)
    requires h.trials <= max && refs <= h.mask.refs && Members(h.pending) <= refs
    ensures var h' := Bisect(h, max, Covering(refs, raw));
            && h'.mask == h.mask
            && h'.trials == (if h.trials + Cost(h.pending) <= max then h.trials + Cost(h.pending) else max)
    decreases if h.trials < max then max - h.trials else 0, |h.pending|
  {
    if h.pending != [] && h.trials < max {
      var rest, group := h.Rest(), h.Top();
      if |group| >= 2 {
        var first, second := group[..|group| / 2], group[|group| / 2..];
        HalfCost(group);
        PushGroup(rest, second);
        PushGroup(rest + [second], first);
        assert first[0] in ToSet(first) && ToSet(first) <= ToSet(group) && ToSet(second) <= ToSet(group);
        assert Narrow(h, Covering(refs, raw)) == Hunt(rest + [second] + [first], h.mask, h.trials + 1);
      } else if |group| == 1 {
        assert group[0] in ToSet(group);
      }
      BisectAllNeeded(Narrow(h, Covering(refs, raw)), max, refs, raw);
    }
  }

  lemma {:induction false} PeelLeavesSpare(
    todo: seq<nat>, m: Mask, trials: nat, max: nat, refs: set<string>, raw: set<nat>)
    requires todo != [] && todo[|todo| - 1] in m.raw && refs <= m.refs && raw <= m.raw
    requires (forall i | 0 <= i < |todo| - 1 :: todo[i] in raw) && trials + |todo| > max
    ensures Peel(todo, m, trials, max, Covering(refs, raw)).0 == m
  {
    if trials < max { PeelLeavesSpare(todo[1..], m, trials + 1, max, refs, raw); }
  }

  /** Halving the bottom group leaves the spare at the end of its second half. */
  lemma SpareInSecondHalf(group: seq<string>, spare: string, needed: set<string>)
    requires |group| >= 2 && SpareAtBottom([group], spare, needed)
    ensures var first, second := group[..|group| / 2], group[|group| / 2..];
            SpareAtBottom([second] + [first], spare, needed) && first[0] in needed
  {
    var first, second := group[..|group| / 2], group[|group| / 2..];
    forall x | x in first ensures x in needed { assert x in group[..|group| - 1]; }
    forall x | x in second[..|second| - 1] ensures x in needed { assert x in group[..|group| - 1]; }
  }

  /** A trial that would unmask a needed reference is rejected. */
  lemma NarrowRejected(h: Hunt, needed: set<string>, raw: set<nat>)
    requires h.pending != [] && h.Top() != [] && h.Top()[0] in needed && ToSet(h.Top()) <= h.mask.refs
    ensures var rest, group := h.Rest(), h.Top();
            Narrow(h, Covering(needed, raw)) ==
            Hunt(if |group| == 1 then rest else rest + [group[|group| / 2..]] + [group[..|group| / 2]],
                 h.mask, h.trials + 1)
  {
    var group := h.Top();
    assert group[0] in ToSet(group) && (|group| > 1 ==> group[..|group| / 2][0] in ToSet(group[..|group| / 2]));
  }

  lemma SpareStays(pending: seq<seq<string>>, spare: string, needed: set<string>)
    requires SpareAtBottom(pending, spare, needed) && (|pending| > 1 || |pending[0]| > 1)
    ensures var rest, group := pending[..|pending| - 1], pending[|pending| - 1];
            && group[0] in needed
            && SpareAtBottom(if |group| == 1 then rest
                             else rest + [group[|group| / 2..]] + [group[..|group| / 2]], spare, needed)
  {
    var rest, group := pending[..|pending| - 1], pending[|pending| - 1];
    if |pending| == 1 {
      assert pending == [group] && rest == [];
      SpareInSecondHalf(group, spare, needed);
      assert [] + [group[|group| / 2..]] + [group[..|group| / 2]]
          == [group[|group| / 2..]] + [group[..|group| / 2]];
    } else if |group| > 1 {
      var first, second := group[..|group| / 2], group[|group| / 2..];
      assert (forall x | x in first :: x in group) && (forall x | x in second :: x in group);
    }
  }

  lemma NarrowKeepsSpare(h: Hunt, spare: string, needed: set<string>, raw: set<nat>)
    requires SpareAtBottom(h.pending, spare, needed) && needed <= h.mask.refs && spare in h.mask.refs
    requires |h.pending| > 1 || |h.pending[0]| > 1
    ensures var h' := Narrow(h, Covering(needed, raw));
            && h'.mask == h.mask && h'.trials == h.trials + 1
            && SpareAtBottom(h'.pending, spare, needed) && Cost(h'.pending) + 1 == Cost(h.pending)
  {
    var rest, group := h.Rest(), h.Top();
    forall x | x in group ensures x in h.mask.refs {
      if |h.pending| == 1 { assert group == group[..|group| - 1] + [spare]; }
    }
    SpareStays(h.pending, spare, needed);
    NarrowRejected(h, needed, raw);
    if |group| >= 2 {
      HalfCost(group);
      PushGroup(rest, group[|group| / 2..]);
      PushGroup(rest + [group[|group| / 2..]], group[..|group| / 2]);
    }
  }

  lemma {:induction false} BisectLeavesSpare(h: Hunt, max: nat, spare: string, needed: set<string>, raw: set<nat>)
    requires SpareAtBottom(h.pending, spare, needed) && needed <= h.mask.refs && spare in h.mask.refs
    requires h.trials + Cost(h.pending) > max
    ensures Bisect(h, max, Covering(needed, raw)).mask == h.mask
    decreases if h.trials < max then max - h.trials else 0
  {
    if h.trials < max {
      if |h.pending| > 1 || |h.pending[0]| > 1 {
        NarrowKeepsSpare(h, spare, needed, raw);
        BisectLeavesSpare(Narrow(h, Covering(needed, raw)), max, spare, needed, raw);
      }
    }
  }

  /** Every steady, monotone oracle gets a minimal mask for n references and r free texts. */
  ghost predicate AlwaysMinimal(n: nat, r: nat, max: nat) {
    forall refs: seq<string>, raw: seq<nat>, accepts: Oracle ::
      (|refs| == n && |raw| == r && NoDup(refs) && NoDup(raw) && Steady(accepts) && Monotone(accepts) &&
       accepts(0, Full(refs, raw))) ==> Minimal(Search(refs, raw, max, accepts).0, accepts)
  }

  /** All but the last free text are needed: the budget runs out before the last is tried. */
  lemma ShortOfRaw(refs: seq<string>, raw: seq<nat>, max: nat)
    requires NoDup(refs) && NoDup(raw) && raw != [] && 1 <= max < Need(|refs|, |raw|)
    ensures var accepts := Covering(ToSet(refs), ToSet(raw[..|raw| - 1]));
            accepts(0, Full(refs, raw)) && !Minimal(Search(refs, raw, max, accepts).0, accepts)
  {
    var last := raw[|raw| - 1];
    var needed := ToSet(raw[..|raw| - 1]);
    var accepts := Covering(ToSet(refs), needed);
    var start := Hunt([refs], Full(refs, raw), 1);
    PushGroup([], refs);
    assert [] + [refs] == [refs];
    BisectAllNeeded(start, max, ToSet(refs), needed);
    var h := Bisect(start, max, accepts);
    forall i | 0 <= i < |raw| - 1 ensures raw[i] in needed { assert raw[i] in raw[..|raw| - 1]; }
    PeelLeavesSpare(raw, h.mask, h.trials, max, ToSet(refs), needed);
    assert accepts(0, Unraw(Full(refs, raw), last));
  }

  /** All but the last reference are needed, and there is no free text. */
  lemma ShortOfRefs(refs: seq<string>, max: nat)
    requires NoDup(refs) && refs != [] && 1 <= max < Need(|refs|, 0)
    ensures var accepts := Covering(ToSet(refs[..|refs| - 1]), {});
            accepts(0, Full(refs, [])) && !Minimal(Search(refs, [], max, accepts).0, accepts)
  {
    var last := refs[|refs| - 1];
    var needed := ToSet(refs[..|refs| - 1]);
    var accepts := Covering(needed, {});
    var start := Hunt([refs], Full(refs, []), 1);
    PushGroup([], refs);
    assert [] + [refs] == [refs];
    BisectLeavesSpare(start, max, last, needed, {});
    assert last !in needed;
    assert accepts(0, Unref(Full(refs, []), {last}));
  }

  lemma ShortBudgetRaw(refs: seq<string>, raw: seq<nat>, max: nat)
    requires NoDup(refs) && NoDup(raw) && raw != [] && 1 <= max < Need(|refs|, |raw|)
    ensures !AlwaysMinimal(|refs|, |raw|, max)
  {
    var needed := ToSet(raw[..|raw| - 1]);
    CoveringMonotone(ToSet(refs), needed);
    ShortOfRaw(refs, raw, max);
    assert !Minimal(Search(refs, raw, max, Covering(ToSet(refs), needed)).0, Covering(ToSet(refs), needed));
  }

  lemma ShortBudgetRefs(refs: seq<string>, max: nat)
    requires NoDup(refs) && refs != [] && 1 <= max < Need(|refs|, 0)
    ensures !AlwaysMinimal(|refs|, 0, max)
  {
    var needed := ToSet(refs[..|refs| - 1]);
    CoveringMonotone(needed, {});
    ShortOfRefs(refs, max);
    assert !Minimal(Search(refs, [], max, Covering(needed, {})).0, Covering(needed, {}));
    assert NoDup<nat>([]);
  }

  /** 2n + r trials, or 1 + r without references, are enough for a minimal mask, and no smaller budget is. */
  lemma BudgetExact(n: nat, r: nat, max: nat)
    requires n + r > 0 && 2 <= max
    ensures AlwaysMinimal(n, r, max) <==> Need(n, r) <= max
  {
    if Need(n, r) <= max {
      forall refs: seq<string>, raw: seq<nat>, accepts: Oracle |
        |refs| == n && |raw| == r && NoDup(refs) && NoDup(raw) && Steady(accepts) && Monotone(accepts) &&
        accepts(0, Full(refs, raw))
        ensures Minimal(Search(refs, raw, max, accepts).0, accepts)
      {
        SearchMinimal(refs, raw, max, accepts);
      }
    } else {
      var refs := seq(n, i requires 0 <= i < n => seq(i, k requires 0 <= k < i => 'x'));
      var raw: seq<nat> := seq(r, i requires 0 <= i < r => i);
      assert NoDup(refs) by { assert forall i | 0 <= i < n :: |refs[i]| == i; }
      if r > 0 { ShortBudgetRaw(refs, raw, max); } else { ShortBudgetRefs(refs, max); }
    }
  }

  // ---- fixed triggers --------------------------------------------------------------------------------------

  /** When acceptance means covering fixed triggers, an accepted minimal mask is exactly the open triggers. */
  lemma MinimalIsTriggers(m: Mask, refs: set<string>, raw: set<nat>, accepts: Oracle)
    requires accepts(0, m) && Minimal(m, accepts)
    requires forall k, x :: accepts(k, x) <==> refs <= x.refs && raw <= x.raw
    ensures m == Mask(refs, raw)
  {
    forall x | x in m.refs ensures x in refs { assert !accepts(0, Unref(m, {x})); }
    forall i | i in m.raw ensures i in raw { assert !accepts(0, Unraw(m, i)); }
  }
}
