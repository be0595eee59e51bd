/** The loops that mask, collect and search, and the handler that keeps what a recovery found. */
module MaskRecovery {
  import opened Common
  import opened MaskedMessages
  import opened MaskSearch
  import StableSort

  // ---- masking loops ---------------------------------------------------------------------------------------

  method MaskEntryList(es: seq<Entry>, refs: set<string>) returns (masked: seq<Entry>, count: nat)
    ensures masked == MaskEntries(es, refs)
    ensures count == 0 <==> masked == es
  {
    masked, count := [], 0;
    for i := 0 to |es|
      invariant masked == MaskEntries(es, refs)[..i]
      invariant count == 0 <==> masked == es[..i]
    {
      var e := es[i];
      if e.Entry? && e.ref.Some? && e.ref.value in refs && e.content.Some? && e.content.value != MASK_PLACEHOLDER {
        masked, count := masked + [e.(content := Some(MASK_PLACEHOLDER))], count + 1;
      } else {
        masked := masked + [e];
      }
      assert es[..i + 1] == es[..i] + [e];
    }
  }

  method MaskFragmentList(fs: seq<Fragment>, refs: set<string>)
    returns (masked: seq<Fragment>, count: nat, touched: bool)
    ensures masked == MaskFragments(fs, refs)
    ensures count == 0 <==> masked == fs
    ensures touched == AnyHit(fs, refs)
  {
    masked, count, touched := [], 0, false;
    for i := 0 to |fs|
      invariant masked == MaskFragments(fs, refs)[..i]
      invariant count == 0 <==> masked == fs[..i]
      invariant touched == exists k | 0 <= k < i :: Hit(fs[k], refs)
    {
      var f := fs[i];
      if f.Fragment? {
        var hit := exists r | r in f.refs :: r in refs;
        if f.messages.Some? {
          var entries, n := MaskEntryList(f.messages.value, refs);
          count, f := count + n, f.(messages := Some(entries));
        }
        if hit && f.chunk.Some? && f.chunk.value != CHUNK_PLACEHOLDER {
          count, f := count + 1, f.(chunk := Some(CHUNK_PLACEHOLDER));
        }
        touched := touched || hit;
      }
      assert f == MaskFragment(fs[i], refs);
      masked := masked + [f];
      assert fs[..i + 1] == fs[..i] + [fs[i]];
    }
  }

  method MaskJsonObject(o: JsonObject, refs: set<string>) returns (masked: JsonObject, count: nat)
    ensures masked == MaskObject(o, refs)
    ensures count == 0 <==> masked == o
  {
    masked, count := o, 0;
    if o.messages.Some? {
      var entries, n := MaskEntryList(o.messages.value, refs);
      masked, count := masked.(messages := Some(entries)), count + n;
    }
    if o.fragments.Some? {
      var fragments, n, touched := MaskFragmentList(o.fragments.value, refs);
      masked, count := masked.(fragments := Some(fragments)), count + n;
      if touched && o.context.Some? && o.context.value != CHUNK_PLACEHOLDER {
        masked, count := masked.(context := Some(CHUNK_PLACEHOLDER)), count + 1;
      }
    }
  }

  method MaskMessages(ms: seq<Message>, refs: set<string>, raw: set<nat>) returns (masked: seq<Message>)
    ensures masked == Masked(ms, refs, raw)
  {
    masked := [];
    for i := 0 to |ms|
      invariant masked == Masked(ms, refs, raw)[..i]
    {
      var m := ms[i];
      if i in raw && !m.content.NotText? && m.content != Text(MASK_PLACEHOLDER) {
        masked := masked + [m.(content := Text(MASK_PLACEHOLDER))];
      } else if !m.content.Json? || refs == {} {
        if m.content.Json? { MaskObjectUnselected(m.content.obj, refs); }
        masked := masked + [m];
      } else {
        var obj, count := MaskJsonObject(m.content.obj, refs);
        masked := masked + [if count > 0 then m.(content := Json(obj)) else m];
      }
    }
  }

  method CollectRefs(es: seq<Entry>, found: seq<string>) returns (refs: seq<string>)
    ensures refs == Extend(found, MaskableRefs(es))
  {
    refs := found;
    for i := 0 to |es|
      invariant refs == Extend(found, MaskableRefs(es[..i]))
    {
      var e := es[i];
      if e.Entry? && e.ref.Some? && e.ref.value !in refs && e.content.Some? && e.content.value != MASK_PLACEHOLDER {
        refs := refs + [e.ref.value];
      }
      assert es[..i + 1][..i] == es[..i];
      if Maskable(e) { ExtendConcat(found, MaskableRefs(es[..i]), [e.ref.value]); }
    }
    assert es[..|es|] == es;
  }

  method CollectFragmentRefs(fs: seq<Fragment>, found: seq<string>) returns (refs: seq<string>)
    ensures refs == Extend(found, FragmentMaskable(fs))
  {
    refs := found;
    for i := 0 to |fs|
      invariant refs == Extend(found, FragmentMaskable(fs[..i]))
    {
      assert fs[..i + 1][..i] == fs[..i];
      ExtendConcat(found, FragmentMaskable(fs[..i]), MaskableRefs(FragmentEntries(fs[i])));
      if fs[i].Fragment? && fs[i].messages.Some? {
        refs := CollectRefs(fs[i].messages.value, refs);
      }
    }
    assert fs[..|fs|] == fs;
  }

  /** The units of a list: references in order of first appearance, and positions of free texts. */
  method CollectCandidates(ms: seq<Message>) returns (refs: seq<string>, raw: seq<nat>)
    ensures refs == RefUnits(ms) && raw == RawUnits(ms)
  {
    refs, raw := [], [];
    for i := 0 to |ms|
      invariant refs == RefUnits(ms[..i]) && raw == RawUnits(ms[..i])
    {
      var c := ms[i].content;
      assert ms[..i + 1][..i] == ms[..i];
      if c.NotText? || c == Text([]) || c == Text(MASK_PLACEHOLDER) {
        continue;
      }
      if c.Text? {
        raw := raw + [i];
        continue;
      }
      ghost var before := AllMaskable(ms[..i]);
      ExtendConcat([], before, ObjectMaskable(c.obj));
      ExtendConcat(refs, MaskableRefs(OrEmpty(c.obj.messages)), FragmentMaskable(OrEmpty(c.obj.fragments)));
      refs := CollectRefs(OrEmpty(c.obj.messages), refs);
      refs := CollectFragmentRefs(OrEmpty(c.obj.fragments), refs);
    }
    assert ms[..|ms|] == ms;
  }

  // ---- the search loop -------------------------------------------------------------------------------------

  method SearchMask(refs: seq<string>, raw: seq<nat>, max: nat, accepts: Oracle) returns (m: Mask, trials: nat)
    ensures (m, trials) == Search(refs, raw, max, accepts)
  {
    m, trials := Full(refs, raw), 1;
    var pending := [refs];
    ghost var found := Bisect(Hunt([refs], m, 1), max, accepts);
    while pending != [] && trials < max
      invariant Bisect(Hunt(pending, m, trials), max, accepts) == found
      decreases if trials < max then max - trials else 0, |pending|
    {
      var group := pending[|pending| - 1];
      pending := pending[..|pending| - 1];
      if group == [] || !(ToSet(group) <= m.refs) {
        continue;
      }
      if |group| == 1 {
        var smaller := Unref(m, ToSet(group));
        var accepted := accepts(trials, smaller);
        trials := trials + 1;
        if accepted { m := smaller; }
        continue;
      }
      var smaller := Unref(m, ToSet(group[..|group| / 2]));
      var accepted := accepts(trials, smaller);
      trials := trials + 1;
      if accepted {
        m := smaller;
        pending := pending + [group[|group| / 2..]];
      } else {
        pending := pending + [group[|group| / 2..]];
        pending := pending + [group[..|group| / 2]];
      }
    }
    m, trials := PeelMask(raw, m, trials, max, accepts);
  }

  method PeelMask(raw: seq<nat>, start: Mask, spent: nat, max: nat, accepts: Oracle) returns (m: Mask, trials: nat)
    ensures (m, trials) == Peel(raw, start, spent, max, accepts)
  {
    m, trials := start, spent;
    ghost var peeled := Peel(raw, m, trials, max, accepts);
    var i := 0;
    while i < |raw|
      invariant i <= |raw| && Peel(raw[i..], m, trials, max, accepts) == peeled
    {
      if trials >= max { break; }
      var smaller := Unraw(m, raw[i]);
      var accepted := accepts(trials, smaller);
      trials := trials + 1;
      if accepted { m := smaller; }
      i := i + 1;
    }
  }

  // ---- the handler -----------------------------------------------------------------------------------------

  /** The project-wide registry, shared by every handler of the project. */
  class MaskRegistry {
    var refs: set<string>

    /** Stores the references and reports those that were not there yet. */
    method Add(added: set<string>) returns (isNew: set<string>)
      modifies this
      ensures refs == old(refs) + added && isNew == added - old(refs)
    {
      isNew := added - refs;
      refs := refs + added;
    }
  }

  /** Answers the k-th call of a recovery with acceptance or a rejection. */
  type Provider = (nat, seq<Message>) -> bool

  /** What the provider says of a mask laid over this list, on top of the masks already known. */
  function OnMasks(tryCall: Provider, ms: seq<Message>, known: set<string>, sessionRaw: set<nat>): Oracle {
    (k: nat, m: Mask) => tryCall(k, Masked(ms, known + m.refs, sessionRaw + m.raw))
  }

  predicate StringOrder(a: string, b: string) { StringLeq(a, b) }

  function SortedRefs(ms: seq<Message>): seq<string> { StableSort.Sort(RefUnits(ms), StringOrder) }

  /** The mask a recovery settles on, with the trials it took; None when it gives up before the final call. */
  function FoundMask(ms: seq<Message>, max: nat, accepts: Oracle): Option<(Mask, nat)> {
    if RefUnits(ms) == [] && RawUnits(ms) == [] then None
    else if !accepts(0, Full(SortedRefs(ms), RawUnits(ms))) then None
    else Some(Search(SortedRefs(ms), RawUnits(ms), max, accepts))
  }

  class SensitiveContentHandler {
    const registry: MaskRegistry
    const maxTrials: nat
    var known: set<string>
    var sessionRaw: set<nat>
    var acceptedLen: nat

    constructor (registry: MaskRegistry, maxTrials: int)
      ensures this.registry == registry && known == registry.refs && sessionRaw == {} && acceptedLen == 0
      ensures this.maxTrials == if maxTrials < 2 then 2 else maxTrials
    {
      this.registry := registry;
      this.maxTrials := if maxTrials < 2 then 2 else maxTrials;
      known := registry.refs;
      sessionRaw := {};
      acceptedLen := 0;
    }

    method MaskedView(ms: seq<Message>) returns (view: seq<Message>)
      ensures view == Masked(ms, known, sessionRaw)
    {
      if known == {} && sessionRaw == {} {
        MaskTouchesOnlySelected(ms, known, sessionRaw);
        assert Masked(ms, known, sessionRaw) == ms;
        return ms;
      }
      view := MaskMessages(ms, known, sessionRaw);
    }

    /** A history that got shorter was rewritten, so remembered positions are dropped. */
    method NoteAccepted(ms: seq<Message>)
      modifies this`sessionRaw, this`acceptedLen
      ensures sessionRaw == if |ms| < old(acceptedLen) then {} else old(sessionRaw)
      ensures acceptedLen == |ms|
    {
      if |ms| < acceptedLen { sessionRaw := {}; }
      acceptedLen := |ms|;
    }

    /** The result names the view whose answer is returned; None hands the original rejection back. */
    method Recover(ms: seq<Message>, tryCall: Provider) returns (r: Option<seq<Message>>)
      modifies this`known, this`sessionRaw, registry
      ensures var accepts := OnMasks(tryCall, ms, old(known), old(sessionRaw));
              var found := FoundMask(ms, maxTrials, accepts);
              if found.Some? && accepts(found.value.1, found.value.0) then
                var m := found.value.0;
                && r == Some(Masked(ms, old(known) + m.refs, old(sessionRaw) + m.raw))
                && registry.refs == old(registry.refs) + m.refs
                && known == old(known) + (m.refs - old(registry.refs))
                && sessionRaw == old(sessionRaw) + m.raw
              else
                r.None? && known == old(known) && sessionRaw == old(sessionRaw) && registry.refs == old(registry.refs)
    {
      var refs, raw := CollectCandidates(ms);
      if refs == [] && raw == [] { return None; }
      var accepts := OnMasks(tryCall, ms, known, sessionRaw);
      if !accepts(0, Full(SortedRefs(ms), raw)) { return None; }
      var m, trials := SearchMask(SortedRefs(ms), raw, maxTrials, accepts);
      assert accepts == OnMasks(tryCall, ms, old(known), old(sessionRaw));
      var view := MaskMessages(ms, known + m.refs, sessionRaw + m.raw);
      if !tryCall(trials, view) { return None; }
      var isNew := registry.Add(m.refs);
      known := known + isNew;
      sessionRaw := sessionRaw + m.raw;
      return Some(view);
    }
  }

  // ---- what a recovery guarantees --------------------------------------------------------------------------

  lemma StringOrderIsTotal()
    ensures StableSort.TotalPreorder(StringOrder)
  {
    forall x, y ensures StringOrder(x, y) || StringOrder(y, x) { StringLeqTotal(x, y); }
    forall x: string, y: string, z: string | StringOrder(x, y) && StringOrder(y, z) ensures StringOrder(x, z) {
      StringLeqTransitive(x, y, z);
    }
  }

  lemma SortedRefsAreUnits(ms: seq<Message>)
    ensures NoDup(SortedRefs(ms)) && |SortedRefs(ms)| == |RefUnits(ms)|
    ensures ToSet(SortedRefs(ms)) == ToSet(RefUnits(ms))
  {
    var refs, sorted := RefUnits(ms), SortedRefs(ms);
    ExtendElements(AllMaskable(ms));
    StringOrderIsTotal();
    StableSort.SortCorrect(refs, StringOrder);
    assert |multiset(sorted)| == |multiset(refs)|;
    forall x ensures x in sorted <==> x in refs { assert x in multiset(sorted) <==> x in multiset(refs); }
    NoDupByCount(refs);
    CountNoDup(sorted);
  }

  lemma {:induction false} NoDupByCount(s: seq<string>)
    requires NoDup(s)
    ensures forall x :: multiset(s)[x] <= 1
  {
    if s != [] {
      assert s == s[..|s| - 1] + [s[|s| - 1]];
      NoDupByCount(s[..|s| - 1]);
      assert s[|s| - 1] !in multiset(s[..|s| - 1]);
    }
  }

  lemma CountNoDup(s: seq<string>)
    requires forall x :: multiset(s)[x] <= 1
    ensures NoDup(s)
  {
    forall i, j | 0 <= i < j < |s| ensures s[i] != s[j] {
      assert s == s[..j] + [s[j]] + s[j + 1..];
      assert multiset(s)[s[j]] == multiset(s[..j])[s[j]] + 1 + multiset(s[j + 1..])[s[j]];
      assert s[..j][i] == s[i] && s[i] in multiset(s[..j]);
    }
  }

  ghost predicate CarriedIn(ms: seq<Message>, x: string) {
    exists i | 0 <= i < |ms| :: ms[i].content.Json? && ObjectCarries(ms[i].content.obj, x)
  }

  /** A text that is not empty, no JSON object and not masked yet. */
  predicate FreeText(m: Message) {
    m.content.Text? && m.content.text != [] && m.content.text != MASK_PLACEHOLDER
  }

  /** Something in the list can be masked: an entry that carries a reference, or a free text. */
  ghost predicate HasUnits(ms: seq<Message>) {
    (exists x :: CarriedIn(ms, x)) || (exists i | 0 <= i < |ms| :: FreeText(ms[i]))
  }

  /** Every reference that is carried and every free text. */
  ghost predicate MasksAll(m: Mask, ms: seq<Message>) {
    && (forall x :: x in m.refs <==> CarriedIn(ms, x))
    && (forall i: nat :: i in m.raw <==> i < |ms| && FreeText(ms[i]))
  }

  /** A recovery gets as far as a search exactly when there is something to mask and masking it all is accepted. */
  lemma RecoverySearchesExactly(ms: seq<Message>, max: nat, accepts: Oracle, all: Mask)
    requires MasksAll(all, ms)
    ensures FoundMask(ms, max, accepts).Some? <==> HasUnits(ms) && accepts(0, all)
  {
    RefUnitsExact(ms);
    RawUnitsExact(ms);
    SortedRefsAreUnits(ms);
    assert Full(SortedRefs(ms), RawUnits(ms)).refs == all.refs;
    assert Full(SortedRefs(ms), RawUnits(ms)) == all;
    if RefUnits(ms) != [] { assert CarriedIn(ms, RefUnits(ms)[0]); }
    if RawUnits(ms) != [] { assert RawUnits(ms)[0] in RawUnits(ms); }
    if i :| 0 <= i < |ms| && FreeText(ms[i]) { assert i in RawUnits(ms); }
    if x :| CarriedIn(ms, x) { assert x in RefUnits(ms); }
  }

  /** Each trial sends what the handler would send anyway, with the trial's mask over it. */
  lemma TrialExtendsView(tryCall: Provider, ms: seq<Message>, known: set<string>, sessionRaw: set<nat>, k: nat, m: Mask)
    ensures OnMasks(tryCall, ms, known, sessionRaw)(k, m)
            == tryCall(k, Masked(Masked(ms, known, sessionRaw), m.refs, m.raw))
  {
    MaskCompose(ms, known, sessionRaw, m.refs, m.raw);
  }

  /**
   Whatever the provider answers, a recovery makes at most max trials and one final call, and the final mask lies
   within the collected units and was accepted by one of the trials.
  */
  lemma RecoveryIsBounded(ms: seq<Message>, max: nat, accepts: Oracle)
    requires 2 <= max && FoundMask(ms, max, accepts).Some?
    ensures var (m, trials) := FoundMask(ms, max, accepts).value;
            && 1 <= trials <= max && Accepted(m, trials, accepts)
            && m.refs <= ToSet(RefUnits(ms)) && m.raw <= ToSet(RawUnits(ms))
  {
    SearchAccepted(SortedRefs(ms), RawUnits(ms), max, accepts);
    SortedRefsAreUnits(ms);
  }

  /** With a steady provider a recovery succeeds exactly when there is something to mask and all of it may be masked. */
  lemma SteadyRecoverySucceeds(ms: seq<Message>, max: nat, accepts: Oracle, all: Mask)
    requires 2 <= max && Steady(accepts) && MasksAll(all, ms)
    ensures var found := FoundMask(ms, max, accepts);
            (found.Some? && accepts(found.value.1, found.value.0)) <==> HasUnits(ms) && accepts(0, all)
  {
    RecoverySearchesExactly(ms, max, accepts, all);
    if FoundMask(ms, max, accepts).Some? {
      RecoveryIsBounded(ms, max, accepts);
      var (m, trials) := FoundMask(ms, max, accepts).value;
      var k: nat :| k < trials && accepts(k, m);
      assert accepts(k, m) == accepts(0, m) && accepts(trials, m) == accepts(0, m);
    }
  }

  /** With a steady, monotone provider and trials enough, the final call is accepted and its mask is minimal. */
  lemma RecoveryIsMinimal(ms: seq<Message>, max: nat, accepts: Oracle)
    requires 2 <= max && Need(|RefUnits(ms)|, |RawUnits(ms)|) <= max
    requires Steady(accepts) && Monotone(accepts) && FoundMask(ms, max, accepts).Some?
    ensures var (m, trials) := FoundMask(ms, max, accepts).value; accepts(trials, m) && Minimal(m, accepts)
  {
    RecoveryIsBounded(ms, max, accepts);
    SortedRefsAreUnits(ms);
    SearchMinimal(SortedRefs(ms), RawUnits(ms), max, accepts);
    var (m, trials) := FoundMask(ms, max, accepts).value;
    var k: nat :| k < trials && accepts(k, m);
    assert accepts(k, m) == accepts(0, m) && accepts(trials, m) == accepts(0, m);
  }

  /** A provider that objects to a fixed set of visible texts. */
  function Blocking(bad: set<string>): Provider { (k: nat, view: seq<Message>) => Clean(view, bad) }

  /** Such a provider is steady and monotone on every list. */
  lemma BlockingProvider(ms: seq<Message>, known: set<string>, sessionRaw: set<nat>, bad: set<string>)
    requires MASK_PLACEHOLDER !in bad && CHUNK_PLACEHOLDER !in bad
    ensures var accepts := OnMasks(Blocking(bad), ms, known, sessionRaw); Steady(accepts) && Monotone(accepts)
  {
    forall m: Mask, m': Mask | Within(m, m')
      ensures Clean(Masked(ms, known + m.refs, sessionRaw + m.raw), bad)
          ==> Clean(Masked(ms, known + m'.refs, sessionRaw + m'.raw), bad)
    {
      MaskingIsMonotone(ms, known + m.refs, sessionRaw + m.raw, known + m'.refs, sessionRaw + m'.raw, bad);
    }
  }

  /**
   The general form, whatever positions are remembered: the handler's next view of the list is the accepted one exactly
   when no message outside those positions shows, under what the handler knows, a reference it did not learn.
  */
  lemma RememberedInGeneral(ms: seq<Message>, known: set<string>, registered: set<string>, m: Mask, raw: set<nat>)
    ensures var view := Masked(ms, known + (m.refs - registered), raw);
            view == Masked(ms, known + m.refs, raw)
            <==> forall i | 0 <= i < |ms| && i !in raw && view[i].content.Json? ::
                   !Shows(view[i].content.obj, m.refs * registered - known)
  {
    var learnt, forgotten := known + (m.refs - registered), m.refs * registered - known;
    ListMaskedAgain(ms, learnt, forgotten, raw);
    assert learnt + forgotten == known + m.refs;
  }

  /**
   While the remembered positions hold free text: after a successful recovery the handler's own next view of the list
   is the accepted one exactly when no newly masked reference had reached the registry from elsewhere. Such a reference
   is not reported as added, so the handler never learns it and shows its text again.
  */
  lemma RememberedExactly(ms: seq<Message>, known: set<string>, registered: set<string>, m: Mask, raw: set<nat>)
    requires m.refs <= ToSet(RefUnits(ms)) && forall i | i in raw && i < |ms| :: IsRawUnit(ms[i])
    ensures Masked(ms, known + (m.refs - registered), raw) == Masked(ms, known + m.refs, raw)
      <==> m.refs * registered <= known
  {
    var learnt := known + (m.refs - registered);
    CollectAfterMask(ms, learnt, raw);
    CollectAfterMask(ms, known + m.refs, raw);
    if m.refs * registered <= known {
      assert learnt == known + m.refs;
    } else {
      var r :| r in m.refs * registered && r !in known;
      WithoutKeeps(RefUnits(ms), learnt, r);
      WithoutKeeps(RefUnits(ms), known + m.refs, r);
    }
  }
}
