/** The trial budget of a recovery is exact for providers that reject fixed visible texts, on real message lists. */
module MaskBudget {
  import opened Common
  import StableSort
  import opened MaskedMessages
  import opened MaskSearch
  import opened MaskRecovery

  // ---- oracles that agree below the full mask ------------------------------------------------------------------

  ghost predicate Alike(a: Oracle, b: Oracle, full: Mask) {
    forall k: nat, m: Mask {:trigger a(k, m)} {:trigger b(k, m)} | Within(m, full) :: a(k, m) == b(k, m)
  }

  lemma {:induction false} BisectAlike(h: Hunt, max: nat, a: Oracle, b: Oracle, full: Mask)
    requires Alike(a, b, full) && Within(h.mask, full)
    ensures Bisect(h, max, a) == Bisect(h, max, b) && Within(Bisect(h, max, a).mask, full)
    decreases if h.trials < max then max - h.trials else 0, |h.pending|
  {
    if h.pending != [] && h.trials < max {
      assert Narrow(h, a) == Narrow(h, b) && Within(Narrow(h, a).mask, full);
      BisectAlike(Narrow(h, a), max, a, b, full);
    }
  }

  lemma {:induction false} PeelAlike(todo: seq<nat>, m: Mask, trials: nat, max: nat, a: Oracle, b: Oracle, full: Mask)
    requires Alike(a, b, full) && Within(m, full)
    ensures Peel(todo, m, trials, max, a) == Peel(todo, m, trials, max, b)
    ensures Within(Peel(todo, m, trials, max, a).0, full)
  {
    if todo != [] && trials < max {
      var smaller := Unraw(m, todo[0]);
      assert Within(smaller, full) && a(trials, smaller) == b(trials, smaller);
      PeelAlike(todo[1..], if a(trials, smaller) then smaller else m, trials + 1, max, a, b, full);
    }
  }

  lemma SearchAlike(refs: seq<string>, raw: seq<nat>, max: nat, a: Oracle, b: Oracle)
    requires Alike(a, b, Full(refs, raw))
    ensures Search(refs, raw, max, a) == Search(refs, raw, max, b)
    ensures Minimal(Search(refs, raw, max, a).0, a) <==> Minimal(Search(refs, raw, max, b).0, b)
  {
    var full := Full(refs, raw);
    BisectAlike(Hunt([refs], full, 1), max, a, b, full);
    var h := Bisect(Hunt([refs], full, 1), max, a);
    PeelAlike(raw, h.mask, h.trials, max, a, b, full);
    var m := Search(refs, raw, max, a).0;
    forall x | x in m.refs ensures a(0, Unref(m, {x})) == b(0, Unref(m, {x})) { assert Within(Unref(m, {x}), full); }
    forall i | i in m.raw ensures a(0, Unraw(m, i)) == b(0, Unraw(m, i)) { assert Within(Unraw(m, i), full); }
  }

  // ---- lists with one harmless unit ----------------------------------------------------------------------------

  const BAD := "bad"

  /** Names in ascending order. */
  function Name(i: nat): string { seq(i, k requires 0 <= k < i => 'x') }

  /** r free texts and then n messages with one entry each; all but the last unit of a kind carry the bad text. */
  function SampleContent(n: nat, r: nat, i: nat): Content {
    if i < r then Text(if i == r - 1 then "ok" else BAD)
    else
      var text := if r == 0 && i == n - 1 then "ok" else BAD;
      Json(JsonObject(Some([Entry(Some(Name(i - r)), Some(text))]), None, None, ""))
  }

  function Sample(n: nat, r: nat): seq<Message> {
    seq(r + n, i requires 0 <= i < r + n => Message(i, SampleContent(n, r, i)))
  }

  function Names(n: nat): seq<string> { seq(n, i requires 0 <= i < n => Name(i)) }

  function Numbers(n: nat): seq<nat> { seq(n, i requires 0 <= i < n => i) }

  lemma {:induction false} SampleRaw(n: nat, r: nat, k: nat)
    requires k <= r + n
    ensures RawUnits(Sample(n, r)[..k]) == Numbers(if k < r then k else r)
  {
    if k > 0 {
      SampleRaw(n, r, k - 1);
      assert Sample(n, r)[..k][..k - 1] == Sample(n, r)[..k - 1];
      assert Sample(n, r)[..k][k - 1].content == SampleContent(n, r, k - 1);
      assert |MASK_PLACEHOLDER| > 3;
    }
  }

  lemma SampleEntry(n: nat, r: nat, i: nat)
    requires r <= i < r + n
    ensures ObjectMaskable(SampleContent(n, r, i).obj) == [Name(i - r)]
  {
    var es := OrEmpty(SampleContent(n, r, i).obj.messages);
    assert es[..0] == [] && |MASK_PLACEHOLDER| > 3;
    assert MaskableRefs(es) == [Name(i - r)];
  }

  lemma AllMaskableAppend(ms: seq<Message>, m: Message)
    ensures AllMaskable(ms + [m])
            == if m.content.Json? then AllMaskable(ms) + ObjectMaskable(m.content.obj) else AllMaskable(ms)
  {
    assert (ms + [m])[..|ms|] == ms;
  }

  lemma SampleSnoc(n: nat, r: nat, k: nat)
    requires k < r + n
    ensures Sample(n, r)[..k + 1] == Sample(n, r)[..k] + [Message(k, SampleContent(n, r, k))]
  {
  }

  lemma {:induction false} SampleTexts(n: nat, r: nat, k: nat)
    requires k <= r
    ensures AllMaskable(Sample(n, r)[..k]) == []
  {
    if k > 0 {
      SampleTexts(n, r, k - 1);
      SampleSnoc(n, r, k - 1);
      AllMaskableAppend(Sample(n, r)[..k - 1], Message(k - 1, SampleContent(n, r, k - 1)));
    }
  }

  lemma NamesSnoc(n: nat)
    ensures Names(n + 1) == Names(n) + [Name(n)]
  {
  }

  lemma SampleRefsNext(n: nat, r: nat, j: nat, before: seq<Message>, last: Message)
    requires j < n && last == Message(r + j, SampleContent(n, r, r + j)) && AllMaskable(before) == Names(j)
    ensures AllMaskable(before + [last]) == Names(j + 1)
  {
    AllMaskableAppend(before, last);
    SampleEntry(n, r, r + j);
    NamesSnoc(j);
  }

  lemma {:induction false} SampleRefs(n: nat, r: nat, j: nat)
    requires j <= n
    ensures AllMaskable(Sample(n, r)[..r + j]) == Names(j)
  {
    if j == 0 {
      SampleTexts(n, r, r);
    } else {
      SampleRefs(n, r, j - 1);
      var k := r + j - 1;
      SampleSnoc(n, r, k);
      SampleRefsNext(n, r, j - 1, Sample(n, r)[..k], Message(k, SampleContent(n, r, k)));
    }
  }

  lemma {:induction false} ExtendDistinct(s: seq<string>)
    requires NoDup(s)
    ensures Extend([], s) == s
  {
    if s != [] { ExtendDistinct(s[..|s| - 1]); }
  }

  lemma {:induction false} NamesAscend(i: nat, j: nat)
    requires i <= j
    ensures StringLeq(Name(i), Name(j))
  {
    if i > 0 {
      assert Name(i)[1..] == Name(i - 1) && Name(j)[1..] == Name(j - 1);
      NamesAscend(i - 1, j - 1);
    }
  }

  lemma NamesDistinct(n: nat)
    ensures NoDup(Names(n))
  {
    assert forall i | 0 <= i < n :: |Names(n)[i]| == i;
  }

  lemma NamesSorted(n: nat)
    ensures StableSort.Sort(Names(n), StringOrder) == Names(n)
  {
    forall i, j | 0 <= i < j < n ensures StringOrder(Names(n)[i], Names(n)[j]) { NamesAscend(i, j); }
    StableSort.SortOfSorted(Names(n), StringOrder);
  }

  lemma SampleUnits(n: nat, r: nat)
    ensures RawUnits(Sample(n, r)) == Numbers(r) && RefUnits(Sample(n, r)) == Names(n) == SortedRefs(Sample(n, r))
    ensures NoDup(Names(n)) && NoDup(Numbers(r))
  {
    SampleRaw(n, r, r + n);
    SampleRefs(n, r, n);
    assert Sample(n, r)[..r + n] == Sample(n, r);
    NamesDistinct(n);
    ExtendDistinct(Names(n));
    NamesSorted(n);
  }

  /** The units a mask must cover: those with the bad text. */
  function Needed(n: nat, r: nat): Oracle {
    if r > 0 then Covering(ToSet(Names(n)), ToSet(Numbers(r)[..r - 1]))
    else if n > 0 then Covering(ToSet(Names(n)[..n - 1]), {})
    else Covering({}, {})
  }

  /** The i-th message is harmless or covered. */
  predicate Covered(n: nat, r: nat, m: Mask, i: nat) {
    if i < r then i == r - 1 || i in m.raw else (r == 0 && i == n - 1) || Name(i - r) in m.refs
  }

  lemma SampleMessageClean(n: nat, r: nat, m: Mask, i: nat)
    requires n + r > 0 && i < r + n && Within(m, Full(Names(n), Numbers(r)))
    ensures CleanContent(MaskContent(SampleContent(n, r, i), i in m.raw, m.refs), {BAD})
            <==> Covered(n, r, m, i)
  {
    assert MASK_PLACEHOLDER != BAD by { assert |MASK_PLACEHOLDER| > 3; }
    if i >= r {
      assert i !in m.raw;
      var e := Entry(Some(Name(i - r)), Some(if r == 0 && i == n - 1 then "ok" else BAD));
      var masked := MaskContent(SampleContent(n, r, i), false, m.refs);
      assert OrEmpty(masked.obj.messages) == [MaskEntry(e, m.refs)];
      assert OrEmpty(masked.obj.messages)[0] == MaskEntry(e, m.refs);
    }
  }

  /** The provider that objects to the bad text accepts exactly the masks that cover it. */
  lemma SampleProvider(n: nat, r: nat)
    requires n + r > 0
    ensures Alike(OnMasks(Blocking({BAD}), Sample(n, r), {}, {}), Needed(n, r), Full(Names(n), Numbers(r)))
  {
    var accepts := OnMasks(Blocking({BAD}), Sample(n, r), {}, {});
    forall k: nat, m: Mask | Within(m, Full(Names(n), Numbers(r))) ensures accepts(k, m) == Needed(n, r)(k, m) {
      assert {} + m.refs == m.refs && {} + m.raw == m.raw;
      SampleCovered(n, r, m);
    }
  }

  lemma CoveredTexts(n: nat, r: nat, m: Mask)
    requires r > 0 && forall i: nat | i < r + n :: Covered(n, r, m, i)
    ensures Needed(n, r)(0, m)
  {
    forall x | x in Names(n) ensures x in m.refs {
      var i :| 0 <= i < n && Names(n)[i] == x;
      assert Covered(n, r, m, r + i);
    }
    forall i | i in Numbers(r)[..r - 1] ensures i in m.raw { assert Covered(n, r, m, i); }
  }

  lemma CoveredRefs(n: nat, m: Mask)
    requires n > 0 && forall i: nat | i < n :: Covered(n, 0, m, i)
    ensures Needed(n, 0)(0, m)
  {
    forall x | x in Names(n)[..n - 1] ensures x in m.refs {
      var i :| 0 <= i < n - 1 && Names(n)[i] == x;
      assert Covered(n, 0, m, i);
    }
  }

  lemma NeededCovers(n: nat, r: nat, m: Mask, i: nat)
    requires n + r > 0 && Needed(n, r)(0, m) && i < r + n
    ensures Covered(n, r, m, i)
  {
    if i < r - 1 { assert Numbers(r)[..r - 1][i] == i; }
    if i >= r && r > 0 { assert Names(n)[i - r] in Names(n); }
    if r == 0 && i < n - 1 { assert Names(n)[..n - 1][i] == Name(i); }
  }

  lemma SampleCovered(n: nat, r: nat, m: Mask)
    requires n + r > 0 && Within(m, Full(Names(n), Numbers(r)))
    ensures Clean(Masked(Sample(n, r), m.refs, m.raw), {BAD}) <==> Needed(n, r)(0, m)
  {
    var view := Masked(Sample(n, r), m.refs, m.raw);
    forall i: nat | i < r + n ensures CleanContent(view[i].content, {BAD}) <==> Covered(n, r, m, i) {
      SampleMessageClean(n, r, m, i);
    }
    if Clean(view, {BAD}) {
      if r > 0 { CoveredTexts(n, r, m); } else { CoveredRefs(n, m); }
    }
    if Needed(n, r)(0, m) {
      forall i: nat | i < r + n ensures Covered(n, r, m, i) { NeededCovers(n, r, m, i); }
    }
  }

  // ---- the theorem ---------------------------------------------------------------------------------------------

  /** Every recovery of n references and r free texts from a provider that blocks fixed texts finds a minimal mask. */
  ghost predicate RecoveryAlwaysMinimal(n: nat, r: nat, max: nat) {
    forall ms: seq<Message>, known: set<string>, sessionRaw: set<nat>, bad: set<string> |
      |RefUnits(ms)| == n && |RawUnits(ms)| == r && MASK_PLACEHOLDER !in bad && CHUNK_PLACEHOLDER !in bad ::
      var accepts := OnMasks(Blocking(bad), ms, known, sessionRaw);
      FoundMask(ms, max, accepts).Some? ==> Minimal(FoundMask(ms, max, accepts).value.0, accepts)
  }

  lemma SampleNotMinimal(n: nat, r: nat, max: nat)
    requires n + r > 0 && 1 <= max < Need(n, r)
    ensures var accepts := OnMasks(Blocking({BAD}), Sample(n, r), {}, {});
            && accepts(0, Full(Names(n), Numbers(r)))
            && !Minimal(Search(Names(n), Numbers(r), max, accepts).0, accepts)
  {
    var accepts := OnMasks(Blocking({BAD}), Sample(n, r), {}, {});
    SampleUnits(n, r);
    if r > 0 { ShortOfRaw(Names(n), Numbers(r), max); } else { ShortOfRefs(Names(n), max); }
    SampleProvider(n, r);
    SearchAlike(Names(n), Numbers(r), max, accepts, Needed(n, r));
    assert accepts(0, Full(Names(n), Numbers(r))) == Needed(n, r)(0, Full(Names(n), Numbers(r)));
  }

  lemma SampleFails(n: nat, r: nat, max: nat)
    requires n + r > 0 && 2 <= max < Need(n, r)
    ensures !RecoveryAlwaysMinimal(n, r, max)
  {
    var ms, accepts := Sample(n, r), OnMasks(Blocking({BAD}), Sample(n, r), {}, {});
    SampleUnits(n, r);
    SampleNotMinimal(n, r, max);
    assert |MASK_PLACEHOLDER| > 3 && |CHUNK_PLACEHOLDER| > 3;
    assert FoundMask(ms, max, accepts) == Some(Search(Names(n), Numbers(r), max, accepts)) by {
      assert n > 0 ==> |Names(n)| > 0;
      assert r > 0 ==> |Numbers(r)| > 0;
    }
  }

  /** The budget that suffices for every recovery is the stated one, and no smaller one does. */
  lemma RecoveryBudgetExact(n: nat, r: nat, max: nat)
    requires n + r > 0 && 2 <= max
    ensures RecoveryAlwaysMinimal(n, r, max) <==> Need(n, r) <= max
  {
    if Need(n, r) <= max {
      forall ms: seq<Message>, known: set<string>, sessionRaw: set<nat>, bad: set<string> |
        |RefUnits(ms)| == n && |RawUnits(ms)| == r && MASK_PLACEHOLDER !in bad && CHUNK_PLACEHOLDER !in bad
        ensures var accepts := OnMasks(Blocking(bad), ms, known, sessionRaw);
                FoundMask(ms, max, accepts).Some? ==> Minimal(FoundMask(ms, max, accepts).value.0, accepts)
      {
        var accepts := OnMasks(Blocking(bad), ms, known, sessionRaw);
        BlockingProvider(ms, known, sessionRaw, bad);
        if FoundMask(ms, max, accepts).Some? { RecoveryIsMinimal(ms, max, accepts); }
      }
    } else {
      SampleFails(n, r, max);
    }
  }
}
