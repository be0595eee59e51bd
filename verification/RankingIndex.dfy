/**
 The indexed clustering as the code decides it: semantic buckets, evidence buckets with an overlap-count prefilter,
 month buckets, and a summary test that replaces most pairwise comparisons. The theorem is that for a positive
 threshold and stamps written in one calendar the index changes nothing.
*/
module RankingIndex {
  import opened Common
  import opened Ranking

  // ---- what the buckets say about one cluster ---------------------------------------------------------------

  predicate HasSemantic(g: Group, k: SemanticKey) { exists m | m in g :: m.semantic == k }

  predicate HasEvidence(g: Group, eventType: string, e: string) {
    exists m | m in g :: m.Type() == eventType && e in m.evidence
  }

  predicate HasMonth(g: Group, eventType: string, month: int) {
    exists m | m in g :: m.Type() == eventType && m.FirstMonth() <= month <= m.LastMonth()
  }

  predicate InMonths(g: Group, c: Candidate) {
    exists p: int | c.FirstMonth() <= p <= c.LastMonth() :: HasMonth(g, c.Type(), p)
  }

  predicate Between(p: int, a: int, b: int) { a <= p <= b || b <= p <= a }

  /** A member of the candidate's type whose months, in whichever order they are written, meet the candidate's. */
  lemma InMonthsExactly(g: Group, c: Candidate)
    ensures InMonths(g, c) <==>
      exists m, p: int | m in g && Between(p, m.start.month, m.end.month) ::
        m.semantic.eventType == c.semantic.eventType && Between(p, c.start.month, c.end.month)
  {
    if InMonths(g, c) {
      var p: int :| c.FirstMonth() <= p <= c.LastMonth() && HasMonth(g, c.Type(), p);
      var m :| m in g && m.Type() == c.Type() && m.FirstMonth() <= p <= m.LastMonth();
      assert Between(p, m.start.month, m.end.month) && Between(p, c.start.month, c.end.month);
    }
    if m, p: int :| m in g && Between(p, m.start.month, m.end.month)
                    && m.semantic.eventType == c.semantic.eventType && Between(p, c.start.month, c.end.month) {
      assert c.FirstMonth() <= p <= c.LastMonth() && m.FirstMonth() <= p <= m.LastMonth();
      assert HasMonth(g, c.Type(), p);
    }
  }

  /** The evidence ids of c that some member of the cluster carries, not necessarily the representative. */
  function Hits(g: Group, c: Candidate): set<string> { set e | e in c.evidence && HasEvidence(g, c.Type(), e) }

  /** The prefilter: a ratio built from the over-approximated overlap. */
  predicate MayOverlap(hits: nat, candidateCount: nat, representativeCount: nat, t: real) {
    var union := candidateCount + representativeCount - hits;
    hits > 0 && union > 0 && hits as real >= t * union as real
  }

  predicate Listed(g: Group, c: Candidate, t: real)
    requires g != []
  {
    InMonths(g, c) && (HasSemantic(g, c.semantic) || MayOverlap(|Hits(g, c)|, |c.evidence|, |g[0].evidence|, t))
  }

  // ---- the summary test -----------------------------------------------------------------------------------

  predicate AllSemantic(g: Group, k: SemanticKey) { forall m | m in g :: m.semantic == k }

  predicate AllEvidence(g: Group, e: set<string>) { forall m | m in g :: m.evidence == e }

  predicate OverlapsAll(c: Candidate, g: Group) { forall m | m in g :: RangesOverlap(c, m) }

  predicate FitsFast(g: Group, c: Candidate, t: real) {
    if AllSemantic(g, c.semantic) || AllEvidence(g, c.evidence) then OverlapsAll(c, g) else SameAsAll(c, g, t)
  }

  predicate Takes(g: Group, c: Candidate, t: real)
    requires g != []
  {
    Listed(g, c, t) && FitsFast(g, c, t)
  }

  function FirstTaking(groups: seq<Group>, c: Candidate, t: real): (k: nat)
    requires NonEmpty(groups)
    ensures k <= |groups|
    ensures forall i | 0 <= i < k :: !Takes(groups[i], c, t)
    ensures k < |groups| ==> Takes(groups[k], c, t)
  {
    if groups == [] then 0
    else
      var k := FirstTaking(groups[..|groups| - 1], c, t);
      if k < |groups| - 1 then k else if Takes(groups[|groups| - 1], c, t) then |groups| - 1 else |groups|
  }

  /** The clustering the indexed code builds from a ranked list. */
  function Indexed(cs: seq<Candidate>, t: real): (groups: seq<Group>)
    ensures NonEmpty(groups)
  {
    if cs == [] then []
    else
      var groups := Indexed(cs[..|cs| - 1], t);
      Place(groups, cs[|cs| - 1], FirstTaking(groups, cs[|cs| - 1], t))
  }

  // ---- why the index is exact -----------------------------------------------------------------------------

  /** Later stamps of these two candidates are never written in an earlier month. */
  predicate MonthsFollow(a: Stamp, b: Stamp) { a.instant <= b.instant ==> a.month <= b.month }

  /** All stamps of the list are written in one calendar, so the month never runs against time. */
  ghost predicate OneCalendar(cs: seq<Candidate>) {
    forall a, b | a in cs && b in cs ::
      MonthsFollow(a.start, b.start) && MonthsFollow(a.start, b.end) &&
      MonthsFollow(a.end, b.start) && MonthsFollow(a.end, b.end)
  }

  lemma ScaledMonotone(t: real, x: int, y: int)
    requires t >= 0.0 && x <= y
    ensures t * x as real <= t * y as real
  {
    assert t * (y - x) as real >= 0.0;
    assert t * (y - x) as real == t * y as real - t * x as real;
  }

  lemma EmptyNeverSimilar(a: set<string>, b: set<string>, t: real)
    requires t > 0.0 && (a == {} || b == {})
    ensures !JaccardAtLeast(a, b, t)
  {
    assert a * b == {};
    if a + b != {} {
      assert |a + b| >= 1;
      ScaledMonotone(t, 1, |a + b|);
    }
  }

  /** Overlapping ranges of one calendar, inverted or not, share a month. */
  lemma OverlapSharesMonth(c: Candidate, m: Candidate, cs: seq<Candidate>) returns (p: int)
    requires OneCalendar(cs) && c in cs && m in cs && RangesOverlap(c, m)
    ensures c.FirstMonth() <= p <= c.LastMonth() && m.FirstMonth() <= p <= m.LastMonth()
  {
    p := if c.FirstMonth() <= m.FirstMonth() then m.FirstMonth() else c.FirstMonth();
    assert MonthsFollow(c.start, m.end) && MonthsFollow(m.start, c.end);
  }

  /** The over-counted overlap never rejects a truly similar representative. */
  lemma PrefilterPasses(g: Group, c: Candidate, t: real)
    requires g != [] && 0.0 < t && c.Type() == g[0].Type() && JaccardAtLeast(c.evidence, g[0].evidence, t)
    ensures MayOverlap(|Hits(g, c)|, |c.evidence|, |g[0].evidence|, t)
  {
    var r := g[0].evidence;
    if c.evidence == {} || r == {} { EmptyNeverSimilar(c.evidence, r, t); assert false; }
    assert g[0] in g;
    SubsetSize(c.evidence * r, Hits(g, c));
    SubsetSize(Hits(g, c), c.evidence);
    assert |c.evidence + r| == |c.evidence| + |r| - |c.evidence * r|;
    ScaledMonotone(t, |c.evidence| + |r| - |Hits(g, c)|, |c.evidence + r|);
    ScaledMonotone(t, 1, |c.evidence + r|);
  }

  /** A fitting cluster is listed exactly when it shares a month with the candidate: no other device hides one. */
  lemma OnlyMonthsHide(g: Group, c: Candidate, t: real)
    requires g != [] && 0.0 < t && SameAsAll(c, g, t)
    ensures Listed(g, c, t) <==> InMonths(g, c)
  {
    assert g[0] in g && SameEvent(c, g[0], t);
    if c.semantic != g[0].semantic { PrefilterPasses(g, c, t); }
  }

  /** Within one calendar a fitting cluster always shares a month with the candidate. */
  lemma OneCalendarMeets(g: Group, c: Candidate, t: real, cs: seq<Candidate>)
    requires g != [] && SameAsAll(c, g, t) && OneCalendar(cs) && c in cs && g[0] in cs
    ensures InMonths(g, c)
  {
    assert g[0] in g && SameEvent(c, g[0], t);
    var p := OverlapSharesMonth(c, g[0], cs);
    assert HasMonth(g, c.Type(), p);
  }

  /** On a listed complete-link cluster the summary test is the pairwise test. */
  lemma FastIsPairwise(g: Group, c: Candidate, t: real)
    requires g != [] && 0.0 <= t <= 1.0 && PairwiseSame(g, t) && Listed(g, c, t)
    ensures FitsFast(g, c, t) <==> SameAsAll(c, g, t)
  {
    forall m | m in g ensures m.Type() == c.Type() { ListedHasType(g, c, t); }
    if AllEvidence(g, c.evidence) && !AllSemantic(g, c.semantic) {
      if c.evidence == {} && t > 0.0 { EmptyClusterIsUniform(g, t); }
      forall m | m in g ensures JaccardAtLeast(c.evidence, m.evidence, t) {
        assert c.evidence + m.evidence == c.evidence && c.evidence * m.evidence == c.evidence;
        ScaledAtMost(t, |c.evidence|);
      }
    }
  }

  lemma ScaledAtMost(t: real, n: nat)
    requires t <= 1.0
    ensures t * n as real <= n as real
  {
    assert (1.0 - t) * n as real >= 0.0;
  }

  /** The evidence path never compares types: that all types agree follows from how the cluster was listed. */
  lemma ListedHasType(g: Group, c: Candidate, t: real)
    requires g != [] && PairwiseSame(g, t) && Listed(g, c, t)
    ensures forall m | m in g :: m.Type() == c.Type()
  {
    assert exists m | m in g :: m.Type() == c.Type() by {
      var p: int :| c.FirstMonth() <= p <= c.LastMonth() && HasMonth(g, c.Type(), p);
    }
    var k :| 0 <= k < |g| && g[k].Type() == c.Type();
    forall m | m in g ensures m.Type() == c.Type() {
      var i :| 0 <= i < |g| && g[i] == m;
      if i < k { assert SameEvent(g[i], g[k], t); } else if k < i { assert SameEvent(g[k], g[i], t); }
    }
  }

  /** A complete-link cluster without any evidence holds a single semantic key. */
  lemma EmptyClusterIsUniform(g: Group, t: real)
    requires g != [] && 0.0 < t && PairwiseSame(g, t) && AllEvidence(g, {})
    ensures forall a, b | a in g && b in g :: a.semantic == b.semantic
  {
    forall a, b | a in g && b in g ensures a.semantic == b.semantic {
      var i :| 0 <= i < |g| && g[i] == a;
      var j :| 0 <= j < |g| && g[j] == b;
      EmptyNeverSimilar({}, {}, t);
      if i < j { assert SameEvent(g[i], g[j], t); } else if j < i { assert SameEvent(g[j], g[i], t); }
    }
  }

  // ---- what the indexed clusters keep at every threshold -----------------------------------------------------

  lemma {:induction false} IndexedGrown(cs: seq<Candidate>, t: real)
    requires 0.0 <= t <= 1.0
    ensures Grown(Indexed(cs, t), cs, t)
  {
    if cs != [] {
      var front, c := cs[..|cs| - 1], cs[|cs| - 1];
      var groups := Indexed(front, t);
      var k := FirstTaking(groups, c, t);
      IndexedGrown(front, t);
      GrownCompleteLink(groups, front, t);
      if k < |groups| { FastIsPairwise(groups[k], c, t); }
      GrownBy(groups, cs, k, t);
    }
  }

  /** Some first members of the group already turned c away. */
  ghost predicate TurnedAway(g: Group, c: Candidate, t: real) {
    exists n {:trigger g[..n]} | 1 <= n <= |g| :: !Takes(g[..n], c, t)
  }

  /** The head of every group was turned away by each earlier group, as that group stood when the head was placed. */
  ghost predicate KeptApart(groups: seq<Group>, t: real) {
    NonEmpty(groups) && forall i, j | 0 <= i < j < |groups| :: TurnedAway(groups[i], groups[j][0], t)
  }

  lemma TurnedAwayStays(g: Group, more: Group, c: Candidate, t: real)
    requires TurnedAway(g, c, t)
    ensures TurnedAway(g + more, c, t)
  {
    var n :| 1 <= n <= |g| && !Takes(g[..n], c, t);
    assert (g + more)[..n] == g[..n];
  }

  lemma {:induction false} IndexedKeptApart(cs: seq<Candidate>, t: real)
    ensures KeptApart(Indexed(cs, t), t)
  {
    if cs != [] {
      var front, c := cs[..|cs| - 1], cs[|cs| - 1];
      IndexedKeptApart(front, t);
      var groups := Indexed(front, t);
      var k := FirstTaking(groups, c, t);
      var placed := Place(groups, c, k);
      forall i, j | 0 <= i < j < |placed| ensures TurnedAway(placed[i], placed[j][0], t) {
        if j < |groups| {
          assert placed[j][0] == groups[j][0] && TurnedAway(groups[i], groups[j][0], t);
          if i == k { TurnedAwayStays(groups[i], [c], groups[j][0], t); }
        } else {
          assert groups[i][..|groups[i]|] == groups[i] && !Takes(groups[i], c, t);
        }
      }
    }
  }

  /**
   At a positive threshold, whoever was turned away differs from some member, or shared no month with the members of
   the time.
  */
  lemma TurnedAwayExactly(g: Group, c: Candidate, t: real)
    requires 0.0 < t <= 1.0 && PairwiseSame(g, t)
    ensures TurnedAway(g, c, t)
      <==> g != [] && (!SameAsAll(c, g, t) || exists n {:trigger g[..n]} | 1 <= n <= |g| :: !InMonths(g[..n], c))
  {
    forall n | 1 <= n <= |g| ensures Takes(g[..n], c, t) <==> SameAsAll(c, g[..n], t) && InMonths(g[..n], c) {
      TakesExactly(g[..n], c, t);
    }
    if g != [] { assert g[..|g|] == g; }
    forall n | 1 <= n <= |g| && !SameAsAll(c, g[..n], t) ensures !SameAsAll(c, g, t) {
      var m :| m in g[..n] && !SameEvent(c, m, t);
      assert m in g;
    }
  }

  lemma TakesExactly(g: Group, c: Candidate, t: real)
    requires g != [] && 0.0 < t <= 1.0 && PairwiseSame(g, t)
    ensures Takes(g, c, t) <==> SameAsAll(c, g, t) && InMonths(g, c)
  {
    if SameAsAll(c, g, t) { OnlyMonthsHide(g, c, t); }
    if Listed(g, c, t) { FastIsPairwise(g, c, t); }
  }

  /**
   The clusters of the code, for any candidates and any legal threshold: each candidate is in exactly one, members are
   pairwise the same event, heads lead in rank and come out in rank order, ties keep the input order, and each head
   was turned away by every earlier cluster.
  */
  lemma ClusteringTheorem(candidates: seq<Candidate>, t: real)
    requires 0.0 <= t <= 1.0
    ensures Sound(Indexed(SortByRank(candidates), t), candidates, t)
    ensures KeptApart(Indexed(SortByRank(candidates), t), t)
  {
    IndexedGrown(SortByRank(candidates), t);
    GrownIsSound(Indexed(SortByRank(candidates), t), candidates, t);
    IndexedKeptApart(SortByRank(candidates), t);
  }

  // ---- where the index agrees with the simple rule ---------------------------------------------------------------

  /** Whether the simple rule's choice for c passes the month filter. */
  predicate ChoiceInMonths(groups: seq<Group>, c: Candidate, t: real) {
    var k := FirstSame(groups, c, t);
    k < |groups| ==> InMonths(groups[k], c)
  }

  lemma FirstsAgree(groups: seq<Group>, c: Candidate, t: real)
    requires 0.0 < t <= 1.0 && CompleteLink(groups, t)
    ensures FirstTaking(groups, c, t) == FirstSame(groups, c, t) <==> ChoiceInMonths(groups, c, t)
  {
    forall i | 0 <= i < |groups|
      ensures Takes(groups[i], c, t) <==> SameAsAll(c, groups[i], t) && InMonths(groups[i], c)
    {
      TakesExactly(groups[i], c, t);
    }
  }

  /** The indexed code and the simple rule agree after every candidate of the list. */
  ghost predicate AgreeThroughout(cs: seq<Candidate>, t: real) {
    forall n | 0 <= n <= |cs| :: Indexed(cs[..n], t) == Naive(cs[..n], t)
  }

  /** Each candidate meets the month of the cluster the simple rule puts it in. */
  ghost predicate MonthsMeet(cs: seq<Candidate>, t: real) {
    forall n | 0 <= n < |cs| :: ChoiceInMonths(Naive(cs[..n], t), cs[n], t)
  }

  lemma StepAgrees(cs: seq<Candidate>, n: nat, t: real)
    requires n < |cs| && 0.0 < t <= 1.0 && Indexed(cs[..n], t) == Naive(cs[..n], t)
    ensures Indexed(cs[..n + 1], t) == Naive(cs[..n + 1], t) <==> ChoiceInMonths(Naive(cs[..n], t), cs[n], t)
  {
    var groups := Naive(cs[..n], t);
    assert cs[..n + 1][..n] == cs[..n];
    NaiveCompleteLink(cs[..n], t);
    FirstsAgree(groups, cs[n], t);
    PlaceInjective(groups, cs[n], FirstTaking(groups, cs[n], t), FirstSame(groups, cs[n], t));
  }

  lemma PlaceInjective(groups: seq<Group>, c: Candidate, k: nat, j: nat)
    requires k <= |groups| && j <= |groups|
    ensures Place(groups, c, k) == Place(groups, c, j) <==> k == j
  {
    if k != j {
      var low := if k < j then k else j;
      assert |Place(groups, c, low)[low]| == |groups[low]| + 1;
      assert Place(groups, c, k)[low] != Place(groups, c, j)[low];
    }
  }

  lemma {:induction false} AgreeUpTo(cs: seq<Candidate>, n: nat, t: real)
    requires 0.0 < t <= 1.0 && n <= |cs| && MonthsMeet(cs, t)
    ensures Indexed(cs[..n], t) == Naive(cs[..n], t)
  {
    if n == 0 {
      assert cs[..0] == [];
    } else {
      AgreeUpTo(cs, n - 1, t);
      StepAgrees(cs, n - 1, t);
    }
  }

  lemma CalendarOfPermutation(cs: seq<Candidate>, other: seq<Candidate>)
    requires multiset(cs) == multiset(other) && OneCalendar(cs)
    ensures OneCalendar(other)
  {
    forall c | c in other ensures c in cs { assert c in multiset(other); }
  }

  /** The index refines the simple rule, candidate by candidate, exactly when no chosen cluster is out of month. */
  lemma IndexedExactly(cs: seq<Candidate>, t: real)
    requires 0.0 < t <= 1.0
    ensures AgreeThroughout(cs, t) <==> MonthsMeet(cs, t)
  {
    if AgreeThroughout(cs, t) {
      forall n | 0 <= n < |cs| ensures ChoiceInMonths(Naive(cs[..n], t), cs[n], t) {
        assert Indexed(cs[..n], t) == Naive(cs[..n], t) && Indexed(cs[..n + 1], t) == Naive(cs[..n + 1], t);
        StepAgrees(cs, n, t);
      }
    }
    if MonthsMeet(cs, t) {
      forall n | 0 <= n <= |cs| ensures Indexed(cs[..n], t) == Naive(cs[..n], t) { AgreeUpTo(cs, n, t); }
    }
  }

  /** Within one calendar the index changes nothing: same groups, same order, same members. */
  lemma IndexedIsNaive(cs: seq<Candidate>, t: real)
    requires 0.0 < t <= 1.0 && OneCalendar(cs)
    ensures Indexed(cs, t) == Naive(cs, t)
  {
    forall n | 0 <= n < |cs| ensures ChoiceInMonths(Naive(cs[..n], t), cs[n], t) {
      var groups := Naive(cs[..n], t);
      var k := FirstSame(groups, cs[n], t);
      NaiveCompleteLink(cs[..n], t);
      if k < |groups| {
        SubsequenceMembers(groups[k], cs[..n]);
        assert groups[k][0] in groups[k] && groups[k][0] in cs[..n];
        OneCalendarMeets(groups[k], cs[n], t, cs);
      }
    }
    AgreeUpTo(cs, |cs|, t);
    assert cs[..|cs|] == cs;
  }

  // ---- where the index and the simple rule part -----------------------------------------------------------

  const K1 := SemanticKey("commitment", "", "", "a")
  const K2 := SemanticKey("commitment", "", "", "b")

  lemma PairClusters(a: Candidate, b: Candidate, t: real)
    ensures Naive([a, b], t) == if SameEvent(b, a, t) then [[a, b]] else [[a], [b]]
    ensures Indexed([a, b], t) == if Takes([a], b, t) then [[a, b]] else [[a], [b]]
  {
    var one: seq<Group> := [[a]];
    assert [a][..0] == [] && [a, b][..1] == [a];
    assert Naive([], t) == [] && Naive([a], t) == Place([], a, 0) == one;
    assert Indexed([], t) == [] && Indexed([a], t) == Place([], a, 0) == one;
    assert [a] + [b] == [a, b];
    assert Place(one, b, 0) == [[a, b]] && Place(one, b, 1) == [[a], [b]];
    assert one[0] == [a] && (SameAsAll(b, one[0], t) <==> SameEvent(b, a, t));
    assert Naive([a, b], t) == Place(one, b, FirstSame(one, b, t));
    assert Indexed([a, b], t) == Place(one, b, FirstTaking(one, b, t));
  }

  /** Two events with disjoint evidence are similar at threshold 0 but never meet in a bucket. */
  lemma ThresholdZeroHides() returns (cs: seq<Candidate>)
    ensures OneCalendar(cs) && Indexed(cs, 0.0) != Naive(cs, 0.0)
  {
    var a := Candidate("a", 1.0, K1, {"x"}, Stamp(0, 0), Stamp(1, 0));
    var b := Candidate("b", 1.0, K2, {"y"}, Stamp(0, 0), Stamp(1, 0));
    PairClusters(a, b, 0.0);
    assert SameEvent(b, a, 0.0);
    assert "y"[0] != "x"[0] && K1.topic[0] != K2.topic[0];
    assert a.semantic != b.semantic && !Takes([a], b, 0.0) by {
      forall e | e in b.evidence ensures !HasEvidence([a], b.Type(), e) { }
      assert Hits([a], b) == {};
    }
    assert |Naive([a, b], 0.0)| != |Indexed([a, b], 0.0)|;
    cs := [a, b];
  }

  /** The index and the simple rule agree on every one-calendar list. */
  ghost predicate ExactAt(t: real) { forall cs | OneCalendar(cs) :: Indexed(cs, t) == Naive(cs, t) }

  lemma NotExactAtZero()
    ensures !ExactAt(0.0)
  {
    var cs := ThresholdZeroHides();
    assert Indexed(cs, 0.0) != Naive(cs, 0.0);
  }

  /** The index is exact precisely at the positive thresholds. */
  lemma ExactThresholds(t: real)
    requires 0.0 <= t <= 1.0
    ensures ExactAt(t) <==> 0.0 < t
  {
    if 0.0 < t {
      forall cs | OneCalendar(cs) ensures Indexed(cs, t) == Naive(cs, t) { IndexedIsNaive(cs, t); }
    } else {
      NotExactAtZero();
    }
  }

  /** With stamps written at different offsets one instant can fall in two months, and the index hides a twin. */
  lemma MixedCalendarsHide(t: real) returns (cs: seq<Candidate>)
    requires 0.0 < t <= 1.0
    ensures Indexed(cs, t) != Naive(cs, t) && (forall c | c in cs :: c.WellFormed())
  {
    var a := Candidate("a", 1.0, K1, {}, Stamp(0, 0), Stamp(0, 0));
    var b := Candidate("b", 1.0, K1, {}, Stamp(0, 1), Stamp(0, 1));
    PairClusters(a, b, t);
    assert SameEvent(b, a, t);
    assert !InMonths([a], b);
    assert |Naive([a, b], t)| != |Indexed([a, b], t)|;
    cs := [a, b];
  }
}
