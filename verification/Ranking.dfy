/**
 Candidates and the simple complete-link rule: a ranked candidate joins the first cluster, in creation order,
 all of whose members describe the same event.
*/
module Ranking {
  import opened Common
  import StableSort

  /** A datetime: its position on the time line and the calendar month (year * 12 + month - 1) it is written in. */
  datatype Stamp = Stamp(instant: int, month: int)

  /** The type and the canonical texts of a candidate. */
  datatype SemanticKey = SemanticKey(eventType: string, before: string, after: string, topic: string)

  datatype Candidate = Candidate(
    key: string, total: real, semantic: SemanticKey, evidence: set<string>, start: Stamp, end: Stamp)
  {
    function Type(): string { semantic.eventType }

    predicate WellFormed() { start.instant <= end.instant }

    /** The month span, low end first even for an inverted range. */
    function FirstMonth(): int { if end.month < start.month then end.month else start.month }
    function LastMonth(): int { if end.month < start.month then start.month else end.month }
  }

  type Group = seq<Candidate>

  predicate RankLeq(a: Candidate, b: Candidate) {
    a.total > b.total || (a.total == b.total &&
      (a.start.instant < b.start.instant || (a.start.instant == b.start.instant && StringLeq(a.key, b.key))))
  }

  function SortByRank(cs: seq<Candidate>): seq<Candidate> { StableSort.Sort(cs, RankLeq) }

  predicate RangesOverlap(a: Candidate, b: Candidate) {
    a.start.instant <= b.end.instant && b.start.instant <= a.end.instant
  }

  /** Jaccard similarity at least t, as overlap >= t * union; the similarity of two empty sets is 0. */
  predicate JaccardAtLeast(a: set<string>, b: set<string>, t: real) {
    if a + b == {} then 0.0 >= t else |a * b| as real >= t * |a + b| as real
  }

  predicate SameEvent(a: Candidate, b: Candidate, t: real) {
    && a.Type() == b.Type() && RangesOverlap(a, b)
    && (a.semantic == b.semantic || JaccardAtLeast(a.evidence, b.evidence, t))
  }

  lemma SameEventSymmetric(a: Candidate, b: Candidate, t: real)
    ensures SameEvent(a, b, t) <==> SameEvent(b, a, t)
  {
    assert a.evidence + b.evidence == b.evidence + a.evidence;
    assert a.evidence * b.evidence == b.evidence * a.evidence;
  }

  predicate SameAsAll(c: Candidate, g: Group, t: real) { forall m | m in g :: SameEvent(c, m, t) }

  // ---- the simple rule -------------------------------------------------------------------------------------

  function FirstSame(groups: seq<Group>, c: Candidate, t: real): (k: nat)
    ensures k <= |groups|
    ensures forall i | 0 <= i < k :: !SameAsAll(c, groups[i], t)
    ensures k < |groups| ==> SameAsAll(c, groups[k], t)
  {
    if groups == [] then 0
    else
      var k := FirstSame(groups[..|groups| - 1], c, t);
      if k < |groups| - 1 then k else if SameAsAll(c, groups[|groups| - 1], t) then |groups| - 1 else |groups|
  }

  /** Puts c into group k, or opens a new group when k is one past the last. */
  function Place(groups: seq<Group>, c: Candidate, k: nat): seq<Group>
    requires k <= |groups|
  {
    if k < |groups| then groups[k := groups[k] + [c]] else groups + [[c]]
  }

  /** The clustering the simple rule builds from a ranked list. */
  function Naive(cs: seq<Candidate>, t: real): seq<Group> {
    if cs == [] then []
    else
      var groups := Naive(cs[..|cs| - 1], t);
      Place(groups, cs[|cs| - 1], FirstSame(groups, cs[|cs| - 1], t))
  }

  ghost predicate NonEmpty(groups: seq<Group>) { forall i | 0 <= i < |groups| :: groups[i] != [] }

  function Heads(groups: seq<Group>): seq<Candidate>
    requires NonEmpty(groups)
  {
    seq(|groups|, i requires 0 <= i < |groups| => groups[i][0])
  }

  // ---- what every clustering keeps -------------------------------------------------------------------------

  /** Groups are non-empty and complete-link: every two members describe the same event. */
  ghost predicate CompleteLink(groups: seq<Group>, t: real) {
    && NonEmpty(groups)
    && (forall k | 0 <= k < |groups| :: PairwiseSame(groups[k], t))
  }

  ghost predicate PairwiseSame(g: Group, t: real) { forall i, j | 0 <= i < j < |g| :: SameEvent(g[i], g[j], t) }

  function Flatten(groups: seq<Group>): Group {
    if groups == [] then [] else Flatten(groups[..|groups| - 1]) + groups[|groups| - 1]
  }

  lemma PlaceKeepsCompleteLink(groups: seq<Group>, c: Candidate, k: nat, t: real)
    requires CompleteLink(groups, t) && k <= |groups|
    requires k < |groups| ==> SameAsAll(c, groups[k], t)
    ensures CompleteLink(Place(groups, c, k), t)
  {
    if k < |groups| {
      forall i | 0 <= i < |groups[k]| ensures SameEvent(groups[k][i], c, t) {
        SameEventSymmetric(groups[k][i], c, t);
      }
    }
  }

  lemma {:induction false} PlaceFlattens(groups: seq<Group>, c: Candidate, k: nat)
    requires k <= |groups|
    ensures multiset(Flatten(Place(groups, c, k))) == multiset(Flatten(groups)) + multiset{c}
  {
    var placed := Place(groups, c, k);
    if k == |groups| {
      assert placed[..|groups|] == groups;
    } else {
      var front, last := groups[..|groups| - 1], groups[|groups| - 1];
      if k == |groups| - 1 {
        assert placed[..|placed| - 1] == front;
        assert Flatten(placed) == Flatten(groups) + [c];
      } else {
        assert placed[..|placed| - 1] == Place(front, c, k);
        PlaceFlattens(front, c, k);
      }
    }
  }

  // ---- clusterings that grow by one fitting placement at a time ----------------------------------------------

  /** One candidate is placed into a group it fits, or into a new one. */
  ghost predicate Places(before: seq<Group>, c: Candidate, k: nat, t: real, groups: seq<Group>) {
    k <= |before| && (k < |before| ==> SameAsAll(c, before[k], t)) && groups == Place(before, c, k)
  }

  /** The groups came about by placing the candidates of the list in turn. */
  ghost predicate Grown(groups: seq<Group>, cs: seq<Candidate>, t: real)
    decreases |cs|
  {
    if cs == [] then groups == []
    else
      exists before: seq<Group>, k: nat {:trigger Places(before, cs[|cs| - 1], k, t, groups)} ::
        Places(before, cs[|cs| - 1], k, t, groups) && Grown(before, cs[..|cs| - 1], t)
  }

  lemma LastPlaced(groups: seq<Group>, cs: seq<Candidate>, t: real) returns (before: seq<Group>, k: nat)
    requires cs != [] && Grown(groups, cs, t)
    ensures Places(before, cs[|cs| - 1], k, t, groups) && Grown(before, cs[..|cs| - 1], t)
  {
    before, k :| Places(before, cs[|cs| - 1], k, t, groups) && Grown(before, cs[..|cs| - 1], t);
  }

  lemma GrownBy(before: seq<Group>, cs: seq<Candidate>, k: nat, t: real)
    requires cs != [] && Grown(before, cs[..|cs| - 1], t)
    requires k <= |before| && (k < |before| ==> SameAsAll(cs[|cs| - 1], before[k], t))
    ensures Grown(Place(before, cs[|cs| - 1], k), cs, t)
  {
    assert Places(before, cs[|cs| - 1], k, t, Place(before, cs[|cs| - 1], k));
  }

  lemma {:induction false} GrownCompleteLink(groups: seq<Group>, cs: seq<Candidate>, t: real)
    requires Grown(groups, cs, t)
    ensures CompleteLink(groups, t)
    decreases |cs|
  {
    if cs != [] {
      var before, k := LastPlaced(groups, cs, t);
      GrownCompleteLink(before, cs[..|cs| - 1], t);
      PlaceKeepsCompleteLink(before, cs[|cs| - 1], k, t);
    }
  }

  lemma {:induction false} GrownPartitions(groups: seq<Group>, cs: seq<Candidate>, t: real)
    requires Grown(groups, cs, t)
    ensures multiset(Flatten(groups)) == multiset(cs)
    decreases |cs|
  {
    if cs != [] {
      var before, k := LastPlaced(groups, cs, t);
      assert cs == cs[..|cs| - 1] + [cs[|cs| - 1]];
      GrownPartitions(before, cs[..|cs| - 1], t);
      PlaceFlattens(before, cs[|cs| - 1], k);
    }
  }

  ghost predicate InOrder(groups: seq<Group>, cs: seq<Candidate>) {
    NonEmpty(groups) && Subsequence(Heads(groups), cs) && forall i | 0 <= i < |groups| :: Subsequence(groups[i], cs)
  }

  lemma HeadsAfterPlace(groups: seq<Group>, c: Candidate, k: nat)
    requires NonEmpty(groups) && k <= |groups|
    ensures NonEmpty(Place(groups, c, k))
    ensures Heads(Place(groups, c, k)) == Heads(groups) + (if k < |groups| then [] else [c])
  {
  }

  lemma HeadsInOrder(groups: seq<Group>, cs: seq<Candidate>, c: Candidate, k: nat)
    requires NonEmpty(groups) && Subsequence(Heads(groups), cs) && k <= |groups|
    ensures NonEmpty(Place(groups, c, k)) && Subsequence(Heads(Place(groups, c, k)), cs + [c])
  {
    HeadsAfterPlace(groups, c, k);
    SubsequenceLonger(Heads(groups), cs, c);
    assert Heads(groups) + [] == Heads(groups);
  }

  lemma PlaceInOrder(groups: seq<Group>, cs: seq<Candidate>, c: Candidate, k: nat)
    requires InOrder(groups, cs) && k <= |groups|
    ensures InOrder(Place(groups, c, k), cs + [c])
  {
    HeadsInOrder(groups, cs, c, k);
    forall i | 0 <= i <= |groups| && (i == |groups| ==> k == i)
      ensures Subsequence(Place(groups, c, k)[i], cs + [c])
    {
      var before := if i < |groups| then groups[i] else [];
      SubsequenceLonger(before, cs, c);
      assert Place(groups, c, k)[i] == if i == k then before + [c] else before;
    }
  }

  /** Members stand in their group, and heads among the heads, in the order of the list. */
  lemma {:induction false} GrownInOrder(groups: seq<Group>, cs: seq<Candidate>, t: real)
    requires Grown(groups, cs, t)
    ensures InOrder(groups, cs)
    decreases |cs|
  {
    if cs != [] {
      var before, k := LastPlaced(groups, cs, t);
      GrownInOrder(before, cs[..|cs| - 1], t);
      PlaceInOrder(before, cs[..|cs| - 1], cs[|cs| - 1], k);
      assert cs == cs[..|cs| - 1] + [cs[|cs| - 1]];
    }
  }

  lemma {:induction false} SubsequenceMembers(a: Group, cs: seq<Candidate>)
    requires Subsequence(a, cs)
    ensures forall m | m in a :: m in cs
    decreases |cs|
  {
    if a != [] {
      assert a == a[..|a| - 1] + [a[|a| - 1]];
      if a[|a| - 1] == cs[|cs| - 1] {
        SubsequenceMembers(a[..|a| - 1], cs[..|cs| - 1]);
      } else {
        SubsequenceMembers(a, cs[..|cs| - 1]);
      }
    }
  }

  lemma {:induction false} NaiveGrown(cs: seq<Candidate>, t: real)
    ensures Grown(Naive(cs, t), cs, t)
  {
    if cs != [] {
      var groups := Naive(cs[..|cs| - 1], t);
      NaiveGrown(cs[..|cs| - 1], t);
      GrownBy(groups, cs, FirstSame(groups, cs[|cs| - 1], t), t);
    }
  }

  ghost predicate RepresentativesLead(groups: seq<Group>)
    requires NonEmpty(groups)
  {
    forall k | 0 <= k < |groups| :: forall m | m in groups[k] :: RankLeq(groups[k][0], m)
  }

  /** A later representative differs from some member of each earlier group. */
  ghost predicate Separated(groups: seq<Group>, t: real)
    requires NonEmpty(groups)
  {
    forall i, j | 0 <= i < j < |groups| :: !SameAsAll(groups[j][0], groups[i], t)
  }

  lemma RankLeqTotalPreorder()
    ensures StableSort.TotalPreorder(RankLeq)
  {
    forall x, y ensures RankLeq(x, y) || RankLeq(y, x) { StringLeqTotal(x.key, y.key); }
    forall x: Candidate, y: Candidate, z: Candidate | RankLeq(x, y) && RankLeq(y, z) ensures RankLeq(x, z) {
      if StringLeq(x.key, y.key) && StringLeq(y.key, z.key) { StringLeqTransitive(x.key, y.key, z.key); }
    }
  }

  ghost predicate Leading(groups: seq<Group>) {
    NonEmpty(groups) && RepresentativesLead(groups) && StableSort.Sorted(Heads(groups), RankLeq)
  }

  lemma PlaceLeads(groups: seq<Group>, c: Candidate, k: nat)
    requires Leading(groups) && k <= |groups| && forall i | 0 <= i < |groups| :: RankLeq(groups[i][0], c)
    ensures Leading(Place(groups, c, k))
  {
    HeadsAfterPlace(groups, c, k);
    RankLeqTotalPreorder();
  }

  lemma HeadsComeBefore(groups: seq<Group>, cs: seq<Candidate>, c: Candidate)
    requires InOrder(groups, cs) && StableSort.Sorted(cs + [c], RankLeq)
    ensures forall i | 0 <= i < |groups| :: RankLeq(groups[i][0], c)
  {
    forall i | 0 <= i < |groups| ensures RankLeq(groups[i][0], c) {
      SubsequenceMembers(groups[i], cs);
      assert groups[i][0] in groups[i] && groups[i][0] in cs;
      var j :| 0 <= j < |cs| && cs[j] == groups[i][0];
      assert (cs + [c])[j] == cs[j] && (cs + [c])[|cs|] == c;
    }
  }

  /** On a ranked list the head of a group leads it, and heads come in rank order. */
  lemma {:induction false} GrownLeads(groups: seq<Group>, cs: seq<Candidate>, t: real)
    requires StableSort.Sorted(cs, RankLeq) && Grown(groups, cs, t)
    ensures Leading(groups)
    decreases |cs|
  {
    if cs != [] {
      var before, k := LastPlaced(groups, cs, t);
      var front, c := cs[..|cs| - 1], cs[|cs| - 1];
      assert cs == front + [c];
      GrownLeads(before, front, t);
      GrownInOrder(before, front, t);
      HeadsComeBefore(before, front, c);
      PlaceLeads(before, c, k);
    }
  }

  lemma NaiveCompleteLink(cs: seq<Candidate>, t: real)
    ensures CompleteLink(Naive(cs, t), t) && InOrder(Naive(cs, t), cs)
  {
    NaiveGrown(cs, t);
    GrownCompleteLink(Naive(cs, t), cs, t);
    GrownInOrder(Naive(cs, t), cs, t);
  }

  lemma {:induction false} NaiveSeparated(cs: seq<Candidate>, t: real)
    ensures NonEmpty(Naive(cs, t)) && Separated(Naive(cs, t), t)
  {
    NaiveCompleteLink(cs, t);
    if cs != [] {
      var front, c := cs[..|cs| - 1], cs[|cs| - 1];
      NaiveSeparated(front, t);
      var groups := Naive(front, t);
      var k := FirstSame(groups, c, t);
      var placed := Place(groups, c, k);
      forall i, j | 0 <= i < j < |placed| ensures !SameAsAll(placed[j][0], placed[i], t) {
        if j < |groups| {
          assert placed[j][0] == groups[j][0];
          var m :| m in groups[i] && !SameEvent(groups[j][0], m, t);
          assert m in placed[i];
        }
      }
    }
  }

  // ---- the facts a reader wants of the result --------------------------------------------------------------

  predicate InAll(g: Group, x: int) { forall m | m in g :: m.start.instant <= x <= m.end.instant }

  /** All members of a complete-link group share an instant exactly when no member's range is inverted. */
  lemma CommonInstant(g: Group, t: real)
    requires g != [] && PairwiseSame(g, t)
    ensures (exists x: int :: InAll(g, x)) <==> (forall m | m in g :: m.WellFormed())
  {
    if forall m | m in g :: m.WellFormed() {
      var k := LatestStart(g);
      var x := g[k].start.instant;
      forall j | 0 <= j < |g| ensures x <= g[j].end.instant {
        assert g[j] in g;
        if j < k { assert SameEvent(g[j], g[k], t); } else if k < j { assert SameEvent(g[k], g[j], t); }
      }
      assert InAll(g, x);
    } else {
      var m :| m in g && !m.WellFormed();
      forall x: int ensures !InAll(g, x) { }
    }
  }

  lemma {:induction false} LatestStart(g: Group) returns (k: nat)
    requires g != []
    ensures k < |g| && forall j | 0 <= j < |g| :: g[j].start.instant <= g[k].start.instant
  {
    k := 0;
    for i := 0 to |g|
      invariant k < |g| && forall j | 0 <= j < i :: g[j].start.instant <= g[k].start.instant
    {
      if g[k].start.instant < g[i].start.instant { k := i; }
    }
  }

  /** The candidates that rank level with x. */
  function Level(x: Candidate): Candidate -> bool { (c: Candidate) => RankLeq(c, x) && RankLeq(x, c) }

  /** Candidates of one rank stand in `part` as they stood in the input. */
  ghost predicate KeepsTies(part: seq<Candidate>, input: seq<Candidate>) {
    forall x: Candidate {:trigger Level(x)} :: Subsequence(Filter(part, Level(x)), Filter(input, Level(x)))
  }

  lemma SortKeepsTies(part: seq<Candidate>, input: seq<Candidate>)
    requires Subsequence(part, SortByRank(input))
    ensures KeepsTies(part, input)
  {
    RankLeqTotalPreorder();
    forall x: Candidate ensures Subsequence(Filter(part, Level(x)), Filter(input, Level(x))) {
      assert forall a, b | Level(x)(a) && Level(x)(b) :: RankLeq(a, b);
      StableSort.SortStable(input, RankLeq, Level(x));
      SubsequenceFilter(part, SortByRank(input), Level(x));
    }
  }

  /** A higher total; on equal totals a start that is not later; on equal starts a key that is not after. */
  ghost predicate Outranks(a: Candidate, b: Candidate) {
    && a.total >= b.total
    && (a.total == b.total ==> a.start.instant <= b.start.instant)
    && (a.total == b.total && a.start.instant == b.start.instant ==> NotAfter(a.key, b.key))
  }

  lemma RankLeqExactly(a: Candidate, b: Candidate)
    ensures RankLeq(a, b) <==> Outranks(a, b)
  {
    StringLeqExactly(a.key, b.key);
  }

  /** Candidates level in rank agree in total, start and key. */
  lemma LevelExactly(x: Candidate, c: Candidate)
    ensures Level(x)(c) <==> c.total == x.total && c.start.instant == x.start.instant && c.key == x.key
  {
    if Level(x)(c) { StringLeqAntisymmetric(c.key, x.key); }
    StringLeqTotal(x.key, x.key);
  }

  /** At least the share t of all the ids of either set is in both; of no ids at all the share is 0. */
  ghost predicate SharesEnough(a: set<string>, b: set<string>, t: real) {
    if a == {} && b == {} then t <= 0.0 else |set e | e in a && e in b| as real >= t * |a + b| as real
  }

  /** Same type, ranges that touch, and the same meaning or enough common evidence. */
  ghost predicate OneEvent(a: Candidate, b: Candidate, t: real) {
    && a.semantic.eventType == b.semantic.eventType
    && a.start.instant <= b.end.instant && b.start.instant <= a.end.instant
    && (a.semantic == b.semantic || SharesEnough(a.evidence, b.evidence, t))
  }

  lemma SameEventExactly(a: Candidate, b: Candidate, t: real)
    ensures SameEvent(a, b, t) <==> OneEvent(a, b, t)
  {
    assert (set e | e in a.evidence && e in b.evidence) == a.evidence * b.evidence;
  }

  /** Every group is led by its best member, and representatives come best first. */
  ghost predicate BestFirst(groups: seq<Group>, representatives: seq<Candidate>) {
    && |representatives| == |groups|
    && (forall k | 0 <= k < |groups| :: groups[k] != [] && groups[k][0] == representatives[k])
    && (forall k | 0 <= k < |groups| :: forall m | m in groups[k] :: Outranks(representatives[k], m))
    && (forall i, j | 0 <= i < j < |representatives| :: Outranks(representatives[i], representatives[j]))
  }

  /** Any two members of a group are one event. */
  ghost predicate EachOneEvent(groups: seq<Group>, t: real) {
    forall k | 0 <= k < |groups| :: forall i, j | 0 <= i < j < |groups[k]| :: OneEvent(groups[k][i], groups[k][j], t)
  }

  ghost predicate AnotherEvent(c: Candidate, g: Group, t: real) { exists m | m in g :: !OneEvent(c, m, t) }

  /** Every representative is another event than some member of each earlier group. */
  ghost predicate EachApart(groups: seq<Group>, representatives: seq<Candidate>, t: real) {
    |representatives| == |groups| &&
    forall i, j | 0 <= i < j < |groups| :: AnotherEvent(representatives[j], groups[i], t)
  }

  lemma SortedHeads(groups: seq<Group>)
    requires NonEmpty(groups) && SortByRank(Heads(groups)) == Heads(groups)
    ensures StableSort.Sorted(Heads(groups), RankLeq)
  {
    RankLeqTotalPreorder();
    StableSort.SortCorrect(Heads(groups), RankLeq);
  }

  lemma SoundIsBestFirst(groups: seq<Group>, candidates: seq<Candidate>, t: real)
    requires Sound(groups, candidates, t)
    ensures BestFirst(groups, Heads(groups)) && EachOneEvent(groups, t)
  {
    var heads := Heads(groups);
    forall k | 0 <= k < |groups| ensures forall m | m in groups[k] :: Outranks(heads[k], m) {
      forall m | m in groups[k] ensures Outranks(heads[k], m) { RankLeqExactly(heads[k], m); }
    }
    SortedHeads(groups);
    forall i, j | 0 <= i < j < |heads| ensures Outranks(heads[i], heads[j]) { RankLeqExactly(heads[i], heads[j]); }
    forall k, i, j | 0 <= k < |groups| && 0 <= i < j < |groups[k]| ensures OneEvent(groups[k][i], groups[k][j], t) {
      assert PairwiseSame(groups[k], t);
      SameEventExactly(groups[k][i], groups[k][j], t);
    }
  }

  lemma SeparatedIsApart(groups: seq<Group>, t: real)
    requires NonEmpty(groups) && Separated(groups, t)
    ensures EachApart(groups, Heads(groups), t)
  {
    forall i, j | 0 <= i < j < |groups| ensures AnotherEvent(Heads(groups)[j], groups[i], t) {
      assert !SameAsAll(groups[j][0], groups[i], t);
      var m :| m in groups[i] && !SameEvent(groups[j][0], m, t);
      SameEventExactly(groups[j][0], m, t);
    }
  }

  /** What a clustering of ranked candidates keeps, whichever fitting group each candidate was placed in. */
  ghost predicate Sound(groups: seq<Group>, candidates: seq<Candidate>, t: real) {
    && multiset(Flatten(groups)) == multiset(candidates)
    && CompleteLink(groups, t)
    && RepresentativesLead(groups)
    && SortByRank(Heads(groups)) == Heads(groups)
    && KeepsTies(Heads(groups), candidates)
    && forall i | 0 <= i < |groups| :: KeepsTies(groups[i], candidates)
  }

  /**
   Every clustering that grows from the ranked candidates by fitting placements: each candidate is in exactly one
   group, groups are complete-link, heads lead in rank and come out in rank order, and ties keep the input order.
  */
  lemma GrownIsSound(groups: seq<Group>, candidates: seq<Candidate>, t: real)
    requires Grown(groups, SortByRank(candidates), t)
    ensures Sound(groups, candidates, t)
  {
    var ordered := SortByRank(candidates);
    RankLeqTotalPreorder();
    StableSort.SortCorrect(candidates, RankLeq);
    GrownPartitions(groups, ordered, t);
    GrownCompleteLink(groups, ordered, t);
    GrownLeads(groups, ordered, t);
    StableSort.SortOfSorted(Heads(groups), RankLeq);
    GrownInOrder(groups, ordered, t);
    SortKeepsTies(Heads(groups), candidates);
    forall i | 0 <= i < |groups| ensures KeepsTies(groups[i], candidates) { SortKeepsTies(groups[i], candidates); }
  }

  /** The simple rule's clustering, besides, keeps every head apart from each earlier group by a differing member. */
  lemma SimpleRuleTheorem(candidates: seq<Candidate>, t: real)
    ensures Sound(Naive(SortByRank(candidates), t), candidates, t)
    ensures Separated(Naive(SortByRank(candidates), t), t)
  {
    NaiveGrown(SortByRank(candidates), t);
    GrownIsSound(Naive(SortByRank(candidates), t), candidates, t);
    NaiveSeparated(SortByRank(candidates), t);
  }
}
