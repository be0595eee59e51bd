/** The merge as it runs: mutable clusters with summary fields, three bucket dictionaries, and the loops over them. */
module RankingMerge {
  import opened Common
  import opened Ranking
  import opened RankingIndex
  import StableSort

  class CandidateCluster {
    var members: Group
    var semanticKey: Option<SemanticKey>
    var evidenceKey: Option<set<string>>
    var maximumStart: int
    var minimumEnd: int

    /** The summary fields say of the members exactly what a scan of them would say. */
    ghost predicate Valid()
      reads this
    {
      && members != []
      && (forall k :: semanticKey == Some(k) <==> AllSemantic(members, k))
      && (forall e :: evidenceKey == Some(e) <==> AllEvidence(members, e))
      && (forall m | m in members :: m.start.instant <= maximumStart && minimumEnd <= m.end.instant)
      && (exists m | m in members :: m.start.instant == maximumStart)
      && (exists m | m in members :: m.end.instant == minimumEnd)
    }

    constructor (c: Candidate)
      ensures Valid() && members == [c]
    {
      members := [c];
      semanticKey := Some(c.semantic);
      evidenceKey := Some(c.evidence);
      maximumStart := c.start.instant;
      minimumEnd := c.end.instant;
      new;
      assert c in members;
    }

    method Append(c: Candidate)
      requires Valid()
      modifies this
      ensures Valid() && members == old(members) + [c]
    {
      ghost var before := members;
      members := members + [c];
      assert forall m | m in before :: m in members;
      assert c in members;
      if semanticKey != Some(c.semantic) { semanticKey := None; }
      if evidenceKey != Some(c.evidence) { evidenceKey := None; }
      if maximumStart < c.start.instant { maximumStart := c.start.instant; }
      if c.end.instant < minimumEnd { minimumEnd := c.end.instant; }
      forall k ensures AllSemantic(members, k) <==> AllSemantic(before, k) && c.semantic == k { }
      forall e ensures AllEvidence(members, e) <==> AllEvidence(before, e) && c.evidence == e { }
    }

    method Fits(c: Candidate, t: real) returns (fits: bool)
      requires Valid()
      ensures fits == FitsFast(members, c, t)
    {
      assert (c.start.instant <= minimumEnd && maximumStart <= c.end.instant) == OverlapsAll(c, members);
      if semanticKey == Some(c.semantic) {
        fits := c.start.instant <= minimumEnd && c.end.instant >= maximumStart;
      } else if evidenceKey == Some(c.evidence) {
        fits := c.start.instant <= minimumEnd && c.end.instant >= maximumStart;
      } else {
        fits := SameAsAll(c, members, t);
      }
    }
  }

  type Buckets<K> = map<K, set<nat>>

  function Lookup<K>(buckets: Buckets<K>, k: K): set<nat> { if k in buckets then buckets[k] else {} }

  method Register<K(==, !new)>(buckets: Buckets<K>, keys: set<K>, id: nat) returns (r: Buckets<K>)
    ensures forall k :: Lookup(r, k) == Lookup(buckets, k) + (if k in keys then {id} else {})
  {
    r := buckets;
    var todo := keys;
    while todo != {}
      invariant todo <= keys
      invariant forall k :: Lookup(r, k) == Lookup(buckets, k) + (if k in keys - todo then {id} else {})
    {
      var k :| k in todo;
      r := r[k := Lookup(r, k) + {id}];
      todo := todo - {k};
    }
  }

  // ---- the dictionaries describe the clusters --------------------------------------------------------------

  ghost predicate SemanticOk(groups: seq<Group>, semantic: Buckets<SemanticKey>) {
    forall id: nat, k {:trigger id in Lookup(semantic, k)} {:trigger HasSemantic(groups[id], k)} ::
      id in Lookup(semantic, k) <==> id < |groups| && HasSemantic(groups[id], k)
  }

  ghost predicate EvidenceOk(groups: seq<Group>, evidence: Buckets<(string, string)>) {
    forall id: nat, y, e {:trigger id in Lookup(evidence, (y, e))} {:trigger HasEvidence(groups[id], y, e)} ::
      id in Lookup(evidence, (y, e)) <==> id < |groups| && HasEvidence(groups[id], y, e)
  }

  ghost predicate MonthsOk(groups: seq<Group>, months: Buckets<(string, int)>) {
    forall id: nat, y, p {:trigger id in Lookup(months, (y, p))} {:trigger HasMonth(groups[id], y, p)} ::
      id in Lookup(months, (y, p)) <==> id < |groups| && HasMonth(groups[id], y, p)
  }

  lemma HasAfterPlace(groups: seq<Group>, c: Candidate, k: nat)
    requires k <= |groups|
    ensures var placed := Place(groups, c, k);
            forall id: nat | id < |placed| ::
              var before := if id < |groups| then groups[id] else [];
              placed[id] == if id == k then before + [c] else before
  {
  }

  lemma HasAppend(g: Group, c: Candidate)
    ensures forall k :: HasSemantic(g + [c], k) <==> HasSemantic(g, k) || c.semantic == k
    ensures forall y, e :: HasEvidence(g + [c], y, e) <==> HasEvidence(g, y, e) || (c.Type() == y && e in c.evidence)
    ensures forall y, p :: HasMonth(g + [c], y, p)
              <==> HasMonth(g, y, p) || (c.Type() == y && c.FirstMonth() <= p <= c.LastMonth())
  {
    assert c in g + [c] && forall m | m in g :: m in g + [c];
  }

  lemma BucketsAfterPlace(groups: seq<Group>, c: Candidate, k: nat,
    s: Buckets<SemanticKey>, s': Buckets<SemanticKey>, e: Buckets<(string, string)>, e': Buckets<(string, string)>,
    m: Buckets<(string, int)>, m': Buckets<(string, int)>)
    requires k <= |groups| && SemanticOk(groups, s) && EvidenceOk(groups, e) && MonthsOk(groups, m)
    requires forall x :: Lookup(s', x) == Lookup(s, x) + (if x in {c.semantic} then {k} else {})
    requires forall x :: Lookup(e', x) == Lookup(e, x) + (if x in EvidenceKeys(c) then {k} else {})
    requires forall x :: Lookup(m', x) == Lookup(m, x) + (if x in MonthKeys(c) then {k} else {})
    ensures var placed := Place(groups, c, k); SemanticOk(placed, s') && EvidenceOk(placed, e') && MonthsOk(placed, m')
  {
    var placed := Place(groups, c, k);
    HasAfterPlace(groups, c, k);
    HasAppend(if k < |groups| then groups[k] else [], c);
    assert placed[k] == (if k < |groups| then groups[k] else []) + [c];
    forall id: nat, x ensures id in Lookup(s', x) <==> id < |placed| && HasSemantic(placed[id], x) { }
    assert forall y, x :: (y, x) in EvidenceKeys(c) <==> y == c.Type() && x in c.evidence;
    forall id: nat, y, x ensures id in Lookup(e', (y, x)) <==> id < |placed| && HasEvidence(placed[id], y, x) { }
    forall id: nat, y, p ensures id in Lookup(m', (y, p)) <==> id < |placed| && HasMonth(placed[id], y, p) { }
  }

  function EvidenceKeys(c: Candidate): set<(string, string)> { set e | e in c.evidence :: (c.Type(), e) }

  function MonthKeys(c: Candidate): set<(string, int)> {
    set p: int | c.FirstMonth() <= p <= c.LastMonth() :: (c.Type(), p)
  }

  // ---- reading the dictionaries ----------------------------------------------------------------------------

  predicate ClusterIsInMonths(id: nat, c: Candidate, months: Buckets<(string, int)>) {
    exists p: int | c.FirstMonth() <= p <= c.LastMonth() :: id in Lookup(months, (c.Type(), p))
  }

  ghost function HitsSoFar(id: nat, c: Candidate, es: set<string>, evidence: Buckets<(string, string)>): set<string> {
    set e | e in es && id in Lookup(evidence, (c.Type(), e))
  }

  function CountOf(counts: map<nat, nat>, id: nat): nat { if id in counts then counts[id] else 0 }

  method CountOverlaps(c: Candidate, evidence: Buckets<(string, string)>, months: Buckets<(string, int)>)
    returns (counts: map<nat, nat>)
    ensures forall id: nat :: CountOf(counts, id) ==
                              if ClusterIsInMonths(id, c, months) then |HitsSoFar(id, c, c.evidence, evidence)| else 0
  {
    counts := map[];
    var todo := c.evidence;
    while todo != {}
      invariant todo <= c.evidence
      invariant forall id: nat :: CountOf(counts, id) ==
                  if ClusterIsInMonths(id, c, months) then |HitsSoFar(id, c, c.evidence - todo, evidence)| else 0
    {
      var e :| e in todo;
      ghost var before := counts;
      var bucket := Lookup(evidence, (c.Type(), e));
      var ids := bucket;
      while ids != {}
        invariant ids <= bucket
        invariant forall id: nat :: CountOf(counts, id) == CountOf(before, id) +
                    if id in bucket - ids && ClusterIsInMonths(id, c, months) then 1 else 0
      {
        var id :| id in ids;
        if ClusterIsInMonths(id, c, months) {
          counts := counts[id := CountOf(counts, id) + 1];
        }
        ids := ids - {id};
      }
      forall id: nat
        ensures HitsSoFar(id, c, c.evidence - (todo - {e}), evidence)
             == HitsSoFar(id, c, c.evidence - todo, evidence) + (if id in bucket then {e} else {})
      { }
      todo := todo - {e};
    }
    assert c.evidence - {} == c.evidence;
  }

  lemma HitInRange(id: nat, c: Candidate, groups: seq<Group>, evidence: Buckets<(string, string)>)
    requires EvidenceOk(groups, evidence) && |HitsSoFar(id, c, c.evidence, evidence)| > 0
    ensures id < |groups|
  {
    var e :| e in HitsSoFar(id, c, c.evidence, evidence);
    assert id in Lookup(evidence, (c.Type(), e));
  }

  /** The clusters worth testing: the semantic bucket, and the evidence hits that pass the prefilter. */
  method CandidateIds(c: Candidate, clusters: seq<CandidateCluster>, ghost groups: seq<Group>, t: real,
    semantic: Buckets<SemanticKey>, evidence: Buckets<(string, string)>, months: Buckets<(string, int)>)
    returns (ids: set<nat>)
    requires NonEmpty(groups) && SemanticOk(groups, semantic)
    requires EvidenceOk(groups, evidence) && MonthsOk(groups, months)
    requires |clusters| == |groups| && forall i | 0 <= i < |groups| :: clusters[i].members == groups[i]
    ensures forall id: nat :: id in ids <==> id < |groups| && Listed(groups[id], c, t)
  {
    ids := set id | id in Lookup(semantic, c.semantic) && ClusterIsInMonths(id, c, months);
    var counts := CountOverlaps(c, evidence, months);
    forall id: nat | id < |groups|
      ensures ClusterIsInMonths(id, c, months) == InMonths(groups[id], c)
      ensures HitsSoFar(id, c, c.evidence, evidence) == Hits(groups[id], c)
    {
      assert forall p :: id in Lookup(months, (c.Type(), p)) <==> HasMonth(groups[id], c.Type(), p);
    }
    forall id: nat | CountOf(counts, id) > 0 ensures id < |groups| { HitInRange(id, c, groups, evidence); }
    var todo := counts.Keys;
    while todo != {}
      invariant todo <= counts.Keys
      invariant forall id: nat :: id in ids <==> (id < |groups| && InMonths(groups[id], c) &&
                  (HasSemantic(groups[id], c.semantic) ||
                   (id in counts.Keys - todo && MayOverlap(counts[id], |c.evidence|, |groups[id][0].evidence|, t))))
    {
      var id :| id in todo;
      assert CountOf(counts, id) == counts[id];
      if counts[id] > 0 {
        var representative := clusters[id].members[0];
        var union := |c.evidence| + |representative.evidence| - counts[id];
        if union > 0 && counts[id] as real >= t * union as real {
          ids := ids + {id};
        }
      }
      todo := todo - {id};
    }
  }

  /** The first listed cluster, by position, that the candidate fits; |clusters| when none does. */
  method ChooseCluster(c: Candidate, clusters: seq<CandidateCluster>, ghost groups: seq<Group>, t: real, ids: set<nat>)
    returns (chosen: nat)
    requires NonEmpty(groups) && |clusters| == |groups|
    requires forall i | 0 <= i < |groups| :: clusters[i].Valid() && clusters[i].members == groups[i]
    requires forall id: nat :: id in ids <==> id < |groups| && Listed(groups[id], c, t)
    ensures chosen == FirstTaking(groups, c, t)
  {
    for k := 0 to |clusters|
      invariant forall i | 0 <= i < k :: !Takes(groups[i], c, t)
    {
      if k in ids {
        var fits := clusters[k].Fits(c, t);
        if fits { return k; }
      }
    }
    return |clusters|;
  }

  /** Distinct valid cluster objects holding exactly these groups. */
  ghost predicate Holds(clusters: seq<CandidateCluster>, groups: seq<Group>)
    reads clusters
  {
    && |clusters| == |groups|
    && (forall i | 0 <= i < |clusters| :: clusters[i].Valid() && clusters[i].members == groups[i])
    && (forall i, j | 0 <= i < j < |clusters| :: clusters[i] != clusters[j])
  }

  /** Appends to the chosen cluster, or opens a new one. */
  method PlaceCandidate(c: Candidate, clusters: seq<CandidateCluster>, ghost groups: seq<Group>, chosen: nat)
    returns (placed: seq<CandidateCluster>)
    requires Holds(clusters, groups) && chosen <= |clusters|
    modifies clusters
    ensures Holds(placed, Place(groups, c, chosen))
    ensures forall i | 0 <= i < |placed| :: placed[i] in clusters || fresh(placed[i])
  {
    if chosen == |clusters| {
      var cluster := new CandidateCluster(c);
      placed := clusters + [cluster];
    } else {
      clusters[chosen].Append(c);
      placed := clusters;
    }
  }

  datatype Index = Index(
    semantic: Buckets<SemanticKey>, evidence: Buckets<(string, string)>, months: Buckets<(string, int)>)

  ghost predicate Describes(index: Index, groups: seq<Group>) {
    SemanticOk(groups, index.semantic) && EvidenceOk(groups, index.evidence) && MonthsOk(groups, index.months)
  }

  /** One turn of the outer loop. */
  method MergeOne(c: Candidate, clusters: seq<CandidateCluster>, ghost groups: seq<Group>, t: real, index: Index)
    returns (clusters': seq<CandidateCluster>, index': Index)
    requires NonEmpty(groups) && Holds(clusters, groups) && Describes(index, groups)
    modifies clusters
    ensures Holds(clusters', Place(groups, c, FirstTaking(groups, c, t)))
    ensures Describes(index', Place(groups, c, FirstTaking(groups, c, t)))
    ensures forall i | 0 <= i < |clusters'| :: clusters'[i] in clusters || fresh(clusters'[i])
  {
    var ids := CandidateIds(c, clusters, groups, t, index.semantic, index.evidence, index.months);
    var chosen := ChooseCluster(c, clusters, groups, t, ids);
    var semantic := Register(index.semantic, {c.semantic}, chosen);
    var evidence := Register(index.evidence, EvidenceKeys(c), chosen);
    var months := Register(index.months, MonthKeys(c), chosen);
    BucketsAfterPlace(groups, c, chosen, index.semantic, semantic, index.evidence, evidence, index.months, months);
    index' := Index(semantic, evidence, months);
    clusters' := PlaceCandidate(c, clusters, groups, chosen);
  }

  /** Clusters built from a list already in rank order. */
  method BuildClusters(ordered: seq<Candidate>, t: real) returns (clusters: seq<CandidateCluster>)
    ensures Holds(clusters, Indexed(ordered, t))
    ensures forall i | 0 <= i < |clusters| :: fresh(clusters[i])
  {
    clusters := [];
    var index := Index(map[], map[], map[]);
    assert Describes(index, []) by {
      assert forall k :: Lookup(index.semantic, k) == {};
      assert forall k :: Lookup(index.evidence, k) == {};
      assert forall k :: Lookup(index.months, k) == {};
    }
    for n := 0 to |ordered|
      invariant forall i | 0 <= i < |clusters| :: fresh(clusters[i])
      invariant Holds(clusters, Indexed(ordered[..n], t))
      invariant Describes(index, Indexed(ordered[..n], t))
    {
      assert ordered[..n + 1][..n] == ordered[..n];
      clusters, index := MergeOne(ordered[n], clusters, Indexed(ordered[..n], t), t, index);
    }
    assert ordered[..|ordered|] == ordered;
  }

  datatype MergeResult = Merged(representatives: seq<Candidate>) | InvalidThreshold

  ghost predicate Represents(heads: seq<Candidate>, groups: seq<Group>) { NonEmpty(groups) && heads == Heads(groups) }

  /** The representatives of the clusters, in creation order. */
  method CollectHeads(clusters: seq<CandidateCluster>, ghost groups: seq<Group>) returns (heads: seq<Candidate>)
    requires NonEmpty(groups) && Holds(clusters, groups)
    ensures Represents(heads, groups)
  {
    heads := [];
    for i := 0 to |clusters|
      invariant |heads| == i && forall j | 0 <= j < i :: heads[j] == groups[j][0]
    {
      heads := heads + [clusters[i].members[0]];
    }
    assert heads == Heads(groups);
  }

  /** The clusters of the code on one calendar at a positive threshold are the simple rule's. */
  lemma SimpleOnOneCalendar(candidates: seq<Candidate>, t: real)
    requires 0.0 < t <= 1.0 && OneCalendar(candidates)
    ensures NonEmpty(Naive(SortByRank(candidates), t)) && Separated(Naive(SortByRank(candidates), t), t)
    ensures Indexed(SortByRank(candidates), t) == Naive(SortByRank(candidates), t)
  {
    RankLeqTotalPreorder();
    StableSort.SortCorrect(candidates, RankLeq);
    CalendarOfPermutation(candidates, SortByRank(candidates));
    IndexedIsNaive(SortByRank(candidates), t);
    NaiveSeparated(SortByRank(candidates), t);
  }

  /** merge_ranked_candidates: any candidates, any threshold. */
  method MergeRankedCandidates(candidates: seq<Candidate>, t: real) returns (r: MergeResult)
    ensures r.InvalidThreshold? <==> !(0.0 <= t <= 1.0)
    ensures r.Merged? ==> Represents(r.representatives, Indexed(SortByRank(candidates), t))
    ensures r.Merged? ==> Sound(Indexed(SortByRank(candidates), t), candidates, t)
    ensures r.Merged? ==> KeptApart(Indexed(SortByRank(candidates), t), t)
    ensures r.Merged? ==> BestFirst(Indexed(SortByRank(candidates), t), r.representatives)
    ensures r.Merged? ==> EachOneEvent(Indexed(SortByRank(candidates), t), t)
    ensures r.Merged? ==> SortByRank(r.representatives) == r.representatives && KeepsTies(r.representatives, candidates)
    ensures r.Merged? && 0.0 < t && OneCalendar(candidates) ==>
              && Represents(r.representatives, Naive(SortByRank(candidates), t))
              && Separated(Naive(SortByRank(candidates), t), t)
              && EachApart(Indexed(SortByRank(candidates), t), r.representatives, t)
  {
    if !(0.0 <= t <= 1.0) {
      return InvalidThreshold;
    }
    ghost var groups := Indexed(SortByRank(candidates), t);
    var clusters := BuildClusters(SortByRank(candidates), t);
    var heads := CollectHeads(clusters, groups);
    ClusteringTheorem(candidates, t);
    SoundIsBestFirst(groups, candidates, t);
    r := Merged(SortByRank(heads));
    if 0.0 < t && OneCalendar(candidates) {
      SimpleOnOneCalendar(candidates, t);
      SeparatedIsApart(groups, t);
    }
  }
}
