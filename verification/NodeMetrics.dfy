/** Greedy matching of predicted labels to gold labels, and the three rounded metrics it yields. */
module NodeMetrics {
  import opened Common

  datatype Label = Label(eventType: string, evidence: set<string>)

  /** Two empty evidence sets count as equal here. */
  function Jaccard(a: set<string>, b: set<string>): real {
    if a + b == {} then 1.0 else |a * b| as real / |a + b| as real
  }

  lemma JaccardUnit(a: set<string>, b: set<string>)
    ensures 0.0 <= Jaccard(a, b) <= 1.0
  {
    SubsetSize(a * b, a + b);
    if a + b != {} { QuotientUnit(|a * b| as real, |a + b| as real); }
  }

  lemma JaccardOne(a: set<string>, b: set<string>)
    ensures Jaccard(a, b) == 1.0 <==> a == b
  {
    if a == b && a != {} {
      assert a * b == a && a + b == a;
    } else if a + b != {} && Jaccard(a, b) == 1.0 {
      assert |a * b| == |a + b|;
      SameSize(a * b, a + b);
    }
  }

  lemma {:induction false} SameSize(a: set<string>, b: set<string>)
    requires a <= b && |a| == |b|
    ensures a == b
  {
    if a != {} {
      var x :| x in a;
      SameSize(a - {x}, b - {x});
    }
  }

  /** The unmatched gold of the candidate's type with the greatest (overlap, index) among the first n. */
  function Best(c: Label, gold: seq<Label>, unmatched: set<nat>, n: nat): (best: Option<nat>)
    requires n <= |gold|
    ensures best.Some? ==> best.value < n
  {
    if n == 0 then None
    else
      var best := Best(c, gold, unmatched, n - 1);
      if n - 1 !in unmatched || gold[n - 1].eventType != c.eventType then best
      else if best.None? || Jaccard(c.evidence, gold[best.value].evidence) <= Jaccard(c.evidence, gold[n - 1].evidence)
      then Some(n - 1)
      else best
  }

  /** Best finds a free gold of the right type if there is one; none overlaps more, and of equals it is the last. */
  lemma {:induction false} BestIsGreatest(c: Label, gold: seq<Label>, unmatched: set<nat>, n: nat, k: nat)
    requires k < n <= |gold| && k in unmatched && gold[k].eventType == c.eventType
    ensures var best := Best(c, gold, unmatched, n);
            && best.Some?
            && Jaccard(c.evidence, gold[k].evidence) <= Jaccard(c.evidence, gold[best.value].evidence)
            && (Jaccard(c.evidence, gold[k].evidence) == Jaccard(c.evidence, gold[best.value].evidence) ==>
                  k <= best.value)
  {
    if k < n - 1 { BestIsGreatest(c, gold, unmatched, n - 1, k); }
  }

  lemma {:induction false} BestIsFree(c: Label, gold: seq<Label>, unmatched: set<nat>, n: nat)
    requires n <= |gold|
    ensures var best := Best(c, gold, unmatched, n);
            best.Some? ==> best.value in unmatched && gold[best.value].eventType == c.eventType
  {
    if n > 0 { BestIsFree(c, gold, unmatched, n - 1); }
  }

  function Indices(n: nat): set<nat> { if n == 0 then {} else Indices(n - 1) + {n - 1} }

  lemma {:induction false} IndicesExact(n: nat)
    ensures |Indices(n)| == n && forall k: nat :: k in Indices(n) <==> k < n
  {
    if n > 0 { IndicesExact(n - 1); }
  }

  /** The golds not yet taken. */
  function Free(pairs: map<nat, nat>, golds: nat): set<nat> { Indices(golds) - pairs.Values }

  /** The pairs the greedy loop has formed after its first n candidates, by candidate position. */
  function Greedy(predicted: seq<Label>, gold: seq<Label>, minimum: real, n: nat): (pairs: map<nat, nat>)
    requires n <= |predicted|
    ensures forall i | i in pairs :: i < n && pairs[i] < |gold|
  {
    if n == 0 then map[]
    else
      var pairs := Greedy(predicted, gold, minimum, n - 1);
      var c := predicted[n - 1];
      var best := Best(c, gold, Free(pairs, |gold|), |gold|);
      if best.Some? && Jaccard(c.evidence, gold[best.value].evidence) >= minimum then pairs[n - 1 := best.value]
      else pairs
  }

  predicate Edge(p: Label, g: Label, minimum: real) {
    p.eventType == g.eventType && Jaccard(p.evidence, g.evidence) >= minimum
  }

  /** A one-to-one matching along edges. */
  ghost predicate Matching(m: map<nat, nat>, predicted: seq<Label>, gold: seq<Label>, minimum: real) {
    && (forall i | i in m :: i < |predicted| && m[i] < |gold| && Edge(predicted[i], gold[m[i]], minimum))
    && (forall i, j | i in m && j in m && i != j :: m[i] != m[j])
  }

  lemma {:induction false} GreedyMatches(predicted: seq<Label>, gold: seq<Label>, minimum: real, n: nat)
    requires n <= |predicted|
    ensures Matching(Greedy(predicted, gold, minimum, n), predicted, gold, minimum)
  {
    if n > 0 {
      GreedyMatches(predicted, gold, minimum, n - 1);
      var before := Greedy(predicted, gold, minimum, n - 1);
      BestIsFree(predicted[n - 1], gold, Free(before, |gold|), |gold|);
    }
  }

  /** A candidate that saw a free gold it could take took one at least as good. */
  lemma {:induction false} GreedyPrefers(
    predicted: seq<Label>, gold: seq<Label>, minimum: real, n: nat, i: nat, k: nat)
    requires i < n <= |predicted| && k < |gold| && Edge(predicted[i], gold[k], minimum)
    requires k !in Greedy(predicted, gold, minimum, n).Values
    ensures var pairs := Greedy(predicted, gold, minimum, n);
            && i in pairs && predicted[i].eventType == gold[pairs[i]].eventType
            && Jaccard(predicted[i].evidence, gold[k].evidence)
               <= Jaccard(predicted[i].evidence, gold[pairs[i]].evidence)
  {
    var before, after := Greedy(predicted, gold, minimum, n - 1), Greedy(predicted, gold, minimum, n);
    assert forall j | j in before :: after[j] == before[j];
    assert k !in before.Values;
    if i < n - 1 {
      GreedyPrefers(predicted, gold, minimum, n - 1, i, k);
    } else {
      IndicesExact(|gold|);
      BestIsGreatest(predicted[i], gold, Free(before, |gold|), |gold|, k);
      BestIsFree(predicted[i], gold, Free(before, |gold|), |gold|);
    }
  }

  ghost predicate OneToOne(m: map<nat, nat>, keys: set<nat>) {
    keys <= m.Keys && forall i, j {:trigger m[i], m[j]} | i in keys && j in keys && i != j :: m[i] != m[j]
  }

  lemma {:induction false} ImageSize(m: map<nat, nat>, keys: set<nat>, image: set<nat>)
    requires OneToOne(m, keys) && forall i {:trigger m[i]} | i in keys :: m[i] in image
    ensures |keys| <= |image|
  {
    if keys != {} {
      var i :| i in keys;
      ImageSize(m, keys - {i}, image - {m[i]});
    }
  }

  /** No edge joins a candidate and a gold that the greedy loop both left unmatched. */
  lemma GreedyMaximal(predicted: seq<Label>, gold: seq<Label>, minimum: real, i: nat, k: nat)
    requires i < |predicted| && k < |gold| && Edge(predicted[i], gold[k], minimum)
    ensures var pairs := Greedy(predicted, gold, minimum, |predicted|); i in pairs || k in pairs.Values
  {
    if k !in Greedy(predicted, gold, minimum, |predicted|).Values {
      GreedyPrefers(predicted, gold, minimum, |predicted|, i, k);
    }
  }

  /** The greedy matching is at least half as large as any other. */
  lemma GreedyHalfOptimal(m: map<nat, nat>, predicted: seq<Label>, gold: seq<Label>, minimum: real)
    requires Matching(m, predicted, gold, minimum)
    ensures |m| <= 2 * |Greedy(predicted, gold, minimum, |predicted|)|
  {
    var pairs := Greedy(predicted, gold, minimum, |predicted|);
    var shared, rest := m.Keys * pairs.Keys, m.Keys - pairs.Keys;
    forall i | i in rest ensures m[i] in pairs.Values { GreedyMaximal(predicted, gold, minimum, i, m[i]); }
    ImageSize(m, rest, pairs.Values);
    ValuesSize(pairs);
    SubsetSize(shared, pairs.Keys);
    assert |m.Keys| == |shared| + |rest|;
  }

  lemma {:induction false} ValuesSize(m: map<nat, nat>)
    ensures |m.Values| <= |m.Keys|
  {
    if m.Keys != {} {
      var i :| i in m.Keys;
      var rest := m - {i};
      ValuesSize(rest);
      assert m.Values <= rest.Values + {m[i]} by {
        forall v | v in m.Values ensures v in rest.Values + {m[i]} {
          var j :| j in m && m[j] == v;
          if j != i { assert j in rest && rest[j] == v; }
        }
      }
      SubsetSize(m.Values, rest.Values + {m[i]});
      assert m.Keys == rest.Keys + {i};
    }
  }

  // ---- the matching, by counting -----------------------------------------------------------------------------

  function Shared(a: set<string>, b: set<string>): nat { |set e | e in a && e in b| }

  /** Same type, and the ids in both are at least the asked share of the ids in either; two empty sets share all. */
  predicate MayMatch(p: Label, g: Label, minimum: real) {
    && p.eventType == g.eventType
    && if p.evidence == {} && g.evidence == {} then minimum <= 1.0
       else Shared(p.evidence, g.evidence) as real >= minimum * |p.evidence + g.evidence| as real
  }

  /** c shares no smaller part with g than with h, the parts compared by cross-multiplication. */
  predicate SharesNoLess(c: set<string>, g: set<string>, h: set<string>) {
    if c == {} && g == {} then true
    else if c == {} && h == {} then Shared(c, g) == |c + g|
    else Shared(c, g) * |c + h| >= Shared(c, h) * |c + g|
  }

  lemma SharedIsOverlap(a: set<string>, b: set<string>)
    ensures Shared(a, b) == |a * b| <= |a + b|
  {
    assert (set e | e in a && e in b) == a * b;
    SubsetSize(a * b, a + b);
  }

  lemma QuotientAtLeast(a: real, b: real, c: real)
    requires 0.0 < b
    ensures a / b >= c <==> a >= c * b
  {
    var x := a / b;
    assert x * b == a;
    if x >= c {
      NonNegative(x - c, b);
      assert (x - c) * b == a - c * b;
    } else {
      PositiveProduct(c - x, b);
      assert (c - x) * b == c * b - x * b;
    }
  }

  lemma PositiveProduct(a: real, b: real)
    requires 0.0 < a && 0.0 < b
    ensures 0.0 < a * b
  {
  }

  lemma EdgeExactly(p: Label, g: Label, minimum: real)
    ensures Edge(p, g, minimum) <==> MayMatch(p, g, minimum)
  {
    var a, b := p.evidence, g.evidence;
    SharedIsOverlap(a, b);
    if a + b != {} {
      QuotientAtLeast(|a * b| as real, |a + b| as real, minimum);
    }
  }

  lemma QuotientsCompare(a: nat, b: nat, c: nat, d: nat)
    requires b > 0 && d > 0
    ensures a as real / b as real <= c as real / d as real <==> a * d <= c * b
  {
    var x, y := a as real / b as real, c as real / d as real;
    QuotientAtLeast(c as real, d as real, x);
    assert y >= x <==> c as real >= x * d as real;
    var z := x * d as real;
    assert z * b as real == (x * b as real) * d as real == a as real * d as real;
    QuotientAtLeast(c as real * b as real, b as real, z);
    assert c as real * b as real / b as real == c as real;
    assert (a * d) as real == a as real * d as real && (c * b) as real == c as real * b as real;
  }

  lemma JaccardLeqExactly(c: set<string>, g: set<string>, h: set<string>)
    ensures Jaccard(c, h) <= Jaccard(c, g) <==> SharesNoLess(c, g, h)
  {
    SharedIsOverlap(c, g);
    SharedIsOverlap(c, h);
    JaccardUnit(c, g);
    JaccardUnit(c, h);
    if c + g != {} && c + h != {} {
      QuotientsCompare(|c * h|, |c + h|, |c * g|, |c + g|);
    } else if c + g != {} {
      assert Jaccard(c, h) == 1.0;
      QuotientAtLeast(|c * g| as real, |c + g| as real, 1.0);
    }
  }

  /** One-to-one along pairs that may match, and no pair that may match is left with both sides free. */
  ghost predicate MaximalMatching(m: map<nat, nat>, predicted: seq<Label>, gold: seq<Label>, minimum: real) {
    && (forall i | i in m :: i < |predicted| && m[i] < |gold| && MayMatch(predicted[i], gold[m[i]], minimum))
    && (forall i, j | i in m && j in m && i != j :: m[i] != m[j])
    && (forall i, k | 0 <= i < |predicted| && 0 <= k < |gold| && MayMatch(predicted[i], gold[k], minimum) ::
          i in m || k in m.Values)
  }

  /** Each matched candidate shares no less with its gold than with any gold of its type that was left free. */
  ghost predicate Preferring(m: map<nat, nat>, predicted: seq<Label>, gold: seq<Label>) {
    && (forall i | i in m :: i < |predicted| && m[i] < |gold|)
    && (forall i, k | i in m && 0 <= k < |gold| && k !in m.Values && predicted[i].eventType == gold[k].eventType ::
          SharesNoLess(predicted[i].evidence, gold[m[i]].evidence, gold[k].evidence))
  }

  lemma {:induction false} GreedyTakesBest(
    predicted: seq<Label>, gold: seq<Label>, minimum: real, n: nat, i: nat, k: nat)
    requires i < n <= |predicted| && k < |gold| && predicted[i].eventType == gold[k].eventType
    requires i in Greedy(predicted, gold, minimum, n) && k !in Greedy(predicted, gold, minimum, n).Values
    ensures var pairs := Greedy(predicted, gold, minimum, n);
            Jaccard(predicted[i].evidence, gold[k].evidence) <= Jaccard(predicted[i].evidence, gold[pairs[i]].evidence)
  {
    var before, after := Greedy(predicted, gold, minimum, n - 1), Greedy(predicted, gold, minimum, n);
    assert forall j | j in before :: after[j] == before[j];
    assert k !in before.Values;
    if i < n - 1 {
      GreedyTakesBest(predicted, gold, minimum, n - 1, i, k);
    } else {
      IndicesExact(|gold|);
      BestIsGreatest(predicted[i], gold, Free(before, |gold|), |gold|, k);
    }
  }

  /** What the greedy loop finds, stated by counting alone. */
  lemma GreedyIsMaximalMatching(predicted: seq<Label>, gold: seq<Label>, minimum: real)
    ensures var pairs := Greedy(predicted, gold, minimum, |predicted|);
            MaximalMatching(pairs, predicted, gold, minimum) && Preferring(pairs, predicted, gold)
  {
    var pairs := Greedy(predicted, gold, minimum, |predicted|);
    GreedyMatches(predicted, gold, minimum, |predicted|);
    forall i | i in pairs ensures MayMatch(predicted[i], gold[pairs[i]], minimum) {
      EdgeExactly(predicted[i], gold[pairs[i]], minimum);
    }
    forall i, k | 0 <= i < |predicted| && 0 <= k < |gold| && MayMatch(predicted[i], gold[k], minimum)
      ensures i in pairs || k in pairs.Values
    {
      EdgeExactly(predicted[i], gold[k], minimum);
      GreedyMaximal(predicted, gold, minimum, i, k);
    }
    forall i, k | i in pairs && 0 <= k < |gold| && k !in pairs.Values && predicted[i].eventType == gold[k].eventType
      ensures SharesNoLess(predicted[i].evidence, gold[pairs[i]].evidence, gold[k].evidence)
    {
      GreedyTakesBest(predicted, gold, minimum, |predicted|, i, k);
      JaccardLeqExactly(predicted[i].evidence, gold[pairs[i]].evidence, gold[k].evidence);
    }
  }

  /** Every gold has its own twin among the candidates. */
  ghost predicate Twinned(twin: map<nat, nat>, predicted: seq<Label>, gold: seq<Label>) {
    && (forall k: nat :: k in twin <==> k < |gold|)
    && (forall k | k in twin :: twin[k] < |predicted| && predicted[twin[k]] == gold[k])
    && (forall k, l | k in twin && l in twin && k != l :: twin[k] != twin[l])
  }

  lemma TwinsTakeTwins(predicted: seq<Label>, gold: seq<Label>, minimum: real, g: nat, i: nat)
    requires minimum <= 1.0 && g < |gold| && i < |predicted| && predicted[i] == gold[g]
    requires g !in Greedy(predicted, gold, minimum, |predicted|).Values
    ensures var pairs := Greedy(predicted, gold, minimum, |predicted|);
            i in pairs && pairs[i] != g && gold[pairs[i]] == gold[g]
  {
    var pairs := Greedy(predicted, gold, minimum, |predicted|);
    JaccardOne(predicted[i].evidence, gold[g].evidence);
    GreedyPrefers(predicted, gold, minimum, |predicted|, i, g);
    JaccardUnit(predicted[i].evidence, gold[pairs[i]].evidence);
    JaccardOne(predicted[i].evidence, gold[pairs[i]].evidence);
    assert pairs[i] in pairs.Values;
  }

  /** From k there and back again leads into `hit`. */
  ghost predicate Returns(there: map<nat, nat>, back: map<nat, nat>, hit: set<nat>, k: nat) {
    k in there && there[k] in back && back[there[k]] in hit
  }

  ghost predicate AllReturn(there: map<nat, nat>, back: map<nat, nat>, part: set<nat>, hit: set<nat>) {
    forall k {:trigger Returns(there, back, hit, k)} | k in part :: Returns(there, back, hit, k)
  }

  /** Two injections there and back again do not shrink what they lead from. */
  lemma {:induction false} RoundTripMissesNone(there: map<nat, nat>, back: map<nat, nat>, part: set<nat>, hit: set<nat>)
    requires OneToOne(there, part) && OneToOne(back, back.Keys) && AllReturn(there, back, part, hit)
    ensures |part| <= |hit|
  {
    if part != {} {
      var k :| k in part;
      assert Returns(there, back, hit, k);
      var h := back[there[k]];
      forall l {:trigger Returns(there, back, hit - {h}, l)} | l in part - {k}
        ensures Returns(there, back, hit - {h}, l)
      {
        assert Returns(there, back, hit, l) && there[l] != there[k];
      }
      RoundTripMissesNone(there, back, part - {k}, hit - {h});
    }
  }

  lemma TwinsReturn(twin: map<nat, nat>, predicted: seq<Label>, gold: seq<Label>, minimum: real, g: nat,
                    golds: set<nat>)
    requires minimum <= 1.0 && Twinned(twin, predicted, gold) && g < |gold|
    requires forall k :: k in golds <==> k in twin && gold[k] == gold[g]
    requires g !in Greedy(predicted, gold, minimum, |predicted|).Values
    ensures AllReturn(twin, Greedy(predicted, gold, minimum, |predicted|), golds, golds - {g})
  {
    var pairs := Greedy(predicted, gold, minimum, |predicted|);
    GreedyMatches(predicted, gold, minimum, |predicted|);
    forall k {:trigger Returns(twin, pairs, golds - {g}, k)} | k in golds ensures Returns(twin, pairs, golds - {g}, k) {
      TwinsTakeTwins(predicted, gold, minimum, g, twin[k]);
    }
  }

  lemma UnmatchedTwinImpossible(twin: map<nat, nat>, predicted: seq<Label>, gold: seq<Label>, minimum: real, g: nat)
    requires minimum <= 1.0 && Twinned(twin, predicted, gold) && g < |gold|
    ensures g in Greedy(predicted, gold, minimum, |predicted|).Values
  {
    var pairs := Greedy(predicted, gold, minimum, |predicted|);
    if g !in pairs.Values {
      var golds := set k | k in twin && gold[k] == gold[g];
      TwinsReturn(twin, predicted, gold, minimum, g, golds);
      GreedyMatches(predicted, gold, minimum, |predicted|);
      RoundTripMissesNone(twin, pairs, golds, golds - {g});
    }
  }

  /**
   When every gold has a twin, the greedy loop matches every gold, however other candidates overlap them: an
   unmatched gold would leave more candidates of its label than golds to hold them.
  */
  lemma TwinnedGoldMatched(twin: map<nat, nat>, predicted: seq<Label>, gold: seq<Label>, minimum: real)
    requires minimum <= 1.0 && Twinned(twin, predicted, gold)
    ensures |Greedy(predicted, gold, minimum, |predicted|)| == |gold|
  {
    var pairs := Greedy(predicted, gold, minimum, |predicted|);
    forall g: nat | g < |gold| ensures g in pairs.Values {
      UnmatchedTwinImpossible(twin, predicted, gold, minimum, g);
    }
    IndicesExact(|gold|);
    SubsetSize(Indices(|gold|), pairs.Values);
    ValuesSize(pairs);
    MatchedBounds(predicted, gold, minimum);
  }

  // ---- metrics ---------------------------------------------------------------------------------------------

  /** round(x, 6): the nearest millionth, ties to even. */
  function Round6(x: real): real {
    var n := (x * 1000000.0).Floor;
    var rest := x * 1000000.0 - n as real;
    (if rest < 0.5 || (rest == 0.5 && n % 2 == 0) then n else n + 1) as real / 1000000.0
  }

  lemma Round6Monotone(x: real, y: real)
    requires x <= y
    ensures Round6(x) <= Round6(y)
  {
    var m, n := (x * 1000000.0).Floor, (y * 1000000.0).Floor;
    assert m <= n;
  }

  lemma Round6Unit(x: real)
    requires 0.0 <= x <= 1.0
    ensures 0.0 <= Round6(x) <= 1.0
  {
    assert Round6(0.0) == 0.0 && Round6(1.0) == 1.0;
    Round6Monotone(0.0, x);
    Round6Monotone(x, 1.0);
  }

  datatype Metrics = Metrics(precision: real, recall: real, f1: real, matched: nat)

  function Ratio(part: nat, whole: nat): (r: real)
    ensures 0.0 <= r && (part <= whole ==> r <= 1.0)
  {
    if whole == 0 then 0.0 else part as real / whole as real
  }

  function F1(p: real, r: real): real
    requires p >= 0.0 && r >= 0.0
  {
    if p + r == 0.0 then 0.0 else 2.0 * (p * r) / (p + r)
  }

  lemma F1Unit(p: real, r: real)
    requires 0.0 <= p <= 1.0 && 0.0 <= r <= 1.0
    ensures 0.0 <= F1(p, r) <= 1.0
  {
    var top := TwiceProduct(p, r);
    if p + r != 0.0 {
      QuotientUnit(top, p + r);
      assert F1(p, r) == top / (p + r);
    }
  }

  lemma NonNegative(a: real, b: real)
    requires 0.0 <= a && 0.0 <= b
    ensures 0.0 <= a * b
  {
  }

  lemma TwiceProduct(p: real, r: real) returns (top: real)
    requires 0.0 <= p <= 1.0 && 0.0 <= r <= 1.0
    ensures top == 2.0 * (p * r) && 0.0 <= top <= p + r
  {
    NonNegative(p, r);
    NonNegative(p, 1.0 - r);
    NonNegative(r, 1.0 - p);
    var x := p * r;
    assert p * (1.0 - r) == p - x;
    assert r * (1.0 - p) == r - x;
    top := 2.0 * x;
  }

  lemma QuotientUnit(a: real, b: real)
    requires 0.0 <= a <= b && 0.0 < b
    ensures 0.0 <= a / b <= 1.0
  {
  }

  lemma MatchedBounds(predicted: seq<Label>, gold: seq<Label>, minimum: real)
    ensures var n := |Greedy(predicted, gold, minimum, |predicted|)|; n <= |predicted| && n <= |gold|
  {
    var pairs := Greedy(predicted, gold, minimum, |predicted|);
    GreedyMatches(predicted, gold, minimum, |predicted|);
    IndicesExact(|predicted|);
    IndicesExact(|gold|);
    SubsetSize(pairs.Keys, Indices(|predicted|));
    ImageSize(pairs, pairs.Keys, Indices(|gold|));
  }

  /** The harmonic mean of both ratios is twice the matched over all labels. */
  lemma F1ByCounting(matched: nat, n: nat, m: nat)
    requires matched <= n && matched <= m && n + m > 0
    ensures F1(Ratio(matched, n), Ratio(matched, m)) == 2.0 * matched as real / (n + m) as real
  {
    if matched > 0 {
      HarmonicMean(matched as real, n as real, m as real);
      assert (n + m) as real == n as real + m as real;
    } else {
      assert Ratio(0, n) == 0.0 && Ratio(0, m) == 0.0;
    }
  }

  lemma HarmonicMean(k: real, n: real, m: real)
    requires k > 0.0 && n > 0.0 && m > 0.0
    ensures k / n > 0.0 && k / m > 0.0 && 2.0 * ((k / n) * (k / m)) / (k / n + k / m) == 2.0 * k / (n + m)
  {
    var p, r := k / n, k / m;
    assert p * n == k && r * m == k;
    var f := 2.0 * (p * r) / (p + r);
    assert f * (p + r) == 2.0 * (p * r);
    assert (p + r) * (n * m) == k * m + k * n by {
      assert (p * n) * m == k * m && (r * m) * n == k * n;
      assert (p + r) * (n * m) == (p * n) * m + (r * m) * n;
    }
    assert (p * r) * (n * m) == k * k by { assert (p * r) * (n * m) == (p * n) * (r * m); }
    assert f * (k * (n + m)) == 2.0 * (k * k) by {
      assert f * ((p + r) * (n * m)) == (f * (p + r)) * (n * m) == 2.0 * ((p * r) * (n * m));
      assert k * m + k * n == k * (n + m);
    }
    assert k * (f * (n + m)) == k * (2.0 * k);
    assert f * (n + m) == 2.0 * k;
  }

  method GreedyLoop(predicted: seq<Label>, gold: seq<Label>, minimum: real) returns (matched: nat)
    ensures matched == |Greedy(predicted, gold, minimum, |predicted|)|
  {
    var unmatched := Indices(|gold|);
    matched := 0;
    ghost var pairs: map<nat, nat> := map[];
    for n := 0 to |predicted|
      invariant pairs == Greedy(predicted, gold, minimum, n)
      invariant unmatched == Free(pairs, |gold|) && matched == |pairs|
    {
      var c := predicted[n];
      var best := Best(c, gold, unmatched, |gold|);
      if best.None? { continue; }
      if Jaccard(c.evidence, gold[best.value].evidence) >= minimum {
        matched := matched + 1;
        unmatched := unmatched - {best.value};
        assert n !in pairs;
        FreeAfter(pairs, n, best.value, |gold|);
        pairs := pairs[n := best.value];
      }
    }
  }

  lemma MetricsByCounting(matched: nat, n: nat, m: nat)
    requires matched <= n && matched <= m && n + m > 0
    ensures var p, r := Ratio(matched, n), Ratio(matched, m);
            && Round6(p) == (if n == 0 then 0.0 else Round6(matched as real / n as real))
            && Round6(r) == (if m == 0 then 0.0 else Round6(matched as real / m as real))
            && Round6(F1(p, r)) == Round6(2.0 * matched as real / (n + m) as real)
            && 0.0 <= Round6(p) <= 1.0 && 0.0 <= Round6(r) <= 1.0 && 0.0 <= Round6(F1(p, r)) <= 1.0
  {
    var p, r := Ratio(matched, n), Ratio(matched, m);
    F1Unit(p, r);
    F1ByCounting(matched, n, m);
    Round6Unit(p);
    Round6Unit(r);
    Round6Unit(F1(p, r));
    assert Round6(0.0) == 0.0;
  }

  /** evaluate_nodes: the greedy loop and the metrics, every one of them within [0, 1]. */
  method EvaluateNodes(predicted: seq<Label>, gold: seq<Label>, minimum: real) returns (r: Metrics)
    ensures predicted == [] && gold == [] ==> r == Metrics(1.0, 1.0, 1.0, 0)
    ensures !(predicted == [] && gold == []) ==>
              && r.precision == (if predicted == [] then 0.0 else Round6(r.matched as real / |predicted| as real))
              && r.recall == (if gold == [] then 0.0 else Round6(r.matched as real / |gold| as real))
              && r.f1 == Round6(2.0 * r.matched as real / (|predicted| + |gold|) as real)
    ensures var pairs := Greedy(predicted, gold, minimum, |predicted|);
            && r.matched == |pairs| && MaximalMatching(pairs, predicted, gold, minimum)
            && Preferring(pairs, predicted, gold)
    ensures 0.0 <= r.precision <= 1.0 && 0.0 <= r.recall <= 1.0 && 0.0 <= r.f1 <= 1.0
  {
    r := MatchAndRate(predicted, gold, minimum);
    GreedyIsMaximalMatching(predicted, gold, minimum);
  }

  method MatchAndRate(predicted: seq<Label>, gold: seq<Label>, minimum: real) returns (r: Metrics)
    ensures r.matched == |Greedy(predicted, gold, minimum, |predicted|)|
    ensures Rated(r, |predicted|, |gold|)
  {
    var matched := GreedyLoop(predicted, gold, minimum);
    MatchedBounds(predicted, gold, minimum);
    if predicted == [] && gold == [] {
      return Metrics(1.0, 1.0, 1.0, 0);
    }
    r := Rate(matched, |predicted|, |gold|);
  }

  /** The metrics for so many matches among so many predicted and gold labels. */
  ghost predicate Rated(r: Metrics, predicted: nat, gold: nat) {
    && (predicted == 0 && gold == 0 ==> r == Metrics(1.0, 1.0, 1.0, 0))
    && (predicted + gold > 0 ==>
          && r.precision == (if predicted == 0 then 0.0 else Round6(r.matched as real / predicted as real))
          && r.recall == (if gold == 0 then 0.0 else Round6(r.matched as real / gold as real))
          && r.f1 == Round6(2.0 * r.matched as real / (predicted + gold) as real))
    && 0.0 <= r.precision <= 1.0 && 0.0 <= r.recall <= 1.0 && 0.0 <= r.f1 <= 1.0
  }

  method Rate(matched: nat, predicted: nat, gold: nat) returns (r: Metrics)
    requires matched <= predicted && matched <= gold && predicted + gold > 0
    ensures r.matched == matched
    ensures r.precision == (if predicted == 0 then 0.0 else Round6(matched as real / predicted as real))
    ensures r.recall == (if gold == 0 then 0.0 else Round6(matched as real / gold as real))
    ensures r.f1 == Round6(2.0 * matched as real / (predicted + gold) as real)
    ensures 0.0 <= r.precision <= 1.0 && 0.0 <= r.recall <= 1.0 && 0.0 <= r.f1 <= 1.0
  {
    MetricsByCounting(matched, predicted, gold);
    var precision, recall := Ratio(matched, predicted), Ratio(matched, gold);
    r := Metrics(Round6(precision), Round6(recall), Round6(F1(precision, recall)), matched);
  }

  lemma FreeAfter(pairs: map<nat, nat>, k: nat, v: nat, golds: nat)
    requires k !in pairs
    ensures Free(pairs[k := v], golds) == Free(pairs, golds) - {v} && |pairs[k := v]| == |pairs| + 1
  {
    var after := pairs[k := v];
    assert after.Keys == pairs.Keys + {k};
    forall x | x in pairs.Values + {v} ensures x in after.Values {
      if x in pairs.Values {
        var j :| j in pairs && pairs[j] == x;
        assert after[j] == x;
      } else {
        assert after[k] == x;
      }
    }
  }
}
