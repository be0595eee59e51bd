/** The acceptance gate: a reviewed packet is checked against the run it reviews, then scored by precision. */
module NodeAcceptance {
  import opened Common
  import opened NodeMetrics

  const MAXIMUM_REVIEW_NODES := 25
  const DEFAULT_PRECISION_THRESHOLD := 0.8

  datatype Verdict = Pending | Accepted | Rejected

  /** What a node's hash covers: everything but the hash itself and the verdict. */
  datatype Payload = Payload(nodeId: string, eventType: string, evidenceIds: seq<string>, rest: string)

  datatype Node = Node(payload: Payload, hash: int, verdict: Verdict)

  datatype ManifestBody = ManifestBody(
    schema: string, project: string, run: string, exportedAt: string, nodeCount: nat, nodeIds: seq<string>,
    nodeHashes: seq<int>)

  datatype Manifest = Manifest(
    exportedAt: string, nodeCount: nat, nodeIds: seq<string>, nodeHashes: seq<int>, manifestHash: int)

  datatype Packet = Packet(schema: string, project: string, run: string, manifest: Manifest, nodes: seq<Node>)

  /** The two uses of the one hash function. */
  datatype Hashing = Hashing(node: Payload -> int, manifest: ManifestBody -> int)

  function Body(p: Packet): ManifestBody {
    ManifestBody(p.schema, p.project, p.run, p.manifest.exportedAt, p.manifest.nodeCount, p.manifest.nodeIds,
                 p.manifest.nodeHashes)
  }

  function Ids(nodes: seq<Node>): seq<string> {
    seq(|nodes|, i requires 0 <= i < |nodes| => nodes[i].payload.nodeId)
  }

  function Hashes(nodes: seq<Node>): seq<int> { seq(|nodes|, i requires 0 <= i < |nodes| => nodes[i].hash) }

  predicate WellFormedPacket(p: Packet) {
    |p.nodes| <= MAXIMUM_REVIEW_NODES &&
    forall i, j | 0 <= i < j < |p.nodes| :: p.nodes[i].payload.nodeId != p.nodes[j].payload.nodeId
  }

  /** The packet the run itself exports. */
  function BuildPacket(schema: string, project: string, run: string, exportedAt: string, published: seq<Payload>,
    h: Hashing): Packet
  {
    var nodes := seq(|published|, i requires 0 <= i < |published| =>
      Node(published[i], h.node(published[i]), Pending));
    var bare := Packet(schema, project, run, Manifest(exportedAt, |nodes|, Ids(nodes), Hashes(nodes), 0), nodes);
    bare.(manifest := bare.manifest.(manifestHash := h.manifest(Body(bare))))
  }

  predicate SubmittedIntegrity(p: Packet, h: Hashing) {
    && h.manifest(Body(p)) == p.manifest.manifestHash
    && p.manifest.nodeCount == |p.nodes|
    && p.manifest.nodeIds == Ids(p.nodes)
    && p.manifest.nodeHashes == Hashes(p.nodes)
    && (forall i | 0 <= i < |p.nodes| :: h.node(p.nodes[i].payload) == p.nodes[i].hash)
  }

  function LabelOf(p: Payload): Label { Label(p.eventType, set e | e in p.evidenceIds) }

  function Labels(nodes: seq<Node>): seq<Label> {
    seq(|nodes|, i requires 0 <= i < |nodes| => LabelOf(nodes[i].payload))
  }

  /** Positions of the nodes with this verdict, ascending. */
  function Positions(nodes: seq<Node>, v: Verdict): seq<nat> {
    if nodes == [] then []
    else
      var before := Positions(nodes[..|nodes| - 1], v);
      if nodes[|nodes| - 1].verdict == v then before + [|nodes| - 1] else before
  }

  lemma {:induction false} PositionsExact(nodes: seq<Node>, v: Verdict)
    ensures forall k | 0 <= k < |Positions(nodes, v)| ::
              Positions(nodes, v)[k] < |nodes| && nodes[Positions(nodes, v)[k]].verdict == v
    ensures forall k, l | 0 <= k < l < |Positions(nodes, v)| :: Positions(nodes, v)[k] < Positions(nodes, v)[l]
  {
    if nodes != [] { PositionsExact(nodes[..|nodes| - 1], v); }
  }

  lemma {:induction false} VerdictsPartition(nodes: seq<Node>)
    ensures |Positions(nodes, Accepted)| + |Positions(nodes, Rejected)| + |Positions(nodes, Pending)| == |nodes|
  {
    if nodes != [] { VerdictsPartition(nodes[..|nodes| - 1]); }
  }

  /** The labels of the accepted nodes, in packet order. */
  function Gold(nodes: seq<Node>): seq<Label> {
    var at := Positions(nodes, Accepted);
    PositionsExact(nodes, Accepted);
    seq(|at|, k requires 0 <= k < |at| => LabelOf(nodes[at[k]].payload))
  }

  /** With a collision-free node hash, a packet that passes both checks shows the run's own nodes. */
  lemma IntegrityFixesPayloads(reviewed: Packet, expected: Packet, published: seq<Payload>, h: Hashing)
    requires forall x, y :: h.node(x) == h.node(y) ==> x == y
    requires SubmittedIntegrity(reviewed, h) && reviewed.manifest == expected.manifest
    requires |expected.nodes| == |published| && expected.manifest.nodeHashes == Hashes(expected.nodes)
    requires forall i | 0 <= i < |published| :: expected.nodes[i].hash == h.node(published[i])
    ensures |reviewed.nodes| == |published|
    ensures forall i | 0 <= i < |published| :: reviewed.nodes[i].payload == published[i]
  {
    assert Hashes(reviewed.nodes) == Hashes(expected.nodes);
    forall i | 0 <= i < |published| ensures reviewed.nodes[i].payload == published[i] {
      assert Hashes(reviewed.nodes)[i] == Hashes(expected.nodes)[i];
    }
  }

  /** Scoring accepted nodes against all nodes matches exactly the accepted ones, whatever the labels. */
  lemma AcceptedAllMatched(predicted: seq<Label>, nodes: seq<Node>, minimum: real)
    requires minimum <= 1.0 && predicted == Labels(nodes)
    ensures |Greedy(predicted, Gold(nodes), minimum, |predicted|)| == |Positions(nodes, Accepted)|
  {
    PositionsExact(nodes, Accepted);
    var at, gold := Positions(nodes, Accepted), Gold(nodes);
    var twin := map k: nat | k < |at| :: at[k];
    TwinnedGoldMatched(twin, predicted, gold, minimum);
  }

  // ---- the gate --------------------------------------------------------------------------------------------

  datatype Status = Pass | Fail | Waiting

  datatype Result = Result(
    status: Status, precision: Option<real>, total: nat, reviewed: nat, accepted: nat, rejected: nat, pending: nat,
    matched: nat)

  datatype Outcome = Decided(result: Result) | BadThreshold | BadReview | BadScope

  /** What the gate should say of a fully checked packet, stated by counting alone. */
  ghost predicate Fair(r: Result, nodes: seq<Node>, threshold: real) {
    var accepted := |Positions(nodes, Accepted)|;
    var pending := |Positions(nodes, Pending)|;
    && r.total == |nodes| && r.accepted == accepted && r.pending == pending
    && r.rejected == |nodes| - accepted - pending && r.reviewed == |nodes| - pending
    && r.matched == accepted
    && r.precision == (if nodes == [] then None else Some(Round6(accepted as real / |nodes| as real)))
    && (r.status == Waiting <==> nodes == [] || pending > 0)
    && (r.status == Pass <==> nodes != [] && pending == 0 && Round6(accepted as real / |nodes| as real) >= threshold)
  }

  /** A packet of legal shape that is about this run and agrees with its own manifest. */
  predicate Submittable(project: string, run: string, p: Packet, h: Hashing) {
    WellFormedPacket(p) && p.project == project && p.run == run && SubmittedIntegrity(p, h)
  }

  /**
   evaluate_review_packet. The published payloads are what the run's history holds, None when that history cannot
   be exported. For a collision-free hash the decision is the fair one.
  */
  method EvaluateReviewPacket(project: string, run: string, reviewed: Packet, threshold: real, schema: string,
    exportedAt: string, published: Option<seq<Payload>>, h: Hashing) returns (r: Outcome)
    ensures r.BadThreshold? <==> !(0.0 <= threshold <= 1.0)
    ensures r.BadScope? <==> 0.0 <= threshold <= 1.0 && Submittable(project, run, reviewed, h) && published.None?
    ensures r.Decided? <==>
              && 0.0 <= threshold <= 1.0 && Submittable(project, run, reviewed, h) && published.Some?
              && reviewed.manifest == BuildPacket(schema, project, run, exportedAt, published.value, h).manifest
    ensures r.BadScope? || r.Decided? ==>
              && reviewed.project == project && reviewed.run == run && |reviewed.nodes| <= 25
              && forall i, j | 0 <= i < j < |reviewed.nodes| ::
                   reviewed.nodes[i].payload.nodeId != reviewed.nodes[j].payload.nodeId
    ensures r.Decided? && (forall x, y :: h.node(x) == h.node(y) ==> x == y) ==>
              Fair(r.result, reviewed.nodes, threshold)
  {
    if !(0.0 <= threshold <= 1.0) { return BadThreshold; }
    if !WellFormedPacket(reviewed) { return BadReview; }
    if reviewed.project != project || reviewed.run != run { return BadReview; }
    if !SubmittedIntegrity(reviewed, h) { return BadReview; }
    if published.None? { return BadScope; }
    var expected := BuildPacket(schema, project, run, exportedAt, published.value, h);
    if reviewed.manifest != expected.manifest { return BadReview; }

    var result := Score(Labels(expected.nodes), reviewed.nodes, threshold);
    r := Decided(result);
    if forall x, y :: h.node(x) == h.node(y) ==> x == y {
      IntegrityFixesPayloads(reviewed, expected, published.value, h);
      assert Labels(expected.nodes) == Labels(reviewed.nodes);
    }
  }

  /** Counts the verdicts and decides. */
  method Score(predicted: seq<Label>, nodes: seq<Node>, threshold: real) returns (r: Result)
    ensures predicted == Labels(nodes) ==> Fair(r, nodes, threshold)
  {
    var gold := Gold(nodes);
    var metrics := EvaluateNodes(predicted, gold, 0.5);
    var accepted := |gold|;
    var rejected := |Positions(nodes, Rejected)|;
    var pending := |Positions(nodes, Pending)|;
    var precision := if predicted == [] then None else Some(metrics.precision);
    var status := if predicted == [] || pending > 0 then Waiting
                  else if metrics.precision >= threshold then Pass
                  else Fail;
    r := Result(status, precision, |predicted|, accepted + rejected, accepted, rejected, pending, metrics.matched);
    VerdictsPartition(nodes);
    if predicted == Labels(nodes) { AcceptedAllMatched(predicted, nodes, 0.5); }
  }

  // ---- which packets are decided ------------------------------------------------------------------------------

  /** The packet with every verdict taken back. */
  function Unreviewed(p: Packet): Packet {
    p.(nodes := seq(|p.nodes|, i requires 0 <= i < |p.nodes| => p.nodes[i].(verdict := Pending)))
  }

  ghost predicate CollisionFree(h: Hashing) {
    (forall x, y :: h.node(x) == h.node(y) ==> x == y) && (forall x, y :: h.manifest(x) == h.manifest(y) ==> x == y)
  }

  predicate Exportable(published: seq<Payload>) {
    |published| <= 25 && forall i, j | 0 <= i < j < |published| :: published[i].nodeId != published[j].nodeId
  }

  lemma ExportIsIntact(schema: string, project: string, run: string, exportedAt: string, published: seq<Payload>,
                       h: Hashing)
    ensures var built := BuildPacket(schema, project, run, exportedAt, published, h);
            && SubmittedIntegrity(built, h) && built.schema == schema && built.project == project && built.run == run
            && |built.nodes| == |published|
            && forall i | 0 <= i < |published| ::
                 built.nodes[i] == Node(published[i], h.node(published[i]), Pending)
  {
  }

  lemma IntactWhateverTheVerdicts(p: Packet, h: Hashing)
    ensures SubmittedIntegrity(Unreviewed(p), h) <==> SubmittedIntegrity(p, h)
  {
    assert Ids(Unreviewed(p).nodes) == Ids(p.nodes) && Hashes(Unreviewed(p).nodes) == Hashes(p.nodes);
    assert Body(Unreviewed(p)) == Body(p);
    assert forall i | 0 <= i < |p.nodes| ::
        Unreviewed(p).nodes[i].payload == p.nodes[i].payload && Unreviewed(p).nodes[i].hash == p.nodes[i].hash;
  }

  lemma SubmittedIsExport(reviewed: Packet, schema: string, project: string, run: string, exportedAt: string,
                          published: seq<Payload>, h: Hashing)
    requires CollisionFree(h) && Submittable(project, run, reviewed, h)
    requires reviewed.manifest == BuildPacket(schema, project, run, exportedAt, published, h).manifest
    ensures Unreviewed(reviewed) == BuildPacket(schema, project, run, exportedAt, published, h)
    ensures Exportable(published)
  {
    var built := BuildPacket(schema, project, run, exportedAt, published, h);
    ExportIsIntact(schema, project, run, exportedAt, published, h);
    IntegrityFixesPayloads(reviewed, built, published, h);
    assert Body(reviewed) == Body(built);
    forall i | 0 <= i < |published| ensures Unreviewed(reviewed).nodes[i] == built.nodes[i] {
      assert reviewed.nodes[i].payload == published[i];
    }
    assert Unreviewed(reviewed).nodes == built.nodes;
    forall i, j | 0 <= i < j < |published| ensures published[i].nodeId != published[j].nodeId {
      assert reviewed.nodes[i].payload == published[i] && reviewed.nodes[j].payload == published[j];
    }
  }

  /**
   With collision-free hashes a packet passes all checks exactly when, its verdicts aside, it is the run's own export,
   and that has at most 25 nodes under distinct ids.
  */
  lemma DecidedExactly(reviewed: Packet, schema: string, project: string, run: string, exportedAt: string,
                       published: seq<Payload>, h: Hashing)
    requires CollisionFree(h)
    ensures var built := BuildPacket(schema, project, run, exportedAt, published, h);
            Submittable(project, run, reviewed, h) && reviewed.manifest == built.manifest
            <==> Unreviewed(reviewed) == built && Exportable(published)
  {
    var built := BuildPacket(schema, project, run, exportedAt, published, h);
    if Submittable(project, run, reviewed, h) && reviewed.manifest == built.manifest {
      SubmittedIsExport(reviewed, schema, project, run, exportedAt, published, h);
    }
    if Unreviewed(reviewed) == built && Exportable(published) {
      ExportIsIntact(schema, project, run, exportedAt, published, h);
      IntactWhateverTheVerdicts(reviewed, h);
      forall i | 0 <= i < |published| ensures reviewed.nodes[i].payload == published[i] {
        assert Unreviewed(reviewed).nodes[i] == built.nodes[i];
      }
    }
  }

  // ---- what rounding does to the gate -----------------------------------------------------------------------------

  /** The least whole number of millionths that is no less than t. */
  function Millionths(t: real): int { -(-(t * 1000000.0)).Floor }

  /** Half a millionth below that number, and at the half itself only for an even one. */
  predicate RoundsUpTo(x: real, k: int) {
    x * 1000000.0 > k as real - 0.5 || (x * 1000000.0 == k as real - 0.5 && k % 2 == 0)
  }

  /** The rounded value meets a threshold exactly from this boundary on, for every value and every threshold. */
  lemma RoundedMeetsExactly(x: real, t: real)
    ensures Round6(x) >= t <==> RoundsUpTo(x, Millionths(t))
  {
    var k, n := Millionths(t), (x * 1000000.0).Floor;
    var rest := x * 1000000.0 - n as real;
    var rounded := if rest < 0.5 || (rest == 0.5 && n % 2 == 0) then n else n + 1;
    assert Round6(x) == rounded as real / 1000000.0;
    assert Round6(x) >= t <==> rounded as real >= t * 1000000.0;
    assert rounded as real >= t * 1000000.0 <==> rounded >= k;
  }

  /**
   Rounding changes a verdict exactly between the threshold and that boundary: a value too small passes, or one large
   enough fails.
  */
  lemma RoundingFlipsExactly(x: real, t: real)
    ensures var boundary := Millionths(t) as real - 0.5;
            (Round6(x) >= t) != (x >= t)
            <==> if x < t then x * 1000000.0 > boundary || (x * 1000000.0 == boundary && Millionths(t) % 2 == 0)
                 else x * 1000000.0 < boundary || (x * 1000000.0 == boundary && Millionths(t) % 2 != 0)
  {
    RoundedMeetsExactly(x, t);
  }

  lemma ScaledThreshold(j: int, n: int, slack: real)
    ensures (j as real / 10000.0 - slack) * n as real == (j * n) as real / 10000.0 - slack * n as real
  {
    var t := j as real / 10000.0;
    assert (t - slack) * n as real == t * n as real - slack * n as real;
    assert t * n as real * 10000.0 == (t * 10000.0) * n as real == j as real * n as real == (j * n) as real;
  }

  /** A quotient with so small a denominator that misses a four-decimal threshold misses it by four millionths. */
  lemma QuotientsStayAway(a: nat, n: nat, j: nat)
    requires 0 < n <= MAXIMUM_REVIEW_NODES
    ensures 10000 * a >= j * n ==> a as real / n as real >= j as real / 10000.0
    ensures 10000 * a < j * n ==> a as real / n as real < j as real / 10000.0 - 0.0000039
  {
    var product := j * n;
    ScaledThreshold(j, n, 0.0);
    ScaledThreshold(j, n, 0.0000039);
    QuotientAtLeast(a as real, n as real, j as real / 10000.0);
    QuotientAtLeast(a as real, n as real, j as real / 10000.0 - 0.0000039);
    assert 0.0000039 * n as real < 0.0001;
  }

  /** At thresholds of up to four decimals, and for packets of legal size, rounding never changes the verdict. */
  lemma FourDecimalGateIsExact(accepted: nat, total: nat, j: nat)
    requires 0 < total <= MAXIMUM_REVIEW_NODES
    ensures Round6(accepted as real / total as real) >= j as real / 10000.0 <==> 10000 * accepted >= j * total
  {
    var x, t := accepted as real / total as real, j as real / 10000.0;
    QuotientsStayAway(accepted, total, j);
    RoundedMeetsExactly(x, t);
    assert t * 1000000.0 == (100 * j) as real && Millionths(t) == 100 * j;
  }

  lemma DefaultGateIsExact(accepted: nat, total: nat)
    requires accepted <= total <= MAXIMUM_REVIEW_NODES && 0 < total
    ensures Round6(accepted as real / total as real) >= DEFAULT_PRECISION_THRESHOLD <==> 5 * accepted >= 4 * total
  {
    FourDecimalGateIsExact(accepted, total, 8000);
  }

  /** Beyond four decimals it can: two accepted nodes of three pass a gate that two thirds do not reach. */
  lemma RoundingCanPass()
    ensures 2.0 / 3.0 < 0.666667 <= Round6(2.0 / 3.0)
  {
    RoundingFlipsExactly(2.0 / 3.0, 0.666667);
    assert Millionths(0.666667) == 666667;
  }
}
