/** Packing the messages that follow a candidate into a review prompt of bounded size. */
module ReviewPrompt {
  import opened Common

  /** Sizes are the lengths of the message's two JSON renderings. */
  datatype Message = Message(id: string, evidenceSize: nat, plainSize: nat)

  datatype Prompt = Prompt(truncated: bool, evidence: seq<Message>, window: seq<Message>, persistence: seq<Message>)

  datatype Built = Ready(prompt: Prompt) | EvidenceUnavailable | BudgetExceeded(required: nat)

  /** `frame` is the size of everything whose text does not depend on the choice. */
  datatype Request = Request(evidenceIds: set<string>, endId: string, window: seq<Message>, remaining: seq<Message>,
                             following: seq<seq<Message>>, sessionLimit: nat, frame: nat, budget: int)

  // ---- sizes ---------------------------------------------------------------------------------------------------

  function Ids(ms: seq<Message>): seq<string> { seq(|ms|, i requires 0 <= i < |ms| => ms[i].id) }

  function EvidenceSize(ms: seq<Message>): nat {
    if ms == [] then 2
    else EvidenceSize(ms[..|ms| - 1]) + ms[|ms| - 1].evidenceSize + if |ms| > 1 then 2 else 0
  }

  /** A JSON list: brackets, and a comma and a space between entries. */
  function ListSize(ms: seq<Message>): nat {
    if ms == [] then 2
    else ListSize(ms[..|ms| - 1]) + ms[|ms| - 1].plainSize + if |ms| > 1 then 2 else 0
  }

  /** `true` is one character shorter than `false`. */
  function Size(r: Request, p: Prompt): nat {
    r.frame + (if p.truncated then 4 else 5) + EvidenceSize(p.evidence) + ListSize(p.window) + ListSize(p.persistence)
  }

  // ---- what may go in ------------------------------------------------------------------------------------------

  function With(ms: seq<Message>, ids: set<string>): seq<Message> {
    if ms == [] then []
    else
      var before := With(ms[..|ms| - 1], ids);
      if ms[|ms| - 1].id in ids then before + [ms[|ms| - 1]] else before
  }

  function Without(ms: seq<Message>, ids: set<string>): seq<Message> {
    if ms == [] then []
    else
      var before := Without(ms[..|ms| - 1], ids);
      if ms[|ms| - 1].id in ids then before else before + [ms[|ms| - 1]]
  }

  function IdSet(ms: seq<Message>): set<string> { set i | 0 <= i < |ms| :: ms[i].id }

  /** The messages behind the first one of that id. */
  function After(ms: seq<Message>, id: string): seq<Message> {
    if ms == [] then [] else if ms[0].id == id then ms[1..] else After(ms[1..], id)
  }

  function Flat(sessions: seq<seq<Message>>): seq<Message> {
    if sessions == [] then [] else Flat(sessions[..|sessions| - 1]) + sessions[|sessions| - 1]
  }

  /** First occurrences of ids not in `seen`. */
  function Firsts(ms: seq<Message>, seen: set<string>): seq<Message> {
    if ms == [] then []
    else
      var before := Firsts(ms[..|ms| - 1], seen);
      if ms[|ms| - 1].id in seen + IdSet(before) then before else before + [ms[|ms| - 1]]
  }

  function Evidence(r: Request): seq<Message> { With(r.window, r.evidenceIds) }

  function SameWindow(r: Request): seq<Message> { Without(After(r.window, r.endId), r.evidenceIds) }

  function Allowed(r: Request): seq<seq<Message>> {
    if r.sessionLimit < |r.following| then r.following[..r.sessionLimit] else r.following
  }

  function Later(r: Request): seq<Message> {
    Firsts(r.remaining + Flat(Allowed(r)), r.evidenceIds + IdSet(SameWindow(r)))
  }

  predicate SessionsOmitted(r: Request) { |r.following| > |Allowed(r)| }

  function Offered(r: Request): nat { |SameWindow(r)| + |Later(r)| }

  /** The prompt that carries the first `k` of the messages on offer, window first. */
  function Carrying(r: Request, k: nat): Prompt
    requires k <= Offered(r)
  {
    var n := |SameWindow(r)|;
    Prompt(k < Offered(r) || SessionsOmitted(r), Evidence(r), SameWindow(r)[..if k < n then k else n],
           Later(r)[..if k < n then 0 else k - n])
  }

  // ---- the packer ----------------------------------------------------------------------------------------------

  method KeepFirsts(ms: seq<Message>, seen: set<string>) returns (unique: seq<Message>)
    ensures unique == Firsts(ms, seen)
  {
    unique := [];
    var known := seen;
    for i := 0 to |ms|
      invariant unique == Firsts(ms[..i], seen) && known == seen + IdSet(unique)
    {
      assert ms[..i + 1][..i] == ms[..i];
      if ms[i].id !in known {
        known := known + {ms[i].id};
        unique := unique + [ms[i]];
        IdSetAppend(unique[..|unique| - 1], ms[i]);
        assert unique[..|unique| - 1] + [ms[i]] == unique;
      }
    }
    assert ms[..|ms|] == ms;
  }

  lemma IdSetAppend(ms: seq<Message>, m: Message)
    ensures IdSet(ms + [m]) == IdSet(ms) + {m.id}
  {
    assert forall i | 0 <= i < |ms| :: (ms + [m])[i] == ms[i];
    assert (ms + [m])[|ms|] == m;
    forall x | x in IdSet(ms) + {m.id} ensures x in IdSet(ms + [m]) {
      if x in IdSet(ms) {
        var i :| 0 <= i < |ms| && ms[i].id == x;
        assert (ms + [m])[i].id == x;
      }
    }
  }

  predicate Fits(r: Request, k: nat)
    requires k <= Offered(r)
  {
    Size(r, Carrying(r, k)) <= r.budget
  }

  /** The prompt carries `k` messages, fits, and would not fit with one more. */
  predicate Packed(r: Request, p: Prompt, k: nat) {
    k <= Offered(r) && p == Carrying(r, k) && Fits(r, k) && (k < Offered(r) ==> !Fits(r, k + 1))
  }

  /** One message more goes to the window list, or, when that is full, to the persistence list. */
  lemma CarryNext(r: Request, k: nat)
    requires k < Offered(r)
    ensures var p, q, n := Carrying(r, k), Carrying(r, k + 1), |SameWindow(r)|;
            && q.evidence == p.evidence && q.truncated == (k < Offered(r) - 1 || SessionsOmitted(r)) && p.truncated
            && (k < n ==> q.window == p.window + [SameWindow(r)[k]] && q.persistence == p.persistence)
            && (k >= n ==> q.window == p.window && q.persistence == p.persistence + [Later(r)[k - n]])
  {
  }

  method BuildReviewUserContent(r: Request) returns (b: Built)
    ensures b.EvidenceUnavailable? <==> IdSet(Evidence(r)) != r.evidenceIds
    ensures b.BudgetExceeded? <==> IdSet(Evidence(r)) == r.evidenceIds && !Fits(r, 0)
    ensures b.BudgetExceeded? ==> b.required == Size(r, Carrying(r, 0))
    ensures b.Ready? ==> exists k :: Packed(r, b.prompt, k)
  {
    var evidence := Evidence(r);
    if IdSet(evidence) != r.evidenceIds { return EvidenceUnavailable; }
    var same, allowed := SameWindow(r), Allowed(r);
    var later := KeepFirsts(r.remaining + Flat(allowed), r.evidenceIds + IdSet(same));
    var omitted := |r.following| > |allowed|;
    var offered := |same| + |later|;
    var base := Prompt(offered > 0 || omitted, evidence, [], []);
    assert base == Carrying(r, 0);
    if Size(r, base) > r.budget { return BudgetExceeded(Size(r, base)); }
    var prompt := SelectMessages(r, base, same, later, omitted);
    return Ready(prompt);
  }

  /** Adds messages one by one while the serialized prompt fits, and takes the last one back when it does not. */
  method SelectMessages(r: Request, first: Prompt, same: seq<Message>, later: seq<Message>, omitted: bool)
    returns (prompt: Prompt)
    requires first == Carrying(r, 0) && Fits(r, 0) && same == SameWindow(r) && later == Later(r)
    requires omitted == SessionsOmitted(r)
    ensures exists k :: Packed(r, prompt, k)
  {
    var selectedWindow, selectedLater: seq<Message> := [], [];
    var base, offered := first, |same| + |later|;
    for index := 0 to offered
      invariant base == Carrying(r, index) && Fits(r, index) && base.evidence == first.evidence
      invariant selectedWindow == base.window && selectedLater == base.persistence
    {
      CarryNext(r, index);
      if index < |same| {
        selectedWindow := selectedWindow + [same[index]];
      } else {
        selectedLater := selectedLater + [later[index - |same|]];
      }
      var trial := Prompt(index < offered - 1 || omitted, first.evidence, selectedWindow, selectedLater);
      assert trial == Carrying(r, index + 1);
      if Size(r, trial) > r.budget {
        if index < |same| {
          selectedWindow := selectedWindow[..|selectedWindow| - 1];
        } else {
          selectedLater := selectedLater[..|selectedLater| - 1];
        }
        assert selectedWindow == base.window && selectedLater == base.persistence && Packed(r, base, index);
        return Prompt(true, first.evidence, selectedWindow, selectedLater);
      }
      base := trial;
    }
    assert Packed(r, base, offered);
    return base;
  }

  // ---- what a prompt guarantees --------------------------------------------------------------------------------

  lemma {:induction false} ListSizeGrows(ms: seq<Message>, i: nat, j: nat)
    requires i <= j <= |ms|
    ensures ListSize(ms[..i]) <= ListSize(ms[..j])
  {
    if i < j {
      ListSizeGrows(ms, i, j - 1);
      assert ms[..j][..j - 1] == ms[..j - 1];
    }
  }

  lemma SizeGrows(r: Request, j: nat, k: nat)
    requires j <= k <= Offered(r)
    ensures Size(r, Carrying(r, j)) <= Size(r, Carrying(r, k))
  {
    var n := |SameWindow(r)|;
    ListSizeGrows(SameWindow(r), if j < n then j else n, if k < n then k else n);
    ListSizeGrows(Later(r), if j < n then 0 else j - n, if k < n then 0 else k - n);
  }

  /**
   The prompt keeps the budget, carries the longest run of follow-up messages that does, and says exactly whether any
   message or session is missing.
  */
  lemma PackedExactly(r: Request, p: Prompt, k: nat)
    requires Packed(r, p, k)
    ensures Size(r, p) <= r.budget
    ensures forall j: nat | k < j <= Offered(r) :: !Fits(r, j)
    ensures p.window + p.persistence == (SameWindow(r) + Later(r))[..k]
    ensures p.truncated <==> p.window + p.persistence != SameWindow(r) + Later(r) || SessionsOmitted(r)
  {
    forall j: nat | k < j <= Offered(r) ensures !Fits(r, j) { SizeGrows(r, k + 1, j); }
    assert |p.window + p.persistence| == k;
  }

  /** The budget error comes only when no number of messages would have fitted. */
  lemma BudgetErrorExact(r: Request)
    ensures !Fits(r, 0) <==> forall k: nat | k <= Offered(r) :: !Fits(r, k)
  {
    forall k: nat | k <= Offered(r) && !Fits(r, 0) ensures !Fits(r, k) { SizeGrows(r, 0, k); }
  }

  // ---- what is on offer, message by message ----------------------------------------------------------------------

  /** `out` are the messages of `ms` at exactly these positions, in order. */
  ghost predicate Picks(out: seq<Message>, ms: seq<Message>, keep: set<nat>) {
    exists at: seq<nat> | |at| == |out| ::
      && (forall i | 0 <= i < |at| :: at[i] < |ms| && out[i] == ms[at[i]])
      && (forall i, j | 0 <= i < j < |at| :: at[i] < at[j])
      && (forall k :: k in at <==> k in keep)
  }

  lemma PicksNothing(ms: seq<Message>)
    ensures Picks([], ms, {})
  {
    var at: seq<nat> := [];
    assert |at| == 0;
  }

  lemma PicksNext(out: seq<Message>, ms: seq<Message>, keep: set<nat>, m: Message)
    requires Picks(out, ms, keep)
    ensures Picks(out, ms + [m], keep) && Picks(out + [m], ms + [m], keep + {|ms|})
  {
    var at: seq<nat> :| && |at| == |out| && (forall i | 0 <= i < |at| :: at[i] < |ms| && out[i] == ms[at[i]])
                        && (forall i, j | 0 <= i < j < |at| :: at[i] < at[j]) && (forall k :: k in at <==> k in keep);
    assert forall i | 0 <= i < |at| :: (ms + [m])[at[i]] == ms[at[i]];
    var more := at + [|ms|];
    assert |more| == |out + [m]|;
    forall i | 0 <= i < |more| ensures more[i] < |ms + [m]| && (out + [m])[i] == (ms + [m])[more[i]] { }
    forall k ensures k in more <==> k in keep + {|ms|} { assert k in more <==> k in at || k == |ms|; }
  }

  function Inside(ms: seq<Message>, ids: set<string>): set<nat> { set k | 0 <= k < |ms| && ms[k].id in ids }
  function Outside(ms: seq<Message>, ids: set<string>): set<nat> { set k | 0 <= k < |ms| && ms[k].id !in ids }

  lemma InsideNext(ms: seq<Message>, m: Message, ids: set<string>)
    ensures Inside(ms + [m], ids) == if m.id in ids then Inside(ms, ids) + {|ms|} else Inside(ms, ids)
    ensures Outside(ms + [m], ids) == if m.id in ids then Outside(ms, ids) else Outside(ms, ids) + {|ms|}
  {
    assert forall k | 0 <= k < |ms| :: (ms + [m])[k] == ms[k];
  }

  lemma {:induction false} WithPicks(ms: seq<Message>, ids: set<string>)
    ensures Picks(With(ms, ids), ms, Inside(ms, ids))
  {
    if ms == [] {
      PicksNothing(ms);
      assert Inside(ms, ids) == {};
    } else {
      var front, m := ms[..|ms| - 1], ms[|ms| - 1];
      WithPicks(front, ids);
      InsideNext(front, m, ids);
      PicksNext(With(front, ids), front, Inside(front, ids), m);
      assert ms == front + [m];
    }
  }

  lemma {:induction false} WithoutPicks(ms: seq<Message>, ids: set<string>)
    ensures Picks(Without(ms, ids), ms, Outside(ms, ids))
  {
    if ms == [] {
      PicksNothing(ms);
      assert Outside(ms, ids) == {};
    } else {
      var front, m := ms[..|ms| - 1], ms[|ms| - 1];
      WithoutPicks(front, ids);
      InsideNext(front, m, ids);
      PicksNext(Without(front, ids), front, Outside(front, ids), m);
      assert ms == front + [m];
    }
  }

  /** Positions of messages that are the first of their id, and that id not seen before. */
  function FirstAt(ms: seq<Message>, seen: set<string>): set<nat> {
    set k | 0 <= k < |ms| && ms[k].id !in seen && forall i | 0 <= i < k :: ms[i].id != ms[k].id
  }

  lemma FirstAtNext(ms: seq<Message>, m: Message, seen: set<string>)
    ensures var isNew := m.id !in seen && forall i | 0 <= i < |ms| :: ms[i].id != m.id;
            FirstAt(ms + [m], seen) == if isNew then FirstAt(ms, seen) + {|ms|} else FirstAt(ms, seen)
  {
    assert forall k | 0 <= k < |ms| :: (ms + [m])[k] == ms[k];
    assert (ms + [m])[|ms|] == m;
  }

  lemma FirstsHolds(ms: seq<Message>, seen: set<string>, id: string)
    requires id !in seen
    ensures id in IdSet(Firsts(ms, seen)) <==> exists i | 0 <= i < |ms| :: ms[i].id == id
  {
    var firsts := Firsts(ms, seen);
    FirstsIds(ms, seen);
    if i :| 0 <= i < |ms| && ms[i].id == id { FirstsComplete(ms, seen, i); }
    if id in IdSet(firsts) {
      var j :| 0 <= j < |firsts| && firsts[j].id == id;
      assert firsts[j] in firsts;
    }
  }

  lemma {:induction false} FirstsPicks(ms: seq<Message>, seen: set<string>)
    ensures Picks(Firsts(ms, seen), ms, FirstAt(ms, seen))
  {
    if ms == [] {
      PicksNothing(ms);
      assert FirstAt(ms, seen) == {};
    } else {
      var front, m := ms[..|ms| - 1], ms[|ms| - 1];
      FirstsPicks(front, seen);
      FirstAtNext(front, m, seen);
      if m.id !in seen { FirstsHolds(front, seen, m.id); }
      PicksNext(Firsts(front, seen), front, FirstAt(front, seen), m);
      assert ms == front + [m];
    }
  }

  /** What stands behind the first message of that id; nothing when there is none. */
  lemma {:induction false} AfterExactly(ms: seq<Message>, id: string)
    ensures (forall k | 0 <= k < |ms| :: ms[k].id != id) ==> After(ms, id) == []
    ensures forall k | 0 <= k < |ms| && ms[k].id == id && (forall i | 0 <= i < k :: ms[i].id != id) ::
              After(ms, id) == ms[k + 1..]
  {
    if ms != [] && ms[0].id != id {
      AfterExactly(ms[1..], id);
      forall k | 0 <= k < |ms| && ms[k].id == id && (forall i | 0 <= i < k :: ms[i].id != id)
        ensures After(ms, id) == ms[k + 1..]
      {
        assert k > 0 && ms[1..][k - 1].id == id;
        assert forall i | 0 <= i < k - 1 :: ms[1..][i].id == ms[i + 1].id;
        assert ms[1..][k..] == ms[k + 1..];
      }
    }
  }

  lemma {:induction false} FlatExactly(a: seq<seq<Message>>, b: seq<seq<Message>>, session: seq<Message>)
    ensures Flat(a + b) == Flat(a) + Flat(b) && Flat([session]) == session && Flat([]) == []
  {
    assert [session][..0] == [] && [] + session == session;
    if b == [] {
      assert a + b == a;
    } else {
      FlatExactly(a, b[..|b| - 1], session);
      assert (a + b)[..|a + b| - 1] == a + b[..|b| - 1];
    }
  }

  /**
   The request's three lists by position: evidence is what the window has of the evidence ids; then comes what follows
   the end message in the window and is no evidence; then the first of each further id in the rest of the session and
   in as many sessions as are allowed.
  */
  lemma OfferExactly(r: Request)
    ensures Picks(Evidence(r), r.window, Inside(r.window, r.evidenceIds))
    ensures var behind := After(r.window, r.endId); Picks(SameWindow(r), behind, Outside(behind, r.evidenceIds))
    ensures var allowed := if r.sessionLimit < |r.following| then r.sessionLimit else |r.following|;
            var raw := r.remaining + Flat(r.following[..allowed]);
            && Picks(Later(r), raw, FirstAt(raw, r.evidenceIds + IdSet(SameWindow(r))))
            && (SessionsOmitted(r) <==> r.sessionLimit < |r.following|)
  {
    WithPicks(r.window, r.evidenceIds);
    WithoutPicks(After(r.window, r.endId), r.evidenceIds);
    FirstsPicks(r.remaining + Flat(Allowed(r)), r.evidenceIds + IdSet(SameWindow(r)));
    assert r.following[..|r.following|] == r.following;
  }

  function Sum(sizes: seq<nat>): nat { if sizes == [] then 0 else sizes[0] + Sum(sizes[1..]) }

  lemma {:induction false} SumAppend(sizes: seq<nat>, n: nat)
    ensures Sum(sizes + [n]) == Sum(sizes) + n
  {
    if sizes == [] {
      assert [] + [n] == [n] && [n][1..] == [];
    } else {
      assert (sizes + [n])[1..] == sizes[1..] + [n];
      SumAppend(sizes[1..], n);
    }
  }

  function PlainSizes(ms: seq<Message>): seq<nat> { seq(|ms|, i requires 0 <= i < |ms| => ms[i].plainSize) }
  function EvidenceSizes(ms: seq<Message>): seq<nat> { seq(|ms|, i requires 0 <= i < |ms| => ms[i].evidenceSize) }

  /** Two brackets, and two characters between each two entries. */
  function Brackets(n: nat): nat { if n == 0 then 2 else 2 * n }

  lemma {:induction false} ListSizesExactly(ms: seq<Message>)
    ensures ListSize(ms) == Sum(PlainSizes(ms)) + Brackets(|ms|)
    ensures EvidenceSize(ms) == Sum(EvidenceSizes(ms)) + Brackets(|ms|)
  {
    if ms != [] {
      var n := |ms| - 1;
      ListSizesExactly(ms[..n]);
      assert PlainSizes(ms) == PlainSizes(ms[..n]) + [ms[n].plainSize];
      assert EvidenceSizes(ms) == EvidenceSizes(ms[..n]) + [ms[n].evidenceSize];
      SumAppend(PlainSizes(ms[..n]), ms[n].plainSize);
      SumAppend(EvidenceSizes(ms[..n]), ms[n].evidenceSize);
    }
  }

  /** The size of a prompt is that of its frame, its flag and every message in its three lists. */
  lemma SizeExactly(r: Request, p: Prompt)
    ensures Size(r, p) == r.frame + (if p.truncated then |"true"| else |"false"|)
                          + Sum(EvidenceSizes(p.evidence)) + Brackets(|p.evidence|)
                          + Sum(PlainSizes(p.window)) + Brackets(|p.window|)
                          + Sum(PlainSizes(p.persistence)) + Brackets(|p.persistence|)
  {
    ListSizesExactly(p.evidence);
    ListSizesExactly(p.window);
    ListSizesExactly(p.persistence);
  }

  // ---- no message twice ----------------------------------------------------------------------------------------

  predicate NoRepeat(ms: seq<Message>) { forall i, j | 0 <= i < j < |ms| :: ms[i].id != ms[j].id }

  function All(p: Prompt): seq<Message> { p.evidence + p.window + p.persistence }

  lemma NoRepeatAppend(ms: seq<Message>, m: Message)
    requires NoRepeat(ms) && forall x | x in ms :: x.id != m.id
    ensures NoRepeat(ms + [m])
  {
    assert forall i | 0 <= i < |ms| :: ms[i] in ms;
  }

  lemma {:induction false} WithIds(ms: seq<Message>, ids: set<string>)
    ensures forall m | m in With(ms, ids) :: m.id in ids && m in ms
    ensures forall m | m in Without(ms, ids) :: m.id !in ids && m in ms
  {
    if ms != [] { WithIds(ms[..|ms| - 1], ids); }
  }

  lemma {:induction false} WithDistinct(ms: seq<Message>, ids: set<string>)
    requires NoRepeat(ms)
    ensures NoRepeat(With(ms, ids)) && NoRepeat(Without(ms, ids))
  {
    if ms != [] {
      var n := |ms| - 1;
      WithDistinct(ms[..n], ids);
      WithIds(ms[..n], ids);
      forall m | m in ms[..n] ensures m.id != ms[n].id {
        var i :| 0 <= i < n && ms[i] == m;
      }
      if ms[n].id in ids {
        NoRepeatAppend(With(ms[..n], ids), ms[n]);
      } else {
        NoRepeatAppend(Without(ms[..n], ids), ms[n]);
      }
    }
  }

  lemma {:induction false} FirstsIds(ms: seq<Message>, seen: set<string>)
    ensures forall m | m in Firsts(ms, seen) :: m.id !in seen && m in ms
    ensures NoRepeat(Firsts(ms, seen))
  {
    if ms != [] {
      var n := |ms| - 1;
      FirstsIds(ms[..n], seen);
      var before := Firsts(ms[..n], seen);
      if ms[n].id !in seen + IdSet(before) {
        forall x | x in before ensures x.id != ms[n].id {
          var i :| 0 <= i < |before| && before[i] == x;
          assert before[i].id in IdSet(before);
        }
      }
    }
  }

  /** Nothing but duplicates is dropped. */
  lemma {:induction false} FirstsComplete(ms: seq<Message>, seen: set<string>, i: nat)
    requires i < |ms| && ms[i].id !in seen
    ensures ms[i].id in IdSet(Firsts(ms, seen))
  {
    var n := |ms| - 1;
    var before := Firsts(ms[..n], seen);
    IdSetAppend(before, ms[n]);
    if i < n { FirstsComplete(ms[..n], seen, i); }
  }

  lemma {:induction false} AfterSuffix(ms: seq<Message>, id: string)
    ensures NoRepeat(ms) ==> NoRepeat(After(ms, id))
    ensures forall m | m in After(ms, id) :: m in ms
  {
    if ms != [] && ms[0].id != id {
      assert NoRepeat(ms) ==> NoRepeat(ms[1..]);
      AfterSuffix(ms[1..], id);
    }
  }

  /** The three lists never share an id; so an id is repeated exactly when the evidence or the window repeats it. */
  lemma DistinctExactly(r: Request, k: nat)
    requires k <= Offered(r)
    ensures var p := Carrying(r, k);
            NoRepeat(All(p)) <==> NoRepeat(p.evidence) && NoRepeat(p.window)
  {
    var p := Carrying(r, k);
    WithIds(r.window, r.evidenceIds);
    WithIds(After(r.window, r.endId), r.evidenceIds);
    FirstsIds(r.remaining + Flat(Allowed(r)), r.evidenceIds + IdSet(SameWindow(r)));
    forall x, y | x in p.evidence && y in p.window ensures x.id != y.id {}
    forall x, y | x in p.window && y in p.persistence ensures x.id != y.id { assert x in SameWindow(r); }
    forall x, y | x in p.evidence && y in p.persistence ensures x.id != y.id { assert y in Later(r); }
    assert NoRepeat(p.persistence);
    JoinDistinct(p.evidence, p.window);
    JoinDistinct(p.evidence + p.window, p.persistence);
  }

  lemma JoinDistinct(a: seq<Message>, b: seq<Message>)
    requires forall x, y | x in a && y in b :: x.id != y.id
    ensures NoRepeat(a + b) <==> NoRepeat(a) && NoRepeat(b)
  {
    var c := a + b;
    if NoRepeat(c) {
      forall i, j | 0 <= i < j < |a| ensures a[i].id != a[j].id { assert c[i].id != c[j].id; }
      forall i, j | 0 <= i < j < |b| ensures b[i].id != b[j].id { assert c[|a| + i].id != c[|a| + j].id; }
    }
  }

  /** No prompt for a request repeats an id exactly when neither its evidence nor the window behind it does. */
  lemma DistinctOnRequest(r: Request)
    ensures (forall k: nat | k <= Offered(r) :: NoRepeat(All(Carrying(r, k))))
      <==> NoRepeat(With(r.window, r.evidenceIds)) && NoRepeat(Without(After(r.window, r.endId), r.evidenceIds))
  {
    var full := Carrying(r, Offered(r));
    DistinctExactly(r, Offered(r));
    assert full.evidence == Evidence(r) && full.window == SameWindow(r);
    forall k: nat | k <= Offered(r) && NoRepeat(Evidence(r)) && NoRepeat(SameWindow(r))
      ensures NoRepeat(All(Carrying(r, k)))
    {
      DistinctExactly(r, k);
    }
  }

  /** A window with distinct ids is enough. */
  lemma DistinctWindow(r: Request, k: nat)
    requires k <= Offered(r) && NoRepeat(r.window)
    ensures NoRepeat(All(Carrying(r, k)))
  {
    WithDistinct(r.window, r.evidenceIds);
    AfterSuffix(r.window, r.endId);
    WithDistinct(After(r.window, r.endId), r.evidenceIds);
    DistinctExactly(r, k);
  }

  /** A window that repeats an id is copied as it is: persistence is cleaned of duplicates, the window is not. */
  lemma RepeatedWindowIsKept()
    ensures var a := Message("a", 40, 30);
            var r := Request({"a"}, "a", [a, a], [], [], 0, 200, 1000);
            Fits(r, 0) && !NoRepeat(All(Carrying(r, 0)))
  {
    var a := Message("a", 40, 30);
    var r := Request({"a"}, "a", [a, a], [], [], 0, 200, 1000);
    assert [a, a][..1] == [a] && [a][..0] == [];
    assert With([a], {"a"}) == [a];
    assert With([a, a], {"a"}) == [a] + [a];
    var p := Carrying(r, 0);
    assert All(p)[0].id == All(p)[1].id;
    assert EvidenceSize([a]) == 42 && EvidenceSize([a, a]) == 84;
  }
}
