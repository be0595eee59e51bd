/** Splitting a chat into sessions by time gaps, and each session into overlapping windows under a budget. */
module Windowing {
  import opened Common
  import opened StableSort

  /** `size` is the number of characters of the content. */
  datatype Message = Message(id: string, stamp: int, size: nat)

  type Session = seq<Message>

  /** Messages start..end of a session, end excluded. */
  datatype Window = Window(start: nat, end: nat, count: nat)

  predicate Earlier(a: Message, b: Message) {
    a.stamp < b.stamp || (a.stamp == b.stamp && StringLeq(a.id, b.id))
  }

  lemma EarlierTotalPreorder()
    ensures TotalPreorder(Earlier)
  {
    forall a: Message, b: Message ensures Earlier(a, b) || Earlier(b, a) { StringLeqTotal(a.id, b.id); }
    forall a: Message, b: Message, c: Message | Earlier(a, b) && Earlier(b, c) ensures Earlier(a, c) {
      if a.stamp == c.stamp { StringLeqTransitive(a.id, b.id, c.id); }
    }
  }

  /** In order of time, and by id within one instant. */
  ghost predicate Chronological(ms: seq<Message>) {
    forall i, j | 0 <= i < j < |ms| ::
      ms[i].stamp <= ms[j].stamp && (ms[i].stamp == ms[j].stamp ==> NotAfter(ms[i].id, ms[j].id))
  }

  /** Sorting puts the messages into that order and loses none. */
  lemma SortIsChronological(messages: seq<Message>)
    ensures Chronological(Sort(messages, Earlier)) && multiset(Sort(messages, Earlier)) == multiset(messages)
  {
    EarlierTotalPreorder();
    SortCorrect(messages, Earlier);
    var chat := Sort(messages, Earlier);
    forall i, j | 0 <= i < j < |chat|
      ensures chat[i].stamp <= chat[j].stamp && (chat[i].stamp == chat[j].stamp ==> NotAfter(chat[i].id, chat[j].id))
    {
      assert Earlier(chat[i], chat[j]);
      StringLeqExactly(chat[i].id, chat[j].id);
    }
  }

  // ---- sessions ------------------------------------------------------------------------------------------------

  function Flat(sessions: seq<Session>): seq<Message> {
    if sessions == [] then [] else Flat(sessions[..|sessions| - 1]) + sessions[|sessions| - 1]
  }

  lemma FlatAppend(sessions: seq<Session>, session: Session)
    ensures Flat(sessions + [session]) == Flat(sessions) + session
  {
    assert (sessions + [session])[..|sessions|] == sessions;
  }

  /** Messages j - 1 and j of a list belong to the same conversation. */
  predicate Near(ms: seq<Message>, j: int, gap: int)
    requires 0 < j < |ms|
  {
    ms[j].stamp - ms[j - 1].stamp <= gap
  }

  predicate Close(session: Session, gap: int) {
    session != [] && forall j | 0 < j < |session| :: Near(session, j, gap)
  }

  /** Session i starts more than `gap` after the one before it ends. */
  predicate Apart(sessions: seq<Session>, i: int, gap: int)
    requires 0 < i < |sessions|
  {
    var a, b := sessions[i - 1], sessions[i];
    a != [] && b != [] && b[0].stamp - a[|a| - 1].stamp > gap
  }

  /** Groups of messages no more than `gap` apart, with more than `gap` between groups. */
  ghost predicate Splits(sessions: seq<Session>, ms: seq<Message>, gap: int) {
    && Flat(sessions) == ms
    && (forall i | 0 <= i < |sessions| :: Close(sessions[i], gap))
    && (forall i | 0 < i < |sessions| :: Apart(sessions, i, gap))
  }

  lemma ApartIn(sessions: seq<Session>, more: seq<Session>, i: int, gap: int)
    requires 0 < i < |sessions| <= |more| && more[i - 1] == sessions[i - 1] && more[i] != [] && sessions[i] != []
    requires more[i][0] == sessions[i][0]
    ensures Apart(more, i, gap) == Apart(sessions, i, gap)
  {
  }

  lemma GrowNew(sessions: seq<Session>, ms: seq<Message>, m: Message, gap: int)
    requires Splits(sessions, ms, gap) && ms != [] && sessions != [] && m.stamp - ms[|ms| - 1].stamp > gap
    ensures Splits(sessions + [[m]], ms + [m], gap)
  {
    var n, more := |sessions| - 1, sessions + [[m]];
    FlatAppend(sessions, [m]);
    assert sessions == sessions[..n] + [sessions[n]];
    assert Close(sessions[n], gap);
    assert ms[|ms| - 1] == sessions[n][|sessions[n]| - 1];
    forall i | 0 < i < |more| ensures Apart(more, i, gap) {
      if i <= n { ApartIn(sessions, more, i, gap); }
    }
  }

  lemma GrowLast(sessions: seq<Session>, ms: seq<Message>, m: Message, gap: int)
    requires Splits(sessions, ms, gap) && ms != [] && sessions != [] && m.stamp - ms[|ms| - 1].stamp <= gap
    ensures var n := |sessions| - 1; Splits(sessions[..n] + [sessions[n] + [m]], ms + [m], gap)
  {
    var n := |sessions| - 1;
    var last, longer := sessions[n], sessions[n] + [m];
    var more := sessions[..n] + [longer];
    FlatAppend(sessions[..n], longer);
    assert Flat(sessions[..n]) + longer == ms + [m];
    assert Close(last, gap);
    assert ms[|ms| - 1] == last[|last| - 1];
    forall j | 0 < j < |longer| ensures Near(longer, j, gap) {
      if j < |last| { assert Near(last, j, gap); }
    }
    forall i | 0 < i < |more| ensures Apart(more, i, gap) {
      assert Apart(sessions, i, gap) && Close(sessions[i], gap);
      ApartIn(sessions, more, i, gap);
    }
  }

  lemma SplitsSpelled(sessions: seq<Session>, ms: seq<Message>, gap: int)
    requires Splits(sessions, ms, gap)
    ensures forall i, j {:trigger sessions[i][j]} | 0 <= i < |sessions| && 0 < j < |sessions[i]| ::
              sessions[i][j].stamp - sessions[i][j - 1].stamp <= gap
    ensures forall i, k | 0 <= i < k < |sessions| && k == i + 1 ::
              && sessions[i] != [] && sessions[k] != []
              && sessions[k][0].stamp - sessions[i][|sessions[i]| - 1].stamp > gap
  {
    forall i, j {:trigger sessions[i][j]} | 0 <= i < |sessions| && 0 < j < |sessions[i]|
      ensures sessions[i][j].stamp - sessions[i][j - 1].stamp <= gap
    {
      assert Close(sessions[i], gap) && Near(sessions[i], j, gap);
    }
    forall i, k | 0 <= i < k < |sessions| && k == i + 1
      ensures sessions[i] != [] && sessions[k] != []
      ensures sessions[k][0].stamp - sessions[i][|sessions[i]| - 1].stamp > gap
    {
      assert Apart(sessions, k, gap);
    }
  }

  method SplitSessions(messages: seq<Message>, gap: int) returns (r: Option<seq<Session>>)
    ensures r.None? <==> gap <= 0
    ensures r.Some? ==> Splits(r.value, Sort(messages, Earlier), gap)
    ensures r.Some? ==> Chronological(Flat(r.value)) && multiset(Flat(r.value)) == multiset(messages)
    ensures r.Some? ==> forall i, j {:trigger r.value[i][j]} | 0 <= i < |r.value| && 0 < j < |r.value[i]| ::
              r.value[i][j].stamp - r.value[i][j - 1].stamp <= gap
    ensures r.Some? ==> forall i, k | 0 <= i < k < |r.value| && k == i + 1 ::
              r.value[i] != [] && r.value[k] != [] && r.value[k][0].stamp - r.value[i][|r.value[i]| - 1].stamp > gap
  {
    if gap <= 0 { return None; }
    var groups := SplitOrdered(Sort(messages, Earlier), gap);
    SortIsChronological(messages);
    SplitsSpelled(groups, Sort(messages, Earlier), gap);
    return Some(groups);
  }

  /** The loop over messages in order of time. */
  method SplitOrdered(ordered: seq<Message>, gap: int) returns (groups: seq<Session>)
    ensures Splits(groups, ordered, gap)
  {
    if ordered == [] { return []; }
    groups := [[ordered[0]]];
    assert ordered[..1] == [ordered[0]] && groups[..0] == [];
    for i := 1 to |ordered|
      invariant groups != [] && Splits(groups, ordered[..i], gap)
    {
      var previous, current := ordered[i - 1], ordered[i];
      assert ordered[..i + 1] == ordered[..i] + [current];
      if current.stamp - previous.stamp > gap {
        GrowNew(groups, ordered[..i], current, gap);
        groups := groups + [[current]];
      } else {
        GrowLast(groups, ordered[..i], current, gap);
        groups := groups[..|groups| - 1] + [groups[|groups| - 1] + [current]];
      }
    }
    assert ordered[..|ordered|] == ordered;
  }

  lemma LastParts(a: seq<Session>, ms: seq<Message>, gap: int)
    requires Splits(a, ms, gap) && a != []
    ensures var n := |a| - 1;
            && 0 < |a[n]| <= |ms| && a[n] == ms[|ms| - |a[n]|..]
            && Splits(a[..n], ms[..|ms| - |a[n]|], gap)
            && (n > 0 ==> |a[n]| < |ms| && !Near(ms, |ms| - |a[n]|, gap))
            && (n == 0 ==> |a[n]| == |ms|)
  {
    var n := |a| - 1;
    assert a == a[..n] + [a[n]] && Close(a[n], gap);
    assert ms[..|ms| - |a[n]|] == Flat(a[..n]);
    forall i | 0 < i < n ensures Apart(a[..n], i, gap) { assert Apart(a, i, gap); }
    if n > 0 {
      assert Flat(a[..n]) == Flat(a[..n][..n - 1]) + a[n - 1];
      assert Apart(a, n, gap);
    }
  }

  lemma NearInLast(a: seq<Session>, ms: seq<Message>, gap: int, k: int)
    requires Splits(a, ms, gap) && a != [] && |ms| - |a[|a| - 1]| < k < |ms| && k > 0
    ensures Near(ms, k, gap)
  {
    LastParts(a, ms, gap);
    var last := a[|a| - 1];
    assert Close(last, gap) && Near(last, k - (|ms| - |last|), gap);
  }

  /** The last group cannot be longer in one splitting than in another. */
  lemma LastNoLonger(a: seq<Session>, b: seq<Session>, ms: seq<Message>, gap: int)
    requires Splits(a, ms, gap) && Splits(b, ms, gap) && a != [] && b != []
    ensures |a[|a| - 1]| <= |b[|b| - 1]|
  {
    LastParts(a, ms, gap);
    LastParts(b, ms, gap);
    var k := |ms| - |b[|b| - 1]|;
    if |ms| - |a[|a| - 1]| < k { NearInLast(a, ms, gap, k); }
  }

  /** There is only one way to split. */
  lemma {:induction false} SplitsUnique(a: seq<Session>, b: seq<Session>, ms: seq<Message>, gap: int)
    requires Splits(a, ms, gap) && Splits(b, ms, gap)
    ensures a == b
    decreases |a|
  {
    if a == [] || b == [] {
      FlatEmpty(a, ms, gap);
      FlatEmpty(b, ms, gap);
    } else {
      LastNoLonger(a, b, ms, gap);
      LastNoLonger(b, a, ms, gap);
      LastParts(a, ms, gap);
      LastParts(b, ms, gap);
      SplitsUnique(a[..|a| - 1], b[..|b| - 1], ms[..|ms| - |a[|a| - 1]|], gap);
      assert a == a[..|a| - 1] + [a[|a| - 1]] && b == b[..|b| - 1] + [b[|b| - 1]];
    }
  }

  lemma FlatEmpty(a: seq<Session>, ms: seq<Message>, gap: int)
    requires Splits(a, ms, gap)
    ensures a == [] <==> ms == []
  {
    if a != [] { assert Close(a[|a| - 1], gap); }
  }

  // ---- windows of one session ----------------------------------------------------------------------------------

  function Total(ms: Session, start: nat, end: nat): nat
    requires start <= end <= |ms|
  {
    if start == end then 0 else Total(ms, start, end - 1) + ms[end - 1].size
  }

  lemma {:induction false} TotalShrinks(ms: Session, start: nat, later: nat, end: nat)
    requires start <= later <= end <= |ms|
    ensures Total(ms, later, end) <= Total(ms, start, end)
  {
    if later < end { TotalShrinks(ms, start, later, end - 1); }
  }

  lemma {:induction false} TotalGrows(ms: Session, start: nat, end: nat, later: nat)
    requires start <= end <= later <= |ms|
    ensures Total(ms, start, end) <= Total(ms, start, later)
  {
    if end < later { TotalGrows(ms, start, end, later - 1); }
  }

  /** A window holds at least one message, keeps the budget unless it holds only one, and could not take the next. */
  predicate Fits(w: Window, ms: Session, budget: int) {
    && w.start < w.end <= |ms| && w.count == Total(ms, w.start, w.end)
    && (w.end > w.start + 1 ==> w.count <= budget)
    && (w.end < |ms| ==> w.count + ms[w.end].size > budget)
  }

  function Overlap(w: Window, overlap: nat): int {
    if overlap < (w.end - w.start) / 2 then overlap else (w.end - w.start) / 2
  }

  /** The count of a stretch is the sum of its parts, down to single messages. */
  lemma {:induction false} TotalAdds(ms: Session, start: nat, mid: nat, end: nat)
    requires start <= mid <= end <= |ms|
    ensures Total(ms, start, end) == Total(ms, start, mid) + Total(ms, mid, end)
    ensures mid < |ms| ==> Total(ms, mid, mid + 1) == ms[mid].size
  {
    if mid < |ms| { assert Total(ms, mid, mid) == 0; }
    if mid < end { TotalAdds(ms, start, mid, end - 1); }
  }

  /** As much as asked for, up to half the window. */
  lemma OverlapExactly(w: Window, overlap: nat)
    requires w.start <= w.end
    ensures var o := Overlap(w, overlap);
            0 <= o <= overlap && 2 * o <= w.end - w.start && (o == overlap || 2 * (o + 1) > w.end - w.start)
  {
  }

  predicate Linked(ws: seq<Window>, i: int, ms: Session, overlap: nat)
    requires 0 < i < |ws|
  {
    ws[i - 1].end < |ms| && ws[i].start == ws[i - 1].end - Overlap(ws[i - 1], overlap)
  }

  /** Each window overlaps the one before by the asked number, or by half of it if that is less. */
  predicate Chain(ws: seq<Window>, ms: Session, budget: int, overlap: nat) {
    && (forall i | 0 <= i < |ws| :: Fits(ws[i], ms, budget))
    && (ws != [] ==> ws[0].start == 0)
    && (forall i | 0 < i < |ws| :: Linked(ws, i, ms, overlap))
  }

  predicate Windows(ws: seq<Window>, ms: Session, budget: int, overlap: nat) {
    Chain(ws, ms, budget, overlap) && (ws == [] <==> ms == []) && (ws != [] ==> ws[|ws| - 1].end == |ms|)
  }

  method FillWindow(ms: Session, start: nat, budget: int) returns (w: Window)
    requires start < |ms|
    ensures w.start == start && Fits(w, ms, budget)
    ensures start < w.end <= |ms| && (w.end == start + 1 || Total(ms, start, w.end) <= budget)
    ensures w.end < |ms| ==> Total(ms, start, w.end) + ms[w.end].size > budget
  {
    var end, count := start, 0;
    while end < |ms|
      invariant start <= end <= |ms| && count == Total(ms, start, end)
      invariant end > start + 1 ==> count <= budget
    {
      if end > start && count + ms[end].size > budget { break; }
      count := count + ms[end].size;
      end := end + 1;
    }
    w := Window(start, end, count);
  }

  lemma ChainGrows(ws: seq<Window>, w: Window, ms: Session, budget: int, overlap: nat)
    requires Chain(ws, ms, budget, overlap) && Fits(w, ms, budget)
    requires ws == [] ==> w.start == 0
    requires ws != [] ==>
      ws[|ws| - 1].end < |ms| && w.start == ws[|ws| - 1].end - Overlap(ws[|ws| - 1], overlap)
    ensures Chain(ws + [w], ms, budget, overlap)
  {
    var more := ws + [w];
    forall i | 0 < i < |more| ensures Linked(more, i, ms, overlap) {
      if i < |ws| { assert Linked(ws, i, ms, overlap); }
    }
  }

  method BuildSessionWindows(ms: Session, budget: int, overlap: nat) returns (ws: seq<Window>)
    ensures Windows(ws, ms, budget, overlap)
  {
    var start := 0;
    ws := [];
    while start < |ms|
      invariant Chain(ws, ms, budget, overlap)
      invariant ws != [] ==> ws[|ws| - 1].end < |ms| && start == ws[|ws| - 1].end - Overlap(ws[|ws| - 1], overlap)
      invariant ws == [] ==> start == 0
      decreases |ms| - start
    {
      var w := FillWindow(ms, start, budget);
      ChainGrows(ws, w, ms, budget, overlap);
      ws := ws + [w];
      if w.end == |ms| { return; }
      start := w.end - Overlap(w, overlap);
    }
  }

  // ---- what the windows guarantee ------------------------------------------------------------------------------

  /** A window that starts inside its predecessor still reaches at least as far. */
  lemma NextReachesAsFar(v: Window, w: Window, ms: Session, budget: int, overlap: nat)
    requires Fits(v, ms, budget) && Fits(w, ms, budget) && w.start == v.end - Overlap(v, overlap)
    ensures v.start < w.start <= v.end <= w.end
  {
    if w.end < v.end {
      assert v.end > v.start + 1;
      TotalShrinks(ms, v.start, w.start, v.end);
      TotalGrows(ms, w.start, w.end + 1, v.end);
    }
  }

  /** Starts strictly increase, ends never decrease, and no message falls between two windows. */
  lemma {:induction false} WindowsAdvance(ws: seq<Window>, ms: Session, budget: int, overlap: nat, i: nat, j: nat)
    requires Chain(ws, ms, budget, overlap) && i < j < |ws|
    ensures ws[i].start < ws[j].start && ws[i].end <= ws[j].end && ws[j].start <= ws[j - 1].end
    decreases j
  {
    assert Linked(ws, j, ms, overlap);
    NextReachesAsFar(ws[j - 1], ws[j], ms, budget, overlap);
    if i < j - 1 { WindowsAdvance(ws, ms, budget, overlap, i, j - 1); }
  }

  lemma {:induction false} StartsSpread(ws: seq<Window>, ms: Session, budget: int, overlap: nat, i: nat)
    requires Chain(ws, ms, budget, overlap) && i < |ws|
    ensures i <= ws[i].start
  {
    if i > 0 {
      StartsSpread(ws, ms, budget, overlap, i - 1);
      WindowsAdvance(ws, ms, budget, overlap, i - 1, i);
    }
  }

  /** Never more windows than messages. */
  lemma AtMostOnePerMessage(ws: seq<Window>, ms: Session, budget: int, overlap: nat)
    requires Chain(ws, ms, budget, overlap)
    ensures |ws| <= |ms|
  {
    if ws != [] { StartsSpread(ws, ms, budget, overlap, |ws| - 1); }
  }

  predicate EndsAscend(ws: seq<Window>, ms: Session) {
    && (forall i | 0 <= i < |ws| :: ws[i].end <= |ms|)
    && (forall i, j | 0 <= i < j < |ws| :: ws[i].end <= ws[j].end)
  }

  function EndOf(ws: seq<Window>, n: nat): nat
    requires n <= |ws|
  {
    if n == 0 then 0 else ws[n - 1].end
  }

  /** What the first `n` windows add, each beyond the end of the one before. */
  function FreshUpTo(ws: seq<Window>, ms: Session, n: nat): seq<Message>
    requires n <= |ws| && EndsAscend(ws, ms)
  {
    if n == 0 then [] else FreshUpTo(ws, ms, n - 1) + ms[EndOf(ws, n - 1)..EndOf(ws, n)]
  }

  function Fresh(ws: seq<Window>, ms: Session): seq<Message>
    requires EndsAscend(ws, ms)
  {
    FreshUpTo(ws, ms, |ws|)
  }

  lemma {:induction false} FreshIsPrefix(ws: seq<Window>, ms: Session, n: nat)
    requires n <= |ws| && EndsAscend(ws, ms)
    ensures EndOf(ws, n) <= |ms| && FreshUpTo(ws, ms, n) == ms[..EndOf(ws, n)]
  {
    if n > 0 {
      FreshIsPrefix(ws, ms, n - 1);
      var from, to := EndOf(ws, n - 1), EndOf(ws, n);
      assert from <= to;
      assert ms[..from] + ms[from..to] == ms[..to];
    }
  }

  /** The parts beyond the previous ends, joined, are the session: nothing is lost, repeated or reordered. */
  lemma WindowsCover(ws: seq<Window>, ms: Session, budget: int, overlap: nat)
    requires Windows(ws, ms, budget, overlap)
    ensures EndsAscend(ws, ms)
    ensures Fresh(ws, ms) == ms
  {
    forall i, j | 0 <= i < j < |ws| ensures ws[i].end <= ws[j].end { WindowsAdvance(ws, ms, budget, overlap, i, j); }
    FreshIsPrefix(ws, ms, |ws|);
    assert ms == ms[..|ms|];
  }

  /** A window adds nothing exactly when the overlap it repeats leaves no room for the next message. */
  lemma AddsNothingExactly(v: Window, w: Window, ms: Session, budget: int, overlap: nat)
    requires Fits(v, ms, budget) && Fits(w, ms, budget) && v.end < |ms|
    requires w.start == v.end - Overlap(v, overlap)
    ensures w.end == v.end <==> Overlap(v, overlap) > 0 && Total(ms, w.start, v.end) + ms[v.end].size > budget
  {
    NextReachesAsFar(v, w, ms, budget, overlap);
    if w.end > v.end {
      TotalGrows(ms, w.start, v.end + 1, w.end);
    }
  }

  /** Windows that satisfy the description are the ones that are built. */
  lemma {:induction false} WindowsUnique(a: seq<Window>, b: seq<Window>, ms: Session, budget: int, overlap: nat,
                                         n: nat)
    requires Windows(a, ms, budget, overlap) && Windows(b, ms, budget, overlap) && n < |a|
    ensures n < |b| && a[n] == b[n]
  {
    if n > 0 {
      WindowsUnique(a, b, ms, budget, overlap, n - 1);
      assert Linked(a, n, ms, overlap);
      assert n < |b|;
      assert Linked(b, n, ms, overlap);
    }
    SameEnd(a[n], b[n], ms, budget);
    SameEnd(b[n], a[n], ms, budget);
  }

  lemma SameEnd(v: Window, w: Window, ms: Session, budget: int)
    requires Fits(v, ms, budget) && Fits(w, ms, budget) && v.start == w.start
    ensures v.end <= w.end
  {
    if w.end < v.end { TotalGrows(ms, w.start, w.end + 1, v.end); }
  }

  /** The description leaves no choice: every list that meets it is the one that is built. */
  lemma WindowsDetermined(a: seq<Window>, b: seq<Window>, ms: Session, budget: int, overlap: nat)
    requires Windows(a, ms, budget, overlap) && Windows(b, ms, budget, overlap)
    ensures a == b
  {
    forall n | 0 <= n < |a| ensures n < |b| && a[n] == b[n] { WindowsUnique(a, b, ms, budget, overlap, n); }
    if b != [] { WindowsUnique(b, a, ms, budget, overlap, |b| - 1); }
    if a != [] { WindowsUnique(a, b, ms, budget, overlap, |a| - 1); }
  }

  /** A window can lie wholly inside its predecessor. */
  lemma NestedWindows()
    ensures var ms := [Message("a", 0, 1), Message("b", 0, 9), Message("c", 0, 10)];
            Windows([Window(0, 2, 10), Window(1, 2, 9), Window(2, 3, 10)], ms, 10, 1)
  {
    var ms := [Message("a", 0, 1), Message("b", 0, 9), Message("c", 0, 10)];
    assert Total(ms, 0, 2) == Total(ms, 0, 1) + 9 && Total(ms, 0, 1) == Total(ms, 0, 0) + 1;
    assert Total(ms, 1, 2) == Total(ms, 1, 1) + 9 && Total(ms, 2, 3) == Total(ms, 2, 2) + 10;
    var ws := [Window(0, 2, 10), Window(1, 2, 9), Window(2, 3, 10)];
    assert Linked(ws, 1, ms, 1) && Linked(ws, 2, ms, 1);
  }

  // ---- windows of a whole chat ---------------------------------------------------------------------------------

  datatype Placed = Placed(session: Session, ordinal: nat, window: Window)

  function Tag(session: Session, ws: seq<Window>): seq<Placed> {
    seq(|ws|, i requires 0 <= i < |ws| => Placed(session, i, ws[i]))
  }

  function TagAll(sessions: seq<Session>, lists: seq<seq<Window>>): seq<Placed>
    requires |lists| == |sessions|
  {
    if sessions == [] then []
    else
      var n := |sessions| - 1;
      TagAll(sessions[..n], lists[..n]) + Tag(sessions[n], lists[n])
  }

  ghost predicate TaggedIn(sessions: seq<Session>, lists: seq<seq<Window>>, i: nat, x: Placed)
    requires |lists| == |sessions|
  {
    i < |sessions| && x.session == sessions[i] && x.ordinal < |lists[i]| && x.window == lists[i][x.ordinal]
  }

  /** Every window of every session is listed, with its session and its number in it, and nothing else is. */
  lemma {:induction false} TagAllExactly(sessions: seq<Session>, lists: seq<seq<Window>>, x: Placed)
    requires |lists| == |sessions|
    ensures x in TagAll(sessions, lists) <==> exists i: nat :: TaggedIn(sessions, lists, i, x)
  {
    if sessions != [] {
      var n := |sessions| - 1;
      TagAllExactly(sessions[..n], lists[..n], x);
      assert forall i: nat | i < n :: TaggedIn(sessions[..n], lists[..n], i, x) <==> TaggedIn(sessions, lists, i, x);
      assert x in Tag(sessions[n], lists[n]) <==> TaggedIn(sessions, lists, n, x) by {
        if TaggedIn(sessions, lists, n, x) { assert Tag(sessions[n], lists[n])[x.ordinal] == x; }
      }
      if i: nat :| TaggedIn(sessions, lists, i, x) { assert i < n || i == n; }
      if i: nat :| TaggedIn(sessions[..n], lists[..n], i, x) { assert TaggedIn(sessions, lists, i, x); }
    }
  }

  predicate AllWindows(sessions: seq<Session>, lists: seq<seq<Window>>, budget: int, overlap: nat) {
    |lists| == |sessions| && forall i | 0 <= i < |sessions| :: Windows(lists[i], sessions[i], budget, overlap)
  }

  /** `lists` are the windows session by session. */
  method BuildAnalysisWindows(sessions: seq<Session>, budget: int, overlap: int)
    returns (r: Option<seq<Placed>>, ghost lists: seq<seq<Window>>)
    ensures r.None? <==> budget <= 0 || overlap < 0
    ensures r.Some? ==> AllWindows(sessions, lists, budget, overlap) && r.value == TagAll(sessions, lists)
  {
    lists := [];
    if budget <= 0 || overlap < 0 { return None, lists; }
    var windows := [];
    for i := 0 to |sessions|
      invariant AllWindows(sessions[..i], lists, budget, overlap) && windows == TagAll(sessions[..i], lists)
    {
      var ws := BuildSessionWindows(sessions[i], budget, overlap);
      assert sessions[..i + 1][..i] == sessions[..i] && (lists + [ws])[..i] == lists;
      windows := windows + Tag(sessions[i], ws);
      lists := lists + [ws];
    }
    assert sessions[..|sessions|] == sessions;
    return Some(windows), lists;
  }

  /** What the windows add, session after session. */
  function AllFresh(sessions: seq<Session>, lists: seq<seq<Window>>, budget: int, overlap: nat): seq<Message>
    requires AllWindows(sessions, lists, budget, overlap)
    decreases |sessions|
  {
    if sessions == [] then []
    else
      var n := |sessions| - 1;
      WindowsCover(lists[n], sessions[n], budget, overlap);
      AllFresh(sessions[..n], lists[..n], budget, overlap) + Fresh(lists[n], sessions[n])
  }

  lemma {:induction false} AllFreshIsFlat(sessions: seq<Session>, lists: seq<seq<Window>>, budget: int, overlap: nat)
    requires AllWindows(sessions, lists, budget, overlap)
    ensures AllFresh(sessions, lists, budget, overlap) == Flat(sessions)
    decreases |sessions|
  {
    if sessions != [] {
      var n := |sessions| - 1;
      AllFreshIsFlat(sessions[..n], lists[..n], budget, overlap);
      WindowsCover(lists[n], sessions[n], budget, overlap);
    }
  }

  /** From messages to windows and back: the parts the windows add, joined, are the chat in order of time. */
  lemma WindowsRebuildChat(messages: seq<Message>, gap: int, sessions: seq<Session>, lists: seq<seq<Window>>,
                           budget: int, overlap: nat)
    requires Splits(sessions, Sort(messages, Earlier), gap) && AllWindows(sessions, lists, budget, overlap)
    ensures var chat := AllFresh(sessions, lists, budget, overlap);
            Chronological(chat) && multiset(chat) == multiset(messages)
  {
    AllFreshIsFlat(sessions, lists, budget, overlap);
    SortIsChronological(messages);
  }

  // ---- what follows a window -----------------------------------------------------------------------------------

  datatype Context = Context(remaining: seq<Message>, following: seq<Session>)
  {
    function Messages(): seq<Message> { remaining + Flat(following) }
  }

  function Least(a: nat, b: nat): nat { if a < b then a else b }

  /** The first session of that name; the rest of it after the window, and up to `limit` whole sessions. */
  method GetPersistenceContext(names: seq<string>, sessions: seq<Session>, name: string, end: nat, limit: int)
    returns (r: Option<Context>)
    requires |names| == |sessions|
    ensures r.Some? <==> 0 <= limit <= 3 && name in names
    ensures r.Some? ==> exists k | 0 <= k < |sessions| ::
              && names[k] == name && name !in names[..k]
              && r.value.remaining == (if end < |sessions[k]| then sessions[k][end..] else [])
              && r.value.following ==
                 (if k + 1 + limit < |sessions| then sessions[k + 1..k + 1 + limit] else sessions[k + 1..])
  {
    if !(0 <= limit <= 3) { return None; }
    for k := 0 to |sessions|
      invariant name !in names[..k]
    {
      if names[k] == name {
        var stop := Least(k + 1 + limit, |sessions|);
        return Some(Context(sessions[k][Least(end, |sessions[k]|)..], sessions[k + 1..stop]));
      }
      assert names[..k + 1] == names[..k] + [names[k]];
    }
    assert names[..|names|] == names;
    return None;
  }

  lemma {:induction false} FlatConcat(a: seq<Session>, b: seq<Session>)
    ensures Flat(a + b) == Flat(a) + Flat(b)
  {
    if b == [] {
      assert a + b == a;
    } else {
      FlatConcat(a, b[..|b| - 1]);
      assert (a + b)[..|a + b| - 1] == a + b[..|b| - 1];
    }
  }

  lemma FlatTake(sessions: seq<Session>, k: nat)
    requires k < |sessions|
    ensures Flat(sessions[..k + 1]) == Flat(sessions[..k]) + sessions[k]
  {
    FlatAppend(sessions[..k], sessions[k]);
    assert sessions[..k + 1] == sessions[..k] + [sessions[k]];
  }

  lemma FlatSplit(sessions: seq<Session>, k: nat)
    requires k <= |sessions|
    ensures Flat(sessions) == Flat(sessions[..k]) + Flat(sessions[k..])
  {
    FlatConcat(sessions[..k], sessions[k..]);
    assert sessions[..k] + sessions[k..] == sessions;
  }

  lemma FlatAround(sessions: seq<Session>, k: nat)
    requires k < |sessions|
    ensures Flat(sessions) == (Flat(sessions[..k]) + sessions[k]) + Flat(sessions[k + 1..])
  {
    FlatSplit(sessions, k + 1);
    FlatTake(sessions, k);
  }

  lemma Regroup(before: seq<Message>, head: seq<Message>, tail: seq<Message>, after: seq<Message>, rest: seq<Message>)
    ensures (before + (head + tail)) + (after + rest) == before + head + (tail + after) + rest
  {
  }

  /** The context is the stretch of the chat that directly follows the window. */
  lemma ContextFollowsWindow(sessions: seq<Session>, k: nat, end: nat, stop: nat)
    requires k < stop <= |sessions| && end <= |sessions[k]|
    ensures Flat(sessions) == Flat(sessions[..k]) + sessions[k][..end]
                              + Context(sessions[k][end..], sessions[k + 1..stop]).Messages() + Flat(sessions[stop..])
  {
    FlatAround(sessions, k);
    assert sessions[k + 1..] == sessions[k + 1..stop] + sessions[stop..];
    FlatConcat(sessions[k + 1..stop], sessions[stop..]);
    assert sessions[k] == sessions[k][..end] + sessions[k][end..];
    Regroup(Flat(sessions[..k]), sessions[k][..end], sessions[k][end..],
            Flat(sessions[k + 1..stop]), Flat(sessions[stop..]));
  }
}
