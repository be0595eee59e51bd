/** Message trees, their masking by reference and by position, and the list of what can still be masked. */
module MaskedMessages {
  import opened Common

  const MASK_PLACEHOLDER := "[该消息因内容策略未发送云端,仅保留时间与发送人]"
  const CHUNK_PLACEHOLDER := "[该检索片段因内容策略未发送云端]"

  /** An element of a "messages" list: not an object, or its message_ref and content where those are strings. */
  datatype Entry = NotObject | Entry(ref: Option<string>, content: Option<string>)

  datatype Fragment =
    | NotFragment
    | Fragment(refs: seq<string>, messages: Option<seq<Entry>>, chunk: Option<string>)

  datatype JsonObject = JsonObject(
    messages: Option<seq<Entry>>, fragments: Option<seq<Fragment>>, context: Option<string>, rest: string)

  /** Message content: not a string, a string that is no JSON object, or a string that parses to one. */
  datatype Content = NotText | Text(text: string) | Json(obj: JsonObject)

  datatype Message = Message(id: int, content: Content)

  function OrEmpty<T>(o: Option<seq<T>>): seq<T> { if o.Some? then o.value else [] }

  // ---- masking ---------------------------------------------------------------------------------------------

  function MaskEntry(e: Entry, refs: set<string>): Entry {
    if e.Entry? && e.ref.Some? && e.ref.value in refs && e.content.Some? then e.(content := Some(MASK_PLACEHOLDER))
    else e
  }

  function MaskEntries(es: seq<Entry>, refs: set<string>): seq<Entry> {
    seq(|es|, i requires 0 <= i < |es| => MaskEntry(es[i], refs))
  }

  function MaskList(es: Option<seq<Entry>>, refs: set<string>): Option<seq<Entry>> {
    if es.Some? then Some(MaskEntries(es.value, refs)) else None
  }

  predicate Hit(f: Fragment, refs: set<string>) { f.Fragment? && exists r | r in f.refs :: r in refs }

  predicate AnyHit(fs: seq<Fragment>, refs: set<string>) { exists i | 0 <= i < |fs| :: Hit(fs[i], refs) }

  function Replace(text: Option<string>, placeholder: string): Option<string> {
    if text.Some? then Some(placeholder) else None
  }

  function MaskFragment(f: Fragment, refs: set<string>): Fragment {
    if f.NotFragment? then f
    else f.(messages := MaskList(f.messages, refs),
            chunk := if Hit(f, refs) then Replace(f.chunk, CHUNK_PLACEHOLDER) else f.chunk)
  }

  function MaskFragments(fs: seq<Fragment>, refs: set<string>): seq<Fragment> {
    seq(|fs|, i requires 0 <= i < |fs| => MaskFragment(fs[i], refs))
  }

  function MaskObject(o: JsonObject, refs: set<string>): JsonObject {
    o.(messages := MaskList(o.messages, refs),
       fragments := if o.fragments.Some? then Some(MaskFragments(o.fragments.value, refs)) else None,
       context := if AnyHit(OrEmpty(o.fragments), refs) then Replace(o.context, CHUNK_PLACEHOLDER) else o.context)
  }

  function MaskContent(c: Content, byPosition: bool, refs: set<string>): Content {
    if byPosition && !c.NotText? then Text(MASK_PLACEHOLDER)
    else if c.Json? then Json(MaskObject(c.obj, refs))
    else c
  }

  function Masked(ms: seq<Message>, refs: set<string>, raw: set<nat>): (r: seq<Message>)
    ensures |r| == |ms|
  {
    seq(|ms|, i requires 0 <= i < |ms| => ms[i].(content := MaskContent(ms[i].content, i in raw, refs)))
  }

  // ---- masking is an algebra -------------------------------------------------------------------------------

  lemma HitUnion(f: Fragment, a: set<string>, b: set<string>)
    ensures Hit(f, a + b) <==> Hit(f, a) || Hit(f, b)
  {
  }

  lemma HitAfterMask(f: Fragment, a: set<string>, b: set<string>)
    ensures Hit(MaskFragment(f, a), b) <==> Hit(f, b)
  {
  }

  lemma ComposeEntries(es: Option<seq<Entry>>, a: set<string>, b: set<string>)
    ensures MaskList(MaskList(es, a), b) == MaskList(es, a + b)
  {
    if es.Some? { assert MaskEntries(MaskEntries(es.value, a), b) == MaskEntries(es.value, a + b); }
  }

  lemma ComposeFragment(f: Fragment, a: set<string>, b: set<string>)
    ensures MaskFragment(MaskFragment(f, a), b) == MaskFragment(f, a + b)
  {
    if f.Fragment? {
      ComposeEntries(f.messages, a, b);
      HitUnion(f, a, b);
      HitAfterMask(f, a, b);
    }
  }

  lemma ComposeObject(o: JsonObject, a: set<string>, b: set<string>)
    ensures MaskObject(MaskObject(o, a), b) == MaskObject(o, a + b)
  {
    ComposeEntries(o.messages, a, b);
    var fs := OrEmpty(o.fragments);
    forall i | 0 <= i < |fs|
      ensures MaskFragment(MaskFragment(fs[i], a), b) == MaskFragment(fs[i], a + b)
      ensures Hit(fs[i], a + b) <==> Hit(fs[i], a) || Hit(fs[i], b)
      ensures Hit(MaskFragments(fs, a)[i], b) <==> Hit(fs[i], b)
    {
      ComposeFragment(fs[i], a, b);
      HitUnion(fs[i], a, b);
      HitAfterMask(fs[i], a, b);
    }
    assert AnyHit(fs, a + b) <==> AnyHit(fs, a) || AnyHit(fs, b);
    assert AnyHit(MaskFragments(fs, a), b) <==> AnyHit(fs, b);
    assert MaskFragments(MaskFragments(fs, a), b) == MaskFragments(fs, a + b);
  }

  /** Masking twice is masking once by the unions, whatever the two selections. */
  lemma MaskCompose(ms: seq<Message>, a: set<string>, r1: set<nat>, b: set<string>, r2: set<nat>)
    ensures Masked(Masked(ms, a, r1), b, r2) == Masked(ms, a + b, r1 + r2)
  {
    forall i | 0 <= i < |ms| ensures Masked(Masked(ms, a, r1), b, r2)[i] == Masked(ms, a + b, r1 + r2)[i] {
      if ms[i].content.Json? { ComposeObject(ms[i].content.obj, a, b); }
    }
  }

  /** Every reference an object mentions, in an entry or in a fragment's own list. */
  ghost function RefsOf(o: JsonObject): set<string> {
    EntryRefs(OrEmpty(o.messages)) + FragmentRefs(OrEmpty(o.fragments))
  }

  ghost function EntryRefs(es: seq<Entry>): set<string> {
    set i | 0 <= i < |es| && es[i].Entry? && es[i].ref.Some? :: es[i].ref.value
  }

  ghost function FragmentRefs(fs: seq<Fragment>): set<string> {
    if fs == [] then {}
    else
      var f := fs[|fs| - 1];
      FragmentRefs(fs[..|fs| - 1]) +
      (if f.Fragment? then (set r | r in f.refs) + EntryRefs(OrEmpty(f.messages)) else {})
  }

  lemma {:induction false} FragmentRefsCover(fs: seq<Fragment>, i: nat)
    requires i < |fs| && fs[i].Fragment?
    ensures (set r | r in fs[i].refs) <= FragmentRefs(fs)
    ensures EntryRefs(OrEmpty(fs[i].messages)) <= FragmentRefs(fs)
  {
    if i < |fs| - 1 { FragmentRefsCover(fs[..|fs| - 1], i); }
  }

  lemma MaskListUnselected(es: Option<seq<Entry>>, refs: set<string>)
    requires refs !! EntryRefs(OrEmpty(es))
    ensures MaskList(es, refs) == es
  {
    if es.Some? {
      forall i | 0 <= i < |es.value| ensures MaskEntry(es.value[i], refs) == es.value[i] {
        if es.value[i].Entry? && es.value[i].ref.Some? {
          assert es.value[i].ref.value in EntryRefs(es.value);
        }
      }
      assert MaskEntries(es.value, refs) == es.value;
    }
  }

  /** An object is untouched by references it does not mention, context and chunks included. */
  lemma MaskObjectUnselected(o: JsonObject, refs: set<string>)
    requires refs !! RefsOf(o)
    ensures MaskObject(o, refs) == o
  {
    MaskListUnselected(o.messages, refs);
    var fs := OrEmpty(o.fragments);
    forall i | 0 <= i < |fs| ensures !Hit(fs[i], refs) && MaskFragment(fs[i], refs) == fs[i] {
      if fs[i].Fragment? {
        FragmentRefsCover(fs, i);
        MaskListUnselected(fs[i].messages, refs);
        forall r | r in fs[i].refs ensures r !in refs { assert r in (set x | x in fs[i].refs); }
      }
    }
    assert MaskFragments(fs, refs) == fs;
  }

  /** A message that is neither selected by position nor mentions a selected reference comes back as it was. */
  lemma MaskTouchesOnlySelected(ms: seq<Message>, refs: set<string>, raw: set<nat>)
    ensures forall i | 0 <= i < |ms| && i !in raw && (ms[i].content.Json? ==> refs !! RefsOf(ms[i].content.obj)) ::
              Masked(ms, refs, raw)[i] == ms[i]
    ensures forall i | 0 <= i < |ms| :: Masked(ms, refs, raw)[i].id == ms[i].id
    ensures forall i | 0 <= i < |ms| && i in raw ::
              Masked(ms, refs, raw)[i].content == if ms[i].content.NotText? then NotText else Text(MASK_PLACEHOLDER)
  {
    forall i | 0 <= i < |ms| && i !in raw && (ms[i].content.Json? ==> refs !! RefsOf(ms[i].content.obj))
      ensures Masked(ms, refs, raw)[i] == ms[i]
    {
      if ms[i].content.Json? { MaskObjectUnselected(ms[i].content.obj, refs); }
    }
  }

  /** Some fragment names one of the references among its own. */
  predicate Named(fs: seq<Fragment>, refs: set<string>) {
    exists i | 0 <= i < |fs| :: fs[i].Fragment? && exists r | r in fs[i].refs :: r in refs
  }

  predicate Selected(e: Entry, refs: set<string>) { e.Entry? && e.ref.Some? && e.ref.value in refs }

  /** Entry by entry, only the content of selected entries may differ, and then it is the placeholder. */
  predicate OnlySelectedDiffer(es: Option<seq<Entry>>, masked: Option<seq<Entry>>, refs: set<string>) {
    && (es.Some? <==> masked.Some?) && |OrEmpty(es)| == |OrEmpty(masked)|
    && forall i | 0 <= i < |OrEmpty(es)| ::
         var e, m := OrEmpty(es)[i], OrEmpty(masked)[i];
         m == e || (Selected(e, refs) && e.content.Some? && m == e.(content := Some(MASK_PLACEHOLDER)))
  }

  /** Only selected entries and, when the fragment is hit, its chunk may differ. */
  predicate OnlyHitDiffers(f: Fragment, m: Fragment, refs: set<string>) {
    if f.NotFragment? then m == f
    else
      && m.Fragment? && m.refs == f.refs && OnlySelectedDiffer(f.messages, m.messages, refs)
      && (m.chunk == f.chunk ||
          ((exists r | r in f.refs :: r in refs) && f.chunk.Some? && m.chunk == Some(CHUNK_PLACEHOLDER)))
  }

  lemma MaskListDiffers(es: Option<seq<Entry>>, refs: set<string>)
    ensures OnlySelectedDiffer(es, MaskList(es, refs), refs)
  {
  }

  /**
   Inside a partly masked object: unselected entries, chunks without a hit, the context when no fragment is hit, and
   everything else stay as they were; every selected entry and hit chunk is replaced.
  */
  lemma MaskObjectTouchesOnlySelected(o: JsonObject, refs: set<string>)
    ensures var m := MaskObject(o, refs);
            && m.rest == o.rest && OnlySelectedDiffer(o.messages, m.messages, refs)
            && (m.fragments.Some? <==> o.fragments.Some?) && |OrEmpty(m.fragments)| == |OrEmpty(o.fragments)|
            && (forall i | 0 <= i < |OrEmpty(o.fragments)| ::
                  OnlyHitDiffers(OrEmpty(o.fragments)[i], OrEmpty(m.fragments)[i], refs))
            && (m.context == o.context ||
                (Named(OrEmpty(o.fragments), refs) && o.context.Some? && m.context == Some(CHUNK_PLACEHOLDER)))
    ensures var m := MaskObject(o, refs);
            && (forall i | 0 <= i < |OrEmpty(m.messages)| :: Replaced(OrEmpty(m.messages)[i], refs))
            && (forall i | 0 <= i < |OrEmpty(m.fragments)| :: FragmentReplaced(OrEmpty(m.fragments)[i], refs))
            && (Named(OrEmpty(o.fragments), refs) && m.context.Some? ==> m.context.value == CHUNK_PLACEHOLDER)
  {
    MaskListDiffers(o.messages, refs);
    assert forall i | 0 <= i < |OrEmpty(o.fragments)| ::
        Hit(OrEmpty(o.fragments)[i], refs)
        <==> OrEmpty(o.fragments)[i].Fragment? && exists r | r in OrEmpty(o.fragments)[i].refs :: r in refs;
    forall i | 0 <= i < |OrEmpty(o.fragments)|
      ensures OnlyHitDiffers(OrEmpty(o.fragments)[i], MaskFragment(OrEmpty(o.fragments)[i], refs), refs)
      ensures FragmentReplaced(MaskFragment(OrEmpty(o.fragments)[i], refs), refs)
    {
      var f := OrEmpty(o.fragments)[i];
      if f.Fragment? { MaskListDiffers(f.messages, refs); }
    }
  }

  predicate Replaced(e: Entry, refs: set<string>) {
    Selected(e, refs) && e.content.Some? ==> e.content.value == MASK_PLACEHOLDER
  }

  predicate FragmentReplaced(f: Fragment, refs: set<string>) {
    f.Fragment? ==>
      && (forall i | 0 <= i < |OrEmpty(f.messages)| :: Replaced(OrEmpty(f.messages)[i], refs))
      && ((exists r | r in f.refs :: r in refs) && f.chunk.Some? ==> f.chunk.value == CHUNK_PLACEHOLDER)
  }

  // ---- what a selection would still change -------------------------------------------------------------------

  predicate EntryShown(e: Entry, refs: set<string>) {
    Selected(e, refs) && e.content.Some? && e.content.value != MASK_PLACEHOLDER
  }

  predicate ListShown(es: Option<seq<Entry>>, refs: set<string>) {
    exists i | 0 <= i < |OrEmpty(es)| :: EntryShown(OrEmpty(es)[i], refs)
  }

  predicate FragmentShown(f: Fragment, refs: set<string>) {
    f.Fragment? &&
    (ListShown(f.messages, refs) || (Hit(f, refs) && f.chunk.Some? && f.chunk.value != CHUNK_PLACEHOLDER))
  }

  /** Some text the selection covers is still readable in the object. */
  predicate Shows(o: JsonObject, refs: set<string>) {
    || ListShown(o.messages, refs)
    || (exists i | 0 <= i < |OrEmpty(o.fragments)| :: FragmentShown(OrEmpty(o.fragments)[i], refs))
    || (AnyHit(OrEmpty(o.fragments), refs) && o.context.Some? && o.context.value != CHUNK_PLACEHOLDER)
  }

  lemma ListFixedExactly(es: Option<seq<Entry>>, refs: set<string>)
    ensures MaskList(es, refs) == es <==> !ListShown(es, refs)
  {
    var masked := MaskList(es, refs);
    if ListShown(es, refs) {
      var i :| 0 <= i < |OrEmpty(es)| && EntryShown(OrEmpty(es)[i], refs);
      assert OrEmpty(masked)[i] != OrEmpty(es)[i];
    } else if es.Some? {
      forall i | 0 <= i < |es.value| ensures masked.value[i] == es.value[i] {
        assert !EntryShown(OrEmpty(es)[i], refs);
      }
      assert masked.value == es.value;
    }
  }

  /** Masking changes an object exactly when it shows something selected. */
  lemma ObjectFixedExactly(o: JsonObject, refs: set<string>)
    ensures MaskObject(o, refs) == o <==> !Shows(o, refs)
  {
    ListFixedExactly(o.messages, refs);
    var fs := OrEmpty(o.fragments);
    forall i | 0 <= i < |fs| ensures MaskFragment(fs[i], refs) == fs[i] <==> !FragmentShown(fs[i], refs) {
      if fs[i].Fragment? { ListFixedExactly(fs[i].messages, refs); }
    }
    if exists i | 0 <= i < |fs| :: FragmentShown(fs[i], refs) {
      var i :| 0 <= i < |fs| && FragmentShown(fs[i], refs);
      assert MaskFragments(fs, refs)[i] != fs[i];
    } else {
      assert MaskFragments(fs, refs) == fs;
    }
  }

  /** Masking a list again, by more references, changes it exactly when a message left readable shows one of them. */
  lemma ListMaskedAgain(ms: seq<Message>, refs: set<string>, more: set<string>, raw: set<nat>)
    ensures var view := Masked(ms, refs, raw);
            Masked(ms, refs + more, raw) == view
            <==> forall i | 0 <= i < |ms| && i !in raw && view[i].content.Json? :: !Shows(view[i].content.obj, more)
  {
    var view := Masked(ms, refs, raw);
    MaskCompose(ms, refs, raw, more, raw);
    assert raw + raw == raw;
    var again := Masked(view, more, raw);
    forall i | 0 <= i < |ms|
      ensures again[i] == view[i] <==> (i !in raw && view[i].content.Json? ==> !Shows(view[i].content.obj, more))
    {
      if view[i].content.Json? { ObjectFixedExactly(view[i].content.obj, more); }
    }
    assert again == view <==> forall i | 0 <= i < |ms| :: again[i] == view[i];
  }

  // ---- what can be masked ----------------------------------------------------------------------------------

  predicate Maskable(e: Entry) {
    e.Entry? && e.ref.Some? && e.content.Some? && e.content.value != MASK_PLACEHOLDER
  }

  function MaskableRefs(es: seq<Entry>): seq<string> {
    if es == [] then []
    else
      var before, e := MaskableRefs(es[..|es| - 1]), es[|es| - 1];
      if Maskable(e) then before + [e.ref.value] else before
  }

  function FragmentEntries(f: Fragment): seq<Entry> { if f.Fragment? then OrEmpty(f.messages) else [] }

  function FragmentMaskable(fs: seq<Fragment>): seq<string> {
    if fs == [] then []
    else FragmentMaskable(fs[..|fs| - 1]) + MaskableRefs(FragmentEntries(fs[|fs| - 1]))
  }

  function ObjectMaskable(o: JsonObject): seq<string> {
    MaskableRefs(OrEmpty(o.messages)) + FragmentMaskable(OrEmpty(o.fragments))
  }

  function AllMaskable(ms: seq<Message>): seq<string> {
    if ms == [] then []
    else
      var before, c := AllMaskable(ms[..|ms| - 1]), ms[|ms| - 1].content;
      if c.Json? then before + ObjectMaskable(c.obj) else before
  }

  predicate IsRawUnit(m: Message) { m.content.Text? && m.content.text != [] && m.content.text != MASK_PLACEHOLDER }

  /** Positions of the free texts that can be masked, ascending. */
  function RawUnits(ms: seq<Message>): seq<nat> {
    if ms == [] then []
    else
      var before := RawUnits(ms[..|ms| - 1]);
      if IsRawUnit(ms[|ms| - 1]) then before + [|ms| - 1] else before
  }

  /** An entry that carries this reference and a content not masked yet. */
  predicate Carries(e: Entry, x: string) {
    e.Entry? && e.ref == Some(x) && e.content.Some? && e.content.value != MASK_PLACEHOLDER
  }

  predicate ListCarries(es: Option<seq<Entry>>, x: string) {
    es.Some? && exists j | 0 <= j < |es.value| :: Carries(es.value[j], x)
  }

  /** In the object's own list, or in the list of one of its fragments. */
  predicate ObjectCarries(o: JsonObject, x: string) {
    || ListCarries(o.messages, x)
    || (o.fragments.Some? && exists k | 0 <= k < |o.fragments.value| ::
          o.fragments.value[k].Fragment? && ListCarries(o.fragments.value[k].messages, x))
  }

  lemma {:induction false} MaskableRefsExact(es: seq<Entry>, x: string)
    ensures x in MaskableRefs(es) <==> exists j | 0 <= j < |es| :: Carries(es[j], x)
  {
    if es != [] {
      var n := |es| - 1;
      MaskableRefsExact(es[..n], x);
      assert forall j | 0 <= j < n :: es[..n][j] == es[j];
    }
  }

  lemma {:induction false} FragmentMaskableExact(fs: seq<Fragment>, x: string)
    ensures x in FragmentMaskable(fs)
            <==> exists k | 0 <= k < |fs| :: fs[k].Fragment? && ListCarries(fs[k].messages, x)
  {
    if fs != [] {
      var n := |fs| - 1;
      FragmentMaskableExact(fs[..n], x);
      MaskableRefsExact(FragmentEntries(fs[n]), x);
      assert x in MaskableRefs(FragmentEntries(fs[n])) <==> fs[n].Fragment? && ListCarries(fs[n].messages, x);
      assert forall k | 0 <= k < n :: fs[..n][k] == fs[k];
    }
  }

  lemma ObjectMaskableExact(o: JsonObject, x: string)
    ensures x in ObjectMaskable(o) <==> ObjectCarries(o, x)
  {
    MaskableRefsExact(OrEmpty(o.messages), x);
    FragmentMaskableExact(OrEmpty(o.fragments), x);
  }

  lemma {:induction false} AllMaskableExact(ms: seq<Message>, x: string)
    ensures x in AllMaskable(ms)
            <==> exists i | 0 <= i < |ms| :: ms[i].content.Json? && ObjectCarries(ms[i].content.obj, x)
  {
    if ms != [] {
      var n := |ms| - 1;
      AllMaskableExact(ms[..n], x);
      assert forall i | 0 <= i < n :: ms[..n][i] == ms[i];
      if ms[n].content.Json? { ObjectMaskableExact(ms[n].content.obj, x); }
    }
  }

  /** A reference is a unit exactly when some JSON message carries it, at the top or in a fragment; each is one once. */
  lemma RefUnitsExact(ms: seq<Message>)
    ensures forall x :: x in RefUnits(ms)
              <==> exists i | 0 <= i < |ms| :: ms[i].content.Json? && ObjectCarries(ms[i].content.obj, x)
    ensures forall i, j | 0 <= i < j < |RefUnits(ms)| :: RefUnits(ms)[i] != RefUnits(ms)[j]
  {
    ExtendElements(AllMaskable(ms));
    forall x ensures x in AllMaskable(ms)
                     <==> exists i | 0 <= i < |ms| :: ms[i].content.Json? && ObjectCarries(ms[i].content.obj, x)
    {
      AllMaskableExact(ms, x);
    }
  }

  /** Appends what is not there yet. */
  function Extend(found: seq<string>, s: seq<string>): seq<string> {
    if s == [] then found
    else
      var r := Extend(found, s[..|s| - 1]);
      if s[|s| - 1] in r then r else r + [s[|s| - 1]]
  }

  /** The references that can be masked, each once, in order of first appearance. */
  function RefUnits(ms: seq<Message>): seq<string> { Extend([], AllMaskable(ms)) }

  lemma {:induction false} ExtendConcat(found: seq<string>, s: seq<string>, t: seq<string>)
    ensures Extend(found, s + t) == Extend(Extend(found, s), t)
  {
    if t == [] {
      assert s + t == s;
    } else {
      assert (s + t)[..|s + t| - 1] == s + t[..|t| - 1];
      ExtendConcat(found, s, t[..|t| - 1]);
    }
  }

  lemma {:induction false} ExtendElements(s: seq<string>)
    ensures forall x :: x in Extend([], s) <==> x in s
    ensures forall i, j | 0 <= i < j < |Extend([], s)| :: Extend([], s)[i] != Extend([], s)[j]
  {
    if s != [] {
      assert s == s[..|s| - 1] + [s[|s| - 1]];
      ExtendElements(s[..|s| - 1]);
    }
  }

  /** The elements outside `drop`, in order. */
  function Without<T(==)>(s: seq<T>, drop: set<T>): (r: seq<T>)
    ensures forall x | x in r :: x in s && x !in drop
  {
    if s == [] then []
    else
      var before, last := Without(s[..|s| - 1], drop), s[|s| - 1];
      if last in drop then before else before + [last]
  }

  lemma {:induction false} WithoutConcat<T>(s: seq<T>, t: seq<T>, drop: set<T>)
    ensures Without(s + t, drop) == Without(s, drop) + Without(t, drop)
  {
    if t == [] {
      assert s + t == s;
    } else {
      assert (s + t)[..|s + t| - 1] == s + t[..|t| - 1];
      WithoutConcat(s, t[..|t| - 1], drop);
    }
  }

  lemma {:induction false} WithoutKeeps<T>(s: seq<T>, drop: set<T>, x: T)
    ensures x in Without(s, drop) <==> x in s && x !in drop
  {
    if s != [] {
      assert s == s[..|s| - 1] + [s[|s| - 1]];
      WithoutKeeps(s[..|s| - 1], drop, x);
    }
  }

  lemma {:induction false} WithoutExtend(s: seq<string>, drop: set<string>)
    ensures Without(Extend([], s), drop) == Extend([], Without(s, drop))
  {
    if s != [] {
      var front, last := s[..|s| - 1], s[|s| - 1];
      var found, kept := Extend([], front), Without(front, drop);
      WithoutExtend(front, drop);
      WithoutConcat(found, [last], drop);
      WithoutKeeps(found, drop, last);
      assert (kept + [last])[..|kept|] == kept;
    }
  }

  lemma {:induction false} MaskableAfterEntries(es: seq<Entry>, a: set<string>)
    ensures MaskableRefs(MaskEntries(es, a)) == Without(MaskableRefs(es), a)
  {
    if es != [] {
      var front, e := es[..|es| - 1], es[|es| - 1];
      var masked := MaskEntries(es, a);
      assert masked[..|masked| - 1] == MaskEntries(front, a) && masked[|masked| - 1] == MaskEntry(e, a);
      MaskableAfterEntries(front, a);
      if Maskable(e) { WithoutConcat(MaskableRefs(front), [e.ref.value], a); }
    }
  }

  lemma MaskedFragmentEntries(f: Fragment, a: set<string>)
    ensures MaskableRefs(FragmentEntries(MaskFragment(f, a))) == Without(MaskableRefs(FragmentEntries(f)), a)
  {
    MaskableAfterEntries(FragmentEntries(f), a);
    assert MaskEntries([], a) == [];
  }

  lemma {:induction false} MaskableAfterFragments(fs: seq<Fragment>, a: set<string>)
    ensures FragmentMaskable(MaskFragments(fs, a)) == Without(FragmentMaskable(fs), a)
  {
    if fs != [] {
      var front, f := fs[..|fs| - 1], fs[|fs| - 1];
      var masked := MaskFragments(fs, a);
      assert masked[..|masked| - 1] == MaskFragments(front, a) && masked[|masked| - 1] == MaskFragment(f, a);
      MaskableAfterFragments(front, a);
      MaskedFragmentEntries(f, a);
      WithoutConcat(FragmentMaskable(front), MaskableRefs(FragmentEntries(f)), a);
    }
  }

  lemma MaskableAfterObject(o: JsonObject, a: set<string>)
    ensures ObjectMaskable(MaskObject(o, a)) == Without(ObjectMaskable(o), a)
  {
    MaskableAfterEntries(OrEmpty(o.messages), a);
    MaskableAfterFragments(OrEmpty(o.fragments), a);
    WithoutConcat(MaskableRefs(OrEmpty(o.messages)), FragmentMaskable(OrEmpty(o.fragments)), a);
  }

  lemma {:induction false} RefsAfterMask(ms: seq<Message>, a: set<string>, raw: set<nat>)
    requires forall i | i in raw && i < |ms| :: IsRawUnit(ms[i])
    ensures AllMaskable(Masked(ms, a, raw)) == Without(AllMaskable(ms), a)
  {
    if ms != [] {
      var n := |ms| - 1;
      var front, c, masked := ms[..n], ms[n].content, Masked(ms, a, raw);
      assert masked[..n] == Masked(front, a, raw) && masked[n].content == MaskContent(c, n in raw, a);
      forall i | i in raw && i < |front| ensures IsRawUnit(front[i]) { assert IsRawUnit(ms[i]); }
      RefsAfterMask(front, a, raw);
      if c.Json? {
        MaskableAfterObject(c.obj, a);
        WithoutConcat(AllMaskable(front), ObjectMaskable(c.obj), a);
      }
    }
  }

  lemma {:induction false} RawAfterMask(ms: seq<Message>, a: set<string>, raw: set<nat>)
    ensures RawUnits(Masked(ms, a, raw)) == Without(RawUnits(ms), raw)
  {
    if ms != [] {
      var n := |ms| - 1;
      var front, masked := ms[..n], Masked(ms, a, raw);
      assert masked[..n] == Masked(front, a, raw);
      assert masked[n].content == MaskContent(ms[n].content, n in raw, a);
      RawAfterMask(front, a, raw);
      if IsRawUnit(ms[n]) { WithoutConcat(RawUnits(front), [n], raw); }
    }
  }

  /** Masking removes exactly the masked units from the list of candidates and keeps the order of the others. */
  lemma CollectAfterMask(ms: seq<Message>, a: set<string>, raw: set<nat>)
    requires forall i | i in raw && i < |ms| :: IsRawUnit(ms[i])
    ensures RefUnits(Masked(ms, a, raw)) == Without(RefUnits(ms), a)
    ensures RawUnits(Masked(ms, a, raw)) == Without(RawUnits(ms), raw)
  {
    RefsAfterMask(ms, a, raw);
    RawAfterMask(ms, a, raw);
    WithoutExtend(AllMaskable(ms), a);
  }

  lemma {:induction false} RawUnitsExact(ms: seq<Message>)
    ensures forall i: nat :: i in RawUnits(ms) <==> i < |ms| && IsRawUnit(ms[i])
    ensures forall i, j | 0 <= i < j < |RawUnits(ms)| :: RawUnits(ms)[i] < RawUnits(ms)[j]
  {
    if ms != [] {
      var front := ms[..|ms| - 1];
      RawUnitsExact(front);
      forall i | 0 <= i < |RawUnits(front)| ensures RawUnits(front)[i] < |front| {
        assert RawUnits(front)[i] in RawUnits(front);
      }
    }
  }

  lemma {:induction false} WithoutAll<T>(s: seq<T>, drop: set<T>)
    requires forall x | x in s :: x in drop
    ensures Without(s, drop) == []
  {
    if s != [] { WithoutAll(s[..|s| - 1], drop); }
  }

  /** Masking every candidate leaves nothing to mask. */
  lemma NothingLeftToMask(ms: seq<Message>)
    ensures var view := Masked(ms, set r | r in RefUnits(ms), set i | i in RawUnits(ms));
            RefUnits(view) == [] && RawUnits(view) == []
  {
    var refs, raw := set r | r in RefUnits(ms), set i | i in RawUnits(ms);
    RawUnitsExact(ms);
    CollectAfterMask(ms, refs, raw);
    WithoutAll(RefUnits(ms), refs);
    WithoutAll(RawUnits(ms), raw);
  }

  // ---- providers that reject on visible text ---------------------------------------------------------------

  predicate CleanEntries(es: seq<Entry>, bad: set<string>) {
    forall i | 0 <= i < |es| :: es[i].Entry? && es[i].content.Some? ==> es[i].content.value !in bad
  }

  predicate CleanFragment(f: Fragment, bad: set<string>) {
    f.Fragment? ==> CleanEntries(OrEmpty(f.messages), bad) && (f.chunk.Some? ==> f.chunk.value !in bad)
  }

  predicate CleanContent(c: Content, bad: set<string>) {
    match c
    case NotText => true
    case Text(t) => t !in bad
    case Json(o) =>
      && CleanEntries(OrEmpty(o.messages), bad)
      && (forall i | 0 <= i < |OrEmpty(o.fragments)| :: CleanFragment(OrEmpty(o.fragments)[i], bad))
      && (o.context.Some? ==> o.context.value !in bad)
      && o.rest !in bad
  }

  /** No visible text of the list is one the provider objects to. */
  predicate Clean(ms: seq<Message>, bad: set<string>) {
    forall i | 0 <= i < |ms| :: CleanContent(ms[i].content, bad)
  }

  lemma MaskKeepsClean(ms: seq<Message>, refs: set<string>, raw: set<nat>, bad: set<string>)
    requires Clean(ms, bad) && MASK_PLACEHOLDER !in bad && CHUNK_PLACEHOLDER !in bad
    ensures Clean(Masked(ms, refs, raw), bad)
  {
  }

  /** Masking more never makes an acceptable list unacceptable. */
  lemma MaskingIsMonotone(
    ms: seq<Message>, a: set<string>, r1: set<nat>, b: set<string>, r2: set<nat>, bad: set<string>)
    requires a <= b && r1 <= r2 && MASK_PLACEHOLDER !in bad && CHUNK_PLACEHOLDER !in bad
    ensures Clean(Masked(ms, a, r1), bad) ==> Clean(Masked(ms, b, r2), bad)
  {
    MaskCompose(ms, a, r1, b, r2);
    assert a + b == b && r1 + r2 == r2;
    if Clean(Masked(ms, a, r1), bad) { MaskKeepsClean(Masked(ms, a, r1), b, r2, bad); }
  }
}
