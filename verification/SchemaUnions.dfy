/** Rewriting tagged unions from oneOf to anyOf. */
module SchemaUnions {
  import opened Common
  import opened Schema

  /** What a local reference names; a node without one, or with one to nothing, stands for itself. */
  function Resolve(refs: Refs, s: Node): Node { if Refers(refs, s) then refs[s.ref.value] else s }

  predicate Refers(refs: Refs, s: Node) { s.ref.Some? && s.ref.value in refs }

  function Field(ps: seq<Property>, name: string): Option<Node> {
    if ps == [] then None else if ps[0].name == name then Some(ps[0].schema) else Field(ps[1..], name)
  }

  function TagField(s: Node, tag: string): Option<Node> {
    if s.properties.Properties? then Field(s.properties.list, tag) else None
  }

  /** The tag values a variant declares. */
  function TagValues(s: Node, tag: string): seq<Value> {
    var field := TagField(s, tag);
    if field.None? then []
    else if field.value.constant.Some? then [field.value.constant.value]
    else if field.value.choices.Some? then field.value.choices.value
    else []
  }

  function Elements(vs: seq<Value>): set<Value> { set v | v in vs }

  /** The first `n` variants declare tag values, and no two of them share one. */
  predicate DisjointUpTo(refs: Refs, variants: seq<Node>, tag: string, n: nat)
    requires n <= |variants|
  {
    && (forall i | 0 <= i < n :: TagValues(Resolve(refs, variants[i]), tag) != [])
    && (forall i, j | 0 <= i < j < n ::
          Elements(TagValues(Resolve(refs, variants[i]), tag)) !! Elements(TagValues(Resolve(refs, variants[j]), tag)))
  }

  predicate Disjoint(refs: Refs, variants: seq<Node>, tag: string) {
    DisjointUpTo(refs, variants, tag, |variants|)
  }

  /** The tag values of the first `n` variants. */
  function Tags(refs: Refs, variants: seq<Node>, tag: string, n: nat): set<Value>
    requires n <= |variants|
  {
    if n == 0 then {} else Tags(refs, variants, tag, n - 1) + Elements(TagValues(Resolve(refs, variants[n - 1]), tag))
  }

  lemma {:induction false} TagsExact(refs: Refs, variants: seq<Node>, tag: string, n: nat, values: set<Value>)
    requires n <= |variants|
    ensures Tags(refs, variants, tag, n) !! values
            <==> forall i | 0 <= i < n :: Elements(TagValues(Resolve(refs, variants[i]), tag)) !! values
  {
    if n > 0 { TagsExact(refs, variants, tag, n - 1, values); }
  }

  lemma DisjointStep(refs: Refs, variants: seq<Node>, tag: string, n: nat)
    requires n < |variants| && DisjointUpTo(refs, variants, tag, n)
    ensures var values := TagValues(Resolve(refs, variants[n]), tag);
            DisjointUpTo(refs, variants, tag, n + 1)
            <==> values != [] && Tags(refs, variants, tag, n) !! Elements(values)
  {
    TagsExact(refs, variants, tag, n, Elements(TagValues(Resolve(refs, variants[n]), tag)));
  }

  /** The loop that decides whether a union is rewritten. */
  method VariantsDisjoint(refs: Refs, variants: seq<Node>, tag: string) returns (ok: bool)
    ensures ok <==> Disjoint(refs, variants, tag)
  {
    var seen: set<Value> := {};
    for n := 0 to |variants|
      invariant seen == Tags(refs, variants, tag, n) && DisjointUpTo(refs, variants, tag, n)
    {
      var values := TagValues(Resolve(refs, variants[n]), tag);
      DisjointStep(refs, variants, tag, n);
      if values == [] || !(seen !! Elements(values)) {
        assert !DisjointUpTo(refs, variants, tag, n + 1);
        return false;
      }
      seen := seen + Elements(values);
    }
    return true;
  }

  predicate Converts(refs: Refs, s: Node) {
    s.tag.Some? && s.tag.value != "" && s.oneOf.Nodes? && Disjoint(refs, s.oneOf.list, s.tag.value)
  }

  /** A union is rewritten when it names its tag, every variant declares values for it, and no two share one. */
  lemma ConvertsExactly(refs: Refs, s: Node)
    ensures Converts(refs, s) <==>
      && s.tag.Some? && s.tag.value != "" && s.oneOf.Nodes?
      && (forall i | 0 <= i < |s.oneOf.list| :: TagValues(Resolve(refs, s.oneOf.list[i]), s.tag.value) != [])
      && (forall i, j, v | 0 <= i < j < |s.oneOf.list| && v in TagValues(Resolve(refs, s.oneOf.list[i]), s.tag.value) ::
            v !in TagValues(Resolve(refs, s.oneOf.list[j]), s.tag.value))
  {
    if s.oneOf.Nodes? && s.tag.Some? {
      forall i, j | 0 <= i < j < |s.oneOf.list|
        ensures Elements(TagValues(Resolve(refs, s.oneOf.list[i]), s.tag.value))
                !! Elements(TagValues(Resolve(refs, s.oneOf.list[j]), s.tag.value))
          <==> forall v | v in TagValues(Resolve(refs, s.oneOf.list[i]), s.tag.value) ::
                 v !in TagValues(Resolve(refs, s.oneOf.list[j]), s.tag.value)
      {
        ElementsApart(TagValues(Resolve(refs, s.oneOf.list[i]), s.tag.value),
                      TagValues(Resolve(refs, s.oneOf.list[j]), s.tag.value));
      }
    }
  }

  lemma ElementsApart(a: seq<Value>, b: seq<Value>)
    ensures Elements(a) !! Elements(b) <==> forall v | v in a :: v !in b
  {
    forall v | v in a ensures v in Elements(a) { }
    forall v | v in b ensures v in Elements(b) { }
  }

  /** The rewritten node; a variant written in place also gets its union's tag as a required name. */
  function Rewrite(refs: Refs, s: Node, extra: set<string>): Node
    decreases s
  {
    var converts := Converts(refs, s);
    s.(required := s.required + extra,
       properties :=
         if s.properties.NoProperties? then NoProperties
         else Properties(seq(|s.properties.list|, i requires 0 <= i < |s.properties.list| =>
           Property(s.properties.list[i].name, Rewrite(refs, s.properties.list[i].schema, {})))),
       items := if s.items.None? then None else Some(Rewrite(refs, s.items.value, {})),
       anyOf :=
         if converts then
           Nodes(seq(|s.oneOf.list|, i requires 0 <= i < |s.oneOf.list| =>
             Rewrite(refs, s.oneOf.list[i], if Refers(refs, s.oneOf.list[i]) then {} else {s.tag.value})))
         else if s.anyOf.NoNodes? then NoNodes
         else Nodes(seq(|s.anyOf.list|, i requires 0 <= i < |s.anyOf.list| => Rewrite(refs, s.anyOf.list[i], {}))),
       oneOf :=
         if converts || s.oneOf.NoNodes? then NoNodes
         else Nodes(seq(|s.oneOf.list|, i requires 0 <= i < |s.oneOf.list| => Rewrite(refs, s.oneOf.list[i], {}))),
       tag := if converts then None else s.tag)
  }

  /** The names that unions anywhere below this node add to what the shared node `r` requires. */
  function Demands(refs: Refs, s: Node, r: string): set<string>
    decreases s
  {
    (if Converts(refs, s) && exists i | 0 <= i < |s.oneOf.list| :: s.oneOf.list[i].ref == Some(r) then {s.tag.value}
     else {})
    + (if s.properties.NoProperties? then {}
       else set i, t | 0 <= i < |s.properties.list| && t in Demands(refs, s.properties.list[i].schema, r) :: t)
    + (if s.items.None? then {} else Demands(refs, s.items.value, r))
    + (if s.anyOf.NoNodes? then {}
       else set i, t | 0 <= i < |s.anyOf.list| && t in Demands(refs, s.anyOf.list[i], r) :: t)
    + (if s.oneOf.NoNodes? then {}
       else set i, t | 0 <= i < |s.oneOf.list| && t in Demands(refs, s.oneOf.list[i], r) :: t)
  }

  function AllDemands(refs: Refs, root: Node, r: string): set<string> {
    Demands(refs, root, r) + set q, t | q in refs && t in Demands(refs, refs[q], r) :: t
  }

  /** The shared nodes after the rewrite, edited in place by every union that refers to them. */
  function RewriteRefs(refs: Refs, root: Node): Refs {
    map r | r in refs :: Rewrite(refs, refs[r], AllDemands(refs, root, r))
  }

  // ---- the rewrite is complete ---------------------------------------------------------------------------------

  /** No union here or below would be rewritten. */
  predicate NoneConverts(refs: Refs, s: Node)
    decreases s
  {
    && !Converts(refs, s)
    && (s.properties.Properties? ==>
          forall i | 0 <= i < |s.properties.list| :: NoneConverts(refs, s.properties.list[i].schema))
    && (s.items.Some? ==> NoneConverts(refs, s.items.value))
    && (s.anyOf.Nodes? ==> forall i | 0 <= i < |s.anyOf.list| :: NoneConverts(refs, s.anyOf.list[i]))
    && (s.oneOf.Nodes? ==> forall i | 0 <= i < |s.oneOf.list| :: NoneConverts(refs, s.oneOf.list[i]))
  }

  /** The tag values a variant declares: the constant of the first property of that name, or else its choices. */
  lemma TagValuesExactly(s: Node, tag: string, i: nat)
    requires s.properties.Properties? && i < |s.properties.list| && s.properties.list[i].name == tag
    requires forall j | 0 <= j < i :: s.properties.list[j].name != tag
    ensures var field := s.properties.list[i].schema;
            && (field.constant.Some? ==> TagValues(s, tag) == [field.constant.value])
            && (field.constant.None? && field.choices.Some? ==> TagValues(s, tag) == field.choices.value)
            && (field.constant.None? && field.choices.None? ==> TagValues(s, tag) == [])
  {
    FirstField(s.properties.list, tag, i);
  }

  lemma {:induction false} FirstField(ps: seq<Property>, name: string, i: nat)
    requires i < |ps| && ps[i].name == name && forall j | 0 <= j < i :: ps[j].name != name
    ensures Field(ps, name) == Some(ps[i].schema)
  {
    if i > 0 { FirstField(ps[1..], name, i - 1); }
  }

  function RewrittenProperties(refs: Refs, ps: seq<Property>): seq<Property> {
    seq(|ps|, i requires 0 <= i < |ps| => Property(ps[i].name, Rewrite(refs, ps[i].schema, {})))
  }

  lemma {:induction false} FieldRewritten(refs: Refs, ps: seq<Property>, name: string)
    ensures Field(RewrittenProperties(refs, ps), name)
            == if Field(ps, name).Some? then Some(Rewrite(refs, Field(ps, name).value, {})) else None
  {
    if ps != [] && ps[0].name != name {
      assert RewrittenProperties(refs, ps)[1..] == RewrittenProperties(refs, ps[1..]);
      FieldRewritten(refs, ps[1..], name);
    }
  }

  lemma TagValuesKept(refs: Refs, s: Node, extra: set<string>, tag: string)
    ensures TagValues(Rewrite(refs, s, extra), tag) == TagValues(s, tag)
  {
    if s.properties.Properties? {
      FieldRewritten(refs, s.properties.list, tag);
      assert Rewrite(refs, s, extra).properties.list == RewrittenProperties(refs, s.properties.list);
    }
  }

  ghost predicate IsRewrite(refs: Refs, s: Node, t: Node) { exists extra :: t == Rewrite(refs, s, extra) }

  ghost predicate AllRewritten(refs: Refs, after: Refs) {
    after.Keys == refs.Keys && forall r | r in refs :: IsRewrite(refs, refs[r], after[r])
  }

  lemma ResolvedTagValuesKept(refs: Refs, after: Refs, s: Node, extra: set<string>, tag: string)
    requires AllRewritten(refs, after)
    ensures TagValues(Resolve(after, Rewrite(refs, s, extra)), tag) == TagValues(Resolve(refs, s), tag)
  {
    if Refers(refs, s) {
      assert IsRewrite(refs, refs[s.ref.value], after[s.ref.value]);
      var e :| after[s.ref.value] == Rewrite(refs, refs[s.ref.value], e);
      TagValuesKept(refs, refs[s.ref.value], e, tag);
    } else {
      TagValuesKept(refs, s, extra, tag);
    }
  }

  /** A union that was left alone stays one that is left alone, whatever the shared nodes required on the way. */
  lemma LeftAlone(refs: Refs, after: Refs, s: Node, extra: set<string>)
    requires AllRewritten(refs, after)
    ensures !Converts(after, Rewrite(refs, s, extra))
  {
    var t := Rewrite(refs, s, extra);
    if s.oneOf.Nodes? && s.tag.Some? && !Converts(refs, s) {
      forall i | 0 <= i < |s.oneOf.list|
        ensures TagValues(Resolve(after, t.oneOf.list[i]), s.tag.value)
             == TagValues(Resolve(refs, s.oneOf.list[i]), s.tag.value)
      {
        ResolvedTagValuesKept(refs, after, s.oneOf.list[i], {}, s.tag.value);
      }
      if Disjoint(after, t.oneOf.list, s.tag.value) {
        SameDisjoint(refs, after, s.oneOf.list, t.oneOf.list, s.tag.value);
      }
    }
  }

  lemma SameDisjoint(refs: Refs, after: Refs, before: seq<Node>, list: seq<Node>, tag: string)
    requires |list| == |before| && Disjoint(after, list, tag)
    requires forall i | 0 <= i < |before| ::
               TagValues(Resolve(after, list[i]), tag) == TagValues(Resolve(refs, before[i]), tag)
    ensures Disjoint(refs, before, tag)
  {
  }

  /** After the rewrite no union is left that could have been rewritten. */
  lemma {:induction false} RewriteIsComplete(refs: Refs, after: Refs, s: Node, extra: set<string>)
    requires AllRewritten(refs, after)
    ensures NoneConverts(after, Rewrite(refs, s, extra))
    decreases s
  {
    var t := Rewrite(refs, s, extra);
    LeftAlone(refs, after, s, extra);
    if s.properties.Properties? {
      forall i | 0 <= i < |s.properties.list| ensures NoneConverts(after, t.properties.list[i].schema) {
        RewriteIsComplete(refs, after, s.properties.list[i].schema, {});
      }
    }
    if s.items.Some? { RewriteIsComplete(refs, after, s.items.value, {}); }
    if Converts(refs, s) {
      forall i | 0 <= i < |s.oneOf.list| ensures NoneConverts(after, t.anyOf.list[i]) {
        RewriteIsComplete(refs, after, s.oneOf.list[i], if Refers(refs, s.oneOf.list[i]) then {} else {s.tag.value});
      }
    } else {
      if s.anyOf.Nodes? {
        forall i | 0 <= i < |s.anyOf.list| ensures NoneConverts(after, t.anyOf.list[i]) {
          RewriteIsComplete(refs, after, s.anyOf.list[i], {});
        }
      }
      if s.oneOf.Nodes? {
        forall i | 0 <= i < |s.oneOf.list| ensures NoneConverts(after, t.oneOf.list[i]) {
          RewriteIsComplete(refs, after, s.oneOf.list[i], {});
        }
      }
    }
  }

  /** In a whole schema: no convertible union is left in the root or in any shared node. */
  lemma NothingLeftToRewrite(refs: Refs, root: Node)
    ensures NoneConverts(RewriteRefs(refs, root), Rewrite(refs, root, {}))
    ensures forall r | r in refs :: NoneConverts(RewriteRefs(refs, root), RewriteRefs(refs, root)[r])
  {
    RewriteRefsRewrites(refs, root);
    RewriteIsComplete(refs, RewriteRefs(refs, root), root, {});
    forall r | r in refs ensures NoneConverts(RewriteRefs(refs, root), RewriteRefs(refs, root)[r]) {
      RewriteIsComplete(refs, RewriteRefs(refs, root), refs[r], AllDemands(refs, root, r));
    }
  }

  lemma RewriteRefsRewrites(refs: Refs, root: Node)
    ensures AllRewritten(refs, RewriteRefs(refs, root))
  {
    forall r | r in refs ensures IsRewrite(refs, refs[r], RewriteRefs(refs, root)[r]) {
      assert RewriteRefs(refs, root)[r] == Rewrite(refs, refs[r], AllDemands(refs, root, r));
    }
  }

  // ---- when the rewrite is safe --------------------------------------------------------------------------------

  /** What a tag discriminates: objects, all of which carry it. */
  predicate Tagged(s: Node, tag: string) { s.kind == Some(KObject) && tag in s.required }

  /** Every union that is rewritten here or below has tagged variants and no anyOf beside it. */
  predicate Guarded(refs: Refs, s: Node)
    decreases s
  {
    && (Converts(refs, s) ==>
          s.anyOf.NoNodes? && forall i | 0 <= i < |s.oneOf.list| :: Tagged(Resolve(refs, s.oneOf.list[i]), s.tag.value))
    && (s.properties.Properties? ==>
          forall i | 0 <= i < |s.properties.list| :: Guarded(refs, s.properties.list[i].schema))
    && (s.items.Some? ==> Guarded(refs, s.items.value))
    && (s.anyOf.Nodes? ==> forall i | 0 <= i < |s.anyOf.list| :: Guarded(refs, s.anyOf.list[i]))
    && (s.oneOf.Nodes? ==> forall i | 0 <= i < |s.oneOf.list| :: Guarded(refs, s.oneOf.list[i]))
  }

  predicate AllGuarded(refs: Refs) { forall r | r in refs :: Guarded(refs, refs[r]) }

  lemma {:induction false} DemandsMet(refs: Refs, s: Node, r: string)
    requires Guarded(refs, s) && r in refs
    ensures Demands(refs, s, r) <= refs[r].required
    decreases s
  {
    if s.properties.Properties? {
      forall i | 0 <= i < |s.properties.list|
        ensures Demands(refs, s.properties.list[i].schema, r) <= refs[r].required
      {
        DemandsMet(refs, s.properties.list[i].schema, r);
      }
    }
    if s.items.Some? { DemandsMet(refs, s.items.value, r); }
    if s.anyOf.Nodes? {
      forall i | 0 <= i < |s.anyOf.list| ensures Demands(refs, s.anyOf.list[i], r) <= refs[r].required {
        DemandsMet(refs, s.anyOf.list[i], r);
      }
    }
    if s.oneOf.Nodes? {
      forall i | 0 <= i < |s.oneOf.list| ensures Demands(refs, s.oneOf.list[i], r) <= refs[r].required {
        DemandsMet(refs, s.oneOf.list[i], r);
      }
    }
  }

  /** Names a node already requires are not added to it. */
  lemma RewriteRequired(refs: Refs, s: Node, extra: set<string>)
    requires extra <= s.required
    ensures Rewrite(refs, s, extra) == Rewrite(refs, s, {})
  {
    assert s.required + extra == s.required + {};
  }

  function Plain(refs: Refs): Refs { map r | r in refs :: Rewrite(refs, refs[r], {}) }

  /** Under the guard the edits in place change nothing that was not there. */
  lemma SharedNodesUnchanged(refs: Refs, root: Node)
    requires AllGuarded(refs) && Guarded(refs, root)
    ensures RewriteRefs(refs, root) == Plain(refs)
  {
    forall r | r in refs ensures Rewrite(refs, refs[r], AllDemands(refs, root, r)) == Rewrite(refs, refs[r], {}) {
      DemandsMet(refs, root, r);
      forall q | q in refs ensures Demands(refs, refs[q], r) <= refs[r].required { DemandsMet(refs, refs[q], r); }
      RewriteRequired(refs, refs[r], AllDemands(refs, root, r));
    }
  }

  // ---- acceptance is preserved ---------------------------------------------------------------------------------

  lemma {:induction false} FieldFound(ps: seq<Property>, name: string)
    requires Field(ps, name).Some?
    ensures exists i | 0 <= i < |ps| :: ps[i].name == name && ps[i].schema == Field(ps, name).value
  {
    if ps[0].name == name {
    } else {
      FieldFound(ps[1..], name);
      var i :| 0 <= i < |ps[1..]| && ps[1..][i].name == name && ps[1..][i].schema == Field(ps, name).value;
      assert ps[i + 1] == ps[1..][i];
    }
  }

  lemma VariantFixesTag(depth: nat, refs: Refs, s: Node, v: Value, tag: string)
    requires Valid(depth, refs, s, v) && Tagged(s, tag) && TagValues(s, tag) != []
    ensures v.Obj? && tag in v.fields && v.fields[tag] in TagValues(s, tag)
  {
    FieldFound(s.properties.list, tag);
    var i :| 0 <= i < |s.properties.list| && s.properties.list[i].name == tag
             && s.properties.list[i].schema == Field(s.properties.list, tag).value;
    assert Valid(depth - 1, refs, s.properties.list[i].schema, v.fields[tag]);
  }

  /** An accepting variant reads its own tag value off the object. */
  lemma AlternativeFixesTag(depth: nat, refs: Refs, s: Node, v: Value, tag: string)
    requires Valid(depth, refs, s, v) && Tagged(Resolve(refs, s), tag) && TagValues(Resolve(refs, s), tag) != []
    ensures v.Obj? && tag in v.fields && v.fields[tag] in TagValues(Resolve(refs, s), tag)
  {
    if Refers(refs, s) {
      VariantFixesTag(depth - 1, refs, refs[s.ref.value], v, tag);
    } else {
      VariantFixesTag(depth, refs, s, v, tag);
    }
  }

  /** So two variants of a tagged union never accept the same value. */
  lemma AtMostOneVariant(depth: nat, refs: Refs, s: Node, v: Value, i: nat, j: nat)
    requires Converts(refs, s) && Guarded(refs, s) && i < j < |s.oneOf.list|
    ensures !(Valid(depth, refs, s.oneOf.list[i], v) && Valid(depth, refs, s.oneOf.list[j], v))
  {
    var a, b, tag := s.oneOf.list[i], s.oneOf.list[j], s.tag.value;
    if Valid(depth, refs, a, v) && Valid(depth, refs, b, v) {
      AlternativeFixesTag(depth, refs, a, v, tag);
      assert v.fields[tag] in Elements(TagValues(Resolve(refs, a), tag));
      AlternativeFixesTag(depth, refs, b, v, tag);
    }
  }

  predicate Inside(depth: nat, refs: Refs, s: Node, v: Value) {
    && (s.ref.Some? ==> s.ref.value in refs && Valid(depth, refs, refs[s.ref.value], v))
    && (v.Obj? && s.properties.Properties? ==> forall i | 0 <= i < |s.properties.list| ::
          var p := s.properties.list[i]; p.name in v.fields ==> Valid(depth, refs, p.schema, v.fields[p.name]))
    && (v.List? && s.items.Some? ==>
          forall i | 0 <= i < |v.items| :: Valid(depth, refs, s.items.value, v.items[i]))
  }

  predicate Chosen(depth: nat, refs: Refs, s: Node, v: Value) {
    && (s.anyOf.Nodes? ==> exists i | 0 <= i < |s.anyOf.list| :: Valid(depth, refs, s.anyOf.list[i], v))
    && (s.oneOf.Nodes? ==> ExactlyOne(depth, refs, s.oneOf.list, v))
  }

  ghost predicate Agree(depth: nat, refs: Refs) {
    forall s: Node, v: Value {:trigger Valid(depth, refs, s, v)} | Guarded(refs, s) ::
      Valid(depth, refs, s, v) <==> Valid(depth, Plain(refs), Rewrite(refs, s, {}), v)
  }

  lemma AgreeAt(depth: nat, refs: Refs, s: Node, v: Value)
    requires Agree(depth, refs) && Guarded(refs, s)
    ensures Valid(depth, refs, s, v) <==> Valid(depth, Plain(refs), Rewrite(refs, s, {}), v)
  {
  }

  ghost predicate Alike(depth: nat, refs: Refs, before: seq<Node>, after: seq<Node>, v: Value) {
    |after| == |before| && forall i | 0 <= i < |before| ::
      Valid(depth, refs, before[i], v) <==> Valid(depth, Plain(refs), after[i], v)
  }

  lemma AlikeAccept(depth: nat, refs: Refs, before: seq<Node>, after: seq<Node>, v: Value)
    requires Alike(depth, refs, before, after, v)
    ensures (exists i | 0 <= i < |before| :: Valid(depth, refs, before[i], v))
            <==> exists i | 0 <= i < |after| :: Valid(depth, Plain(refs), after[i], v)
  {
    if i :| 0 <= i < |before| && Valid(depth, refs, before[i], v) {
      assert Valid(depth, Plain(refs), after[i], v);
    }
    if i :| 0 <= i < |after| && Valid(depth, Plain(refs), after[i], v) {
      assert Valid(depth, refs, before[i], v);
    }
  }

  lemma AlikeExactlyOne(depth: nat, refs: Refs, before: seq<Node>, after: seq<Node>, v: Value)
    requires Alike(depth, refs, before, after, v)
    ensures ExactlyOne(depth, refs, before, v) <==> ExactlyOne(depth, Plain(refs), after, v)
  {
    AlikeAccept(depth, refs, before, after, v);
  }

  lemma VariantsAlike(depth: nat, refs: Refs, s: Node, v: Value)
    requires Agree(depth, refs) && Guarded(refs, s) && Converts(refs, s)
    ensures var t := Rewrite(refs, s, {});
            t.anyOf.Nodes? && t.oneOf.NoNodes? && Alike(depth, refs, s.oneOf.list, t.anyOf.list, v)
  {
    var before, after := s.oneOf.list, Rewrite(refs, s, {}).anyOf.list;
    forall i | 0 <= i < |before|
      ensures Valid(depth, refs, before[i], v) <==> Valid(depth, Plain(refs), after[i], v)
    {
      if !Refers(refs, before[i]) { RewriteRequired(refs, before[i], {s.tag.value}); }
      AgreeAt(depth, refs, before[i], v);
    }
  }

  /** A tagged union accepts exactly one variant as soon as it accepts any. */
  lemma UnionIsAny(depth: nat, refs: Refs, s: Node, v: Value)
    requires Guarded(refs, s) && Converts(refs, s)
    ensures ExactlyOne(depth, refs, s.oneOf.list, v)
            <==> exists i | 0 <= i < |s.oneOf.list| :: Valid(depth, refs, s.oneOf.list[i], v)
  {
    forall i, j | 0 <= i < j < |s.oneOf.list|
      ensures !(Valid(depth, refs, s.oneOf.list[i], v) && Valid(depth, refs, s.oneOf.list[j], v))
    {
      AtMostOneVariant(depth, refs, s, v, i, j);
    }
  }

  lemma UnionAgrees(depth: nat, refs: Refs, s: Node, v: Value)
    requires Agree(depth, refs) && Guarded(refs, s) && Converts(refs, s)
    ensures Chosen(depth, refs, s, v) <==> Chosen(depth, Plain(refs), Rewrite(refs, s, {}), v)
  {
    UnionIsAny(depth, refs, s, v);
    VariantsAlike(depth, refs, s, v);
    AlikeAccept(depth, refs, s.oneOf.list, Rewrite(refs, s, {}).anyOf.list, v);
  }

  lemma ListAlike(depth: nat, refs: Refs, before: seq<Node>, after: seq<Node>, v: Value)
    requires Agree(depth, refs) && |after| == |before|
    requires forall i | 0 <= i < |before| :: Guarded(refs, before[i]) && after[i] == Rewrite(refs, before[i], {})
    ensures Alike(depth, refs, before, after, v)
  {
    forall i | 0 <= i < |before|
      ensures Valid(depth, refs, before[i], v) <==> Valid(depth, Plain(refs), after[i], v)
    {
      AgreeAt(depth, refs, before[i], v);
    }
  }

  lemma ValidParts(depth: nat, refs: Refs, s: Node, v: Value)
    requires depth > 0
    ensures Valid(depth, refs, s, v) <==> Local(s, v) && Inside(depth - 1, refs, s, v) && Chosen(depth - 1, refs, s, v)
  {
  }

  lemma InsideAgrees(depth: nat, refs: Refs, s: Node, v: Value)
    requires Agree(depth, refs) && AllGuarded(refs) && Guarded(refs, s)
    ensures Inside(depth, refs, s, v) <==> Inside(depth, Plain(refs), Rewrite(refs, s, {}), v)
  {
    var t := Rewrite(refs, s, {});
    if s.ref.Some? && s.ref.value in refs { AgreeAt(depth, refs, refs[s.ref.value], v); }
    if v.Obj? && s.properties.Properties? {
      assert t.properties.Properties? && |t.properties.list| == |s.properties.list|;
      forall i | 0 <= i < |s.properties.list| && s.properties.list[i].name in v.fields
        ensures var p, q := s.properties.list[i], t.properties.list[i];
                && q.name == p.name
                && (Valid(depth, refs, p.schema, v.fields[p.name])
                    <==> Valid(depth, Plain(refs), q.schema, v.fields[p.name]))
      {
        AgreeAt(depth, refs, s.properties.list[i].schema, v.fields[s.properties.list[i].name]);
      }
    }
    if v.List? && s.items.Some? {
      forall i | 0 <= i < |v.items|
        ensures Valid(depth, refs, s.items.value, v.items[i]) <==> Valid(depth, Plain(refs), t.items.value, v.items[i])
      {
        AgreeAt(depth, refs, s.items.value, v.items[i]);
      }
    }
  }

  lemma AnyOfAgrees(depth: nat, refs: Refs, s: Node, v: Value)
    requires Agree(depth, refs) && Guarded(refs, s) && !Converts(refs, s) && s.anyOf.Nodes?
    ensures var t := Rewrite(refs, s, {});
            t.anyOf.Nodes? && Alike(depth, refs, s.anyOf.list, t.anyOf.list, v)
  {
    ListAlike(depth, refs, s.anyOf.list, Rewrite(refs, s, {}).anyOf.list, v);
  }

  lemma OneOfAgrees(depth: nat, refs: Refs, s: Node, v: Value)
    requires Agree(depth, refs) && Guarded(refs, s) && !Converts(refs, s) && s.oneOf.Nodes?
    ensures var t := Rewrite(refs, s, {});
            t.oneOf.Nodes? && Alike(depth, refs, s.oneOf.list, t.oneOf.list, v)
  {
    ListAlike(depth, refs, s.oneOf.list, Rewrite(refs, s, {}).oneOf.list, v);
  }

  lemma ChosenAgrees(depth: nat, refs: Refs, s: Node, v: Value)
    requires Agree(depth, refs) && Guarded(refs, s)
    ensures Chosen(depth, refs, s, v) <==> Chosen(depth, Plain(refs), Rewrite(refs, s, {}), v)
  {
    if Converts(refs, s) {
      UnionAgrees(depth, refs, s, v);
    } else {
      var t := Rewrite(refs, s, {});
      if s.anyOf.Nodes? {
        AnyOfAgrees(depth, refs, s, v);
        AlikeAccept(depth, refs, s.anyOf.list, t.anyOf.list, v);
      }
      if s.oneOf.Nodes? {
        OneOfAgrees(depth, refs, s, v);
        AlikeExactlyOne(depth, refs, s.oneOf.list, t.oneOf.list, v);
      }
    }
  }

  lemma {:induction false} AgreeAtEveryDepth(depth: nat, refs: Refs)
    requires AllGuarded(refs)
    ensures Agree(depth, refs)
  {
    if depth > 0 {
      AgreeAtEveryDepth(depth - 1, refs);
      forall s: Node, v: Value | Guarded(refs, s)
        ensures Valid(depth, refs, s, v) <==> Valid(depth, Plain(refs), Rewrite(refs, s, {}), v)
      {
        var t := Rewrite(refs, s, {});
        ValidParts(depth, refs, s, v);
        ValidParts(depth, Plain(refs), t, v);
        InsideAgrees(depth - 1, refs, s, v);
        ChosenAgrees(depth - 1, refs, s, v);
        assert s.required + {} == s.required;
      }
    }
  }

  /**
   The rewritten schema, read with the shared nodes edited in place, accepts exactly what the original accepted, at
   every depth and through every cycle of references.
  */
  lemma RewritePreservesAcceptance(depth: nat, refs: Refs, root: Node, v: Value)
    requires AllGuarded(refs) && Guarded(refs, root)
    ensures Valid(depth, refs, root, v) <==> Valid(depth, RewriteRefs(refs, root), Rewrite(refs, root, {}), v)
  {
    AgreeAtEveryDepth(depth, refs);
    SharedNodesUnchanged(refs, root);
  }

  // ---- the guard is needed -------------------------------------------------------------------------------------

  const NO_LIMITS := Limits(None, None, None, None, None, None, None, None)
  const ANYTHING := Node(None, None, None, None, NoProperties, {}, None, NoNodes, NoNodes, None, NO_LIMITS)

  function Variant(tag: string, kind: Option<Kind>, required: set<string>): Node {
    ANYTHING.(kind := kind, required := required,
              properties := Properties([Property("t", ANYTHING.(constant := Some(Str(tag))))]))
  }

  function Union(a: Node, b: Node, anyOf: Nodes): Node {
    ANYTHING.(oneOf := Nodes([a, b]), anyOf := anyOf, tag := Some("t"))
  }

  lemma UnionConverts(k: Option<Kind>, required: set<string>, required': set<string>, anyOf: Nodes)
    ensures Converts(map[], Union(Variant("a", k, required), Variant("b", k, required'), anyOf))
  {
    var a, b := Variant("a", k, required), Variant("b", k, required');
    assert TagValues(a, "t") == [Str("a")] && TagValues(b, "t") == [Str("b")];
    var union := Union(a, b, anyOf);
    assert union.oneOf.list[0] == a && union.oneOf.list[1] == b;
  }

  predicate Takes(tag: string, kind: Option<Kind>, required: set<string>, v: Value) {
    && (kind.Some? ==> HasKind(v, kind.value))
    && (v.Obj? ==> required <= v.fields.Keys && ("t" in v.fields ==> v.fields["t"] == Str(tag)))
  }

  lemma Accepts(depth: nat, tag: string, kind: Option<Kind>, required: set<string>, v: Value)
    requires depth >= 2
    ensures Valid(depth, map[], Variant(tag, kind, required), v) <==> Takes(tag, kind, required, v)
  {
    var s := Variant(tag, kind, required);
    assert s.properties.list[0] == Property("t", ANYTHING.(constant := Some(Str(tag))));
  }

  lemma RewriteVariant(tag: string, kind: Option<Kind>, required: set<string>)
    ensures Rewrite(map[], Variant(tag, kind, required), {"t"}) == Variant(tag, kind, required + {"t"})
  {
    var s := Variant(tag, kind, required);
    var leaf := ANYTHING.(constant := Some(Str(tag)));
    assert s.properties.list == [Property("t", leaf)];
    assert Rewrite(map[], leaf, {}) == leaf;
    assert Rewrite(map[], s, {"t"}).properties.list == [Property("t", leaf)];
  }

  /** The union accepts when one variant does and the other does not. */
  lemma UnionMeaning(depth: nat, a: Node, b: Node, v: Value)
    ensures Valid(depth + 1, map[], Union(a, b, NoNodes), v)
            <==> (Valid(depth, map[], a, v) <==> !Valid(depth, map[], b, v))
  {
    var list := Union(a, b, NoNodes).oneOf.list;
    assert list[0] == a && list[1] == b && |list| == 2;
  }

  lemma RewrittenUnion(k: Option<Kind>, required: set<string>, required': set<string>, anyOf: Nodes)
    ensures var union := Union(Variant("a", k, required), Variant("b", k, required'), anyOf);
            var a, b := Variant("a", k, required + {"t"}), Variant("b", k, required' + {"t"});
            && Rewrite(map[], union, {}) == ANYTHING.(anyOf := Nodes([a, b]))
            && RewriteRefs(map[], union) == map[]
  {
    var union := Union(Variant("a", k, required), Variant("b", k, required'), anyOf);
    UnionConverts(k, required, required', anyOf);
    RewriteVariant("a", k, required);
    RewriteVariant("b", k, required');
    var list := Rewrite(map[], union, {}).anyOf.list;
    assert list == [Variant("a", k, required + {"t"}), Variant("b", k, required' + {"t"})];
  }

  lemma AnyMeaning(depth: nat, a: Node, b: Node, v: Value)
    ensures Valid(depth + 1, map[], ANYTHING.(anyOf := Nodes([a, b])), v)
            <==> Valid(depth, map[], a, v) || Valid(depth, map[], b, v)
  {
    var list := ANYTHING.(anyOf := Nodes([a, b])).anyOf.list;
    assert list[0] == a && list[1] == b && |list| == 2;
  }

  /** Acceptance before and after the rewrite. */
  function Before(depth: nat, s: Node, v: Value): bool { Valid(depth, map[], s, v) }
  function Afterwards(depth: nat, s: Node, v: Value): bool {
    Valid(depth, RewriteRefs(map[], s), Rewrite(map[], s, {}), v)
  }

  lemma BeforeMeans(depth: nat, k: Option<Kind>, required: set<string>, required': set<string>, v: Value)
    requires depth >= 3
    ensures Before(depth, Union(Variant("a", k, required), Variant("b", k, required'), NoNodes), v)
            <==> (Takes("a", k, required, v) <==> !Takes("b", k, required', v))
  {
    UnionMeaning(depth - 1, Variant("a", k, required), Variant("b", k, required'), v);
    Accepts(depth - 1, "a", k, required, v);
    Accepts(depth - 1, "b", k, required', v);
  }

  lemma AfterwardsMeans(depth: nat, k: Option<Kind>, required: set<string>, required': set<string>, anyOf: Nodes,
                        v: Value)
    requires depth >= 3
    ensures Afterwards(depth, Union(Variant("a", k, required), Variant("b", k, required'), anyOf), v)
            <==> Takes("a", k, required + {"t"}, v) || Takes("b", k, required' + {"t"}, v)
  {
    RewrittenUnion(k, required, required', anyOf);
    AnyMeaning(depth - 1, Variant("a", k, required + {"t"}), Variant("b", k, required' + {"t"}), v);
    Accepts(depth - 1, "a", k, required + {"t"}, v);
    Accepts(depth - 1, "b", k, required' + {"t"}, v);
  }

  /** Variants not restricted to objects: two of them accept null, so the union did not; rewritten, it does. */
  lemma UntypedVariantsDiffer(depth: nat, union: Node)
    requires depth >= 3 && union == Union(Variant("a", None, {"t"}), Variant("b", None, {"t"}), NoNodes)
    ensures !Before(depth, union, Null) && Afterwards(depth, union, Null)
  {
    BeforeMeans(depth, None, {"t"}, {"t"}, Null);
    AfterwardsMeans(depth, None, {"t"}, {"t"}, NoNodes, Null);
  }

  /** A variant that does not require its tag is made to: an object it alone accepted is turned away. */
  lemma UnrequiredTagDiffers(depth: nat, union: Node)
    requires depth >= 3
    requires union == Union(Variant("a", Some(KObject), {"x"}), Variant("b", Some(KObject), {}), NoNodes)
    ensures Before(depth, union, Obj(map[])) && !Afterwards(depth, union, Obj(map[]))
  {
    BeforeMeans(depth, Some(KObject), {"x"}, {}, Obj(map[]));
    AfterwardsMeans(depth, Some(KObject), {"x"}, {}, NoNodes, Obj(map[]));
    assert "x" in {"x"} && "t" in {"x"} + {"t"} && "t" in {} + {"t"};
  }

  /** An anyOf beside the union is overwritten: here it let only null pass. */
  lemma SiblingAnyOfIsLost(depth: nat, union: Node)
    requires depth >= 3
    requires union == Union(Variant("a", Some(KObject), {"t"}), Variant("b", Some(KObject), {"t"}),
                            Nodes([ANYTHING.(kind := Some(KNull))]))
    ensures !Before(depth, union, Obj(map["t" := Str("a")])) && Afterwards(depth, union, Obj(map["t" := Str("a")]))
  {
    var v := Obj(map["t" := Str("a")]);
    AfterwardsMeans(depth, Some(KObject), {"t"}, {"t"}, union.anyOf, v);
    assert !Valid(depth - 1, map[], union.anyOf.list[0], v);
  }
}
