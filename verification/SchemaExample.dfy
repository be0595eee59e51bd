/** The minimal example generated from a schema: it always ends, and on plain acyclic schemas it is accepted. */
module SchemaExample {
  import opened Common
  import opened Schema

  // ---- which references can come up -----------------------------------------------------------------------------

  function Mentions(s: Node): set<string>
    decreases s
  {
    (if s.ref.Some? then {s.ref.value} else {})
    + (if s.properties.NoProperties? then {}
       else set i, r | 0 <= i < |s.properties.list| && r in Mentions(s.properties.list[i].schema) :: r)
    + (if s.items.None? then {} else Mentions(s.items.value))
    + (if s.anyOf.NoNodes? then {}
       else set i, r | 0 <= i < |s.anyOf.list| && r in Mentions(s.anyOf.list[i]) :: r)
  }

  function AllMentions(refs: Refs, root: Node): set<string> {
    Mentions(root) + set q, r | q in refs && r in Mentions(refs[q]) :: r
  }

  ghost predicate Closed(refs: Refs, universe: set<string>, s: Node) {
    Mentions(s) <= universe && forall q | q in refs :: Mentions(refs[q]) <= universe
  }

  lemma AllMentionsClosed(refs: Refs, root: Node)
    ensures Closed(refs, AllMentions(refs, root), root)
  {
  }

  // ---- the generator ---------------------------------------------------------------------------------------------

  const MOST_ITEMS := 16

  function Count(l: Limits): int {
    var least := if l.minItems.Some? then l.minItems.value else 1;
    var atLeastOne := if least > 1 then least else 1;
    if l.maxItems == Some(0) then 0 else if atLeastOne < MOST_ITEMS then atLeastOne else MOST_ITEMS
  }

  function WholeExample(l: Limits): real {
    if l.minimum.Some? && l.minimum.value.Whole? then l.minimum.value.i as real
    else if l.exclusiveMinimum.Some? && l.exclusiveMinimum.value.Whole? then (l.exclusiveMinimum.value.i + 1) as real
    else if l.maximum.Some? && l.maximum.value.Whole? && l.maximum.value.i < 0 then l.maximum.value.i as real
    else 0.0
  }

  function NumberExample(l: Limits): real {
    if l.minimum.Some? then l.minimum.value.Real()
    else if l.exclusiveMinimum.Some? then l.exclusiveMinimum.value.Real() + 1.0
    else if l.maximum.Some? && l.maximum.value.Real() < 0.0 then l.maximum.value.Real()
    else 0.0
  }

  function TextExample(l: Limits): string {
    if l.format == Some("date-time") then "1970-01-01T00:00:00Z"
    else if l.format == Some("date") then "1970-01-01"
    else if l.minLength.Some? && l.minLength.value > 0 then seq(l.minLength.value, i => 'x')
    else ""
  }

  /** `visited` are the references followed so far; one met again yields null. */
  function Example(refs: Refs, ghost universe: set<string>, s: Node, visited: set<string>): Value
    requires Closed(refs, universe, s)
    decreases universe - visited, s, 1
  {
    if s.ref.Some? then
      if s.ref.value in visited then Null
      else
        assert s.ref.value in Mentions(s);
        var target := if s.ref.value in refs then refs[s.ref.value] else s;
        Example(refs, universe, target, visited + {s.ref.value})
    else if s.constant.Some? then s.constant.value
    else if s.choices.Some? && s.choices.value != [] then s.choices.value[0]
    else if s.anyOf.Nodes? && s.anyOf.list != [] then
      assert forall r | r in Mentions(s.anyOf.list[0]) :: r in Mentions(s);
      Example(refs, universe, s.anyOf.list[0], visited)
    else if s.kind == Some(KObject) || s.properties.Properties? then
      if s.properties.NoProperties? then Obj(map[])
      else Obj(Fields(refs, universe, s, |s.properties.list|, visited))
    else if s.kind.None? then Null
    else
      match s.kind.value
      case KArray =>
        if s.items.None? || Count(s.limits) == 0 then List([])
        else
          var item := Example(refs, universe, s.items.value, visited);
          List(seq(Count(s.limits), i => item))
      case KBool => Bool(false)
      case KInteger => Num(WholeExample(s.limits))
      case KNumber => Num(NumberExample(s.limits))
      case KString => Str(TextExample(s.limits))
      case _ => Null
  }

  /** Examples of the first `n` properties. */
  function Fields(refs: Refs, ghost universe: set<string>, s: Node, n: nat, visited: set<string>): map<string, Value>
    requires Closed(refs, universe, s) && s.properties.Properties? && n <= |s.properties.list|
    decreases universe - visited, s, 0, n
  {
    if n == 0 then map[]
    else
      var p := s.properties.list[n - 1];
      assert forall r | r in Mentions(s.properties.list[n - 1].schema) :: r in Mentions(s);
      Fields(refs, universe, s, n - 1, visited)[p.name := Example(refs, universe, p.schema, visited)]
  }

  /** Defined for every schema whatever its references name, cycles included. */
  function MinimalExample(refs: Refs, root: Node): Value {
    AllMentionsClosed(refs, root);
    Example(refs, AllMentions(refs, root), root, {})
  }

  // ---- plain schemas: one family of constraints per node ---------------------------------------------------------

  const FREE := Limits(None, None, None, None, None, None, None, None)
  const BLANK := Node(None, None, None, None, NoProperties, {}, None, NoNodes, NoNodes, None, FREE)

  predicate IsWhole(b: Option<Bound>) { b.Some? ==> b.value.Whole? }

  predicate AllWhole(l: Limits) { IsWhole(l.minimum) && IsWhole(l.exclusiveMinimum) && IsWhole(l.maximum) }

  predicate WholeFits(l: Limits)
    requires AllWhole(l)
  {
    && (l.minimum.Some? && l.exclusiveMinimum.Some? ==> l.minimum.value.i > l.exclusiveMinimum.value.i)
    && (l.minimum.Some? && l.maximum.Some? ==> l.minimum.value.i <= l.maximum.value.i)
    && (l.minimum.None? && l.exclusiveMinimum.Some? && l.maximum.Some? ==>
          l.exclusiveMinimum.value.i + 1 <= l.maximum.value.i)
  }

  predicate NumberFits(l: Limits) {
    && (l.minimum.Some? && l.exclusiveMinimum.Some? ==> l.minimum.value.Real() > l.exclusiveMinimum.value.Real())
    && (l.minimum.Some? && l.maximum.Some? ==> l.minimum.value.Real() <= l.maximum.value.Real())
    && (l.minimum.None? && l.exclusiveMinimum.Some? && l.maximum.Some? ==>
          l.exclusiveMinimum.value.Real() + 1.0 <= l.maximum.value.Real())
  }

  predicate TextFits(l: Limits) {
    var n := if l.format == Some("date-time") then 20 else if l.format == Some("date") then 10
             else if l.minLength.Some? && l.minLength.value > 0 then l.minLength.value else 0;
    AtLeast(n, l.minLength) && AtMost(n, l.maxLength)
  }

  /** A leaf with no constraint but the limits of its kind. */
  predicate Leaf(s: Node) {
    && s == BLANK.(kind := s.kind, limits := s.limits) && s.kind.Some?
    && !s.kind.value.KArray? && !s.kind.value.KObject? && (s.kind.value.KInteger? ==> AllWhole(s.limits))
  }

  predicate LeafFits(s: Node)
    requires Leaf(s)
  {
    match s.kind.value
    case KInteger => WholeFits(s.limits)
    case KNumber => NumberFits(s.limits)
    case KString => TextFits(s.limits)
    case _ => true
  }

  /** For leaves the condition is exact. */
  lemma LeafExact(depth: nat, refs: Refs, universe: set<string>, s: Node, visited: set<string>)
    requires Leaf(s) && Closed(refs, universe, s) && depth > 0
    ensures Valid(depth, refs, s, Example(refs, universe, s, visited)) <==> LeafFits(s)
  {
  }

  predicate ArrayFits(s: Node) {
    if s.items.None? then AtLeast(0, s.limits.minItems) && AtMost(0, s.limits.maxItems)
    else
      var most := s.limits.maxItems;
      AtLeast(MOST_ITEMS, s.limits.minItems)
      && (most.Some? ==>
            if most.value == 0 then AtLeast(0, s.limits.minItems)
            else most.value >= 1 && AtLeast(most.value, s.limits.minItems))
  }

  /** An array generated within these limits keeps them, and only then. */
  lemma ArrayExact(s: Node)
    ensures var n := if s.items.None? then 0 else Count(s.limits);
            ArrayFits(s) <==> AtLeast(n, s.limits.minItems) && AtMost(n, s.limits.maxItems)
  {
  }

  /** As few items as the lower limit allows, but at least one and at most 16; none if none may be. */
  lemma CountIsLeast(l: Limits)
    ensures var n := Count(l);
            && (n == 0 <==> l.maxItems == Some(0)) && 0 <= n <= 16
            && (n > 0 ==> (n == 16 || AtLeast(n, l.minItems)) && forall k | 1 <= k < n :: !AtLeast(k, l.minItems))
  {
  }

  lemma PropertyClosed(refs: Refs, universe: set<string>, s: Node, i: nat)
    requires Closed(refs, universe, s) && s.properties.Properties? && i < |s.properties.list|
    ensures Closed(refs, universe, s.properties.list[i].schema)
  {
    assert forall r | r in Mentions(s.properties.list[i].schema) :: r in Mentions(s);
  }

  lemma {:induction false} FieldNames(refs: Refs, universe: set<string>, s: Node, n: nat, visited: set<string>,
                                      name: string)
    requires Closed(refs, universe, s) && s.properties.Properties? && n <= |s.properties.list|
    ensures name in Fields(refs, universe, s, n, visited)
            <==> exists i | 0 <= i < n :: s.properties.list[i].name == name
  {
    if n > 0 {
      PropertyClosed(refs, universe, s, n - 1);
      FieldNames(refs, universe, s, n - 1, visited, name);
    }
  }

  lemma {:induction false} FieldValue(refs: Refs, universe: set<string>, s: Node, n: nat, visited: set<string>, i: nat)
    requires Closed(refs, universe, s) && s.properties.Properties? && i < n <= |s.properties.list| && DistinctNames(s)
    ensures Closed(refs, universe, s.properties.list[i].schema)
    ensures var fields, p := Fields(refs, universe, s, n, visited), s.properties.list[i];
            p.name in fields && fields[p.name] == Example(refs, universe, p.schema, visited)
  {
    PropertyClosed(refs, universe, s, i);
    PropertyClosed(refs, universe, s, n - 1);
    if i < n - 1 {
      FieldValue(refs, universe, s, n - 1, visited, i);
      assert s.properties.list[i].name != s.properties.list[n - 1].name;
    }
  }

  /** The example of an object has every declared property, required or not, and no other; each is its own example. */
  lemma ObjectExampleExactly(refs: Refs, universe: set<string>, s: Node, visited: set<string>)
    requires Closed(refs, universe, s) && s.properties.Properties? && DistinctNames(s)
    requires s.ref.None? && s.constant.None? && (s.choices.None? || s.choices.value == [])
    requires s.anyOf.NoNodes? || s.anyOf.list == []
    ensures var v := Example(refs, universe, s, visited);
            && v.Obj?
            && (forall name :: name in v.fields <==>
                  exists i | 0 <= i < |s.properties.list| :: s.properties.list[i].name == name)
            && (forall i | 0 <= i < |s.properties.list| ::
                  && Closed(refs, universe, s.properties.list[i].schema)
                  && v.fields[s.properties.list[i].name]
                     == Example(refs, universe, s.properties.list[i].schema, visited))
  {
    var n := |s.properties.list|;
    assert Example(refs, universe, s, visited) == Obj(Fields(refs, universe, s, n, visited));
    forall name
      ensures name in Fields(refs, universe, s, n, visited)
              <==> exists i | 0 <= i < n :: s.properties.list[i].name == name
    {
      FieldNames(refs, universe, s, n, visited, name);
    }
    forall i | 0 <= i < n
      ensures Closed(refs, universe, s.properties.list[i].schema)
      ensures s.properties.list[i].name in Fields(refs, universe, s, n, visited)
      ensures Fields(refs, universe, s, n, visited)[s.properties.list[i].name]
           == Example(refs, universe, s.properties.list[i].schema, visited)
    {
      FieldValue(refs, universe, s, n, visited, i);
    }
  }

  /** Where a cycle closes the example is null; flags are false; texts without a format are filled up with x. */
  lemma FixedChoices(refs: Refs, universe: set<string>, s: Node, visited: set<string>)
    requires Closed(refs, universe, s)
    ensures s.ref.Some? && s.ref.value in visited ==> Example(refs, universe, s, visited) == Null
    ensures s == BLANK.(kind := Some(KBool)) ==> Example(refs, universe, s, visited) == Bool(false)
    ensures s.limits.format.None? ==> forall c | c in TextExample(s.limits) :: c == 'x'
  {
  }

  predicate Named(s: Node, name: string) {
    s.properties.Properties? && exists i | 0 <= i < |s.properties.list| :: s.properties.list[i].name == name
  }

  predicate DistinctNames(s: Node) {
    s.properties.Properties? ==>
      forall i, j | 0 <= i < j < |s.properties.list| :: s.properties.list[i].name != s.properties.list[j].name
  }

  /** A plain schema whose references resolve and come to an end within `n` nodes. */
  predicate Supported(n: nat, refs: Refs, s: Node) {
    n > 0 &&
    if s.ref.Some? then
      s == BLANK.(ref := s.ref) && s.ref.value in refs && Supported(n - 1, refs, refs[s.ref.value])
    else if s.constant.Some? then
      s == BLANK.(constant := s.constant, kind := s.kind) && (s.kind.Some? ==> HasKind(s.constant.value, s.kind.value))
    else if s.choices.Some? then
      && s == BLANK.(choices := s.choices, kind := s.kind) && s.choices.value != []
      && (s.kind.Some? ==> HasKind(s.choices.value[0], s.kind.value))
    else if s.anyOf.Nodes? then
      s == BLANK.(anyOf := s.anyOf) && s.anyOf.list != [] && Supported(n - 1, refs, s.anyOf.list[0])
    else if s.kind == Some(KObject) || s.properties.Properties? then
      && s == BLANK.(kind := s.kind, properties := s.properties, required := s.required)
      && s.kind in {None, Some(KObject)} && DistinctNames(s) && (forall r | r in s.required :: Named(s, r))
      && (s.properties.Properties? ==>
            forall i | 0 <= i < |s.properties.list| :: Supported(n - 1, refs, s.properties.list[i].schema))
    else if s.kind == Some(KArray) then
      && s == BLANK.(kind := s.kind, items := s.items, limits := s.limits) && ArrayFits(s)
      && (s.items.Some? ==> Supported(n - 1, refs, s.items.value))
    else Leaf(s) && LeafFits(s)
  }

  lemma {:induction false} SupportedGrows(n: nat, m: nat, refs: Refs, s: Node)
    requires n <= m && Supported(n, refs, s)
    ensures Supported(m, refs, s)
  {
    if s.ref.Some? {
      SupportedGrows(n - 1, m - 1, refs, refs[s.ref.value]);
    } else if s.constant.None? && s.choices.None? {
      if s.anyOf.Nodes? {
        SupportedGrows(n - 1, m - 1, refs, s.anyOf.list[0]);
      } else if s.properties.Properties? {
        forall i | 0 <= i < |s.properties.list| ensures Supported(m - 1, refs, s.properties.list[i].schema) {
          SupportedGrows(n - 1, m - 1, refs, s.properties.list[i].schema);
        }
      } else if s.items.Some? {
        SupportedGrows(n - 1, m - 1, refs, s.items.value);
      }
    }
  }

  function Rank(n: nat, refs: Refs, s: Node): (m: nat)
    requires Supported(n, refs, s)
    ensures 0 < m <= n && Supported(m, refs, s) && !Supported(m - 1, refs, s)
  {
    if Supported(n - 1, refs, s) then Rank(n - 1, refs, s) else n
  }

  /** The references followed so far lie deeper than what is left to visit. */
  predicate Behind(n: nat, refs: Refs, visited: set<string>) {
    n > 0 && forall r | r in visited :: r in refs && !Supported(n - 1, refs, refs[r])
  }

  lemma BehindShrinks(n: nat, m: nat, refs: Refs, visited: set<string>)
    requires Behind(n, refs, visited) && 0 < m <= n
    ensures Behind(m, refs, visited)
  {
    forall r | r in visited ensures !Supported(m - 1, refs, refs[r]) {
      if Supported(m - 1, refs, refs[r]) { SupportedGrows(m - 1, n - 1, refs, refs[r]); }
    }
  }

  lemma ClosedChild(refs: Refs, universe: set<string>, s: Node, i: nat)
    requires Closed(refs, universe, s) && s.properties.Properties? && i < |s.properties.list|
    ensures Closed(refs, universe, s.properties.list[i].schema)
  {
    assert forall r | r in Mentions(s.properties.list[i].schema) :: r in Mentions(s);
  }

  lemma {:induction false} FieldsExact(refs: Refs, universe: set<string>, s: Node, n: nat, visited: set<string>,
                                       i: nat)
    requires Closed(refs, universe, s) && s.properties.Properties? && DistinctNames(s)
    requires i < n <= |s.properties.list|
    ensures var fields, p := Fields(refs, universe, s, n, visited), s.properties.list[i];
            && p.name in fields && Closed(refs, universe, p.schema)
            && fields[p.name] == Example(refs, universe, p.schema, visited)
  {
    ClosedChild(refs, universe, s, i);
    if i < n - 1 { FieldsExact(refs, universe, s, n - 1, visited, i); }
  }

  lemma ObjectValid(depth: nat, refs: Refs, s: Node, fields: map<string, Value>)
    requires depth > 0 && s == BLANK.(kind := s.kind, properties := s.properties, required := s.required)
    requires s.kind in {None, Some(KObject)} && s.properties.Properties? && forall r | r in s.required :: Named(s, r)
    requires forall i | 0 <= i < |s.properties.list| ::
               && s.properties.list[i].name in fields
               && Valid(depth - 1, refs, s.properties.list[i].schema, fields[s.properties.list[i].name])
    ensures Valid(depth, refs, s, Obj(fields))
  {
    forall r | r in s.required ensures r in fields.Keys { assert Named(s, r); }
    assert Local(s, Obj(fields));
  }

  /** On a plain schema without reference cycles the example is accepted. */
  lemma {:induction false} ExampleAccepted(n: nat, depth: nat, refs: Refs, universe: set<string>, s: Node,
                                           visited: set<string>)
    requires Closed(refs, universe, s) && Supported(n, refs, s) && Behind(n, refs, visited) && depth >= n
    ensures Valid(depth, refs, s, Example(refs, universe, s, visited))
    decreases n
  {
    if s.ref.Some? {
      RefAccepted(n, depth, refs, universe, s, visited);
    } else if s.constant.Some? || s.choices.Some? {
    } else if s.anyOf.Nodes? {
      assert forall r | r in Mentions(s.anyOf.list[0]) :: r in Mentions(s);
      SupportedPositive(n - 1, refs, s.anyOf.list[0]);
      BehindShrinks(n, n - 1, refs, visited);
      ExampleAccepted(n - 1, depth - 1, refs, universe, s.anyOf.list[0], visited);
    } else if s.kind == Some(KObject) || s.properties.Properties? {
      if s.properties.Properties? { ObjectAccepted(n, depth, refs, universe, s, visited); }
    } else if s.kind == Some(KArray) {
      ArrayAccepted(n, depth, refs, universe, s, visited);
    } else {
      LeafExact(depth, refs, universe, s, visited);
    }
  }

  lemma SupportedPositive(n: nat, refs: Refs, s: Node)
    requires Supported(n, refs, s)
    ensures n > 0
  {
  }

  lemma RefAccepted(n: nat, depth: nat, refs: Refs, universe: set<string>, s: Node, visited: set<string>)
    requires Closed(refs, universe, s) && Supported(n, refs, s) && Behind(n, refs, visited) && depth >= n
    requires s.ref.Some?
    ensures Valid(depth, refs, s, Example(refs, universe, s, visited))
    decreases n, 0
  {
    var q := s.ref.value;
    var target := refs[q];
    var m := Rank(n - 1, refs, target);
    BehindShrinks(n, m, refs, visited);
    ExampleAccepted(m, depth - 1, refs, universe, target, visited + {q});
  }

  predicate IsObject(s: Node) {
    s.ref.None? && s.constant.None? && s.choices.None? && s.anyOf.NoNodes? && s.properties.Properties?
  }

  lemma ExampleOfObject(refs: Refs, universe: set<string>, s: Node, visited: set<string>)
    requires Closed(refs, universe, s) && IsObject(s)
    ensures Example(refs, universe, s, visited) == Obj(Fields(refs, universe, s, |s.properties.list|, visited))
  {
  }

  lemma SupportedObject(n: nat, refs: Refs, s: Node)
    requires Supported(n, refs, s) && IsObject(s)
    ensures s == BLANK.(kind := s.kind, properties := s.properties, required := s.required)
    ensures s.kind in {None, Some(KObject)} && DistinctNames(s) && forall r | r in s.required :: Named(s, r)
    ensures n > 0 && forall i | 0 <= i < |s.properties.list| :: Supported(n - 1, refs, s.properties.list[i].schema)
  {
  }

  lemma ObjectAccepted(n: nat, depth: nat, refs: Refs, universe: set<string>, s: Node, visited: set<string>)
    requires Closed(refs, universe, s) && Supported(n, refs, s) && Behind(n, refs, visited) && depth >= n
    requires IsObject(s)
    ensures Valid(depth, refs, s, Example(refs, universe, s, visited))
    decreases n, 0
  {
    var fields := Fields(refs, universe, s, |s.properties.list|, visited);
    SupportedObject(n, refs, s);
    forall i | 0 <= i < |s.properties.list|
      ensures s.properties.list[i].name in fields
      ensures Valid(depth - 1, refs, s.properties.list[i].schema, fields[s.properties.list[i].name])
    {
      FieldsExact(refs, universe, s, |s.properties.list|, visited, i);
      SupportedPositive(n - 1, refs, s.properties.list[i].schema);
      BehindShrinks(n, n - 1, refs, visited);
      ExampleAccepted(n - 1, depth - 1, refs, universe, s.properties.list[i].schema, visited);
    }
    ObjectValid(depth, refs, s, fields);
    ExampleOfObject(refs, universe, s, visited);
  }

  lemma ArrayAccepted(n: nat, depth: nat, refs: Refs, universe: set<string>, s: Node, visited: set<string>)
    requires Closed(refs, universe, s) && Supported(n, refs, s) && Behind(n, refs, visited) && depth >= n
    requires s.ref.None? && s.constant.None? && s.choices.None? && s.anyOf.NoNodes? && s.properties.NoProperties?
    requires s.kind == Some(KArray)
    ensures Valid(depth, refs, s, Example(refs, universe, s, visited))
    decreases n, 0
  {
    ArrayExact(s);
    if s.items.Some? {
      SupportedPositive(n - 1, refs, s.items.value);
      BehindShrinks(n, n - 1, refs, visited);
      ExampleAccepted(n - 1, depth - 1, refs, universe, s.items.value, visited);
    }
  }

  lemma MinimalExampleAccepted(n: nat, refs: Refs, root: Node)
    requires Supported(n, refs, root)
    ensures forall depth: nat | depth >= n :: Valid(depth, refs, root, MinimalExample(refs, root))
  {
    AllMentionsClosed(refs, root);
    forall depth: nat | depth >= n ensures Valid(depth, refs, root, MinimalExample(refs, root)) {
      ExampleAccepted(n, depth, refs, AllMentions(refs, root), root, {});
    }
  }
}
