/** JSON Schema nodes, and which values they accept. */
module Schema {
  import opened Common

  datatype Value =
    | Null | Bool(b: bool) | Num(r: real) | Str(s: string) | List(items: seq<Value>) | Obj(fields: map<string, Value>)

  datatype Kind = KNull | KBool | KInteger | KNumber | KString | KArray | KObject

  datatype Bound = Whole(i: int) | Decimal(d: real)
  {
    function Real(): real { if Whole? then i as real else d }
  }

  datatype Limits = Limits(minimum: Option<Bound>, exclusiveMinimum: Option<Bound>, maximum: Option<Bound>,
                           minItems: Option<int>, maxItems: Option<int>, minLength: Option<int>,
                           maxLength: Option<int>, format: Option<string>)

  datatype Property = Property(name: string, schema: Node)
  datatype Properties = NoProperties | Properties(list: seq<Property>)
  datatype Nodes = NoNodes | Nodes(list: seq<Node>)

  /** A schema node; absent keywords are None, and `tag` is the discriminator's property name. */
  datatype Node = Node(ref: Option<string>, kind: Option<Kind>, constant: Option<Value>, choices: Option<seq<Value>>,
                       properties: Properties, required: set<string>, items: Option<Node>,
                       anyOf: Nodes, oneOf: Nodes, tag: Option<string>, limits: Limits)

  /** What each local reference names. */
  type Refs = map<string, Node>

  predicate HasKind(v: Value, k: Kind) {
    match k
    case KNull => v.Null?
    case KBool => v.Bool?
    case KInteger => v.Num? && v.r.Floor as real == v.r
    case KNumber => v.Num?
    case KString => v.Str?
    case KArray => v.List?
    case KObject => v.Obj?
  }

  predicate AtLeast(n: int, least: Option<int>) { least.Some? ==> n >= least.value }
  predicate AtMost(n: int, most: Option<int>) { most.Some? ==> n <= most.value }

  predicate WithinLimits(l: Limits, v: Value) {
    match v
    case Num(r) =>
      && (l.minimum.Some? ==> r >= l.minimum.value.Real())
      && (l.exclusiveMinimum.Some? ==> r > l.exclusiveMinimum.value.Real())
      && (l.maximum.Some? ==> r <= l.maximum.value.Real())
    case Str(s) => AtLeast(|s|, l.minLength) && AtMost(|s|, l.maxLength)
    case List(items) => AtLeast(|items|, l.minItems) && AtMost(|items|, l.maxItems)
    case _ => true
  }

  /** The keywords that do not look at other nodes. */
  predicate Local(s: Node, v: Value) {
    && (s.kind.Some? ==> HasKind(v, s.kind.value))
    && (s.constant.Some? ==> v == s.constant.value)
    && (s.choices.Some? ==> v in s.choices.value)
    && (v.Obj? ==> s.required <= v.fields.Keys)
    && WithinLimits(s.limits, v)
  }

  /**
   Acceptance, looking at most `depth` nodes deep; beyond that, and at references to nothing, nothing is accepted.
   Keywords are conjoined, as sections 10.2.1 and 10.3 of JSON Schema Core draft 2020-12 have it.
  */
  predicate Valid(depth: nat, refs: Refs, s: Node, v: Value)
    decreases depth, 0
  {
    && depth > 0 && Local(s, v)
    && (s.ref.Some? ==> s.ref.value in refs && Valid(depth - 1, refs, refs[s.ref.value], v))
    && (v.Obj? && s.properties.Properties? ==> forall i | 0 <= i < |s.properties.list| ::
          var p := s.properties.list[i]; p.name in v.fields ==> Valid(depth - 1, refs, p.schema, v.fields[p.name]))
    && (v.List? && s.items.Some? ==>
          forall i | 0 <= i < |v.items| :: Valid(depth - 1, refs, s.items.value, v.items[i]))
    && (s.anyOf.Nodes? ==> exists i | 0 <= i < |s.anyOf.list| :: Valid(depth - 1, refs, s.anyOf.list[i], v))
    && (s.oneOf.Nodes? ==> ExactlyOne(depth - 1, refs, s.oneOf.list, v))
  }

  /** One node accepts, and no second one does. */
  predicate ExactlyOne(depth: nat, refs: Refs, ss: seq<Node>, v: Value)
    decreases depth, 1
  {
    && (exists i | 0 <= i < |ss| :: Valid(depth, refs, ss[i], v))
    && (forall i, j | 0 <= i < j < |ss| :: !(Valid(depth, refs, ss[i], v) && Valid(depth, refs, ss[j], v)))
  }
}
