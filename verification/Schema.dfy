// C++ configuration types as data: what config_io is instantiated at, the values of
// such a type, and the conditions under which its saved forms can be told apart.
module Schema {
  import opened Options
  import opened Settings
  import Text

  // bool, int, unsigned int, uint16_t, double and std::string.
  datatype Prim = PBool | PInt | PUInt | PUInt16 | PFloat | PString

  datatype KeyOrder = Numeric | Lexical | Caseless

  datatype Signature = Signature(field: string, text: string)

  datatype Field = Field(name: string, optional: bool, schema: Schema)

  datatype Schema =
    | Prim(p: Prim)
    | Variant(alts: seq<Schema>)
    | ListOf(elem: Schema)
    | SetOf(member: Schema)
    | MapOf(keyName: string, key: Prim, order: KeyOrder, value: Schema)
    | GroupOf(sign: Option<Signature>, fields: seq<Field>)

  // A std::list is L, a std::set is L in ascending order, a std::map is M in key order;
  // a group holds None exactly at its empty optionals.
  datatype Value =
    | B(b: bool)
    | I(i: int)
    | F(r: real)
    | S(s: string)
    | Alt(k: nat, alt: Value)
    | L(elems: seq<Value>)
    | M(entries: seq<Entry>)
    | G(fields: seq<Option<Value>>)

  datatype Entry = Entry(key: Value, value: Value)

  const INT_MIN := -0x8000_0000
  const INT_MAX := 0x7fff_ffff
  const UINT_RANGE := 0x1_0000_0000
  const UINT16_RANGE := 0x1_0000

  function PrimType(p: Prim): Type {
    match p
    case PBool => TBool
    case PInt => TInt
    case PUInt => TInt
    case PUInt16 => TInt
    case PFloat => TFloat
    case PString => TString
  }

  predicate PrimTyped(p: Prim, v: Value) {
    match p
    case PBool => v.B?
    case PInt => v.I? && INT_MIN <= v.i <= INT_MAX
    case PUInt => v.I? && 0 <= v.i < UINT_RANGE
    case PUInt16 => v.I? && 0 <= v.i < UINT16_RANGE
    case PFloat => v.F?
    case PString => v.S?
  }

  // As on x86; nothing below depends on it.
  const CHAR_IS_SIGNED := true

  predicate KeyLess(order: KeyOrder, a: Value, b: Value) {
    match order
    case Numeric => a.I? && b.I? && a.i < b.i
    case Lexical => a.S? && b.S? && Text.LexLess(a.s, b.s, false)
    case Caseless => a.S? && b.S? && Text.CaselessLess(a.s, b.s, CHAR_IS_SIGNED)
  }

  predicate Ascending(order: KeyOrder, keys: seq<Value>) {
    forall i, j :: 0 <= i < j < |keys| ==> KeyLess(order, keys[i], keys[j])
  }

  function Keys(entries: seq<Entry>): seq<Value> {
    seq(|entries|, i requires 0 <= i < |entries| => entries[i].key)
  }

  // The values a C++ object of the type can have.
  predicate WellTyped(s: Schema, v: Value)
    decreases s
  {
    match s
    case Prim(p) => PrimTyped(p, v)
    case Variant(alts) => v.Alt? && v.k < |alts| && WellTyped(alts[v.k], v.alt)
    case ListOf(elem) => v.L? && forall i :: 0 <= i < |v.elems| ==> WellTyped(elem, v.elems[i])
    case SetOf(member) =>
      v.L? && Ascending(Numeric, v.elems) &&
      forall i :: 0 <= i < |v.elems| ==> WellTyped(member, v.elems[i])
    case MapOf(_, key, order, value) =>
      v.M? && Ascending(order, Keys(v.entries)) &&
      (forall i :: 0 <= i < |v.entries| ==> PrimTyped(key, v.entries[i].key)) &&
      (forall i :: 0 <= i < |v.entries| ==> WellTyped(value, v.entries[i].value))
    case GroupOf(_, fields) =>
      v.G? && |v.fields| == |fields| &&
      forall i :: 0 <= i < |fields| ==>
        if v.fields[i].None? then fields[i].optional
        else WellTyped(fields[i].schema, v.fields[i].value)
  }

  // Alternatives of a variant resolve to the type of the value held.
  function NodeType(s: Schema, v: Value): Type
    requires WellTyped(s, v)
  {
    match s
    case Prim(p) => PrimType(p)
    case Variant(alts) => NodeType(alts[v.k], v.alt)
    case GroupOf(_, _) => TGroup
    case _ => TList
  }

  // The type of an existing member that is reused rather than replaced. Maps and sets
  // test isArray() although they create a list.
  function KeptType(s: Schema, v: Value): Type
    requires WellTyped(s, v)
  {
    match s
    case Variant(alts) => KeptType(alts[v.k], v.alt)
    case SetOf(_) => TArray
    case MapOf(_, _, _, _) => TArray
    case _ => NodeType(s, v)
  }

  function FieldNames(fields: seq<Field>): set<string> {
    set i | 0 <= i < |fields| :: fields[i].name
  }

  // Every member name a saved group of this schema can have.
  function Names(s: Schema): set<string>
    requires s.GroupOf?
  {
    FieldNames(s.fields) + if s.sign.Some? then {s.sign.value.field} else {}
  }

  // No saved form of later, even with the members named in extra added, decodes as
  // earlier: by setting type, by signature, or by a mandatory member it cannot have.
  predicate Rejects(earlier: Schema, later: Schema, extra: set<string>) {
    match earlier
    case Prim(p) => (later.Prim? && PrimType(p) != PrimType(later.p)) || (!later.Prim? && !later.Variant?)
    case GroupOf(Some(sign), _) =>
      (later.GroupOf? && later.sign.Some? && later.sign.value.field == sign.field &&
       Text.Lower(later.sign.value.text) != Text.Lower(sign.text)) ||
      (!later.GroupOf? && !later.Variant?)
    case GroupOf(None, fields) =>
      later.GroupOf? &&
      exists i :: 0 <= i < |fields| && !fields[i].optional && fields[i].name !in Names(later) + extra
    case _ => false
  }

  predicate GroupLike(s: Schema) {
    s.GroupOf? || (s.Variant? && forall i :: 0 <= i < |s.alts| ==> s.alts[i].GroupOf?)
  }

  predicate OrderFits(key: Prim, order: KeyOrder) {
    if order == Numeric then key == PInt || key == PUInt || key == PUInt16 else key == PString
  }

  // Decodability of a type, checked on the type alone. The members named in extra are
  // those that an enclosing map adds to each of its groups.
  predicate Sound(s: Schema, extra: set<string>)
    decreases s
  {
    match s
    case Prim(_) => true
    case Variant(alts) =>
      |alts| > 0 &&
      (forall i :: 0 <= i < |alts| ==> !alts[i].Variant? && Sound(alts[i], extra)) &&
      (forall i, j :: 0 <= i < j < |alts| ==> Rejects(alts[i], alts[j], extra))
    case ListOf(elem) => Sound(elem, {})
    case SetOf(_) => false
    case MapOf(keyName, key, order, value) =>
      OrderFits(key, order) && GroupLike(value) && Sound(value, {keyName})
    case GroupOf(sign, fields) =>
      Names(s) !! extra &&
      (sign.Some? ==> sign.value.field !in FieldNames(fields)) &&
      (forall i, j :: 0 <= i < j < |fields| ==> fields[i].name != fields[j].name) &&
      (forall i :: 0 <= i < |fields| ==> Sound(fields[i].schema, {}))
  }
}
