// config_io over the whole family of types: get, set, set by name and append, as
// functions on the settings tree.
module Codec {
  import opened Options
  import opened Settings
  import opened Schema
  import Text

  // ---- Saving ----

  // A tree after a save, and whether the save ended without an exception.
  datatype Saved = Saved(tree: Tree, ok: bool)

  // static_cast<int> of a value of the type.
  function ToInt(p: Prim, i: int): int {
    if p == PUInt && i > INT_MAX then i - UINT_RANGE else i
  }

  // static_cast from the stored int.
  function FromInt(p: Prim, i: int): int {
    match p
    case PUInt => i % UINT_RANGE
    case PUInt16 => i % UINT16_RANGE
    case _ => i
  }

  function ToScalar(p: Prim, v: Value): (c: Scalar)
    requires PrimTyped(p, v)
    ensures TypeOf(Leaf(c)) == PrimType(p)
  {
    match p
    case PBool => Bool(v.b)
    case PFloat => Float(v.r)
    case PString => Str(v.s)
    case _ => Int(ToInt(p, v.i))
  }

  // Makes parent hold a member called name of a type that can be assigned.
  function Prepare(parent: Tree, name: string, create: Type, kept: Type): (r: Saved)
    ensures r.ok ==> Exists(r.tree, name)
  {
    if !Exists(parent, name) then
      var added := AddMember(parent, name, create);
      if added.None? then Saved(parent, false)
      else AddedExists(parent, name, create); Saved(added.value, true)
    else if TypeOf(Lookup(parent, name).value) != kept then
      var removed := RemoveMember(parent, name).value;
      var added := AddMember(removed, name, create);
      if added.None? then Saved(removed, false)
      else AddedExists(removed, name, create); Saved(added.value, true)
    else Saved(parent, true)
  }

  lemma AddedExists(t: Tree, name: string, ty: Type)
    requires t.Group? && !Exists(t, name)
    ensures Exists(AddMember(t, name, ty).value, name)
  {
    var ms := AddMember(t, name, ty).value.members;
    assert ms[|ms| - 1].name == name;
  }

  // Assignment to a setting, which checks its type.
  function PutPrim(p: Prim, v: Value, t: Tree): Saved
    requires PrimTyped(p, v)
  {
    if TypeOf(t) == PrimType(p) then Saved(Leaf(ToScalar(p, v)), true) else Saved(t, false)
  }

  function PutPrimNamed(p: Prim, name: string, v: Value, parent: Tree): Saved
    requires PrimTyped(p, v)
  {
    var ready := Prepare(parent, name, PrimType(p), PrimType(p));
    if !ready.ok then ready
    else
      var child := PutPrim(p, v, Lookup(ready.tree, name).value);
      Saved(SetMember(ready.tree, name, child.tree), child.ok)
  }

  // The signature is kept lower-cased and saved as an ordinary string member.
  function PutSignature(sign: Signature, t: Tree): Saved {
    PutPrimNamed(PString, sign.field, S(Text.Lower(sign.text)), t)
  }

  // set(setting, t)
  function Put(s: Schema, v: Value, t: Tree): Saved
    requires WellTyped(s, v)
    decreases s, 0, 0
  {
    match s
    case Prim(p) => PutPrim(p, v, t)
    case Variant(alts) => Put(alts[v.k], v.alt, t)
    case ListOf(elem) => AppendAll(elem, v.elems, Cleared(t))
    case SetOf(member) => AppendGroups(member, v.elems, Cleared(t))
    case MapOf(keyName, key, _, value) => AppendEntries(keyName, key, value, v.entries, Cleared(t))
    case GroupOf(sign, fields) =>
      var signed := if sign.None? then Saved(t, true) else PutSignature(sign.value, t);
      if !signed.ok then signed else PutFields(fields, v.fields, signed.tree)
  }

  // set(parent, name, t)
  function PutNamed(s: Schema, name: string, v: Value, parent: Tree): Saved
    requires WellTyped(s, v)
    decreases s, 1, 0
  {
    var ready := Prepare(parent, name, NodeType(s, v), KeptType(s, v));
    if !ready.ok then ready
    else
      var child := Put(s, v, Lookup(ready.tree, name).value);
      Saved(SetMember(ready.tree, name, child.tree), child.ok)
  }

  // group_io::set, member by member; an empty optional writes nothing.
  function PutFields(fields: seq<Field>, vals: seq<Option<Value>>, t: Tree): Saved
    requires |vals| == |fields|
    requires forall i :: 0 <= i < |fields| && vals[i].Some? ==> WellTyped(fields[i].schema, vals[i].value)
    decreases fields, 2, 0
  {
    if fields == [] then Saved(t, true)
    else
      var first := if vals[0].None? then Saved(t, true)
                   else PutNamed(fields[0].schema, fields[0].name, vals[0].value, t);
      if !first.ok then first else PutFields(fields[1..], vals[1..], first.tree)
  }

  // append(list, t)
  function Append(s: Schema, v: Value, list: Tree): Saved
    requires WellTyped(s, v)
    decreases s, 1, 0
  {
    if !AcceptsElem(list, NodeType(s, v)) then Saved(list, false)
    else var child := Put(s, v, New(NodeType(s, v)));
         Saved(AppendElem(list, child.tree), child.ok)
  }

  function AppendAll(elem: Schema, vs: seq<Value>, list: Tree): Saved
    requires forall i :: 0 <= i < |vs| ==> WellTyped(elem, vs[i])
    decreases elem, 2, |vs|
  {
    if vs == [] then Saved(list, true)
    else var first := Append(elem, vs[0], list);
         if !first.ok then first else AppendAll(elem, vs[1..], first.tree)
  }

  // The loop of config_io<std::set>::set: every element is put into a new group.
  function AppendGroups(member: Schema, vs: seq<Value>, list: Tree): Saved
    requires forall i :: 0 <= i < |vs| ==> WellTyped(member, vs[i])
    decreases member, 2, |vs|
  {
    if vs == [] then Saved(list, true)
    else if !AcceptsElem(list, TGroup) then Saved(list, false)
    else var child := Put(member, vs[0], New(TGroup));
         if !child.ok then Saved(AppendElem(list, child.tree), false)
         else AppendGroups(member, vs[1..], AppendElem(list, child.tree))
  }

  // One map entry: the value first, then the key as one more member of its group.
  function PutEntry(keyName: string, key: Prim, value: Schema, e: Entry): Saved
    requires PrimTyped(key, e.key) && WellTyped(value, e.value)
    decreases value, 1, 0
  {
    var body := Put(value, e.value, New(TGroup));
    if !body.ok then body else PutPrimNamed(key, keyName, e.key, body.tree)
  }

  function AppendEntries(keyName: string, key: Prim, value: Schema, es: seq<Entry>, list: Tree): Saved
    requires forall i :: 0 <= i < |es| ==> PrimTyped(key, es[i].key)
    requires forall i :: 0 <= i < |es| ==> WellTyped(value, es[i].value)
    decreases value, 2, |es|
  {
    if es == [] then Saved(list, true)
    else if !AcceptsElem(list, TGroup) then Saved(list, false)
    else var child := PutEntry(keyName, key, value, es[0]);
         if !child.ok then Saved(AppendElem(list, child.tree), false)
         else AppendEntries(keyName, key, value, es[1..], AppendElem(list, child.tree))
  }

  // ---- Loading ----

  function GetPrim(p: Prim, t: Tree): Option<Value> {
    if TypeOf(t) != PrimType(p) then None
    else match t.value
         case Bool(b) => Some(B(b))
         case Float(r) => Some(F(r))
         case Str(s) => Some(S(s))
         case Int(i) => Some(I(FromInt(p, i)))
         case Int64(j) => Some(I(j))
  }

  function GetPrimNamed(p: Prim, name: string, t: Tree): Option<Value> {
    var found := Lookup(t, name);
    if found.None? then None else GetPrim(p, found.value)
  }

  // get(setting)
  function Get(s: Schema, t: Tree): Option<Value>
    decreases s, 0, 0
  {
    match s
    case Prim(p) => GetPrim(p, t)
    case Variant(alts) => FirstMatch(alts, 0, t)
    case ListOf(elem) => Some(L(GetAll(elem, Children(t))))
    case SetOf(member) => Some(L(GetSet(member, Children(t))))
    case MapOf(keyName, key, order, value) => Some(M(GetEntries(keyName, key, order, value, Children(t))))
    case GroupOf(sign, fields) =>
      if sign.Some? && !SignatureMatches(sign.value, t) then None
      else var got := GetFields(fields, t);
           if got.None? then None else Some(G(got.value))
  }

  predicate SignatureMatches(sign: Signature, t: Tree) {
    var got := GetPrimNamed(PString, sign.field, t);
    got.Some? && Text.Lower(got.value.s) == Text.Lower(sign.text)
  }

  // try_each: the first alternative that does not throw.
  function FirstMatch(alts: seq<Schema>, k: nat, t: Tree): Option<Value>
    decreases alts, 1, 0
  {
    if alts == [] then None
    else var got := Get(alts[0], t);
         if got.Some? then Some(Alt(k, got.value)) else FirstMatch(alts[1..], k + 1, t)
  }

  // One member of a group; an optional swallows the exception.
  function GetField(f: Field, t: Tree): Option<Option<Value>>
    decreases f, 0, 0
  {
    var found := Lookup(t, f.name);
    var got := if found.None? then None else Get(f.schema, found.value);
    if f.optional || got.Some? then Some(got) else None
  }

  function GetFields(fields: seq<Field>, t: Tree): (r: Option<seq<Option<Value>>>)
    ensures r.Some? ==> |r.value| == |fields|
    decreases fields, 1, 0
  {
    if fields == [] then Some([])
    else
      var first := GetField(fields[0], t);
      if first.None? then None
      else var rest := GetFields(fields[1..], t);
           if rest.None? then None else Some([first.value] + rest.value)
  }

  // Elements that do not decode are skipped. The loops run front to back, so the
  // recursion peels the last element.
  function GetAll(elem: Schema, ts: seq<Tree>): seq<Value>
    decreases elem, 1, |ts|
  {
    if ts == [] then []
    else var n := |ts| - 1;
         var got := Get(elem, ts[n]);
         GetAll(elem, ts[..n]) + if got.Some? then [got.value] else []
  }

  function GetSet(member: Schema, ts: seq<Tree>): seq<Value>
    decreases member, 1, |ts|
  {
    if ts == [] then []
    else var n := |ts| - 1;
         var got := Get(member, ts[n]);
         var before := GetSet(member, ts[..n]);
         if got.Some? then EmplaceValue(before, got.value) else before
  }

  function GetEntry(keyName: string, key: Prim, value: Schema, t: Tree): Option<Entry>
    decreases value, 1, 0
  {
    var k := GetPrimNamed(key, keyName, t);
    var v := Get(value, t);
    if k.Some? && v.Some? then Some(Entry(k.value, v.value)) else None
  }

  function GetEntries(keyName: string, key: Prim, order: KeyOrder, value: Schema, ts: seq<Tree>): seq<Entry>
    decreases value, 2, |ts|
  {
    if ts == [] then []
    else var n := |ts| - 1;
         var got := GetEntry(keyName, key, value, ts[n]);
         var before := GetEntries(keyName, key, order, value, ts[..n]);
         if got.Some? then Emplace(order, before, got.value) else before
  }

  // std::map::emplace: in key order, and ignored when an equivalent key is present.
  function Emplace(order: KeyOrder, es: seq<Entry>, e: Entry): seq<Entry> {
    if es == [] then [e]
    else if KeyLess(order, es[0].key, e.key) then [es[0]] + Emplace(order, es[1..], e)
    else if KeyLess(order, e.key, es[0].key) then [e] + es
    else es
  }

  function EmplaceValue(vs: seq<Value>, v: Value): seq<Value> {
    if vs == [] then [v]
    else if KeyLess(Numeric, vs[0], v) then [vs[0]] + EmplaceValue(vs[1..], v)
    else if KeyLess(Numeric, v, vs[0]) then [v] + vs
    else vs
  }
}
