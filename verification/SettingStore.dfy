// libconfig settings as the objects they are: a tree of nodes that saving adds to, removes
// from and overwrites in place. Every method is tied to the functions of Codec.
module SettingStore {
  import opened Options
  import opened Settings
  import opened Schema
  import opened Codec
  import Text

  class Setting {
    var kind: Type
    var value: Scalar            // read only while kind is a scalar type
    var names: seq<string>       // one per child; read only while kind is TGroup
    var kids: seq<Setting>
    ghost var Repr: set<Setting>
    ghost var Content: Tree

    ghost predicate Valid()
      reads this, Repr
      decreases Repr, 1
    {
      this in Repr && Owns() && Mirrors()
    }

    // The children are trees of their own, apart from each other and from this node.
    ghost predicate Owns()
      requires this in Repr
      reads this, Repr
      decreases Repr, 0
    {
      (forall i :: 0 <= i < |kids| ==> kids[i] in Repr && kids[i].Repr <= Repr - {this} && kids[i].Valid()) &&
      (forall i, j :: 0 <= i < j < |kids| ==> kids[i].Repr !! kids[j].Repr)
    }

    ghost predicate Mirrors()
      reads this, kids
    {
      |names| == |kids| && TypeOf(Content) == kind && |Children(Content)| == |kids| &&
      (IsScalarType(kind) ==> Content == Leaf(value)) &&
      (forall i :: 0 <= i < |kids| ==> Children(Content)[i] == kids[i].Content) &&
      (kind == TGroup ==> forall i :: 0 <= i < |kids| ==> Content.members[i].name == names[i])
    }

    constructor (ty: Type)
      ensures Valid() && fresh(Repr) && Repr == {this} && Content == New(ty)
    {
      kind := ty;
      value := if ty == TBool then Bool(false) else if ty == TInt then Int(0)
               else if ty == TInt64 then Int64(0) else if ty == TFloat then Float(0.0) else Str("");
      names, kids := [], [];
      Repr := {this};
      Content := New(ty);
    }

    // Position of a member by name; the length of kids when there is none.
    method Find(name: string) returns (k: nat)
      requires Valid()
      ensures k <= |kids| && (k < |kids| <==> Exists(Content, name))
      ensures k < |kids| ==> kind == TGroup && k == IndexOf(Content.members, name)
    {
      if kind != TGroup { return |kids|; }
      k := 0;
      while k < |kids| && names[k] != name
        invariant 0 <= k <= |kids|
        invariant forall i :: 0 <= i < k ==> names[i] != name
      {
        k := k + 1;
      }
    }

    method Push(name: string, child: Setting)
      requires Valid() && !IsScalarType(kind) && child.Valid() && child.Repr !! Repr
      modifies this
      ensures Valid() && Repr == old(Repr) + child.Repr
      ensures kids == old(kids) + [child] && kind == old(kind)
      ensures Content == WithChild(old(Content), name, child.Content)
    {
      names, kids := names + [name], kids + [child];
      Repr := Repr + child.Repr;
      Content := WithChild(Content, name, child.Content);
      assert Owns() by {
        assert forall i :: 0 <= i < |kids| - 1 ==> kids[i] == old(kids)[i];
      }
      assert Mirrors() by {
        assert forall i :: 0 <= i < |kids| - 1 ==>
          kids[i] == old(kids)[i] && Children(Content)[i] == Children(old(Content))[i];
      }
    }

    // Setting::add(name, type)
    method Add(name: string, ty: Type) returns (ok: bool)
      requires Valid()
      modifies this
      ensures Valid() && fresh(Repr - old(Repr))
      ensures ok == AddMember(old(Content), name, ty).Some?
      ensures Content == if ok then AddMember(old(Content), name, ty).value else old(Content)
    {
      var k := Find(name);
      ok := kind == TGroup && k == |kids|;
      if ok {
        var child := new Setting(ty);
        Push(name, child);
      }
    }

    twostate lemma OwnsFewer(k: nat)
      requires old(Valid()) && k < |old(kids)| && this in Repr && Repr == old(Repr)
      requires kids == old(kids)[..k] + old(kids)[k + 1..]
      requires forall o :: o in old(Repr) && o != this ==> unchanged(o)
      ensures Owns()
    {
      assert forall i :: 0 <= i < |kids| ==> kids[i] == old(kids)[if i < k then i else i + 1];
    }

    twostate lemma MirrorsFewer(k: nat)
      requires old(Valid()) && k < |old(kids)| && kind == old(kind)
      requires kids == old(kids)[..k] + old(kids)[k + 1..] && names == old(names)[..k] + old(names)[k + 1..]
      requires Content == Without(old(Content), k)
      requires forall c :: c in old(kids) ==> c.Content == old(c.Content)
      ensures Mirrors()
    {
      ChildrenWithout(old(Content), k);
      assert forall i :: 0 <= i < |kids| ==> kids[i] == old(kids)[if i < k then i else i + 1];
    }

    // Setting::remove(index)
    method RemoveAt(k: nat)
      requires Valid() && k < |kids|
      modifies this
      ensures Valid() && Repr == old(Repr) && kind == old(kind)
      ensures Content == Without(old(Content), k)
    {
      names, kids := names[..k] + names[k + 1..], kids[..k] + kids[k + 1..];
      Content := Without(Content, k);
      OwnsFewer(k);
      MirrorsFewer(k);
    }

    // while (setting.getLength() != 0) setting.remove(0);
    method Clear()
      requires Valid()
      modifies this
      ensures Valid() && Repr == old(Repr)
      ensures Content == Cleared(old(Content))
    {
      while |kids| != 0
        invariant Valid() && Repr == old(Repr) && kind == old(kind)
        invariant IsScalarType(kind) ==> Content == old(Content)
        decreases |kids|
      {
        ghost var n := |Children(Content)|;
        RemoveAt(0);
        assert |Children(Content)| == n - 1;
      }
    }

    // Changing child k through its own reference leaves the other children as they were, so
    // this node is again valid once its ghost state takes in the child's.
    twostate lemma Adopted(k: nat)
      requires old(Valid()) && !IsScalarType(kind) && k < |kids|
      requires kids == old(kids) && names == old(names) && kind == old(kind)
      requires kids[k].Valid() && fresh(kids[k].Repr - old(kids[k].Repr))
      requires forall o :: o in old(Repr) - old(kids[k].Repr) && o != this ==> unchanged(o)
      requires Repr == old(Repr) + kids[k].Repr
      requires Content == Replace(old(Content), k, kids[k].Content)
      ensures Valid()
    {
      forall i | 0 <= i < |kids| && i != k
        ensures kids[i].Valid() && kids[i].Repr == old(kids[i].Repr) && kids[i].Content == old(kids[i].Content)
        ensures kids[i].Repr !! kids[k].Repr && kids[i].Repr <= old(Repr) - {this}
      {
        assert old(kids[i].Valid()) && old(kids[i].Repr) !! old(kids[k].Repr) && old(kids[i].Repr <= Repr - {this});
        forall o | o in old(kids[i].Repr) ensures unchanged(o) {
          assert o in old(Repr) - old(kids[k].Repr) && o != this;
        }
        forall o | o in kids[k].Repr ensures o !in kids[i].Repr {
          assert o in kids[k].Repr - old(kids[k].Repr) || o in old(kids[k].Repr);
        }
      }
      assert this !in kids[k].Repr by {
        assert this !in old(kids[k].Repr) && this !in kids[k].Repr - old(kids[k].Repr);
      }
      assert forall i :: 0 <= i < |kids| ==>
        Children(Content)[i] == if i == k then kids[k].Content else Children(old(Content))[i];
    }

    // Assignment through Setting::operator=
    method Assign(p: Prim, v: Value) returns (ok: bool)
      requires Valid() && PrimTyped(p, v)
      modifies this
      ensures Valid() && Repr == old(Repr)
      ensures Saved(Content, ok) == PutPrim(p, v, old(Content))
    {
      ok := kind == PrimType(p);
      if ok {
        value := ToScalar(p, v);
        Content := Leaf(value);
      }
    }

    // The member called name, added, or replaced unless it has the type to keep.
    method Ready(name: string, create: Type, kept: Type) returns (ok: bool)
      requires Valid()
      modifies this
      ensures Valid() && fresh(Repr - old(Repr))
      ensures Saved(Content, ok) == Prepare(old(Content), name, create, kept)
    {
      ok := DropUnlessKept(name, kept);
      if !ok { ok := Add(name, create); }
    }

    method DropUnlessKept(name: string, kept: Type) returns (found: bool)
      requires Valid()
      modifies this
      ensures Valid() && Repr == old(Repr)
      ensures found <==> Exists(old(Content), name) && TypeOf(Lookup(old(Content), name).value) == kept
      ensures Content == if found || !Exists(old(Content), name) then old(Content)
                         else RemoveMember(old(Content), name).value
    {
      var k := Find(name);
      found := false;
      if k < |kids| {
        var ty := KindAt(k);
        if ty == kept { return true; }
        RemoveAt(k);
      }
    }

    method KindAt(k: nat) returns (ty: Type)
      requires Valid() && k < |kids|
      ensures ty == TypeOf(Children(Content)[k])
    {
      assert kids[k].Valid();
      ty := kids[k].kind;
    }

    // set(setting, t)
    method Save(s: Schema, v: Value) returns (ok: bool)
      requires Valid() && WellTyped(s, v)
      modifies Repr
      ensures Valid() && fresh(Repr - old(Repr))
      ensures Saved(Content, ok) == Put(s, v, old(Content))
      decreases s, 0, 0
    {
      match s {
        case Prim(p) => ok := Assign(p, v);
        case Variant(alts) => ok := Save(alts[v.k], v.alt);
        case ListOf(elem) => ok := SaveList(elem, v.elems);
        case SetOf(member) => ok := SaveSet(member, v.elems);
        case MapOf(keyName, key, _, value) => ok := SaveMap(keyName, key, value, v.entries);
        case GroupOf(sign, fields) =>
          ok := true;
          if sign.Some? {
            ok := SavePrimNamed(PString, sign.value.field, S(Text.Lower(sign.value.text)));
          }
          if ok { ok := SaveFields(fields, v.fields); }
      }
    }

    // set(parent, name, t)
    method SaveNamed(s: Schema, name: string, v: Value) returns (ok: bool)
      requires Valid() && WellTyped(s, v)
      modifies Repr
      ensures Valid() && fresh(Repr - old(Repr))
      ensures Saved(Content, ok) == PutNamed(s, name, v, old(Content))
      decreases s, 1, 0
    {
      ok := Ready(name, NodeType(s, v), KeptType(s, v));
      if ok {
        var k := Find(name);
        ok := SaveAt(k, s, v);
      }
    }

    method SaveAt(k: nat, s: Schema, v: Value) returns (ok: bool)
      requires Valid() && kind == TGroup && k < |kids| && WellTyped(s, v)
      modifies Repr
      ensures Valid() && fresh(Repr - old(Repr)) && kind == old(kind)
      ensures Content == Replace(old(Content), k, Put(s, v, old(Content).members[k].tree).tree)
      ensures ok == Put(s, v, old(Content).members[k].tree).ok
      decreases s, 0, 1
    {
      assert kids[k].Content == Children(Content)[k];
      var child := kids[k];
      assert child.Valid() && child.Content == Content.members[k].tree;
      ok := child.Save(s, v);
      Repr := Repr + child.Repr;
      Content := Replace(Content, k, child.Content);
      Adopted(k);
    }

    method AssignAt(k: nat, p: Prim, v: Value) returns (ok: bool)
      requires Valid() && kind == TGroup && k < |kids| && PrimTyped(p, v)
      modifies Repr
      ensures Valid() && Repr == old(Repr)
      ensures Content == Replace(old(Content), k, PutPrim(p, v, old(Content).members[k].tree).tree)
      ensures ok == PutPrim(p, v, old(Content).members[k].tree).ok
    {
      var child := kids[k];
      assert child.Valid() && child.Content == Content.members[k].tree;
      ok := child.Assign(p, v);
      Content := Replace(Content, k, child.Content);
      Adopted(k);
    }

    method SavePrimNamed(p: Prim, name: string, v: Value) returns (ok: bool)
      requires Valid() && PrimTyped(p, v)
      modifies Repr
      ensures Valid() && fresh(Repr - old(Repr))
      ensures Saved(Content, ok) == PutPrimNamed(p, name, v, old(Content))
    {
      ok := Ready(name, PrimType(p), PrimType(p));
      if ok {
        var k := Find(name);
        ok := AssignAt(k, p, v);
      }
    }

    method SaveFields(fields: seq<Field>, vals: seq<Option<Value>>) returns (ok: bool)
      requires Valid() && |vals| == |fields|
      requires forall i :: 0 <= i < |fields| && vals[i].Some? ==> WellTyped(fields[i].schema, vals[i].value)
      modifies Repr
      ensures Valid() && fresh(Repr - old(Repr))
      ensures Saved(Content, ok) == PutFields(fields, vals, old(Content))
      decreases fields, 2, 0
    {
      ok := true;
      if fields != [] {
        if vals[0].Some? { ok := SaveNamed(fields[0].schema, fields[0].name, vals[0].value); }
        if ok { ok := SaveFields(fields[1..], vals[1..]); }
      }
    }

    // append(list, t)
    method Append(s: Schema, v: Value) returns (ok: bool)
      requires Valid() && WellTyped(s, v)
      modifies Repr
      ensures Valid() && fresh(Repr - old(Repr))
      ensures Saved(Content, ok) == Codec.Append(s, v, old(Content))
      decreases s, 1, 0
    {
      ok := CanAppend(NodeType(s, v));
      if ok {
        var child := new Setting(NodeType(s, v));
        ok := child.Save(s, v);
        Push("", child);
      }
    }

    method CanAppend(ty: Type) returns (ok: bool)
      requires Valid()
      ensures ok == AcceptsElem(Content, ty)
    {
      if kind != TArray { return kind == TList; }
      if kids == [] { return IsScalarType(ty); }
      var first := KindAt(0);
      ok := ty == first;
    }

    method SaveList(elem: Schema, vs: seq<Value>) returns (ok: bool)
      requires Valid() && forall i :: 0 <= i < |vs| ==> WellTyped(elem, vs[i])
      modifies Repr
      ensures Valid() && fresh(Repr - old(Repr))
      ensures Saved(Content, ok) == AppendAll(elem, vs, Cleared(old(Content)))
      decreases elem, 2, 0
    {
      Clear();
      for i := 0 to |vs|
        invariant Valid() && fresh(Repr - old(Repr))
        invariant AppendAll(elem, vs[i..], Content) == AppendAll(elem, vs, Cleared(old(Content)))
      {
        assert vs[i..][1..] == vs[i + 1..];
        ok := Append(elem, vs[i]);
        if !ok { return; }
      }
      ok := true;
    }

    method SaveSet(member: Schema, vs: seq<Value>) returns (ok: bool)
      requires Valid() && forall i :: 0 <= i < |vs| ==> WellTyped(member, vs[i])
      modifies Repr
      ensures Valid() && fresh(Repr - old(Repr))
      ensures Saved(Content, ok) == AppendGroups(member, vs, Cleared(old(Content)))
      decreases member, 2, 0
    {
      Clear();
      for i := 0 to |vs|
        invariant Valid() && fresh(Repr - old(Repr))
        invariant AppendGroups(member, vs[i..], Content) == AppendGroups(member, vs, Cleared(old(Content)))
      {
        assert vs[i..][1..] == vs[i + 1..];
        ok := CanAppend(TGroup);
        if ok { ok := AppendGroup(member, vs[i]); }
        if !ok { return; }
      }
      ok := true;
    }

    method AppendGroup(member: Schema, v: Value) returns (ok: bool)
      requires Valid() && AcceptsElem(Content, TGroup) && WellTyped(member, v)
      modifies Repr
      ensures Valid() && fresh(Repr - old(Repr))
      ensures Content == AppendElem(old(Content), Put(member, v, New(TGroup)).tree)
      ensures ok == Put(member, v, New(TGroup)).ok
      decreases member, 1, 0
    {
      var child := new Setting(TGroup);
      ok := child.Save(member, v);
      Push("", child);
    }

    method AppendEntry(keyName: string, key: Prim, value: Schema, e: Entry) returns (ok: bool)
      requires Valid() && AcceptsElem(Content, TGroup) && PrimTyped(key, e.key) && WellTyped(value, e.value)
      modifies Repr
      ensures Valid() && fresh(Repr - old(Repr))
      ensures Content == AppendElem(old(Content), PutEntry(keyName, key, value, e).tree)
      ensures ok == PutEntry(keyName, key, value, e).ok
      decreases value, 1, 0
    {
      var child := new Setting(TGroup);
      ok := child.Save(value, e.value);
      if ok { ok := child.SavePrimNamed(key, keyName, e.key); }
      Push("", child);
    }

    method SaveMap(keyName: string, key: Prim, value: Schema, es: seq<Entry>) returns (ok: bool)
      requires Valid() && forall i :: 0 <= i < |es| ==> PrimTyped(key, es[i].key)
      requires forall i :: 0 <= i < |es| ==> WellTyped(value, es[i].value)
      modifies Repr
      ensures Valid() && fresh(Repr - old(Repr))
      ensures Saved(Content, ok) == AppendEntries(keyName, key, value, es, Cleared(old(Content)))
      decreases value, 2, 0
    {
      hide AppendEntries, AcceptsElem, PutEntry;
      Clear();
      assert es[0..] == es;
      for i := 0 to |es|
        invariant Valid() && fresh(Repr - old(Repr))
        invariant AppendEntries(keyName, key, value, es[i..], Content) ==
                  AppendEntries(keyName, key, value, es, Cleared(old(Content)))
      {
        NextEntry(keyName, key, value, es[i..], Content);
        assert es[i..][1..] == es[i + 1..];
        ok := CanAppend(TGroup);
        if !ok { return; }
        ok := AppendEntry(keyName, key, value, es[i]);
        if !ok { return; }
      }
      NoEntries(keyName, key, value, Content);
      ok := true;
    }

    // get(setting); None is a thrown SettingException.
    method Load(s: Schema) returns (r: Option<Value>)
      requires Valid()
      ensures r == Get(s, Content)
      decreases s, 0, 0
    {
      match s {
        case Prim(p) => r := LoadPrim(p);
        case Variant(alts) => r := LoadFirst(alts, 0);
        case ListOf(elem) =>
          var elems := LoadList(elem);
          r := Some(L(elems));
        case SetOf(member) =>
          var members := LoadSet(member);
          r := Some(L(members));
        case MapOf(keyName, key, order, value) =>
          var entries := LoadMap(keyName, key, order, value);
          r := Some(M(entries));
        case GroupOf(sign, fields) =>
          if sign.Some? {
            var text := LoadPrimNamed(PString, sign.value.field);
            if text.None? || Text.Lower(text.value.s) != Text.Lower(sign.value.text) { return None; }
          }
          var g := new GroupObject(|fields|);
          var ok := g.LoadMembers(this, fields, 0);
          assert ok ==> g.fields == GetFields(fields, Content).value;
          r := if ok then Some(G(g.fields)) else None;
      }
    }

    method LoadPrim(p: Prim) returns (r: Option<Value>)
      requires Valid()
      ensures r == GetPrim(p, Content)
    {
      if kind != PrimType(p) { return None; }
      match value {
        case Bool(b) => r := Some(B(b));
        case Float(x) => r := Some(F(x));
        case Str(text) => r := Some(S(text));
        case Int(i) => r := Some(I(FromInt(p, i)));
        case Int64(j) => r := Some(I(j));
      }
    }

    method LoadPrimNamed(p: Prim, name: string) returns (r: Option<Value>)
      requires Valid()
      ensures r == GetPrimNamed(p, name, Content)
    {
      var k := Find(name);
      if k == |kids| { return None; }
      assert kids[k].Valid() && kids[k].Content == Children(Content)[k];
      r := kids[k].LoadPrim(p);
    }

    // try_each
    method LoadFirst(alts: seq<Schema>, k: nat) returns (r: Option<Value>)
      requires Valid()
      ensures r == FirstMatch(alts, k, Content)
      decreases alts, 1, 0
    {
      if alts == [] { return None; }
      r := Load(alts[0]);
      if r.Some? { return Some(Alt(k, r.value)); }
      r := LoadFirst(alts[1..], k + 1);
    }

    method LoadList(elem: Schema) returns (t: seq<Value>)
      requires Valid()
      ensures t == GetAll(elem, Children(Content))
      decreases elem, 1, 0
    {
      ghost var ts := Children(Content);
      t := [];
      for i := 0 to |kids|
        invariant t == GetAll(elem, ts[..i])
      {
        assert ts[..i + 1][..i] == ts[..i];
        var got := LoadKid(i, elem);
        if got.Some? { t := t + [got.value]; }
      }
      assert ts[..|kids|] == ts;
    }

    method LoadSet(member: Schema) returns (t: seq<Value>)
      requires Valid()
      ensures t == GetSet(member, Children(Content))
      decreases member, 1, 0
    {
      ghost var ts := Children(Content);
      t := [];
      for i := 0 to |kids|
        invariant t == GetSet(member, ts[..i])
      {
        SetUpTo(member, ts, i);
        var got := LoadKid(i, member);
        if got.Some? { t := EmplaceValue(t, got.value); }
      }
      assert ts[..|kids|] == ts;
    }

    // get(setting[k])
    method LoadKid(k: nat, s: Schema) returns (r: Option<Value>)
      requires Valid() && k < |kids|
      ensures r == Get(s, Children(Content)[k])
      decreases s, 0, 1
    {
      assert kids[k].Valid() && kids[k].Content == Children(Content)[k];
      r := kids[k].Load(s);
    }

    method LoadEntry(k: nat, keyName: string, key: Prim, value: Schema) returns (r: Option<Entry>)
      requires Valid() && k < |kids|
      ensures r == GetEntry(keyName, key, value, Children(Content)[k])
      decreases value, 0, 2
    {
      assert kids[k].Valid() && kids[k].Content == Children(Content)[k];
      var name := kids[k].LoadPrimNamed(key, keyName);
      var v := kids[k].Load(value);
      r := if name.Some? && v.Some? then Some(Entry(name.value, v.value)) else None;
    }

    method LoadMap(keyName: string, key: Prim, order: KeyOrder, value: Schema) returns (t: seq<Entry>)
      requires Valid()
      ensures t == GetEntries(keyName, key, order, value, Children(Content))
      decreases value, 1, 0
    {
      ghost var ts := Children(Content);
      t := [];
      for i := 0 to |kids|
        invariant t == GetEntries(keyName, key, order, value, ts[..i])
      {
        EntriesUpTo(keyName, key, order, value, ts, i);
        var got := LoadEntry(i, keyName, key, value);
        if got.Some? { t := Emplace(order, t, got.value); }
      }
      assert ts[..|kids|] == ts;
    }

    // One member of a group, by name.
    method LoadField(f: Field) returns (r: Option<Option<Value>>)
      requires Valid()
      ensures r == GetField(f, Content)
      decreases f, 0, 0
    {
      var got: Option<Value> := None;
      var k := Find(f.name);
      if k < |kids| {
        assert kids[k].Valid() && kids[k].Content == Children(Content)[k];
        got := kids[k].Load(f.schema);
      }
      r := if f.optional || got.Some? then Some(got) else None;
    }
  }

  // The C++ object whose members group_io::get assigns one after another.
  class GroupObject {
    var fields: seq<Option<Value>>

    constructor (n: nat)
      ensures |fields| == n
    {
      fields := seq(n, _ => None);
    }

    // All members from index on are loaded, or, after an exception, every member has the
    // value it had before.
    method LoadMembers(s: Setting, fs: seq<Field>, index: nat) returns (ok: bool)
      requires s.Valid() && |fields| == index + |fs|
      modifies this
      ensures ok == GetFields(fs, s.Content).Some?
      ensures fields == if ok then old(fields)[..index] + GetFields(fs, s.Content).value else old(fields)
      decreases fs, 1, 0
    {
      if fs == [] { return true; }
      var was := fields[index];
      var got := s.LoadField(fs[0]);
      if got.None? { return false; }
      fields := fields[index := got.value];
      ok := LoadMembers(s, fs[1..], index + 1);
      if !ok { fields := fields[index := was]; }
    }
  }

  ghost function WithChild(t: Tree, name: string, child: Tree): Tree {
    match t
    case Leaf(_) => t
    case Group(ms) => Group(ms + [Member(name, child)])
    case Array(ts) => Array(ts + [child])
    case List(ts) => List(ts + [child])
  }

  ghost function Replace(t: Tree, k: nat, child: Tree): Tree
    requires k < |Children(t)|
  {
    match t
    case Leaf(_) => t
    case Group(ms) => Group(ms[k := Member(ms[k].name, child)])
    case Array(ts) => Array(ts[k := child])
    case List(ts) => List(ts[k := child])
  }

  ghost function Without(t: Tree, k: nat): Tree
    requires k < |Children(t)|
  {
    match t
    case Leaf(_) => t
    case Group(ms) => Group(ms[..k] + ms[k + 1..])
    case Array(ts) => Array(ts[..k] + ts[k + 1..])
    case List(ts) => List(ts[..k] + ts[k + 1..])
  }

  lemma NoEntries(keyName: string, key: Prim, value: Schema, list: Tree)
    ensures AppendEntries(keyName, key, value, [], list) == Saved(list, true)
  {
  }

  lemma NextEntry(keyName: string, key: Prim, value: Schema, es: seq<Entry>, list: Tree)
    requires es != [] && forall i :: 0 <= i < |es| ==> PrimTyped(key, es[i].key) && WellTyped(value, es[i].value)
    ensures AppendEntries(keyName, key, value, es, list) ==
      if !AcceptsElem(list, TGroup) then Saved(list, false)
      else
        var child := PutEntry(keyName, key, value, es[0]);
        var appended := AppendElem(list, child.tree);
        if child.ok then AppendEntries(keyName, key, value, es[1..], appended) else Saved(appended, false)
  {
  }

  lemma ChildrenWithout(t: Tree, k: nat)
    requires k < |Children(t)|
    ensures Children(Without(t, k)) == Children(t)[..k] + Children(t)[k + 1..]
  {
  }

  lemma SetUpTo(member: Schema, ts: seq<Tree>, i: nat)
    requires i < |ts|
    ensures var before, got := GetSet(member, ts[..i]), Get(member, ts[i]);
      GetSet(member, ts[..i + 1]) == if got.Some? then EmplaceValue(before, got.value) else before
  {
    assert ts[..i + 1][..i] == ts[..i];
  }

  lemma EntriesUpTo(keyName: string, key: Prim, order: KeyOrder, value: Schema, ts: seq<Tree>, i: nat)
    requires i < |ts|
    ensures var before, got := GetEntries(keyName, key, order, value, ts[..i]), GetEntry(keyName, key, value, ts[i]);
      GetEntries(keyName, key, order, value, ts[..i + 1]) ==
        if got.Some? then Emplace(order, before, got.value) else before
  {
    assert ts[..i + 1][..i] == ts[..i];
  }
}
