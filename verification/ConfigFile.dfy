// Configuration::save and the loading constructor: the whole Config written over the
// settings tree that the file was read into, and read back.
module ConfigFile {
  import opened Options
  import opened Settings
  import opened Schema
  import opened Codec
  import opened RoundTrip
  import opened LogidSchema
  import Text

  // ---- Everything that loads is a value of the type ----

  // libconfig stores int settings in a C int.
  ghost predicate IntsFit(t: Tree)
    decreases t
  {
    match t
    case Leaf(Int(i)) => INT_MIN <= i <= INT_MAX
    case Leaf(_) => true
    case Group(ms) => forall i :: 0 <= i < |ms| ==> IntsFit(ms[i].tree)
    case Array(ts) => forall i :: 0 <= i < |ts| ==> IntsFit(ts[i])
    case List(ts) => forall i :: 0 <= i < |ts| ==> IntsFit(ts[i])
  }

  lemma KeyLessTransitive(order: KeyOrder, a: Value, b: Value, c: Value)
    requires KeyLess(order, a, b) && KeyLess(order, b, c)
    ensures KeyLess(order, a, c)
  {
    match order {
      case Numeric =>
      case Lexical => Text.LexTransitive(a.s, b.s, c.s, false);
      case Caseless => Text.LexTransitive(Text.Lower(a.s), Text.Lower(b.s), Text.Lower(c.s), CHAR_IS_SIGNED);
    }
  }

  ghost predicate EntriesAscend(order: KeyOrder, es: seq<Entry>) {
    forall i, j :: 0 <= i < j < |es| ==> KeyLess(order, es[i].key, es[j].key)
  }

  lemma {:induction false} EmplaceKeepsOrder(order: KeyOrder, es: seq<Entry>, e: Entry)
    requires EntriesAscend(order, es)
    ensures EntriesAscend(order, Emplace(order, es, e))
    ensures forall x :: x in Emplace(order, es, e) ==> x in es || x == e
  {
    if es != [] {
      if KeyLess(order, es[0].key, e.key) {
        EmplaceKeepsOrder(order, es[1..], e);
        var rest := Emplace(order, es[1..], e);
        forall j | 0 <= j < |rest| ensures KeyLess(order, es[0].key, rest[j].key) {
          assert rest[j] in es[1..] || rest[j] == e;
        }
      } else if KeyLess(order, e.key, es[0].key) {
        forall j | 0 < j < |es| ensures KeyLess(order, e.key, es[j].key) {
          KeyLessTransitive(order, e.key, es[0].key, es[j].key);
        }
      }
    }
  }

  lemma {:induction false} EmplaceValueKeepsOrder(vs: seq<Value>, v: Value)
    requires Ascending(Numeric, vs)
    ensures Ascending(Numeric, EmplaceValue(vs, v))
    ensures forall x :: x in EmplaceValue(vs, v) ==> x in vs || x == v
  {
    if vs != [] {
      if KeyLess(Numeric, vs[0], v) {
        EmplaceValueKeepsOrder(vs[1..], v);
        var rest := EmplaceValue(vs[1..], v);
        forall j | 0 <= j < |rest| ensures KeyLess(Numeric, vs[0], rest[j]) {
          assert rest[j] in vs[1..] || rest[j] == v;
        }
      } else if KeyLess(Numeric, v, vs[0]) {
        forall j | 0 < j < |vs| ensures KeyLess(Numeric, v, vs[j]) {
          KeyLessTransitive(Numeric, v, vs[0], vs[j]);
        }
      }
    }
  }

  lemma PrimLoadsTyped(p: Prim, t: Tree)
    requires IntsFit(t) && GetPrim(p, t).Some?
    ensures PrimTyped(p, GetPrim(p, t).value)
  {
  }

  lemma LookupFits(t: Tree, name: string)
    requires IntsFit(t) && Exists(t, name)
    ensures IntsFit(Lookup(t, name).value)
  {
  }

  lemma ChildrenFit(t: Tree)
    requires IntsFit(t)
    ensures forall i :: 0 <= i < |Children(t)| ==> IntsFit(Children(t)[i])
  {
  }

  // Any tree: what loads is well typed, so every loaded map and set is strictly ordered.
  lemma {:induction false} LoadsTyped(s: Schema, t: Tree)
    requires IntsFit(t) && Get(s, t).Some?
    ensures WellTyped(s, Get(s, t).value)
    decreases s, 0, 0
  {
    match s {
      case Prim(p) => PrimLoadsTyped(p, t);
      case Variant(alts) => FirstMatchTyped(alts, 0, t);
      case ListOf(elem) => ChildrenFit(t); AllTyped(elem, Children(t));
      case SetOf(member) => ChildrenFit(t); SetTyped(member, Children(t));
      case MapOf(keyName, key, order, value) =>
        ChildrenFit(t);
        EntriesTyped(keyName, key, order, value, Children(t));
      case GroupOf(_, fields) => FieldsLoadTyped(fields, t);
    }
  }

  lemma {:induction false} FirstMatchTyped(alts: seq<Schema>, at: nat, t: Tree)
    requires IntsFit(t) && FirstMatch(alts, at, t).Some?
    ensures var v := FirstMatch(alts, at, t).value;
      v.Alt? && at <= v.k < at + |alts| && WellTyped(alts[v.k - at], v.alt)
    decreases alts, 1, 0
  {
    if Get(alts[0], t).Some? { LoadsTyped(alts[0], t); } else { FirstMatchTyped(alts[1..], at + 1, t); }
  }

  lemma {:induction false} AllTyped(elem: Schema, ts: seq<Tree>)
    requires forall i :: 0 <= i < |ts| ==> IntsFit(ts[i])
    ensures forall x :: x in GetAll(elem, ts) ==> WellTyped(elem, x)
    decreases elem, 1, |ts|
  {
    if ts != [] {
      var n := |ts| - 1;
      AllTyped(elem, ts[..n]);
      if Get(elem, ts[n]).Some? { LoadsTyped(elem, ts[n]); }
    }
  }

  lemma {:induction false} SetTyped(member: Schema, ts: seq<Tree>)
    requires forall i :: 0 <= i < |ts| ==> IntsFit(ts[i])
    ensures Ascending(Numeric, GetSet(member, ts))
    ensures forall x :: x in GetSet(member, ts) ==> WellTyped(member, x)
    decreases member, 1, |ts|
  {
    if ts != [] {
      var n := |ts| - 1;
      SetTyped(member, ts[..n]);
      var got := Get(member, ts[n]);
      if got.Some? {
        LoadsTyped(member, ts[n]);
        EmplaceValueKeepsOrder(GetSet(member, ts[..n]), got.value);
      }
    }
  }

  lemma {:induction false} EntriesTyped(keyName: string, key: Prim, order: KeyOrder, value: Schema, ts: seq<Tree>)
    requires forall i :: 0 <= i < |ts| ==> IntsFit(ts[i])
    ensures var es := GetEntries(keyName, key, order, value, ts);
      EntriesAscend(order, es) && forall e :: e in es ==> PrimTyped(key, e.key) && WellTyped(value, e.value)
    decreases value, 2, |ts|
  {
    if ts != [] {
      var n := |ts| - 1;
      EntriesTyped(keyName, key, order, value, ts[..n]);
      var got := GetEntry(keyName, key, value, ts[n]);
      if got.Some? {
        LookupFits(ts[n], keyName);
        PrimLoadsTyped(key, Lookup(ts[n], keyName).value);
        LoadsTyped(value, ts[n]);
        EmplaceKeepsOrder(order, GetEntries(keyName, key, order, value, ts[..n]), got.value);
      }
    }
  }

  lemma {:induction false} FieldsLoadTyped(fields: seq<Field>, t: Tree)
    requires IntsFit(t) && GetFields(fields, t).Some?
    ensures var vs := GetFields(fields, t).value;
      forall i :: 0 <= i < |fields| ==>
        if vs[i].None? then fields[i].optional else WellTyped(fields[i].schema, vs[i].value)
    decreases fields, 1, 0
  {
    if fields != [] {
      if Exists(t, fields[0].name) {
        LookupFits(t, fields[0].name);
        if Get(fields[0].schema, Lookup(t, fields[0].name).value).Some? {
          LoadsTyped(fields[0].schema, Lookup(t, fields[0].name).value);
        }
      }
      FieldsLoadTyped(fields[1..], t);
    }
  }

  // ---- A map saved by name, over anything ----

  // The only earlier member that a map cannot be saved over is an array, and then only
  // when the map has entries. Otherwise the old member, whatever was nested in it, is gone.
  lemma MapSavedByName(s: Schema, name: string, v: Value, parent: Tree)
    requires s.MapOf? && Sound(s, {}) && WellTyped(s, v) && UniqueNames(parent)
    ensures var r := PutNamed(s, name, v, parent);
      var overArray := Exists(parent, name) && TypeOf(Lookup(parent, name).value) == TArray;
      (r.ok <==> !overArray || v == M([])) && Exists(r.tree, name) &&
      (r.ok ==> Get(s, Lookup(r.tree, name).value) == Some(v)) &&
      (!overArray ==> Lookup(r.tree, name) == Some(Put(s, v, New(TList)).tree)) &&
      forall n :: n != name ==> Lookup(r.tree, n) == Lookup(parent, n)
  {
    PutNamedEffect(s, name, v, parent);
    MapOver(s, v, Lookup(parent, name));
  }

  lemma MapOver(s: Schema, v: Value, old_: Option<Tree>)
    requires s.MapOf? && Sound(s, {}) && WellTyped(s, v)
    ensures var r := Over(s, v, old_);
      var overArray := old_.Some? && TypeOf(old_.value) == TArray;
      (r.ok <==> !overArray || v == M([])) &&
      (r.ok ==> Get(s, r.tree) == Some(v)) &&
      (!overArray ==> r == Put(s, v, New(TList)))
  {
    LoadInvertsSave(s, v);
    if old_.Some? && TypeOf(old_.value) == TArray {
      assert Over(s, v, old_) == AppendEntries(s.keyName, s.key, s.value, v.entries, Array([]));
      assert !AcceptsElem(Array([]), TGroup);
      if v == M([]) { assert Get(s, Array([])) == Some(M(GetEntries(s.keyName, s.key, s.order, s.value, []))); }
    }
  }

  // ---- The whole configuration ----

  ghost predicate ComesBack(f: Field, val: Option<Value>, old_: Option<Tree>)
    requires val.Some? ==> WellTyped(f.schema, val.value)
  {
    if val.Some? then
      var left := Over(f.schema, val.value, old_);
      left.ok && Get(f.schema, left.tree) == val
    else old_.None? || Get(f.schema, old_.value).None?
  }

  ghost predicate AllOptional(s: Schema) {
    s.GroupOf? && s.sign.None? &&
    (forall i :: 0 <= i < |s.fields| ==> s.fields[i].optional) &&
    forall i, j :: 0 <= i < j < |s.fields| ==> s.fields[i].name != s.fields[j].name
  }

  // A group of optionals saved over any group comes back exactly when each of its fields
  // does by itself.
  lemma OptionalGroupComesBack(s: Schema, v: Value, t: Tree)
    requires AllOptional(s) && WellTyped(s, v) && UniqueNames(t)
    ensures (Put(s, v, t).ok && Get(s, Put(s, v, t).tree) == Some(v)) <==>
            forall i :: 0 <= i < |s.fields| ==> ComesBack(s.fields[i], v.fields[i], Lookup(t, s.fields[i].name))
  {
    PutFieldsEffect(s.fields, v.fields, t);
    var r := PutFields(s.fields, v.fields, t);
    if r.ok {
      forall i | 0 <= i < |s.fields|
        ensures GetField(s.fields[i], r.tree) == Some(v.fields[i]) <==>
                ComesBack(s.fields[i], v.fields[i], Lookup(t, s.fields[i].name))
      {
      }
      FieldsEach(s.fields, v.fields, r.tree);
    }
  }

  lemma {:induction false} FieldsEach(fields: seq<Field>, vals: seq<Option<Value>>, t: Tree)
    requires |vals| == |fields|
    ensures GetFields(fields, t) == Some(vals) <==>
            forall i :: 0 <= i < |fields| ==> GetField(fields[i], t) == Some(vals[i])
  {
    if fields != [] {
      FieldsEach(fields[1..], vals[1..], t);
      assert vals == [vals[0]] + vals[1..];
      assert forall i :: 1 <= i < |fields| ==> fields[i] == fields[1..][i - 1] && vals[i] == vals[1..][i - 1];
      if GetFields(fields, t) == Some(vals) {
        assert GetFields(fields[1..], t).value == vals[1..];
      }
    }
  }

  predicate HoldsType(t: Tree, name: string, ty: Type) {
    Exists(t, name) && TypeOf(Lookup(t, name).value) == ty
  }

  // Checked before saving: the devices entry of the file is not an array, the ignore set
  // is empty, and no unset option still has a readable entry in the file.
  predicate SaveIsFaithful(cfg: Value, root: Tree)
    requires cfg.G? && |cfg.fields| == 4
  {
    forall i :: 0 <= i < 4 ==> FieldIsFaithful(i, cfg.fields[i], root)
  }

  predicate FieldIsFaithful(i: nat, val: Option<Value>, root: Tree) {
    match i
    case 0 => if val.Some? then val.value == M([]) || !HoldsType(root, "devices", TArray)
              else !Exists(root, "devices")
    case 1 => if val.Some? then val.value == L([]) else !Exists(root, "ignore")
    case 2 => val.None? ==> !HoldsType(root, "io_timeout", TFloat)
    case _ => val.None? ==> !HoldsType(root, "workers", TInt)
  }

  lemma IgnoreComesBack(f: Field, val: Option<Value>, old_: Option<Tree>)
    requires f.schema == SetOf(Prim(PUInt16)) && (val.Some? ==> WellTyped(f.schema, val.value))
    ensures ComesBack(f, val, old_) <==> if val.Some? then val.value == L([]) else old_.None?
  {
    if val.Some? && val.value != L([]) {
      assert !Put(Prim(PUInt16), val.value.elems[0], New(TGroup)).ok;
    }
  }

  lemma MapComesBack(f: Field, val: Option<Value>, old_: Option<Tree>)
    requires f.schema.MapOf? && Sound(f.schema, {}) && (val.Some? ==> WellTyped(f.schema, val.value))
    ensures ComesBack(f, val, old_) <==>
      if val.Some? then val.value == M([]) || old_.None? || TypeOf(old_.value) != TArray else old_.None?
  {
    if val.Some? { MapOver(f.schema, val.value, old_); }
  }

  lemma NumberComesBack(f: Field, p: Prim, val: Option<Value>, old_: Option<Tree>)
    requires f.schema == Prim(p) && (val.Some? ==> WellTyped(f.schema, val.value))
    ensures ComesBack(f, val, old_) <==> val.Some? || old_.None? || TypeOf(old_.value) != PrimType(p)
  {
    if val.Some? { GetPrimHolds(p, val.value); }
  }

  lemma FieldTyped(s: Schema, v: Value, i: nat)
    requires s.GroupOf? && WellTyped(s, v) && i < |s.fields|
    ensures i < |v.fields| && (v.fields[i].Some? ==> WellTyped(s.fields[i].schema, v.fields[i].value))
  {
  }

  lemma ConfigIsOptional()
    ensures AllOptional(Config()) && |Config().fields| == 4
    ensures Config().fields[0] == Opt("devices", Devices()) && Config().fields[1] == Opt("ignore", SetOf(Prim(PUInt16)))
    ensures Config().fields[2] == Opt("io_timeout", Prim(PFloat)) && Config().fields[3] == Opt("workers", Prim(PInt))
  {
    assert "devices"[0] != "workers"[0];
  }

  // The configuration that is saved over the tree of an existing file is the one that
  // loads afterwards, exactly under SaveIsFaithful.
  lemma SaveThenLoad(cfg: Value, root: Tree)
    requires WellTyped(Config(), cfg) && UniqueNames(root)
    ensures cfg.G? && |cfg.fields| == 4
    ensures (Put(Config(), cfg, root).ok && Get(Config(), Put(Config(), cfg, root).tree) == Some(cfg))
            <==> SaveIsFaithful(cfg, root)
  {
    ConfigIsOptional();
    DevicesSound();
    SaveThenLoadFields(Config(), cfg, root);
  }

  ghost predicate LikeConfig(s: Schema) {
    AllOptional(s) && |s.fields| == 4 &&
    s.fields[0].name == "devices" && s.fields[0].schema.MapOf? && Sound(s.fields[0].schema, {}) &&
    s.fields[1] == Opt("ignore", SetOf(Prim(PUInt16))) &&
    s.fields[2] == Opt("io_timeout", Prim(PFloat)) && s.fields[3] == Opt("workers", Prim(PInt))
  }

  lemma FieldComesBack(s: Schema, i: nat, val: Option<Value>, root: Tree)
    requires LikeConfig(s) && i < 4 && (val.Some? ==> WellTyped(s.fields[i].schema, val.value))
    ensures ComesBack(s.fields[i], val, Lookup(root, s.fields[i].name)) <==> FieldIsFaithful(i, val, root)
  {
    var old_ := Lookup(root, s.fields[i].name);
    match i {
      case 0 => MapComesBack(s.fields[0], val, old_);
      case 1 => IgnoreComesBack(s.fields[1], val, old_);
      case 2 => NumberComesBack(s.fields[2], PFloat, val, old_);
      case _ => NumberComesBack(s.fields[3], PInt, val, old_);
    }
  }

  lemma SaveThenLoadFields(s: Schema, cfg: Value, root: Tree)
    requires LikeConfig(s) && WellTyped(s, cfg) && UniqueNames(root)
    ensures cfg.G? && |cfg.fields| == 4
    ensures (Put(s, cfg, root).ok && Get(s, Put(s, cfg, root).tree) == Some(cfg)) <==> SaveIsFaithful(cfg, root)
  {
    OptionalGroupComesBack(s, cfg, root);
    forall i | 0 <= i < 4
      ensures ComesBack(s.fields[i], cfg.fields[i], Lookup(root, s.fields[i].name)) <==>
              FieldIsFaithful(i, cfg.fields[i], root)
    {
      FieldTyped(s, cfg, i);
      FieldComesBack(s, i, cfg.fields[i], root);
    }
  }

  lemma UnsavableField(s: Schema, cfg: Value, root: Tree, i: nat)
    requires LikeConfig(s) && WellTyped(s, cfg) && UniqueNames(root) && i < 4 && cfg.fields[i].Some?
    requires !Over(s.fields[i].schema, cfg.fields[i].value, Lookup(root, s.fields[i].name)).ok
    ensures !Put(s, cfg, root).ok
  {
    PutFieldsEffect(s.fields, cfg.fields, root);
  }

  // Three ways to lose a configuration: an ignored device, a "workers" entry left in the
  // file by an unset option, and a file whose "devices" is an array.
  lemma IgnoreIsLost(s: Schema)
    requires LikeConfig(s)
    ensures var cfg := G([None, Some(L([I(0xc077)])), None, None]);
      WellTyped(s, cfg) && !Put(s, cfg, New(TGroup)).ok
  {
    var cfg := G([None, Some(L([I(0xc077)])), None, None]);
    assert !Put(Prim(PUInt16), I(0xc077), New(TGroup)).ok;
    UnsavableField(s, cfg, New(TGroup), 1);
  }

  lemma UnsetOptionComesBack(s: Schema)
    requires LikeConfig(s)
    ensures var cfg := G([None, None, None, None]);
      var root := Group([Member("workers", Leaf(Int(4)))]);
      WellTyped(s, cfg) && UniqueNames(root) && Put(s, cfg, root).ok && Get(s, Put(s, cfg, root).tree) != Some(cfg)
  {
    var cfg := G([None, None, None, None]);
    var root := Group([Member("workers", Leaf(Int(4)))]);
    OnlyWorkers(root);
    SavedWhenUnset(s, cfg, root);
    hide Get, Put;
    SaveThenLoadFields(s, cfg, root);
    assert !FieldIsFaithful(3, cfg.fields[3], root);
  }

  lemma OnlyWorkers(root: Tree)
    requires root == Group([Member("workers", Leaf(Int(4)))])
    ensures UniqueNames(root) && HoldsType(root, "workers", TInt)
  {
  }

  lemma SavedWhenUnset(s: Schema, cfg: Value, root: Tree)
    requires LikeConfig(s) && cfg == G([None, None, None, None]) && UniqueNames(root) && root.Group?
    ensures WellTyped(s, cfg) && Put(s, cfg, root).ok
  {
    PutFieldsEffect(s.fields, cfg.fields, root);
  }

  lemma ArrayBlocksDevices(s: Schema, devices: Value)
    requires LikeConfig(s) && WellTyped(s.fields[0].schema, devices) && devices != M([])
    ensures var cfg := G([Some(devices), None, None, None]);
      var root := Group([Member("devices", Array([]))]);
      WellTyped(s, cfg) && UniqueNames(root) && !Put(s, cfg, root).ok
  {
    var cfg := G([Some(devices), None, None, None]);
    var root := Group([Member("devices", Array([]))]);
    MapOver(s.fields[0].schema, devices, Lookup(root, "devices"));
    UnsavableField(s, cfg, root, 0);
  }

  // The configuration's own type is one of those that the lemmas above are about.
  lemma ConfigIsLike()
    ensures LikeConfig(Config())
  {
    ConfigIsOptional();
    DevicesSound();
  }

  // The Config that a file is read into: a missing devices map becomes an empty one.
  function WithDevices(cfg: Value): Value
    requires cfg.G? && |cfg.fields| == 4
  {
    if cfg.fields[0].None? then G(cfg.fields[0 := Some(M([]))]) else cfg
  }

  // An array holds scalars only.
  predicate ArrayOfScalars(t: Tree) {
    t.Array? ==> forall i :: 0 <= i < |t.items| ==> t.items[i].Leaf?
  }

  lemma {:induction false} NoEntriesInScalars(keyName: string, key: Prim, order: KeyOrder, value: Schema, ts: seq<Tree>)
    requires forall i :: 0 <= i < |ts| ==> ts[i].Leaf?
    ensures GetEntries(keyName, key, order, value, ts) == []
  {
    if ts != [] { NoEntriesInScalars(keyName, key, order, value, ts[..|ts| - 1]); }
  }

  // Any file comes back from being loaded, saved in place and loaded again, exactly when
  // it ignores no devices.
  lemma LoadSaveLoad(file: Tree)
    requires IntsFit(file) && UniqueNames(file)
    requires Exists(file, "devices") ==> ArrayOfScalars(Lookup(file, "devices").value)
    ensures Get(Config(), file).Some?
    ensures var got := Get(Config(), file).value;
      WellTyped(Config(), got) && got.G? && |got.fields| == 4 && WellTyped(Config(), WithDevices(got))
    ensures var cfg := WithDevices(Get(Config(), file).value);
      (Put(Config(), cfg, file).ok && Get(Config(), Put(Config(), cfg, file).tree) == Some(cfg))
      <==> cfg.fields[1].None? || cfg.fields[1].value == L([])
  {
    ConfigIsLike();
    OptionalsAlwaysLoad(Config(), file);
    LoadsTyped(Config(), file);
    LoadSaveLoadFields(Config(), Get(Config(), file).value, file);
  }

  lemma LoadSaveLoadFields(s: Schema, got: Value, file: Tree)
    requires LikeConfig(s) && WellTyped(s, got) && UniqueNames(file) && Get(s, file) == Some(got)
    requires Exists(file, "devices") ==> ArrayOfScalars(Lookup(file, "devices").value)
    ensures got.G? && |got.fields| == 4 && WellTyped(s, WithDevices(got))
    ensures var cfg := WithDevices(got);
      (Put(s, cfg, file).ok && Get(s, Put(s, cfg, file).tree) == Some(cfg))
      <==> cfg.fields[1].None? || cfg.fields[1].value == L([])
  {
    hide Get, Put, WellTyped, SaveIsFaithful, LikeConfig, UniqueNames;
    DevicesTyped(s, got);
    LoadedIsFaithful(s, got, file);
    SaveThenLoadFields(s, WithDevices(got), file);
  }

  lemma LoadedIsFaithful(s: Schema, got: Value, file: Tree)
    requires LikeConfig(s) && got.G? && |got.fields| == 4 && Get(s, file) == Some(got)
    requires Exists(file, "devices") ==> ArrayOfScalars(Lookup(file, "devices").value)
    ensures var cfg := WithDevices(got);
      SaveIsFaithful(cfg, file) <==> cfg.fields[1].None? || cfg.fields[1].value == L([])
  {
    hide FieldIsFaithful, WithDevices, ArrayOfScalars;
    FieldsEach(s.fields, got.fields, file);
    LoadedFields(s, got, file);
  }

  lemma DevicesTyped(s: Schema, got: Value)
    requires LikeConfig(s) && WellTyped(s, got)
    ensures got.G? && |got.fields| == 4 && WellTyped(s, WithDevices(got))
  {
  }

  // What each option's value says about the file it was loaded from.
  lemma LoadedFields(s: Schema, got: Value, file: Tree)
    requires LikeConfig(s) && got.G? && |got.fields| == 4
    requires forall i :: 0 <= i < 4 ==> GetField(s.fields[i], file) == Some(got.fields[i])
    requires Exists(file, "devices") ==> ArrayOfScalars(Lookup(file, "devices").value)
    ensures var cfg := WithDevices(got);
      FieldIsFaithful(0, cfg.fields[0], file) && FieldIsFaithful(2, cfg.fields[2], file) &&
      FieldIsFaithful(3, cfg.fields[3], file) &&
      (FieldIsFaithful(1, cfg.fields[1], file) <==> cfg.fields[1].None? || cfg.fields[1].value == L([]))
  {
    assert forall i :: 0 <= i < 4 ==> s.fields[i].optional;
    if HoldsType(file, "devices", TArray) {
      var d := s.fields[0].schema;
      NoEntriesInScalars(d.keyName, d.key, d.order, d.value, Lookup(file, "devices").value.items);
      assert GetField(s.fields[0], file) == Some(Some(M([])));
    }
    assert GetField(s.fields[1], file) == Some(got.fields[1]);
    assert GetField(s.fields[2], file) == Some(got.fields[2]);
    assert GetField(s.fields[3], file) == Some(got.fields[3]);
  }

  lemma OptionalsAlwaysLoad(s: Schema, t: Tree)
    requires AllOptional(s)
    ensures Get(s, t).Some?
  {
    FieldsAlwaysLoad(s.fields, t);
  }

  lemma {:induction false} FieldsAlwaysLoad(fields: seq<Field>, t: Tree)
    requires forall i :: 0 <= i < |fields| ==> fields[i].optional
    ensures GetFields(fields, t).Some?
  {
    if fields != [] { FieldsAlwaysLoad(fields[1..], t); }
  }
}
