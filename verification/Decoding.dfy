// What loading makes of any settings tree, type by type, without reference to saving.
module Decoding {
  import opened Options
  import opened Sequences
  import opened Settings
  import opened Schema
  import opened Codec
  import opened ConfigFile
  import Text

  // ---- Scalars, variants and groups ----

  // A scalar loads from a setting of its own libconfig type, as the number or text in it;
  // unsigned types take an int modulo their size.
  lemma PrimLoadsIff(p: Prim, t: Tree, v: Value)
    ensures Get(Prim(p), t) == Some(v) <==>
      match p
      case PBool => v.B? && t == Leaf(Bool(v.b))
      case PInt => v.I? && t == Leaf(Int(v.i))
      case PUInt => v.I? && t.Leaf? && t.value.Int? && 0 <= v.i < 0x1_0000_0000 &&
                    (t.value.i - v.i) % 0x1_0000_0000 == 0
      case PUInt16 => v.I? && t.Leaf? && t.value.Int? && 0 <= v.i < 0x1_0000 && (t.value.i - v.i) % 0x1_0000 == 0
      case PFloat => v.F? && t == Leaf(Float(v.r))
      case PString => v.S? && t == Leaf(Str(v.s))
  {
  }

  // A variant loads as its first alternative that does.
  lemma VariantLoadsIff(alts: seq<Schema>, t: Tree, v: Value)
    ensures Get(Variant(alts), t) == Some(v) <==>
      v.Alt? && v.k < |alts| && Get(alts[v.k], t) == Some(v.alt) && forall j :: 0 <= j < v.k ==> Get(alts[j], t).None?
  {
    FirstMatchIff(alts, 0, t, v);
  }

  lemma {:induction false} FirstMatchIff(alts: seq<Schema>, at: nat, t: Tree, v: Value)
    ensures FirstMatch(alts, at, t) == Some(v) <==>
      v.Alt? && at <= v.k < at + |alts| && Get(alts[v.k - at], t) == Some(v.alt) &&
      forall j :: 0 <= j < v.k - at ==> Get(alts[j], t).None?
  {
    if alts != [] { FirstMatchIff(alts[1..], at + 1, t, v); }
  }

  // A mandatory member is there and loads; an optional one is unset when it is missing or
  // does not load.
  ghost predicate FieldLoads(f: Field, val: Option<Value>, t: Tree) {
    var found := Lookup(t, f.name);
    if val.Some? then found.Some? && Get(f.schema, found.value) == val
    else f.optional && (found.None? || Get(f.schema, found.value).None?)
  }

  // A group loads exactly when its signature, if it has one, is there up to case and each
  // of its members loads.
  lemma GroupLoadsIff(s: Schema, t: Tree, vals: seq<Option<Value>>)
    requires s.GroupOf?
    ensures Get(s, t) == Some(G(vals)) <==>
      |vals| == |s.fields| &&
      (s.sign.Some? ==>
        exists text: string :: Lookup(t, s.sign.value.field) == Some(Leaf(Str(text))) &&
          Text.Lower(text) == Text.Lower(s.sign.value.text)) &&
      forall i :: 0 <= i < |vals| ==> FieldLoads(s.fields[i], vals[i], t)
  {
    if |vals| == |s.fields| {
      FieldsEach(s.fields, vals, t);
      forall i | 0 <= i < |vals|
        ensures GetField(s.fields[i], t) == Some(vals[i]) <==> FieldLoads(s.fields[i], vals[i], t)
      {
        FieldLoadsIff(s.fields[i], vals[i], t);
      }
    }
    if s.sign.Some? { SignatureIs(s.sign.value, t); }
    hide GetField, FieldLoads, SignatureMatches;
  }

  lemma FieldLoadsIff(f: Field, val: Option<Value>, t: Tree)
    ensures GetField(f, t) == Some(val) <==> FieldLoads(f, val, t)
  {
    hide Get;
  }

  lemma SignatureIs(sign: Signature, t: Tree)
    ensures SignatureMatches(sign, t) <==>
      exists text: string :: Lookup(t, sign.field) == Some(Leaf(Str(text))) &&
        Text.Lower(text) == Text.Lower(sign.text)
  {
    hide Text.Lower;
    if SignatureMatches(sign, t) {
      assert Lookup(t, sign.field) == Some(Leaf(Str(GetPrimNamed(PString, sign.field, t).value.s)));
    }
  }

  // ---- Lists and sets ----

  // A list loads the elements that do, in their order, and leaves the others out.
  lemma ListLoads(elem: Schema, ts: seq<Tree>, more: seq<Tree>)
    ensures |more| == 1 ==>
      GetAll(elem, more) == if Get(elem, more[0]).Some? then [Get(elem, more[0]).value] else []
    ensures GetAll(elem, ts + more) == GetAll(elem, ts) + GetAll(elem, more)
    ensures Get(ListOf(elem), List(ts)) == Some(L(GetAll(elem, ts)))
  {
    MoreLoads(elem, ts, more);
    if |more| == 1 { LastLoads(elem, more); }
    ListIsAll(elem, ts);
    hide GetAll, Get;
  }

  lemma ListIsAll(elem: Schema, ts: seq<Tree>)
    ensures Get(ListOf(elem), List(ts)) == Some(L(GetAll(elem, ts)))
  {
  }

  lemma {:induction false} MoreLoads(elem: Schema, ts: seq<Tree>, more: seq<Tree>)
    ensures GetAll(elem, ts + more) == GetAll(elem, ts) + GetAll(elem, more)
    decreases |more|
  {
    hide GetAll, Get;
    if more == [] {
      NothingLoads(elem);
      assert ts + more == ts;
    } else {
      var before, last := more[..|more| - 1], Get(elem, more[|more| - 1]);
      MoreLoads(elem, ts, before);
      LastLoads(elem, more);
      AllButLast(ts, more);
      LastLoads(elem, ts + more);
      Associate(GetAll(elem, ts), GetAll(elem, before), if last.Some? then [last.value] else []);
    }
  }

  lemma NothingLoads(elem: Schema)
    ensures GetAll(elem, []) == []
  {
  }

  lemma LastLoads(elem: Schema, ts: seq<Tree>)
    requires ts != []
    ensures var last := Get(elem, ts[|ts| - 1]);
      GetAll(elem, ts) == GetAll(elem, ts[..|ts| - 1]) + if last.Some? then [last.value] else []
    ensures |ts| == 1 ==> GetAll(elem, ts[..|ts| - 1]) == []
  {
  }

  ghost predicate IsNumber(p: Prim) {
    p == PInt || p == PUInt || p == PUInt16
  }

  // A set of numbers loads, in ascending order, exactly those that some element loads as.
  lemma SetLoads(p: Prim, ts: seq<Tree>, v: Value)
    requires IsNumber(p)
    ensures var got := Get(SetOf(Prim(p)), List(ts));
      got.Some? && got.value.L? && Ascending(Numeric, got.value.elems) &&
      (v in got.value.elems <==> exists t :: t in ts && Get(Prim(p), t) == Some(v))
  {
    SetIs(p, ts);
  }

  lemma {:induction false} SetIs(p: Prim, ts: seq<Tree>)
    requires IsNumber(p)
    ensures Ascending(Numeric, GetSet(Prim(p), ts))
    ensures forall v :: v in GetSet(Prim(p), ts) <==> exists t :: t in ts && Get(Prim(p), t) == Some(v)
    ensures forall v :: v in GetSet(Prim(p), ts) ==> v.I?
  {
    if ts != [] {
      var n := |ts| - 1;
      SetIs(p, ts[..n]);
      var got, before := Get(Prim(p), ts[n]), GetSet(Prim(p), ts[..n]);
      assert forall t :: t in ts <==> t in ts[..n] || t == ts[n];
      if got.Some? {
        EmplaceValueKeepsOrder(before, got.value);
        NumberEmplaced(before, got.value);
      }
      hide Get, EmplaceValue, Ascending;
    }
  }

  lemma {:induction false} NumberEmplaced(vs: seq<Value>, v: Value)
    requires v.I? && forall x :: x in vs ==> x.I?
    requires Ascending(Numeric, vs)
    ensures forall x :: x in EmplaceValue(vs, v) <==> x in vs || x == v
  {
    if vs != [] {
      assert vs[0] in vs && forall x :: x in vs <==> x == vs[0] || x in vs[1..];
      if KeyLess(Numeric, vs[0], v) { NumberEmplaced(vs[1..], v); }
    }
  }

  // ---- Maps ----

  // Neither key comes before the other.
  predicate Equivalent(order: KeyOrder, a: Value, b: Value) {
    !KeyLess(order, a, b) && !KeyLess(order, b, a)
  }

  ghost predicate HasKey(order: KeyOrder, es: seq<Entry>, key: Value) {
    exists x :: x in es && Equivalent(order, x.key, key)
  }

  // An entry gets into a map exactly when no equivalent key is there; those that are there
  // stay.
  lemma {:induction false} EmplacedIs(order: KeyOrder, es: seq<Entry>, e: Entry)
    requires EntriesAscend(order, es)
    ensures HasKey(order, es, e.key) ==> Emplace(order, es, e) == es
    ensures !HasKey(order, es, e.key) ==> forall x :: x in Emplace(order, es, e) <==> x in es || x == e
  {
    hide KeyLess, HasKey;
    if es == [] {
      NoKeys(order, e.key);
    } else if KeyLess(order, es[0].key, e.key) {
      EmplacedIs(order, es[1..], e);
      LaterKey(order, es, e.key);
      assert forall x :: x in es <==> x == es[0] || x in es[1..];
      assert [es[0]] + es[1..] == es;
    } else if KeyLess(order, e.key, es[0].key) {
      FirstKey(order, es, e.key);
    } else {
      FirstKey(order, es, e.key);
    }
  }

  lemma NoKeys(order: KeyOrder, key: Value)
    ensures !HasKey(order, [], key)
  {
  }

  lemma LaterKey(order: KeyOrder, es: seq<Entry>, key: Value)
    requires es != [] && KeyLess(order, es[0].key, key)
    ensures HasKey(order, es, key) <==> HasKey(order, es[1..], key)
  {
    hide KeyLess;
    if x :| x in es && Equivalent(order, x.key, key) { assert x in es[1..]; }
    if x :| x in es[1..] && Equivalent(order, x.key, key) { assert x in es; }
  }

  lemma FirstKey(order: KeyOrder, es: seq<Entry>, key: Value)
    requires EntriesAscend(order, es) && es != [] && !KeyLess(order, es[0].key, key)
    ensures HasKey(order, es, key) <==> !KeyLess(order, key, es[0].key)
  {
    hide KeyLess;
    if KeyLess(order, key, es[0].key) {
      forall i | 0 < i < |es|
        ensures KeyLess(order, key, es[i].key)
      {
        KeyLessTransitive(order, key, es[0].key, es[i].key);
      }
    } else {
      assert es[0] in es && Equivalent(order, es[0].key, key);
    }
  }

  // Keys of the type of a map with this order.
  predicate IsKey(order: KeyOrder, key: Value) {
    if order == Numeric then key.I? else key.S?
  }

  // The same number, or the same string, up to case where the map ignores it.
  predicate SameKey(order: KeyOrder, a: Value, b: Value)
    requires IsKey(order, a) && IsKey(order, b)
  {
    if order == Caseless then Text.Lower(a.s) == Text.Lower(b.s) else a == b
  }

  lemma EquivalentIsSame(order: KeyOrder, a: Value, b: Value)
    requires IsKey(order, a) && IsKey(order, b)
    ensures Equivalent(order, a, b) <==> SameKey(order, a, b)
  {
    match order {
      case Numeric =>
      case Lexical => Text.LexTotal(a.s, b.s, false); Text.LexIrreflexive(a.s, false);
      case Caseless => Text.CaselessIsStrictWeakOrder(a.s, b.s, b.s, CHAR_IS_SIGNED);
    }
  }

  // Child i loads as e, and no child before it loads with the same key.
  ghost predicate FirstOfKey(s: Schema, ts: seq<Tree>, i: nat, e: Entry)
    requires s.MapOf? && OrderFits(s.key, s.order)
  {
    i < |ts| && LoadsAs(s, ts[i], e) &&
    forall j, x :: 0 <= j < i && LoadsAs(s, ts[j], x) ==> !SameKey(s.order, x.key, e.key)
  }

  // The child is a group with the map's key in it, and loads as the map's value.
  ghost predicate LoadsAs(s: Schema, t: Tree, e: Entry)
    requires s.MapOf? && OrderFits(s.key, s.order)
    ensures LoadsAs(s, t, e) ==> IsKey(s.order, e.key)
  {
    var found := Lookup(t, s.keyName);
    found.Some? && Get(Prim(s.key), found.value) == Some(e.key) && Get(s.value, t) == Some(e.value)
  }

  // The first child of its key.
  ghost predicate IsLoaded(s: Schema, ts: seq<Tree>, e: Entry)
    requires s.MapOf? && OrderFits(s.key, s.order)
  {
    exists i: nat :: FirstOfKey(s, ts, i, e)
  }

  // A listing in any order loads as a map that holds exactly the first child of each key.
  lemma MapLoads(s: Schema, ts: seq<Tree>, e: Entry)
    requires s.MapOf? && OrderFits(s.key, s.order)
    ensures var got := Get(s, List(ts));
      got.Some? && got.value.M? && EntriesAscend(s.order, got.value.entries) &&
      (e in got.value.entries <==> exists i: nat :: FirstOfKey(s, ts, i, e))
  {
    EntriesAre(s, ts);
    assert IsLoaded(s, ts, e) <==> exists i: nat :: FirstOfKey(s, ts, i, e);
  }

  // So the key of every child that loads is in the map.
  lemma {:induction false} KeyIsLoaded(s: Schema, ts: seq<Tree>, i: nat, e: Entry)
    requires s.MapOf? && OrderFits(s.key, s.order) && i < |ts| && LoadsAs(s, ts[i], e)
    ensures exists x :: IsLoaded(s, ts, x) && SameKey(s.order, x.key, e.key)
  {
    if FirstOfKey(s, ts, i, e) {
      assert IsLoaded(s, ts, e);
    } else {
      var j, x :| 0 <= j < i && LoadsAs(s, ts[j], x) && SameKey(s.order, x.key, e.key);
      KeyIsLoaded(s, ts, j, x);
    }
  }

  function Entries(s: Schema, ts: seq<Tree>): seq<Entry>
    requires s.MapOf?
  {
    GetEntries(s.keyName, s.key, s.order, s.value, ts)
  }

  lemma {:induction false} EntriesAre(s: Schema, ts: seq<Tree>)
    requires s.MapOf? && OrderFits(s.key, s.order)
    ensures EntriesAscend(s.order, Entries(s, ts))
    ensures forall e :: e in Entries(s, ts) <==> IsLoaded(s, ts, e)
  {
    hide LoadsAs, Entries;
    if ts == [] {
      NoEntries(s);
    } else {
      var n := |ts| - 1;
      assert ts == ts[..n] + [ts[n]];
      EntriesAre(s, ts[..n]);
      LastEntry(s, ts[..n], ts[n]);
    }
  }

  lemma NoEntries(s: Schema)
    requires s.MapOf?
    ensures Entries(s, []) == []
  {
  }

  // What one more child adds to the map of those before it.
  lemma LastEntry(s: Schema, ts: seq<Tree>, t: Tree)
    requires s.MapOf? && OrderFits(s.key, s.order) && EntriesAscend(s.order, Entries(s, ts))
    requires forall e :: e in Entries(s, ts) <==> IsLoaded(s, ts, e)
    ensures EntriesAscend(s.order, Entries(s, ts + [t]))
    ensures forall e :: e in Entries(s, ts + [t]) <==> IsLoaded(s, ts + [t], e)
  {
    var before, got := Entries(s, ts), GetEntry(s.keyName, s.key, s.value, t);
    assert (ts + [t])[..|ts|] == ts;
    assert forall e :: LoadsAs(s, t, e) <==> got == Some(e);
    LoadedLater(s, ts, t);
    hide LoadsAs, IsLoaded, KeyLess, HasKey, Emplace;
    if got.Some? {
      EmplaceKeepsOrder(s.order, before, got.value);
      EmplacedIs(s.order, before, got.value);
      KeyThereIff(s, ts, t, got.value);
    }
  }

  lemma LoadedLater(s: Schema, ts: seq<Tree>, t: Tree)
    requires s.MapOf? && OrderFits(s.key, s.order)
    ensures forall e :: IsLoaded(s, ts + [t], e) <==> IsLoaded(s, ts, e) || FirstOfKey(s, ts + [t], |ts|, e)
  {
    hide LoadsAs, FirstOfKey;
    forall e
      ensures IsLoaded(s, ts + [t], e) <==> IsLoaded(s, ts, e) || FirstOfKey(s, ts + [t], |ts|, e)
    {
      forall i: nat
        ensures FirstOfKey(s, ts + [t], i, e) <==>
                FirstOfKey(s, ts, i, e) || (i == |ts| && FirstOfKey(s, ts + [t], i, e))
      {
        FirstStays(s, ts, t, i, e);
      }
    }
  }

  lemma FirstStays(s: Schema, ts: seq<Tree>, t: Tree, i: nat, e: Entry)
    requires s.MapOf? && OrderFits(s.key, s.order)
    ensures i < |ts| ==> (FirstOfKey(s, ts + [t], i, e) <==> FirstOfKey(s, ts, i, e))
    ensures i > |ts| ==> !FirstOfKey(s, ts + [t], i, e)
    ensures i >= |ts| ==> !FirstOfKey(s, ts, i, e)
  {
    hide LoadsAs;
    if i < |ts| {
      assert forall j :: 0 <= j <= i ==> (ts + [t])[j] == ts[j];
    }
  }

  lemma KeyThereIff(s: Schema, ts: seq<Tree>, t: Tree, e: Entry)
    requires s.MapOf? && OrderFits(s.key, s.order) && LoadsAs(s, t, e)
    requires forall x :: x in Entries(s, ts) <==> IsLoaded(s, ts, x)
    ensures HasKey(s.order, Entries(s, ts), e.key) <==> !FirstOfKey(s, ts + [t], |ts|, e)
  {
    hide LoadsAs, Entries, KeyLess, Equivalent, SameKey;
    if HasKey(s.order, Entries(s, ts), e.key) {
      var x :| x in Entries(s, ts) && Equivalent(s.order, x.key, e.key);
      var i: nat :| FirstOfKey(s, ts, i, x);
      EquivalentIsSame(s.order, x.key, e.key);
      assert (ts + [t])[i] == ts[i];
    }
    if !FirstOfKey(s, ts + [t], |ts|, e) {
      var j, x :| 0 <= j < |ts| && LoadsAs(s, (ts + [t])[j], x) && SameKey(s.order, x.key, e.key);
      KeyIsLoaded(s, ts, j, x);
      var y :| IsLoaded(s, ts, y) && SameKey(s.order, y.key, x.key);
      SameKeyJoins(s.order, y.key, x.key, e.key);
      EquivalentIsSame(s.order, y.key, e.key);
      assert y in Entries(s, ts);
    }
  }

  lemma SameKeyJoins(order: KeyOrder, a: Value, b: Value, c: Value)
    requires IsKey(order, a) && IsKey(order, b) && IsKey(order, c) && SameKey(order, a, b) && SameKey(order, b, c)
    ensures SameKey(order, a, c)
  {
  }
}
