// Loading inverts saving, for every sound type and over every earlier tree.
module RoundTrip {
  import opened Options
  import opened Settings
  import opened Schema
  import opened Sequences
  import opened Codec
  import Text

  // What a saved tree looks like, stated without the save algorithm: t is a saved form of
  // v in which groups may also hold members named in extra.
  ghost predicate Holds(s: Schema, v: Value, t: Tree, extra: set<string>)
    requires WellTyped(s, v)
    decreases s
  {
    match s
    case Prim(p) => t == Leaf(ToScalar(p, v))
    case Variant(alts) => Holds(alts[v.k], v.alt, t, extra)
    case ListOf(elem) =>
      t.List? && |t.elems| == |v.elems| &&
      forall i :: 0 <= i < |v.elems| ==> Holds(elem, v.elems[i], t.elems[i], {})
    case SetOf(_) => false
    case MapOf(keyName, key, _, value) =>
      t.List? && |t.elems| == |v.entries| &&
      (forall i :: 0 <= i < |v.entries| ==> Holds(value, v.entries[i].value, t.elems[i], {keyName})) &&
      (forall i :: 0 <= i < |v.entries| ==>
        Lookup(t.elems[i], keyName) == Some(Leaf(ToScalar(key, v.entries[i].key))))
    case GroupOf(sign, fields) =>
      UniqueNames(t) &&
      (forall n :: Exists(t, n) ==> n in Names(s) + extra) &&
      (sign.Some? ==> Lookup(t, sign.value.field) == Some(Leaf(Str(Text.Lower(sign.value.text))))) &&
      (forall i :: 0 <= i < |fields| ==>
        if v.fields[i].None? then !Exists(t, fields[i].name)
        else Exists(t, fields[i].name) &&
             Holds(fields[i].schema, v.fields[i].value, Lookup(t, fields[i].name).value, {}))
  }

  // ---- Loading what Holds describes ----

  lemma LowerTwice(s: string)
    ensures Text.Lower(Text.Lower(s)) == Text.Lower(s)
  {
  }

  lemma GetPrimHolds(p: Prim, v: Value)
    requires PrimTyped(p, v)
    ensures GetPrim(p, Leaf(ToScalar(p, v))) == Some(v)
  {
  }

  lemma {:induction false} FirstMatchIs(alts: seq<Schema>, at: nat, k: nat, t: Tree, v: Value)
    requires k < |alts| && Get(alts[k], t) == Some(v)
    requires forall j :: 0 <= j < k ==> Get(alts[j], t).None?
    ensures FirstMatch(alts, at, t) == Some(Alt(at + k, v))
  {
    if k > 0 {
      forall j | 0 <= j < k - 1 ensures Get(alts[1..][j], t).None? { assert alts[1..][j] == alts[j + 1]; }
      FirstMatchIs(alts[1..], at + 1, k - 1, t, v);
    }
  }

  lemma {:induction false} FieldsAre(fields: seq<Field>, vals: seq<Option<Value>>, t: Tree)
    requires |vals| == |fields|
    requires forall i :: 0 <= i < |fields| ==> GetField(fields[i], t) == Some(vals[i])
    ensures GetFields(fields, t) == Some(vals)
  {
    if fields != [] {
      FieldsAre(fields[1..], vals[1..], t);
      assert [vals[0]] + vals[1..] == vals;
    }
  }

  lemma {:induction false} FieldMissing(fields: seq<Field>, i: nat, t: Tree)
    requires i < |fields| && GetField(fields[i], t).None?
    ensures GetFields(fields, t).None?
  {
    if i > 0 { FieldMissing(fields[1..], i - 1, t); }
  }

  // First-match decoding is unambiguous: what an earlier alternative rejects by its type
  // alone, it rejects in every saved form.
  lemma RejectsSavedForms(earlier: Schema, later: Schema, v: Value, t: Tree, extra: set<string>)
    requires Rejects(earlier, later, extra) && WellTyped(later, v) && Holds(later, v, t, extra)
    ensures Get(earlier, t).None?
  {
    match earlier {
      case Prim(p) =>
      case GroupOf(Some(sign), _) =>
        if later.GroupOf? {
          LowerTwice(later.sign.value.text);
          assert Lookup(t, sign.field) == Some(Leaf(Str(Text.Lower(later.sign.value.text))));
        }
      case GroupOf(None, fields) =>
        var i :| 0 <= i < |fields| && !fields[i].optional && fields[i].name !in Names(later) + extra;
        assert !Exists(t, fields[i].name);
        FieldMissing(fields, i, t);
    }
  }

  lemma {:induction false} AllAre(elem: Schema, ts: seq<Tree>, vs: seq<Value>)
    requires |ts| == |vs| && forall i :: 0 <= i < |ts| ==> Get(elem, ts[i]) == Some(vs[i])
    ensures GetAll(elem, ts) == vs
  {
    hide Get;
    if ts != [] {
      var n := |ts| - 1;
      AllAre(elem, ts[..n], vs[..n]);
      assert vs[..n] + [vs[n]] == vs;
    }
  }

  lemma {:induction false} EmplaceAtEnd(order: KeyOrder, es: seq<Entry>, e: Entry)
    requires forall i :: 0 <= i < |es| ==> KeyLess(order, es[i].key, e.key)
    ensures Emplace(order, es, e) == es + [e]
  {
    if es != [] { EmplaceAtEnd(order, es[1..], e); }
  }

  lemma {:induction false} EntriesAre(keyName: string, key: Prim, order: KeyOrder, value: Schema,
                                      ts: seq<Tree>, es: seq<Entry>, n: nat)
    requires n <= |ts| == |es| && forall i, j :: 0 <= i < j < |es| ==> KeyLess(order, es[i].key, es[j].key)
    requires forall i :: 0 <= i < |ts| ==> GetEntry(keyName, key, value, ts[i]) == Some(es[i])
    ensures GetEntries(keyName, key, order, value, ts[..n]) == es[..n]
  {
    hide GetEntry, KeyLess;
    if n > 0 {
      EntriesAre(keyName, key, order, value, ts, es, n - 1);
      EmplaceAtEnd(order, es[..n - 1], es[n - 1]);
      LastOfPrefix(ts, n);
      LastOfPrefix(es, n);
    }
  }

  lemma GetMapHolds(s: Schema, v: Value, t: Tree)
    requires s.MapOf? && WellTyped(s, v) && t.List? && |t.elems| == |v.entries|
    requires forall i :: 0 <= i < |v.entries| ==> GetEntry(s.keyName, s.key, s.value, t.elems[i]) == Some(v.entries[i])
    ensures Get(s, t) == Some(v)
  {
    forall i, j | 0 <= i < j < |v.entries|
      ensures KeyLess(s.order, v.entries[i].key, v.entries[j].key)
    {
      assert KeyLess(s.order, Keys(v.entries)[i], Keys(v.entries)[j]);
    }
    EntriesAre(s.keyName, s.key, s.order, s.value, t.elems, v.entries, |v.entries|);
    assert t.elems[..|v.entries|] == t.elems && v.entries[..|v.entries|] == v.entries;
  }

  lemma GetGroupHolds(s: Schema, v: Value, t: Tree, extra: set<string>)
    requires s.GroupOf? && WellTyped(s, v) && Holds(s, v, t, extra)
    requires forall i :: 0 <= i < |s.fields| ==> GetField(s.fields[i], t) == Some(v.fields[i])
    ensures Get(s, t) == Some(v)
  {
    hide GetField, GetFields;
    if s.sign.Some? { LowerTwice(s.sign.value.text); }
    FieldsAre(s.fields, v.fields, t);
  }

  lemma GetVariantHolds(s: Schema, v: Value, t: Tree, extra: set<string>)
    requires s.Variant? && Sound(s, extra) && WellTyped(s, v) && Holds(s, v, t, extra)
    requires Get(s.alts[v.k], t) == Some(v.alt)
    ensures Get(s, t) == Some(v)
  {
    hide Sound, Holds;
    forall j | 0 <= j < v.k ensures Get(s.alts[j], t).None? {
      EarlierRejects(s, v, t, extra, j);
    }
    FirstMatchIs(s.alts, 0, v.k, t, v.alt);
  }

  lemma EarlierRejects(s: Schema, v: Value, t: Tree, extra: set<string>, j: nat)
    requires s.Variant? && Sound(s, extra) && WellTyped(s, v) && Holds(s, v, t, extra) && j < v.k
    ensures Get(s.alts[j], t).None?
  {
    hide Get;
    RejectsSavedForms(s.alts[j], s.alts[v.k], v.alt, t, extra);
  }

  lemma {:induction false} GetHolds(s: Schema, v: Value, t: Tree, extra: set<string>)
    requires Sound(s, extra) && WellTyped(s, v) && Holds(s, v, t, extra)
    ensures Get(s, t) == Some(v)
    decreases s
  {
    match s {
      case Prim(p) => GetPrimHolds(p, v);
      case Variant(alts) =>
        GetHolds(alts[v.k], v.alt, t, extra);
        GetVariantHolds(s, v, t, extra);
      case ListOf(elem) =>
        forall i | 0 <= i < |v.elems| ensures Get(elem, t.elems[i]) == Some(v.elems[i]) {
          GetHolds(elem, v.elems[i], t.elems[i], {});
        }
        AllAre(elem, t.elems, v.elems);
      case MapOf(keyName, key, order, value) =>
        forall i | 0 <= i < |v.entries|
          ensures GetEntry(keyName, key, value, t.elems[i]) == Some(v.entries[i])
        {
          GetHolds(value, v.entries[i].value, t.elems[i], {keyName});
          GetPrimHolds(key, v.entries[i].key);
        }
        GetMapHolds(s, v, t);
      case GroupOf(sign, fields) =>
        forall i | 0 <= i < |fields| ensures GetField(fields[i], t) == Some(v.fields[i]) {
          if v.fields[i].Some? {
            GetHolds(fields[i].schema, v.fields[i].value, Lookup(t, fields[i].name).value, {});
          }
        }
        GetGroupHolds(s, v, t, extra);
    }
  }

  // ---- Saving establishes Holds ----

  // The member left behind by a named save over the old member, if any.
  function Over(s: Schema, v: Value, old_: Option<Tree>): Saved
    requires WellTyped(s, v)
  {
    Put(s, v, if old_.Some? && TypeOf(old_.value) == KeptType(s, v) then old_.value else New(NodeType(s, v)))
  }

  lemma PrepareEffect(t: Tree, name: string, create: Type, kept: Type)
    requires UniqueNames(t)
    ensures var r := Prepare(t, name, create, kept);
      r.ok && UniqueNames(r.tree) &&
      Lookup(r.tree, name) == Some(if Exists(t, name) && TypeOf(Lookup(t, name).value) == kept
                                   then Lookup(t, name).value else New(create)) &&
      forall n :: n != name ==> Lookup(r.tree, n) == Lookup(t, n)
  {
    if !Exists(t, name) {
      LookupAfterAdd(t, name, New(create));
    } else if TypeOf(Lookup(t, name).value) != kept {
      LookupAfterRemove(t, name);
      LookupAfterAdd(RemoveMember(t, name).value, name, New(create));
    }
  }

  // A named save changes that one member, to a value that depends on the old member only.
  lemma PutNamedEffect(s: Schema, name: string, v: Value, t: Tree)
    requires UniqueNames(t) && WellTyped(s, v)
    ensures var r := PutNamed(s, name, v, t);
      r.ok == Over(s, v, Lookup(t, name)).ok && UniqueNames(r.tree) &&
      Lookup(r.tree, name) == Some(Over(s, v, Lookup(t, name)).tree) &&
      forall n :: n != name ==> Lookup(r.tree, n) == Lookup(t, n)
  {
    PrepareEffect(t, name, NodeType(s, v), KeptType(s, v));
    var ready := Prepare(t, name, NodeType(s, v), KeptType(s, v)).tree;
    LookupAfterSet(ready, name, Put(s, v, Lookup(ready, name).value).tree);
  }

  lemma PutPrimNamedEffect(p: Prim, name: string, v: Value, t: Tree)
    requires UniqueNames(t) && PrimTyped(p, v)
    ensures var r := PutPrimNamed(p, name, v, t);
      r.ok && UniqueNames(r.tree) && Lookup(r.tree, name) == Some(Leaf(ToScalar(p, v))) &&
      forall n :: n != name ==> Lookup(r.tree, n) == Lookup(t, n)
  {
    PrepareEffect(t, name, PrimType(p), PrimType(p));
    var ready := Prepare(t, name, PrimType(p), PrimType(p)).tree;
    LookupAfterSet(ready, name, Leaf(ToScalar(p, v)));
  }

  ghost predicate FieldsTyped(fields: seq<Field>, vals: seq<Option<Value>>) {
    |vals| == |fields| &&
    (forall i :: 0 <= i < |fields| && vals[i].Some? ==> WellTyped(fields[i].schema, vals[i].value)) &&
    forall i, j :: 0 <= i < j < |fields| ==> fields[i].name != fields[j].name
  }

  // The member that saving a field leaves: a filled field overwrites, an empty one does not.
  function FieldOver(f: Field, val: Option<Value>, old_: Option<Tree>): (r: Option<Saved>)
    requires val.Some? ==> WellTyped(f.schema, val.value)
  {
    if val.Some? then Some(Over(f.schema, val.value, old_))
    else if old_.Some? then Some(Saved(old_.value, true)) else None
  }

  // Each filled field can be saved over its own old member.
  ghost predicate AllSavable(fields: seq<Field>, vals: seq<Option<Value>>, t: Tree)
    requires FieldsTyped(fields, vals)
  {
    forall i :: 0 <= i < |fields| && vals[i].Some? ==>
      Over(fields[i].schema, vals[i].value, Lookup(t, fields[i].name)).ok
  }

  // The member that belongs to a field is what saving that field leaves.
  ghost predicate IsLeft(f: Field, val: Option<Value>, t: Tree, r: Tree)
    requires val.Some? ==> WellTyped(f.schema, val.value)
  {
    var left := FieldOver(f, val, Lookup(t, f.name));
    Lookup(r, f.name) == if left.Some? then Some(left.value.tree) else None
  }

  ghost predicate AllLeft(fields: seq<Field>, vals: seq<Option<Value>>, t: Tree, r: Tree)
    requires FieldsTyped(fields, vals)
  {
    forall i :: 0 <= i < |fields| ==> IsLeft(fields[i], vals[i], t, r)
  }

  // group_io::set over any group: it succeeds exactly when each filled field can be saved
  // over its own old member, and members that are no field are untouched.
  lemma {:induction false} PutFieldsEffect(fields: seq<Field>, vals: seq<Option<Value>>, t: Tree)
    requires UniqueNames(t) && FieldsTyped(fields, vals)
    ensures var r := PutFields(fields, vals, t);
      UniqueNames(r.tree) &&
      (forall n :: n !in FieldNames(fields) ==> Lookup(r.tree, n) == Lookup(t, n)) &&
      (r.ok <==> AllSavable(fields, vals, t)) && (r.ok ==> AllLeft(fields, vals, t, r.tree))
    decreases |fields|
  {
    hide Over, WellTyped;
    if fields != [] {
      var f, fs := fields[0], fields[1..];
      TailNames(fields);
      if vals[0].Some? { PutNamedEffect(f.schema, f.name, vals[0].value, t); }
      var first := if vals[0].None? then Saved(t, true) else PutNamed(f.schema, f.name, vals[0].value, t);
      if first.ok {
        PutFieldsEffect(fs, vals[1..], first.tree);
        TailSavable(fields, vals, t, first.tree);
        if PutFields(fs, vals[1..], first.tree).ok {
          TailLeft(fields, vals, t, first.tree, PutFields(fs, vals[1..], first.tree).tree);
        }
      }
    }
  }

  // A save of the first field leaves the question about the others as it was.
  lemma TailSavable(fields: seq<Field>, vals: seq<Option<Value>>, t: Tree, after: Tree)
    requires FieldsTyped(fields, vals) && fields != []
    requires forall n :: n != fields[0].name ==> Lookup(after, n) == Lookup(t, n)
    ensures FieldsTyped(fields[1..], vals[1..])
    ensures AllSavable(fields, vals, t) <==>
      (vals[0].Some? ==> Over(fields[0].schema, vals[0].value, Lookup(t, fields[0].name)).ok) &&
      AllSavable(fields[1..], vals[1..], after)
  {
    hide Over, WellTyped;
    assert forall i :: 1 <= i < |fields| ==> fields[i] == fields[1..][i - 1] && vals[i] == vals[1..][i - 1];
  }

  lemma TailLeft(fields: seq<Field>, vals: seq<Option<Value>>, t: Tree, after: Tree, r: Tree)
    requires FieldsTyped(fields, vals) && fields != []
    requires forall n :: n != fields[0].name ==> Lookup(after, n) == Lookup(t, n)
    ensures FieldsTyped(fields[1..], vals[1..])
    ensures AllLeft(fields[1..], vals[1..], after, r) && IsLeft(fields[0], vals[0], t, r) ==>
      AllLeft(fields, vals, t, r)
  {
    hide Over, WellTyped;
    assert forall i :: 1 <= i < |fields| ==> fields[i] == fields[1..][i - 1] && vals[i] == vals[1..][i - 1];
  }

  lemma TailNames(fields: seq<Field>)
    requires fields != [] && forall i, j :: 0 <= i < j < |fields| ==> fields[i].name != fields[j].name
    ensures FieldNames(fields) == FieldNames(fields[1..]) + {fields[0].name}
    ensures fields[0].name !in FieldNames(fields[1..])
    ensures forall i :: 1 <= i < |fields| ==> fields[i].name in FieldNames(fields[1..])
  {
    forall i | 1 <= i < |fields| ensures fields[i].name in FieldNames(fields[1..]) {
      assert fields[1..][i - 1] == fields[i];
    }
    forall n | n in FieldNames(fields) ensures n in FieldNames(fields[1..]) + {fields[0].name} {
      var i :| 0 <= i < |fields| && fields[i].name == n;
    }
  }

  lemma PutGroupHolds(s: Schema, v: Value)
    requires s.GroupOf? && Sound(s, {}) && WellTyped(s, v)
    requires forall i :: 0 <= i < |s.fields| && v.fields[i].Some? ==>
      var r := Over(s.fields[i].schema, v.fields[i].value, None);
      r.ok && Holds(s.fields[i].schema, v.fields[i].value, r.tree, {})
    ensures var r := Put(s, v, New(TGroup)); r.ok && Holds(s, v, r.tree, {})
  {
    var t := New(TGroup);
    assert UniqueNames(t);
    var signed := if s.sign.None? then Saved(t, true) else PutSignature(s.sign.value, t);
    if s.sign.Some? {
      PutPrimNamedEffect(PString, s.sign.value.field, S(Text.Lower(s.sign.value.text)), t);
    }
    PutFieldsEffect(s.fields, v.fields, signed.tree);
    var r := PutFields(s.fields, v.fields, signed.tree);
    forall i | 0 <= i < |s.fields| ensures Lookup(signed.tree, s.fields[i].name).None? {
      assert s.fields[i].name in FieldNames(s.fields);
      assert Lookup(t, s.fields[i].name).None?;
    }
    forall n | Exists(r.tree, n) ensures n in Names(s) {
      assert Lookup(t, n).None?;
    }
  }

  lemma {:induction false} AppendAllHolds(elem: Schema, vs: seq<Value>, list: Tree)
    requires list.List? && forall i :: 0 <= i < |vs| ==> WellTyped(elem, vs[i])
    requires forall i :: 0 <= i < |vs| ==> Put(elem, vs[i], New(NodeType(elem, vs[i]))).ok
    ensures var r := AppendAll(elem, vs, list);
      r.ok &&
      r.tree == List(list.elems + seq(|vs|, i requires 0 <= i < |vs| =>
        Put(elem, vs[i], New(NodeType(elem, vs[i]))).tree))
    decreases |vs|
  {
    if vs != [] {
      var first := Append(elem, vs[0], list);
      AppendAllHolds(elem, vs[1..], first.tree);
    }
  }

  // The saved groups of a map's entries.
  function Groups(keyName: string, key: Prim, value: Schema, es: seq<Entry>): (ts: seq<Tree>)
    requires forall i :: 0 <= i < |es| ==> PrimTyped(key, es[i].key) && WellTyped(value, es[i].value)
    ensures |ts| == |es| && forall i :: 0 <= i < |es| ==> ts[i] == PutEntry(keyName, key, value, es[i]).tree
  {
    seq(|es|, i requires 0 <= i < |es| => PutEntry(keyName, key, value, es[i]).tree)
  }

  lemma {:induction false} AppendEntriesHolds(keyName: string, key: Prim, value: Schema, es: seq<Entry>, list: Tree)
    requires list.List?
    requires forall i :: 0 <= i < |es| ==> PrimTyped(key, es[i].key) && WellTyped(value, es[i].value)
    requires forall i :: 0 <= i < |es| ==> PutEntry(keyName, key, value, es[i]).ok
    ensures var r := AppendEntries(keyName, key, value, es, list);
      r.ok && r.tree == List(list.elems + Groups(keyName, key, value, es))
    decreases |es|
  {
    hide PutEntry, AppendEntries, WellTyped, PrimTyped;
    if es == [] {
      AppendNoEntries(keyName, key, value, list);
    } else {
      var rest := es[1..];
      assert forall i :: 0 <= i < |rest| ==> rest[i] == es[i + 1];
      var ts := Groups(keyName, key, value, es);
      AppendEntriesStep(keyName, key, value, es, list);
      AppendEntriesHolds(keyName, key, value, rest, AppendElem(list, ts[0]));
      assert ts == [ts[0]] + Groups(keyName, key, value, rest);
      Regroup(list.elems, ts[0], Groups(keyName, key, value, rest));
    }
  }

  lemma AppendNoEntries(keyName: string, key: Prim, value: Schema, list: Tree)
    ensures AppendEntries(keyName, key, value, [], list) == Saved(list, true)
  {
  }

  lemma AppendEntriesStep(keyName: string, key: Prim, value: Schema, es: seq<Entry>, list: Tree)
    requires list.List? && es != []
    requires forall i :: 0 <= i < |es| ==> PrimTyped(key, es[i].key) && WellTyped(value, es[i].value)
    requires PutEntry(keyName, key, value, es[0]).ok
    ensures AppendEntries(keyName, key, value, es, list) ==
      AppendEntries(keyName, key, value, es[1..], AppendElem(list, PutEntry(keyName, key, value, es[0]).tree))
  {
  }

  lemma PutMapHolds(s: Schema, v: Value)
    requires s.MapOf? && WellTyped(s, v)
    requires forall i :: 0 <= i < |v.entries| ==>
      var r := PutEntry(s.keyName, s.key, s.value, v.entries[i]);
      r.ok && Holds(s.value, v.entries[i].value, r.tree, {s.keyName}) &&
      Lookup(r.tree, s.keyName) == Some(Leaf(ToScalar(s.key, v.entries[i].key)))
    ensures var r := Put(s, v, New(TList)); r.ok && Holds(s, v, r.tree, {})
  {
    hide AppendEntries, PutEntry, Lookup;
    var ts := Groups(s.keyName, s.key, s.value, v.entries);
    AppendEntriesHolds(s.keyName, s.key, s.value, v.entries, List([]));
    assert [] + ts == ts;
    assert Put(s, v, New(TList)) == Saved(List(ts), true);
  }

  // The key joins the group of its value without disturbing it.
  lemma KeyedHolds(s: Schema, v: Value, t: Tree, keyName: string, key: Prim, k: Value)
    requires GroupLike(s) && Sound(s, {keyName}) && WellTyped(s, v) && Holds(s, v, t, {}) && PrimTyped(key, k)
    ensures var r := PutPrimNamed(key, keyName, k, t);
      r.ok && Holds(s, v, r.tree, {keyName}) && Lookup(r.tree, keyName) == Some(Leaf(ToScalar(key, k)))
  {
    var g, w := if s.GroupOf? then s else s.alts[v.k], if s.GroupOf? then v else v.alt;
    PutPrimNamedEffect(key, keyName, k, t);
    var r := PutPrimNamed(key, keyName, k, t).tree;
    forall n | Exists(r, n) ensures n in Names(g) + {keyName} {
      if n != keyName { assert Lookup(t, n).Some?; }
    }
    forall i | 0 <= i < |g.fields| ensures Lookup(r, g.fields[i].name) == Lookup(t, g.fields[i].name) {
      assert g.fields[i].name in Names(g);
    }
    if g.sign.Some? { assert g.sign.value.field in Names(g); }
    assert Holds(g, w, r, {keyName});
  }

  lemma RejectsWithout(earlier: Schema, later: Schema, extra: set<string>)
    requires Rejects(earlier, later, extra)
    ensures Rejects(earlier, later, {})
  {
    if earlier.GroupOf? && earlier.sign.None? {
      var i :| 0 <= i < |earlier.fields| && !earlier.fields[i].optional &&
               earlier.fields[i].name !in Names(later) + extra;
      assert earlier.fields[i].name !in Names(later) + {};
    }
  }

  // Only groups read extra, and the map's own key is no member of its value's type.
  lemma SoundWithout(s: Schema, extra: set<string>)
    requires Sound(s, extra) && GroupLike(s)
    ensures Sound(s, {})
  {
    if s.Variant? {
      forall i, j | 0 <= i < j < |s.alts| ensures Rejects(s.alts[i], s.alts[j], {}) {
        RejectsWithout(s.alts[i], s.alts[j], extra);
      }
    }
  }

  lemma PutListHolds(s: Schema, v: Value)
    requires s.ListOf? && WellTyped(s, v)
    requires forall i :: 0 <= i < |v.elems| ==>
      var r := Put(s.elem, v.elems[i], New(NodeType(s.elem, v.elems[i])));
      r.ok && Holds(s.elem, v.elems[i], r.tree, {})
    ensures var r := Put(s, v, New(TList)); r.ok && Holds(s, v, r.tree, {})
  {
    AppendAllHolds(s.elem, v.elems, List([]));
  }

  lemma {:induction false} PutHolds(s: Schema, v: Value)
    requires Sound(s, {}) && WellTyped(s, v)
    ensures var r := Put(s, v, New(NodeType(s, v))); r.ok && Holds(s, v, r.tree, {})
    decreases s
  {
    match s {
      case Prim(p) =>
      case Variant(alts) => PutHolds(alts[v.k], v.alt);
      case ListOf(elem) =>
        forall i | 0 <= i < |v.elems|
          ensures var r := Put(elem, v.elems[i], New(NodeType(elem, v.elems[i])));
            r.ok && Holds(elem, v.elems[i], r.tree, {})
        {
          PutHolds(elem, v.elems[i]);
        }
        PutListHolds(s, v);
      case MapOf(keyName, key, order, value) =>
        SoundWithout(value, {keyName});
        forall i | 0 <= i < |v.entries|
          ensures var r := PutEntry(keyName, key, value, v.entries[i]);
            r.ok && Holds(value, v.entries[i].value, r.tree, {keyName}) &&
            Lookup(r.tree, keyName) == Some(Leaf(ToScalar(key, v.entries[i].key)))
        {
          var e := v.entries[i];
          PutHolds(value, e.value);
          KeyedHolds(value, e.value, Put(value, e.value, New(TGroup)).tree, keyName, key, e.key);
        }
        PutMapHolds(s, v);
      case GroupOf(sign, fields) =>
        forall i | 0 <= i < |fields| && v.fields[i].Some?
          ensures var r := Over(fields[i].schema, v.fields[i].value, None);
            r.ok && Holds(fields[i].schema, v.fields[i].value, r.tree, {})
        {
          PutHolds(fields[i].schema, v.fields[i].value);
        }
        PutGroupHolds(s, v);
    }
  }

  // ---- The round trip ----

  // Saving into a new setting and loading it gives the value back, for every sound type.
  lemma LoadInvertsSave(s: Schema, v: Value)
    requires Sound(s, {}) && WellTyped(s, v)
    ensures Put(s, v, New(NodeType(s, v))).ok
    ensures Get(s, Put(s, v, New(NodeType(s, v))).tree) == Some(v)
  {
    PutHolds(s, v);
    GetHolds(s, v, Put(s, v, New(NodeType(s, v))).tree, {});
  }
}
