// What saving leaves behind, also when it does not succeed.
module Saving {
  import opened Options
  import opened Settings
  import opened Schema
  import opened Codec
  import opened ConfigFile
  import Text

  // ---- Every saved number fits in a setting ----

  lemma PrepareFits(parent: Tree, name: string, create: Type, kept: Type)
    requires IntsFit(parent)
    ensures IntsFit(Prepare(parent, name, create, kept).tree)
  {
    if Exists(parent, name) { RemoveFits(parent, name); }
  }

  lemma RemoveFits(t: Tree, name: string)
    requires IntsFit(t) && Exists(t, name)
    ensures IntsFit(RemoveMember(t, name).value)
  {
  }

  lemma SetMemberFits(t: Tree, name: string, child: Tree)
    requires IntsFit(t) && Exists(t, name) && IntsFit(child)
    ensures IntsFit(SetMember(t, name, child))
  {
  }

  lemma AppendFits(t: Tree, child: Tree)
    requires (t.List? || t.Array?) && IntsFit(t) && IntsFit(child)
    ensures IntsFit(AppendElem(t, child))
  {
  }

  lemma PrimNamedFits(p: Prim, name: string, v: Value, parent: Tree)
    requires PrimTyped(p, v) && IntsFit(parent)
    ensures IntsFit(PutPrimNamed(p, name, v, parent).tree)
  {
    PrepareFits(parent, name, PrimType(p), PrimType(p));
    var ready := Prepare(parent, name, PrimType(p), PrimType(p));
    if ready.ok {
      LookupFits(ready.tree, name);
      SetMemberFits(ready.tree, name, PutPrim(p, v, Lookup(ready.tree, name).value).tree);
    }
  }

  // Whatever value of whatever type is saved over whatever tree, successfully or not, every
  // number left in the tree fits in a libconfig int.
  lemma {:induction false} SavedFits(s: Schema, v: Value, t: Tree)
    requires WellTyped(s, v) && IntsFit(t)
    ensures IntsFit(Put(s, v, t).tree)
    decreases s, 0, 0
  {
    match s {
      case Prim(_) =>
      case Variant(alts) => SavedFits(alts[v.k], v.alt, t);
      case ListOf(elem) => AllFit(elem, v.elems, Cleared(t));
      case SetOf(member) => GroupsFit(member, v.elems, Cleared(t));
      case MapOf(keyName, key, _, value) => EntriesFit(keyName, key, value, v.entries, Cleared(t));
      case GroupOf(sign, fields) =>
        if sign.Some? { PrimNamedFits(PString, sign.value.field, S(Text.Lower(sign.value.text)), t); }
        var signed := if sign.None? then Saved(t, true) else PutSignature(sign.value, t);
        FieldsFit(fields, v.fields, signed.tree);
    }
  }

  lemma {:induction false} FieldsFit(fields: seq<Field>, vals: seq<Option<Value>>, t: Tree)
    requires |vals| == |fields| && IntsFit(t)
    requires forall i :: 0 <= i < |fields| && vals[i].Some? ==> WellTyped(fields[i].schema, vals[i].value)
    ensures IntsFit(PutFields(fields, vals, t).tree)
    decreases fields, 2, 0
  {
    if fields != [] {
      if vals[0].Some? { NamedFits(fields[0].schema, fields[0].name, vals[0].value, t); }
      var first := if vals[0].None? then Saved(t, true)
                   else PutNamed(fields[0].schema, fields[0].name, vals[0].value, t);
      FieldsFit(fields[1..], vals[1..], first.tree);
    }
  }

  lemma {:induction false} NamedFits(s: Schema, name: string, v: Value, parent: Tree)
    requires WellTyped(s, v) && IntsFit(parent)
    ensures IntsFit(PutNamed(s, name, v, parent).tree)
    decreases s, 1, 0
  {
    PrepareFits(parent, name, NodeType(s, v), KeptType(s, v));
    var ready := Prepare(parent, name, NodeType(s, v), KeptType(s, v));
    if ready.ok {
      LookupFits(ready.tree, name);
      SavedFits(s, v, Lookup(ready.tree, name).value);
      SetMemberFits(ready.tree, name, Put(s, v, Lookup(ready.tree, name).value).tree);
    }
  }

  lemma {:induction false} AllFit(elem: Schema, vs: seq<Value>, list: Tree)
    requires IntsFit(list) && forall i :: 0 <= i < |vs| ==> WellTyped(elem, vs[i])
    ensures IntsFit(AppendAll(elem, vs, list).tree)
    decreases elem, 2, |vs|
  {
    if vs != [] {
      var first := Append(elem, vs[0], list);
      if AcceptsElem(list, NodeType(elem, vs[0])) {
        var child := Put(elem, vs[0], New(NodeType(elem, vs[0])));
        SavedFits(elem, vs[0], New(NodeType(elem, vs[0])));
        AppendFits(list, child.tree);
      }
      AllFit(elem, vs[1..], first.tree);
    }
  }

  lemma {:induction false} GroupsFit(member: Schema, vs: seq<Value>, list: Tree)
    requires IntsFit(list) && forall i :: 0 <= i < |vs| ==> WellTyped(member, vs[i])
    ensures IntsFit(AppendGroups(member, vs, list).tree)
    decreases member, 2, |vs|
  {
    if vs != [] && AcceptsElem(list, TGroup) {
      var child := Put(member, vs[0], New(TGroup));
      SavedFits(member, vs[0], New(TGroup));
      AppendFits(list, child.tree);
      GroupsFit(member, vs[1..], AppendElem(list, child.tree));
    }
  }

  lemma {:induction false} EntriesFit(keyName: string, key: Prim, value: Schema, es: seq<Entry>, list: Tree)
    requires IntsFit(list) && forall i :: 0 <= i < |es| ==> PrimTyped(key, es[i].key)
    requires forall i :: 0 <= i < |es| ==> WellTyped(value, es[i].value)
    ensures IntsFit(AppendEntries(keyName, key, value, es, list).tree)
    decreases value, 2, |es|
  {
    if es != [] && AcceptsElem(list, TGroup) {
      var body, child := Put(value, es[0].value, New(TGroup)), PutEntry(keyName, key, value, es[0]);
      SavedFits(value, es[0].value, New(TGroup));
      PrimNamedFits(key, keyName, es[0].key, body.tree);
      AppendFits(list, child.tree);
      EntriesFit(keyName, key, value, es[1..], AppendElem(list, child.tree));
    }
  }

  // ---- Where a save stops ----

  // The first save that fails, or the number of them when none does.
  function FirstFailure(rs: seq<Saved>): (k: nat)
    ensures k <= |rs| && (k < |rs| ==> !rs[k].ok) && forall i :: 0 <= i < k ==> rs[i].ok
  {
    if rs == [] || !rs[0].ok then 0 else 1 + FirstFailure(rs[1..])
  }

  // A list grows by what each element's own save leaves, up to and with the first that fails.
  ghost predicate Grows(ts: seq<Tree>, rs: seq<Saved>, r: Saved) {
    var k := FirstFailure(rs);
    var n := if k < |rs| then k + 1 else k;
    (r.ok <==> k == |rs|) && r.tree == List(ts + seq(n, i requires 0 <= i < n => rs[i].tree))
  }

  lemma GrowsByOne(ts: seq<Tree>, rs: seq<Saved>, r: Saved)
    requires rs != [] && rs[0].ok && Grows(ts + [rs[0].tree], rs[1..], r)
    ensures Grows(ts, rs, r)
  {
    var k := FirstFailure(rs);
    assert k == 1 + FirstFailure(rs[1..]);
    var n := if k < |rs| then k + 1 else k;
    assert ts + seq(n, i requires 0 <= i < n => rs[i].tree) ==
           ts + [rs[0].tree] + seq(n - 1, i requires 0 <= i < n - 1 => rs[1..][i].tree);
  }

  lemma GrowsNoMore(ts: seq<Tree>, rs: seq<Saved>)
    ensures rs == [] ==> Grows(ts, rs, Saved(List(ts), true))
    ensures rs != [] && !rs[0].ok ==> Grows(ts, rs, Saved(List(ts + [rs[0].tree]), false))
  {
    if rs == [] { assert ts + [] == ts; }
  }

  function ElementSaves(elem: Schema, vs: seq<Value>): seq<Saved>
    requires forall i :: 0 <= i < |vs| ==> WellTyped(elem, vs[i])
  {
    seq(|vs|, i requires 0 <= i < |vs| => Put(elem, vs[i], New(NodeType(elem, vs[i]))))
  }

  lemma NextElement(elem: Schema, vs: seq<Value>, ts: seq<Tree>)
    requires vs != [] && forall i :: 0 <= i < |vs| ==> WellTyped(elem, vs[i])
    ensures var first := Put(elem, vs[0], New(NodeType(elem, vs[0])));
      AppendAll(elem, vs, List(ts)) ==
      if first.ok then AppendAll(elem, vs[1..], List(ts + [first.tree])) else Saved(List(ts + [first.tree]), false)
  {
  }

  lemma {:induction false} ListGrows(elem: Schema, vs: seq<Value>, ts: seq<Tree>)
    requires forall i :: 0 <= i < |vs| ==> WellTyped(elem, vs[i])
    ensures Grows(ts, ElementSaves(elem, vs), AppendAll(elem, vs, List(ts)))
    decreases |vs|
  {
    var rs := ElementSaves(elem, vs);
    GrowsNoMore(ts, rs);
    if vs != [] {
      NextElement(elem, vs, ts);
      hide Put, Grows, NodeType, AppendAll, WellTyped;
      if rs[0].ok {
        assert rs[1..] == ElementSaves(elem, vs[1..]);
        ListGrows(elem, vs[1..], ts + [rs[0].tree]);
        GrowsByOne(ts, rs, AppendAll(elem, vs, List(ts)));
      }
    }
  }

  // Saving a list over any old one empties it first, and stops at the first element that
  // cannot be saved.
  lemma ListSaves(elem: Schema, vs: seq<Value>, old_: seq<Tree>)
    requires WellTyped(ListOf(elem), L(vs))
    ensures Grows([], ElementSaves(elem, vs), Put(ListOf(elem), L(vs), List(old_)))
  {
    ListGrows(elem, vs, []);
  }

  function EntrySaves(s: Schema, es: seq<Entry>): seq<Saved>
    requires s.MapOf? && WellTyped(s, M(es))
  {
    seq(|es|, i requires 0 <= i < |es| => PutEntry(s.keyName, s.key, s.value, es[i]))
  }

  lemma NextEntry(s: Schema, es: seq<Entry>, from: nat, ts: seq<Tree>)
    requires s.MapOf? && WellTyped(s, M(es)) && from < |es|
    ensures var first := PutEntry(s.keyName, s.key, s.value, es[from]);
      AppendEntries(s.keyName, s.key, s.value, es[from..], List(ts)) ==
      if first.ok then AppendEntries(s.keyName, s.key, s.value, es[from + 1..], List(ts + [first.tree]))
      else Saved(List(ts + [first.tree]), false)
  {
    hide PutEntry;
    assert es[from..][1..] == es[from + 1..];
  }

  lemma {:induction false} MapGrows(s: Schema, all: seq<Entry>, from: nat, ts: seq<Tree>)
    requires s.MapOf? && WellTyped(s, M(all)) && from <= |all|
    ensures Grows(ts, EntrySaves(s, all)[from..], AppendEntries(s.keyName, s.key, s.value, all[from..], List(ts)))
    decreases |all| - from
  {
    hide PutEntry;
    var rs := EntrySaves(s, all)[from..];
    GrowsNoMore(ts, rs);
    if from < |all| {
      NextEntry(s, all, from, ts);
      hide Grows, AppendEntries;
      if rs[0].ok {
        MapGrows(s, all, from + 1, ts + [rs[0].tree]);
        assert rs[1..] == EntrySaves(s, all)[from + 1..];
        GrowsByOne(ts, rs, AppendEntries(s.keyName, s.key, s.value, all[from + 1..], List(ts + [rs[0].tree])));
      }
    }
  }

  // The same for a map, entry by entry.
  lemma MapSaves(s: Schema, es: seq<Entry>, old_: seq<Tree>)
    requires s.MapOf? && WellTyped(s, M(es))
    ensures Grows([], EntrySaves(s, es), Put(s, M(es), List(old_)))
  {
    MapGrows(s, es, 0, []);
    assert es[0..] == es && EntrySaves(s, es)[0..] == EntrySaves(s, es);
  }

  // An entry of a map is a group with the value's members and then the key's, if its value
  // can be saved.
  lemma EntrySaved(s: Schema, e: Entry)
    requires s.MapOf? && PrimTyped(s.key, e.key) && WellTyped(s.value, e.value)
    ensures var value, r := Put(s.value, e.value, New(TGroup)), PutEntry(s.keyName, s.key, s.value, e);
      (!value.ok ==> r == value) &&
      (value.ok && value.tree.Group? && Lookup(value.tree, s.keyName).None? ==>
        r == Saved(Group(value.tree.members + [Member(s.keyName, Leaf(ToScalar(s.key, e.key)))]), true))
  {
    hide Put;
    var value := Put(s.value, e.value, New(TGroup)).tree;
    if value.Group? && !Exists(value, s.keyName) { PrimIsAdded(s.key, s.keyName, e.key, value); }
  }

  lemma PrimIsAdded(p: Prim, name: string, v: Value, t: Tree)
    requires PrimTyped(p, v) && t.Group? && !Exists(t, name)
    ensures PutPrimNamed(p, name, v, t) == Saved(Group(t.members + [Member(name, Leaf(ToScalar(p, v)))]), true)
  {
    var ms := t.members + [Member(name, New(PrimType(p)))];
    NewMemberIsLast(t, name, PrimType(p));
    assert Prepare(t, name, PrimType(p), PrimType(p)) == Saved(Group(ms), true);
    assert ms[|t.members| := Member(name, Leaf(ToScalar(p, v)))] == t.members + [Member(name, Leaf(ToScalar(p, v)))];
  }

  lemma NewMemberIsLast(t: Tree, name: string, ty: Type)
    requires t.Group? && !Exists(t, name)
    ensures Exists(Group(t.members + [Member(name, New(ty))]), name)
    ensures IndexOf(t.members + [Member(name, New(ty))], name) == |t.members|
  {
    var ms := t.members + [Member(name, New(ty))];
    assert ms[|t.members|].name == name;
    assert forall i :: 0 <= i < |t.members| ==> ms[i] == t.members[i];
  }

  function MemberSaves(member: Schema, vs: seq<Value>): seq<Saved>
    requires forall i :: 0 <= i < |vs| ==> WellTyped(member, vs[i])
  {
    seq(|vs|, i requires 0 <= i < |vs| => Put(member, vs[i], New(TGroup)))
  }

  lemma {:induction false} SetGrows(member: Schema, vs: seq<Value>, ts: seq<Tree>)
    requires forall i :: 0 <= i < |vs| ==> WellTyped(member, vs[i])
    ensures Grows(ts, MemberSaves(member, vs), AppendGroups(member, vs, List(ts)))
    decreases |vs|
  {
    var rs := MemberSaves(member, vs);
    GrowsNoMore(ts, rs);
    if vs != [] {
      assert rs[1..] == MemberSaves(member, vs[1..]);
      hide Put, Grows, WellTyped;
      if rs[0].ok {
        SetGrows(member, vs[1..], ts + [rs[0].tree]);
        GrowsByOne(ts, rs, AppendGroups(member, vs[1..], List(ts + [rs[0].tree])));
      }
    }
  }

  // And for a set, each of whose elements is put into a new group.
  lemma SetSaves(member: Schema, vs: seq<Value>, old_: seq<Tree>)
    requires WellTyped(SetOf(member), L(vs))
    ensures Grows([], MemberSaves(member, vs), Put(SetOf(member), L(vs), List(old_)))
  {
    SetGrows(member, vs, []);
  }

  // An array that is kept for a set or a map is emptied, and then takes no group.
  lemma ArrayTakesNoGroups(s: Schema, v: Value, items: seq<Tree>)
    requires (s.SetOf? || s.MapOf?) && WellTyped(s, v)
    ensures Put(s, v, Array(items)) == Saved(Array([]), if s.SetOf? then v.elems == [] else v.entries == [])
  {
  }

  // An element can be appended to an array exactly when it is a scalar of the type of those
  // that are there, and is then its last; otherwise the array stays as it was.
  lemma ArrayTakesScalars(s: Schema, v: Value, items: seq<Tree>)
    requires WellTyped(s, v) && forall i :: 0 <= i < |items| ==> items[i].Leaf?
    ensures var r := Append(s, v, Array(items));
      var ty := NodeType(s, v);
      (r.ok ==> ty !in {TGroup, TArray, TList} && (items == [] || TypeOf(items[0]) == ty)) &&
      (s.Prim? && (items == [] || TypeOf(items[0]) == ty) ==>
        r == Saved(Array(items + [Leaf(ToScalar(s.p, v))]), true)) &&
      (items != [] && TypeOf(items[0]) != ty ==> r == Saved(Array(items), false))
  {
    hide ToScalar;
  }

  // A set of scalars can be saved only when it is empty: each element is put into a group.
  lemma SetSavesIff(p: Prim, vs: seq<Value>, t: Tree)
    requires WellTyped(SetOf(Prim(p)), L(vs))
    ensures Put(SetOf(Prim(p)), L(vs), t).ok <==> vs == []
  {
    if vs != [] { assert !Put(Prim(p), vs[0], New(TGroup)).ok; }
  }

  // A group with anything to save cannot be saved over a setting that is no group, which
  // then stays as it was.
  lemma {:induction false} NoGroupNoSave(s: Schema, v: Value, t: Tree)
    requires s.GroupOf? && WellTyped(s, v) && !t.Group?
    ensures Put(s, v, t) == Saved(t, s.sign.None? && forall i :: 0 <= i < |v.fields| ==> v.fields[i].None?)
  {
    if s.sign.None? { NoFieldSaved(s.fields, v.fields, t); }
  }

  lemma {:induction false} NoFieldSaved(fields: seq<Field>, vals: seq<Option<Value>>, t: Tree)
    requires |vals| == |fields| && !t.Group?
    requires forall i :: 0 <= i < |fields| && vals[i].Some? ==> WellTyped(fields[i].schema, vals[i].value)
    ensures PutFields(fields, vals, t) == Saved(t, forall i :: 0 <= i < |vals| ==> vals[i].None?)
  {
    if fields != [] { NoFieldSaved(fields[1..], vals[1..], t); }
  }
}
