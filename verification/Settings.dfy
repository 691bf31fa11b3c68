// The in-memory libconfig tree and the operations the configuration code performs on it.
// None stands for a thrown libconfig::SettingException.
module Settings {
  import opened Options

  datatype Scalar =
    | Bool(b: bool)
    | Int(i: int)
    | Int64(j: int)
    | Float(r: real)
    | Str(s: string)

  datatype Type = TBool | TInt | TInt64 | TFloat | TString | TGroup | TArray | TList

  datatype Tree =
    | Leaf(value: Scalar)
    | Group(members: seq<Member>)
    | Array(items: seq<Tree>)
    | List(elems: seq<Tree>)

  datatype Member = Member(name: string, tree: Tree)

  function TypeOf(t: Tree): Type {
    match t
    case Leaf(Bool(_)) => TBool
    case Leaf(Int(_)) => TInt
    case Leaf(Int64(_)) => TInt64
    case Leaf(Float(_)) => TFloat
    case Leaf(Str(_)) => TString
    case Group(_) => TGroup
    case Array(_) => TArray
    case List(_) => TList
  }

  predicate IsScalarType(ty: Type) {
    ty != TGroup && ty != TArray && ty != TList
  }

  // A setting as Setting::add leaves it.
  function New(ty: Type): (t: Tree)
    ensures TypeOf(t) == ty
  {
    match ty
    case TBool => Leaf(Bool(false))
    case TInt => Leaf(Int(0))
    case TInt64 => Leaf(Int64(0))
    case TFloat => Leaf(Float(0.0))
    case TString => Leaf(Str(""))
    case TGroup => Group([])
    case TArray => Array([])
    case TList => List([])
  }

  // The children that getLength() and operator[] enumerate; a scalar has none.
  function Children(t: Tree): seq<Tree> {
    match t
    case Leaf(_) => []
    case Group(ms) => seq(|ms|, i requires 0 <= i < |ms| => ms[i].tree)
    case Array(items) => items
    case List(elems) => elems
  }

  // Position of the member called name, or the length when there is none.
  function IndexOf(ms: seq<Member>, name: string): (k: nat)
    ensures k <= |ms|
    ensures k < |ms| ==> ms[k].name == name
    ensures forall i :: 0 <= i < k ==> ms[i].name != name
  {
    if ms == [] then 0
    else if ms[0].name == name then 0
    else 1 + IndexOf(ms[1..], name)
  }

  predicate Exists(t: Tree, name: string) {
    t.Group? && IndexOf(t.members, name) < |t.members|
  }

  function Lookup(t: Tree, name: string): Option<Tree> {
    if Exists(t, name) then Some(t.members[IndexOf(t.members, name)].tree) else None
  }

  // libconfig never lets a group hold two members of one name.
  ghost predicate UniqueNames(t: Tree) {
    t.Group? && forall i, j :: 0 <= i < j < |t.members| ==> t.members[i].name != t.members[j].name
  }

  function AddMember(t: Tree, name: string, ty: Type): Option<Tree> {
    if !t.Group? || Exists(t, name) then None
    else Some(Group(t.members + [Member(name, New(ty))]))
  }

  function RemoveMember(t: Tree, name: string): Option<Tree> {
    if !Exists(t, name) then None
    else var k := IndexOf(t.members, name);
         Some(Group(t.members[..k] + t.members[k + 1..]))
  }

  // Assigning through the reference returned by lookup.
  function SetMember(t: Tree, name: string, child: Tree): Tree
    requires Exists(t, name)
  {
    var k := IndexOf(t.members, name);
    Group(t.members[k := Member(name, child)])
  }

  // Setting::add(type): an array takes scalars only, all of one type.
  predicate AcceptsElem(t: Tree, ty: Type) {
    match t
    case List(_) => true
    case Array(items) => if items == [] then IsScalarType(ty) else ty == TypeOf(items[0])
    case _ => false
  }

  // Adding an element and then assigning child through the returned reference.
  function AppendElem(t: Tree, child: Tree): Tree
    requires t.List? || t.Array?
  {
    if t.List? then List(t.elems + [child]) else Array(t.items + [child])
  }

  // Setting::remove(0) repeated until getLength() is zero.
  function Cleared(t: Tree): Tree {
    match t
    case Leaf(_) => t
    case Group(_) => Group([])
    case Array(_) => Array([])
    case List(_) => List([])
  }

  lemma IndexIsUnique(t: Tree, name: string, k: nat)
    requires UniqueNames(t) && k < |t.members| && t.members[k].name == name
    ensures IndexOf(t.members, name) == k
  {
  }

  lemma LookupAfterAdd(t: Tree, name: string, child: Tree)
    requires UniqueNames(t) && !Exists(t, name)
    ensures var u := Group(t.members + [Member(name, child)]);
      UniqueNames(u) && Lookup(u, name) == Some(child) &&
      forall n :: n != name ==> Lookup(u, n) == Lookup(t, n)
  {
    var u := Group(t.members + [Member(name, child)]);
    assert UniqueNames(u);
    IndexIsUnique(u, name, |t.members|);
    forall n | n != name
      ensures Lookup(u, n) == Lookup(t, n)
    {
      if Exists(t, n) { IndexIsUnique(u, n, IndexOf(t.members, n)); }
    }
  }

  lemma LookupAfterRemove(t: Tree, name: string)
    requires UniqueNames(t) && Exists(t, name)
    ensures var u := RemoveMember(t, name).value;
      UniqueNames(u) && !Exists(u, name) &&
      forall n :: n != name ==> Lookup(u, n) == Lookup(t, n)
  {
    RemovedIsGone(t, name);
    forall n | n != name
      ensures Lookup(RemoveMember(t, name).value, n) == Lookup(t, n)
    {
      OthersStay(t, name, n);
    }
  }

  lemma RemovedIsGone(t: Tree, name: string)
    requires UniqueNames(t) && Exists(t, name)
    ensures var u := RemoveMember(t, name).value;
      UniqueNames(u) && !Exists(u, name)
  {
  }

  lemma OthersStay(t: Tree, name: string, n: string)
    requires UniqueNames(t) && Exists(t, name) && n != name
    ensures Lookup(RemoveMember(t, name).value, n) == Lookup(t, n)
  {
    var u := RemoveMember(t, name).value;
    var k := IndexOf(t.members, name);
    RemovedIsGone(t, name);
    if Exists(t, n) {
      var i := IndexOf(t.members, n);
      IndexIsUnique(u, n, if i < k then i else i - 1);
    }
  }

  lemma LookupAfterSet(t: Tree, name: string, child: Tree)
    requires UniqueNames(t) && Exists(t, name)
    ensures var u := SetMember(t, name, child);
      UniqueNames(u) && Lookup(u, name) == Some(child) &&
      forall n :: n != name ==> Lookup(u, n) == Lookup(t, n)
  {
    var u := SetMember(t, name, child);
    var k := IndexOf(t.members, name);
    IndexIsUnique(u, name, k);
    forall n | n != name
      ensures Lookup(u, n) == Lookup(t, n)
    {
      if Exists(t, n) { IndexIsUnique(u, n, IndexOf(t.members, n)); }
    }
  }
}
