// EventHandlerList: handlers are added at the front at any time; removal is deferred while
// any run over the list is active.
module EventHandlers {
  import opened Options
  import opened Sequences

  // A list node; the id stands for its address and for the handler in it.
  datatype Node = Node(id: nat, enabled: bool)

  function Ids(list: seq<Node>): seq<nat> {
    seq(|list|, i requires 0 <= i < |list| => list[i].id)
  }

  // What cleanup keeps.
  function Enabled(list: seq<Node>): seq<Node> {
    if list == [] then []
    else (if list[0].enabled then [list[0]] else []) + Enabled(list[1..])
  }

  function Erased(list: seq<Node>, id: nat): seq<Node> {
    if list == [] then []
    else if list[0].id == id then list[1..]
    else [list[0]] + Erased(list[1..], id)
  }

  function Disabled(list: seq<Node>, id: nat): seq<Node> {
    seq(|list|, i requires 0 <= i < |list| => if list[i].id == id then list[i].(enabled := false) else list[i])
  }

  class HandlerList {
    var list: seq<Node>
    var nextId: nat

    constructor ()
      ensures list == [] && nextId == 0
    {
      list, nextId := [], 0;
    }

    method Add() returns (id: nat)
      modifies this
      ensures id == old(nextId) && nextId == id + 1
      ensures list == [Node(id, true)] + old(list)
    {
      id := nextId;
      list, nextId := [Node(id, true)] + list, id + 1;
    }

    // remove; exclusive is whether the try-lock succeeded.
    method Remove(id: nat, exclusive: bool)
      modifies this`list
      ensures list == if exclusive then Erased(old(list), id) else Disabled(old(list), id)
    {
      if exclusive { Erase(id); } else { list := Disabled(list, id); }
    }

    // std::list::erase
    method Erase(id: nat)
      modifies this`list
      ensures list == Erased(old(list), id)
    {
      hide Erased;
      var i := 0;
      ErasedFrom(list, id, 0);
      while i < |list| && list[i].id != id
        invariant 0 <= i <= |list| && list == old(list)
        invariant Erased(list, id) == list[..i] + Erased(list[i..], id)
      {
        ErasedFrom(list, id, i);
        i := i + 1;
      }
      ErasedFrom(list, id, i);
      if i < |list| { list := list[..i] + list[i + 1..]; }
    }

    // cleanup, when its try-lock succeeded: collect the disabled nodes, then erase each.
    method Cleanup()
      requires Distinct(list)
      modifies this`list
      ensures list == Enabled(old(list))
    {
      var toRemove := CollectDisabled();
      EraseAll(toRemove);
      NoneDisabled(list);
    }

    method CollectDisabled() returns (toRemove: seq<Node>)
      ensures toRemove == DisabledNodes(list)
    {
      hide DisabledNodes;
      toRemove := [];
      NothingLeft(list);
      for i := 0 to |list|
        invariant toRemove + DisabledNodes(list[i..]) == DisabledNodes(list)
      {
        OneCollected(list, i, toRemove);
        if !list[i].enabled { toRemove := toRemove + [list[i]]; }
      }
    }

    method EraseAll(toRemove: seq<Node>)
      requires Distinct(list) && toRemove == DisabledNodes(list)
      modifies this`list
      ensures Enabled(list) == Enabled(old(list)) && DisabledNodes(list) == []
    {
      hide DisabledNodes, Enabled, Erased, Distinct;
      for i := 0 to |toRemove|
        invariant Distinct(list) && Enabled(list) == Enabled(old(list))
        invariant DisabledNodes(list) == toRemove[i..]
      {
        EraseFirstDisabled(list);
        assert toRemove[i..][1..] == toRemove[i + 1..];
        Erase(toRemove[i].id);
      }
    }
  }

  // Erasing from position i on either takes its node or goes past it.
  lemma ErasedFrom(list: seq<Node>, id: nat, i: nat)
    requires i <= |list|
    ensures list[..0] + list[0..] == list == list[0..]
    ensures i == |list| ==> list[..i] + Erased(list[i..], id) == list
    ensures i < |list| && list[i].id == id ==> Erased(list[i..], id) == list[i + 1..]
    ensures i < |list| && list[i].id != id ==>
      list[..i] + Erased(list[i..], id) == list[..i + 1] + Erased(list[i + 1..], id)
  {
    if i < |list| {
      assert list[i..][1..] == list[i + 1..] && list[..i] + [list[i]] == list[..i + 1];
    }
  }

  lemma NothingLeft(list: seq<Node>)
    ensures list[0..] == list && list[|list|..] == [] && DisabledNodes([]) == []
  {
  }

  lemma OneCollected(list: seq<Node>, i: nat, found: seq<Node>)
    requires i < |list|
    ensures found + DisabledNodes(list[i..]) ==
      (if list[i].enabled then found else found + [list[i]]) + DisabledNodes(list[i + 1..])
  {
    assert list[i..][1..] == list[i + 1..];
  }

  ghost predicate Distinct(list: seq<Node>) {
    forall i, j :: 0 <= i < j < |list| ==> list[i].id != list[j].id
  }

  function DisabledNodes(list: seq<Node>): seq<Node> {
    if list == [] then []
    else (if list[0].enabled then [] else [list[0]]) + DisabledNodes(list[1..])
  }

  lemma {:induction false} ErasedIsPart(list: seq<Node>, id: nat)
    requires Distinct(list)
    ensures Distinct(Erased(list, id))
    ensures forall n :: n in Erased(list, id) ==> n in list && n.id != id
    ensures forall n :: n in list && n.id != id ==> n in Erased(list, id)
  {
    if list != [] && list[0].id != id {
      ErasedIsPart(list[1..], id);
      DistinctCons(list[0], Erased(list[1..], id));
    }
  }

  lemma DistinctCons(node: Node, rest: seq<Node>)
    requires Distinct(rest) && forall n :: n in rest ==> n.id != node.id
    ensures Distinct([node] + rest)
  {
    assert forall j :: 0 < j < |rest| + 1 ==> ([node] + rest)[j] == rest[j - 1] && rest[j - 1] in rest;
  }

  lemma {:induction false} EraseFirstDisabled(list: seq<Node>)
    requires Distinct(list) && DisabledNodes(list) != []
    ensures DisabledNodes(list)[0] in list
    ensures var left := Erased(list, DisabledNodes(list)[0].id);
      Distinct(left) && Enabled(left) == Enabled(list) && DisabledNodes(left) == DisabledNodes(list)[1..]
  {
    if list[0].enabled { EraseFirstDisabled(list[1..]); }
    ErasedIsPart(list, DisabledNodes(list)[0].id);
  }

  lemma {:induction false} NoneDisabled(list: seq<Node>)
    requires DisabledNodes(list) == []
    ensures Enabled(list) == list
  {
    if list != [] { NoneDisabled(list[1..]); }
  }

  // A cleanup keeps exactly the enabled nodes and collects exactly the others,
  lemma {:induction false} CleanupSplits(list: seq<Node>)
    ensures forall n :: n in Enabled(list) <==> n in list && n.enabled
    ensures forall n :: n in DisabledNodes(list) <==> n in list && !n.enabled
    ensures |Enabled(list)| + |DisabledNodes(list)| == |list|
  {
    if list != [] { CleanupSplits(list[1..]); }
  }

  // and both in their order.
  lemma {:induction false} CleanupKeepsOrder(list: seq<Node>, more: seq<Node>)
    ensures Enabled(list + more) == Enabled(list) + Enabled(more)
    ensures DisabledNodes(list + more) == DisabledNodes(list) + DisabledNodes(more)
  {
    hide Enabled, DisabledNodes;
    if list == [] {
      NoneFirst();
      assert list + more == more;
    } else {
      var first, rest := list[0], list[1..];
      CleanupKeepsOrder(rest, more);
      OneFirst(list);
      AllButFirst(list, more);
      OneFirst(list + more);
      Associate([first], Enabled(rest), Enabled(more));
      Associate([first], DisabledNodes(rest), DisabledNodes(more));
    }
  }

  lemma NoneFirst()
    ensures Enabled([]) == [] == DisabledNodes([])
  {
  }

  lemma OneFirst(list: seq<Node>)
    requires list != []
    ensures Enabled(list) == if list[0].enabled then [list[0]] + Enabled(list[1..]) else Enabled(list[1..])
    ensures DisabledNodes(list) ==
      if list[0].enabled then DisabledNodes(list[1..]) else [list[0]] + DisabledNodes(list[1..])
  {
  }

  // ---- All interleavings ----

  // A walk over the list: the ids it found at its start, those it has passed, those it
  // picked, and the node its iterator is at; None is end().
  datatype Run = Run(start: seq<nat>, visited: seq<nat>, picked: seq<nat>, at: Option<nat>)

  // The shared_mutex.
  datatype Mutex = Mutex(exclusive: bool, shared: set<nat>)

  // What the thread that has the mutex to itself is doing: a remove before and after its
  // erase, or a cleanup collecting and erasing. dead holds the handlers that were disabled
  // when the cleanup began.
  datatype Owner =
    | Removing(id: nat)
    | Removed(id: nat)
    | Collecting(walk: Run, dead: set<nat>)
    | Erasing(todo: seq<nat>, dead: set<nat>)

  // claimed holds the ids for which remove has been called, removed those for which it has
  // returned.
  datatype State = State(list: seq<Node>, nextId: nat, mutex: Mutex, owner: Option<Owner>,
                         runs: map<nat, Run>, claimed: set<nat>, removed: set<nat>)

  datatype Event =
    | Add
    | Remove(id: nat, locked: bool)
    | EraseRemoved
    | Cleanup
    | Collect
    | Collected
    | EraseNext
    | Unlock
    | Begin(run: nat)
    | Visit(run: nat)
    | End(run: nat)

  const EMPTY := State([], 0, Mutex(false, {}), None, map[], {}, {})

  function PositionOf(list: seq<Node>, id: nat): (k: nat)
    ensures k <= |list|
    ensures k < |list| ==> list[k].id == id
    ensures forall i :: 0 <= i < k ==> list[i].id != id
  {
    if list == [] || list[0].id == id then 0 else 1 + PositionOf(list[1..], id)
  }

  function IdAt(list: seq<Node>, k: nat): Option<nat> {
    if k < |list| then Some(list[k].id) else None
  }

  // One step of a walk over a node, which it picks or not.
  function Advanced(list: seq<Node>, r: Run, pick: bool): Run
    requires r.at.Some? && PositionOf(list, r.at.value) < |list|
  {
    Run(r.start, r.visited + [r.at.value], r.picked + if pick then [r.at.value] else [],
        IdAt(list, PositionOf(list, r.at.value) + 1))
  }

  function StartOf(list: seq<Node>): Run {
    Run(Ids(list), [], [], IdAt(list, 0))
  }

  predicate CanLock(m: Mutex) {
    !m.exclusive && m.shared == {}
  }

  predicate AtNode(list: seq<Node>, r: Run) {
    r.at.Some? && PositionOf(list, r.at.value) < |list|
  }

  function DisabledIds(list: seq<Node>): set<nat> {
    set n | n in list && !n.enabled :: n.id
  }

  // A try-lock may fail even when the mutex is free. Each access to the list or to a flag
  // is one event, and so is each operation on the mutex.
  function Next(st: State, e: Event): Option<State> {
    match e
    case Add => Some(st.(list := [Node(st.nextId, true)] + st.list, nextId := st.nextId + 1))
    case Remove(id, locked) =>
      if id in st.claimed || PositionOf(st.list, id) == |st.list| || (locked && !CanLock(st.mutex)) then None
      else if locked then
        Some(st.(mutex := st.mutex.(exclusive := true), owner := Some(Removing(id)), claimed := st.claimed + {id}))
      else
        Some(st.(list := Disabled(st.list, id), claimed := st.claimed + {id}, removed := st.removed + {id}))
    case EraseRemoved =>
      if !(st.owner.Some? && st.owner.value.Removing?) then None
      else Some(st.(list := Erased(st.list, st.owner.value.id), owner := Some(Removed(st.owner.value.id))))
    case Cleanup =>
      if !CanLock(st.mutex) then None
      else Some(st.(mutex := st.mutex.(exclusive := true),
                    owner := Some(Collecting(StartOf(st.list), DisabledIds(st.list)))))
    case Collect =>
      if !(st.owner.Some? && st.owner.value.Collecting? && AtNode(st.list, st.owner.value.walk)) then None
      else
        var w := st.owner.value.walk;
        var dead := !st.list[PositionOf(st.list, w.at.value)].enabled;
        Some(st.(owner := Some(Collecting(Advanced(st.list, w, dead), st.owner.value.dead))))
    case Collected =>
      if !(st.owner.Some? && st.owner.value.Collecting? && st.owner.value.walk.at.None?) then None
      else Some(st.(owner := Some(Erasing(st.owner.value.walk.picked, st.owner.value.dead))))
    case EraseNext =>
      if !(st.owner.Some? && st.owner.value.Erasing? && st.owner.value.todo != []) then None
      else
        var todo := st.owner.value.todo;
        Some(st.(list := Erased(st.list, todo[0]), owner := Some(Erasing(todo[1..], st.owner.value.dead))))
    case Unlock =>
      if !(st.owner.Some? && CanUnlock(st.owner.value)) then None
      else
        var o := st.owner.value;
        Some(st.(mutex := st.mutex.(exclusive := false), owner := None,
                 removed := if o.Removed? then st.removed + {o.id} else st.removed))
    case Begin(run) =>
      if run in st.runs || st.mutex.exclusive then None
      else Some(st.(mutex := st.mutex.(shared := st.mutex.shared + {run}), runs := st.runs[run := StartOf(st.list)]))
    case Visit(run) =>
      if run !in st.runs || !AtNode(st.list, st.runs[run]) then None
      else
        var r := st.runs[run];
        var enabled := st.list[PositionOf(st.list, r.at.value)].enabled;
        Some(st.(runs := st.runs[run := Advanced(st.list, r, enabled)]))
    case End(run) =>
      if run !in st.runs || st.runs[run].at.Some? then None
      else Some(st.(mutex := st.mutex.(shared := st.mutex.shared - {run}), runs := st.runs - {run}))
  }

  predicate CanUnlock(o: Owner) {
    o.Removed? || (o.Erasing? && o.todo == [])
  }

  function After(events: seq<Event>): Option<State> {
    if events == [] then Some(EMPTY)
    else
      var before := After(events[..|events| - 1]);
      if before.None? then None else Next(before.value, events[|events| - 1])
  }

  // Every handler present when the walk started is still in the list, in the same order,
  // behind those added since; the iterator is at the first one not yet visited.
  ghost predicate RunInv(list: seq<Node>, r: Run) {
    |r.start| <= |list| &&
    (forall i :: 0 <= i < |r.start| ==> r.start[i] == list[|list| - |r.start| + i].id) &&
    |r.visited| <= |r.start| && r.visited == r.start[..|r.visited|] &&
    r.at == if |r.visited| < |r.start| then Some(r.start[|r.visited|]) else None
  }

  // The mutex is held by those who act under it, and never both ways.
  ghost predicate MutexInv(st: State) {
    && st.mutex.shared == st.runs.Keys
    && (st.mutex.exclusive <==> st.owner.Some?)
    && (st.mutex.exclusive ==> st.mutex.shared == {})
  }

  ghost predicate ListInv(list: seq<Node>, nextId: nat, claimed: set<nat>, removed: set<nat>) {
    forall n :: n in list ==>
      n.id < nextId && (n.id in removed ==> !n.enabled) && (!n.enabled ==> n.id in claimed)
  }

  ghost predicate IsDead(list: seq<Node>, id: nat) {
    Node(id, false) in list
  }

  ghost predicate AllDead(list: seq<Node>, ids: seq<nat>) {
    && (forall i, j :: 0 <= i < j < |ids| ==> ids[i] != ids[j])
    && (forall id :: id in ids ==> IsDead(list, id))
  }

  ghost predicate OwnerInv(list: seq<Node>, claimed: set<nat>, removed: set<nat>, o: Owner) {
    match o
    case Removing(id) => id in claimed && id !in removed && exists n :: n in list && n.id == id
    case Removed(id) => id in claimed && forall n :: n in list ==> n.id != id
    case Collecting(w, dead) =>
      dead <= claimed && RunInv(list, w) && AllDead(list, w.picked) &&
      (forall id :: id in w.picked ==> id in w.visited) &&
      forall id :: id in dead ==> IsDead(list, id) && id in w.start && (id in w.visited ==> id in w.picked)
    case Erasing(todo, dead) =>
      dead <= claimed && AllDead(list, todo) &&
      forall id :: id in dead ==> id in todo || forall n :: n in list ==> n.id != id
  }

  ghost predicate Inv(st: State) {
    && Distinct(st.list)
    && ListInv(st.list, st.nextId, st.claimed, st.removed)
    && (forall id :: id in st.claimed ==> id < st.nextId)
    && st.removed <= st.claimed
    && MutexInv(st)
    && (forall run :: run in st.runs ==> RunInv(st.list, st.runs[run]))
    && (st.owner.Some? ==> OwnerInv(st.list, st.claimed, st.removed, st.owner.value))
  }

  lemma PositionIs(list: seq<Node>, id: nat, k: nat)
    requires Distinct(list) && k < |list| && list[k].id == id
    ensures PositionOf(list, id) == k
  {
  }

  lemma RunInvNext(list: seq<Node>, r: Run, k: nat, picked: seq<nat>)
    requires RunInv(list, r) && r.at.Some? && k == |list| - |r.start| + |r.visited|
    ensures k < |list| && list[k].id == r.at.value
    ensures RunInv(list, Run(r.start, r.visited + [r.at.value], picked, IdAt(list, k + 1)))
  {
    var n := |r.visited|;
    assert r.start[n] == list[k].id;
    assert r.visited + [r.at.value] == r.start[..n + 1];
    if n + 1 < |r.start| { assert r.start[n + 1] == list[k + 1].id; }
  }

  lemma RunInvBounds(list: seq<Node>, r: Run)
    requires RunInv(list, r)
    ensures |r.visited| <= |r.start| <= |list|
  {
  }

  // The iterator's node is found where the run expects it, and ++ leads to the next one.
  lemma RunAdvances(list: seq<Node>, r: Run, pick: bool)
    requires Distinct(list) && RunInv(list, r) && r.at.Some?
    ensures PositionOf(list, r.at.value) == |list| - |r.start| + |r.visited|
    ensures RunInv(list, Advanced(list, r, pick))
  {
    hide RunInv;
    RunInvBounds(list, r);
    var k := |list| - |r.start| + |r.visited|;
    RunInvNext(list, r, k, r.picked + if pick then [r.at.value] else []);
    PositionIs(list, r.at.value, k);
  }

  lemma StartInv(list: seq<Node>)
    ensures RunInv(list, StartOf(list))
  {
  }

  // ---- Adding and disabling keep every walk ----

  lemma AddKeepsRun(list: seq<Node>, id: nat, r: Run)
    requires RunInv(list, r)
    ensures RunInv([Node(id, true)] + list, r)
  {
  }

  lemma DisabledKeepsRun(list: seq<Node>, id: nat, r: Run)
    requires RunInv(list, r)
    ensures RunInv(Disabled(list, id), r)
  {
  }

  lemma DisabledIs(list: seq<Node>, id: nat)
    ensures |Disabled(list, id)| == |list|
    ensures forall n :: n in Disabled(list, id) ==> (n in list && n.id != id) || n == Node(id, false)
    ensures forall n :: n in list ==> (if n.id == id then Node(id, false) else n) in Disabled(list, id)
  {
    forall n | n in list
      ensures (if n.id == id then Node(id, false) else n) in Disabled(list, id)
    {
      var i :| 0 <= i < |list| && list[i] == n;
      assert Disabled(list, id)[i] == if n.id == id then Node(id, false) else n;
    }
  }

  lemma AddKeepsOwner(list: seq<Node>, id: nat, claimed: set<nat>, removed: set<nat>, o: Owner)
    requires OwnerInv(list, claimed, removed, o) && id !in claimed
    requires forall c :: c in claimed ==> c < id
    ensures OwnerInv([Node(id, true)] + list, claimed, removed, o)
  {
    var added := [Node(id, true)] + list;
    assert forall n :: n in added <==> n == Node(id, true) || n in list;
    if o.Collecting? { AddKeepsRun(list, id, o.walk); }
    if o.Removing? {
      var n :| n in list && n.id == o.id;
      assert n in added;
    }
  }

  lemma DisabledKeepsOwner(list: seq<Node>, id: nat, claimed: set<nat>, removed: set<nat>, o: Owner)
    requires OwnerInv(list, claimed, removed, o) && id !in claimed
    requires forall n :: n in list && !n.enabled ==> n.id in claimed
    ensures OwnerInv(Disabled(list, id), claimed + {id}, removed + {id}, o)
  {
    DisabledIs(list, id);
    if o.Collecting? { DisabledKeepsRun(list, id, o.walk); }
    if o.Removing? {
      var n :| n in list && n.id == o.id;
      assert n in Disabled(list, id);
    }
    if o.Removed? {
      assert forall n :: n in list ==> n.id != o.id;
      assert forall n :: n in Disabled(list, id) ==> n.id != o.id || n == Node(id, false);
    }
  }

  // ---- Every event keeps the invariant ----

  lemma AddKeepsInv(st: State)
    requires Inv(st)
    ensures Inv(Next(st, Add).value)
  {
    var added := [Node(st.nextId, true)] + st.list;
    assert forall n :: n in added <==> n == Node(st.nextId, true) || n in st.list;
    DistinctCons(Node(st.nextId, true), st.list);
    if st.owner.Some? { AddKeepsOwner(st.list, st.nextId, st.claimed, st.removed, st.owner.value); }
    forall run | run in st.runs ensures RunInv(added, st.runs[run]) {
      AddKeepsRun(st.list, st.nextId, st.runs[run]);
    }
  }

  lemma DisableKeepsInv(st: State, id: nat)
    requires Inv(st) && Next(st, Remove(id, false)).Some?
    ensures Inv(Next(st, Remove(id, false)).value)
  {
    DisabledIs(st.list, id);
    DisabledKeepsLists(st, id);
    if st.owner.Some? { DisabledKeepsOwner(st.list, id, st.claimed, st.removed, st.owner.value); }
    forall run | run in st.runs ensures RunInv(Disabled(st.list, id), st.runs[run]) {
      DisabledKeepsRun(st.list, id, st.runs[run]);
    }
  }

  lemma DisabledKeepsLists(st: State, id: nat)
    requires Inv(st) && Next(st, Remove(id, false)).Some?
    ensures Distinct(Disabled(st.list, id)) && id < st.nextId
    ensures ListInv(Disabled(st.list, id), st.nextId, st.claimed + {id}, st.removed + {id})
  {
    DisabledIs(st.list, id);
    assert st.list[PositionOf(st.list, id)] in st.list;
  }

  lemma LockRemoveKeepsInv(st: State, id: nat)
    requires Inv(st) && Next(st, Remove(id, true)).Some?
    ensures Inv(Next(st, Remove(id, true)).value)
  {
    var n := st.list[PositionOf(st.list, id)];
    assert n in st.list && n.id == id;
  }

  lemma EraseRemovedKeepsInv(st: State)
    requires Inv(st) && Next(st, EraseRemoved).Some?
    ensures Inv(Next(st, EraseRemoved).value)
  {
    ErasedIsPart(st.list, st.owner.value.id);
  }

  lemma CleanupKeepsInv(st: State)
    requires Inv(st) && Next(st, Cleanup).Some?
    ensures Inv(Next(st, Cleanup).value)
  {
    StartInv(st.list);
    forall id | id in DisabledIds(st.list)
      ensures IsDead(st.list, id) && id in Ids(st.list) && id in st.claimed
    {
      var n :| n in st.list && !n.enabled && n.id == id;
      assert n == Node(id, false);
      var i :| 0 <= i < |st.list| && st.list[i] == n;
      assert Ids(st.list)[i] == id;
    }
  }

  lemma CollectKeepsInv(st: State)
    requires Inv(st) && Next(st, Collect).Some?
    ensures Inv(Next(st, Collect).value)
  {
    CollectKeepsOwner(st.list, st.claimed, st.removed, st.owner.value.walk, st.owner.value.dead);
  }

  lemma CollectKeepsOwner(list: seq<Node>, claimed: set<nat>, removed: set<nat>, w: Run, dead: set<nat>)
    requires Distinct(list) && OwnerInv(list, claimed, removed, Collecting(w, dead)) && AtNode(list, w)
    ensures var pick := !list[PositionOf(list, w.at.value)].enabled;
      OwnerInv(list, claimed, removed, Collecting(Advanced(list, w, pick), dead))
  {
    var n := list[PositionOf(list, w.at.value)];
    assert n in list && n.id == w.at.value;
    var w' := Advanced(list, w, !n.enabled);
    RunAdvances(list, w, !n.enabled);
    NotYetVisited(list, w);
    hide RunInv, Distinct, PositionOf, IdAt, AllDead;
    DeadStayDue(list, w, w', n, dead);
    if n.enabled {
      assert w'.picked == w.picked;
    } else {
      assert n == Node(n.id, false);
      OneMoreDead(list, w.picked, n.id);
    }
  }

  lemma DeadStayDue(list: seq<Node>, w: Run, w': Run, n: Node, dead: set<nat>)
    requires Distinct(list) && n in list && w'.visited == w.visited + [n.id] && w'.start == w.start
    requires w'.picked == w.picked + if n.enabled then [] else [n.id]
    requires forall id :: id in w.picked ==> id in w.visited
    requires forall id :: id in dead ==> IsDead(list, id) && id in w.start && (id in w.visited ==> id in w.picked)
    ensures forall id :: id in w'.picked ==> id in w'.visited
    ensures forall id :: id in dead ==> IsDead(list, id) && id in w'.start && (id in w'.visited ==> id in w'.picked)
  {
    if n.id in dead { OneNode(list, n, Node(n.id, false)); }
  }

  lemma OneMoreDead(list: seq<Node>, ids: seq<nat>, id: nat)
    requires AllDead(list, ids) && id !in ids && IsDead(list, id)
    ensures AllDead(list, ids + [id])
  {
  }

  lemma OneNode(list: seq<Node>, m: Node, n: Node)
    requires Distinct(list) && m in list && n in list && m.id == n.id
    ensures m == n
  {
  }

  lemma NotYetVisited(list: seq<Node>, w: Run)
    requires Distinct(list) && RunInv(list, w) && w.at.Some?
    ensures w.at.value !in w.visited
  {
    var shift := |list| - |w.start|;
    assert forall i :: 0 <= i < |w.visited| ==> w.visited[i] == list[shift + i].id;
    assert w.at.value == list[shift + |w.visited|].id;
  }

  lemma EraseNextKeepsInv(st: State)
    requires Inv(st) && Next(st, EraseNext).Some?
    ensures Inv(Next(st, EraseNext).value)
  {
    var todo := st.owner.value.todo;
    ErasedIsPart(st.list, todo[0]);
    assert forall id :: id in todo <==> id == todo[0] || id in todo[1..];
  }

  lemma VisitKeepsInv(st: State, run: nat)
    requires Inv(st) && Next(st, Visit(run)).Some?
    ensures Inv(Next(st, Visit(run)).value)
  {
    var r := st.runs[run];
    RunAdvances(st.list, r, st.list[PositionOf(st.list, r.at.value)].enabled);
  }

  lemma StepKeepsInv(st: State, e: Event)
    requires Inv(st) && Next(st, e).Some?
    ensures Inv(Next(st, e).value)
  {
    match e {
      case Add => AddKeepsInv(st);
      case Remove(id, locked) => if locked { LockRemoveKeepsInv(st, id); } else { DisableKeepsInv(st, id); }
      case EraseRemoved => EraseRemovedKeepsInv(st);
      case Cleanup => CleanupKeepsInv(st);
      case Collect => CollectKeepsInv(st);
      case Collected =>
      case EraseNext => EraseNextKeepsInv(st);
      case Unlock =>
      case Begin(run) => StartInv(st.list);
      case Visit(run) => VisitKeepsInv(st, run);
      case End(run) =>
    }
  }

  lemma {:induction false} Reachable(events: seq<Event>)
    requires After(events).Some?
    ensures Inv(After(events).value)
  {
    if events != [] {
      Reachable(events[..|events| - 1]);
      StepKeepsInv(After(events[..|events| - 1]).value, events[|events| - 1]);
    }
  }

  // ---- What the interleavings guarantee ----

  // The handlers for which remove has not been called.
  ghost predicate UnclaimedListed(st: State) {
    forall id: nat :: id < st.nextId && id !in st.claimed ==> Node(id, true) in st.list
  }

  lemma UnclaimedStays(st: State, e: Event)
    requires Inv(st) && UnclaimedListed(st) && Next(st, e).Some?
    ensures UnclaimedListed(Next(st, e).value)
  {
    hide OwnerInv, RunInv, Advanced, StartOf;
    match e {
      case Add => assert forall n :: n in st.list ==> n in [Node(st.nextId, true)] + st.list;
      case Remove(id, locked) => if !locked { DisabledIs(st.list, id); }
      case EraseRemoved =>
        ErasedIsPart(st.list, st.owner.value.id);
        ErasedIsClaimed(st);
      case EraseNext =>
        ErasedIsPart(st.list, st.owner.value.todo[0]);
        ErasedIsClaimed(st);
      case _ =>
    }
  }

  lemma ErasedIsClaimed(st: State)
    requires Inv(st) && st.owner.Some?
    ensures st.owner.value.Removing? ==> st.owner.value.id in st.claimed
    ensures st.owner.value.Erasing? && st.owner.value.todo != [] ==> st.owner.value.todo[0] in st.claimed
  {
    if st.owner.value.Erasing? && st.owner.value.todo != [] {
      assert IsDead(st.list, st.owner.value.todo[0]);
    }
  }

  lemma {:induction false} UnclaimedIsListed(events: seq<Event>)
    requires After(events).Some?
    ensures UnclaimedListed(After(events).value)
  {
    hide Next, UnclaimedListed, Inv;
    if events == [] {
      NoneClaimed();
    } else {
      var before := events[..|events| - 1];
      UnclaimedIsListed(before);
      Reachable(before);
      UnclaimedStays(After(before).value, events[|events| - 1]);
    }
  }

  lemma NoneClaimed()
    ensures UnclaimedListed(EMPTY)
  {
  }

  // An iterator stays valid until remove is called for it: in every interleaving a handler
  // can be removed exactly when it was added and remove has not been called for it.
  lemma CanRemoveIff(events: seq<Event>, id: nat, locked: bool)
    requires After(events).Some?
    ensures var st := After(events).value;
      (id < st.nextId && id !in st.claimed ==> Node(id, true) in st.list) &&
      (Next(st, Remove(id, locked)).Some? <==>
        id < st.nextId && id !in st.claimed && (locked ==> st.owner == None && st.runs == map[]))
  {
    UnclaimedIsListed(events);
    Reachable(events);
    var st := After(events).value;
    assert st.runs.Keys == {} <==> st.runs == map[];
    if PositionOf(st.list, id) < |st.list| { assert st.list[PositionOf(st.list, id)] in st.list; }
  }

  // In every interleaving a node leaves the list only by a thread that has the mutex to
  // itself, and then no run is active.
  lemma ErasedOnlyWhenIdle(events: seq<Event>, e: Event, n: Node)
    requires After(events).Some? && Next(After(events).value, e).Some? && n in After(events).value.list
    requires forall m :: m in Next(After(events).value, e).value.list ==> m.id != n.id
    ensures var st := After(events).value;
      (e == EraseRemoved || e == EraseNext) && st.mutex.exclusive && st.runs == map[]
  {
    Reachable(events);
    var st := After(events).value;
    match e {
      case Remove(id, locked) => if !locked { DisabledIs(st.list, id); }
      case _ =>
    }
    assert st.runs.Keys == {} ==> st.runs == map[];
  }

  // A cleanup can begin exactly when no other thread has the mutex to itself and no run is
  // active, and a run exactly when no thread has it to itself.
  lemma CanLockIff(events: seq<Event>, run: nat)
    requires After(events).Some?
    ensures var st := After(events).value;
      (Next(st, Cleanup).Some? <==> st.owner == None && st.runs == map[]) &&
      (run !in st.runs ==> (Next(st, Begin(run)).Some? <==> st.owner == None))
  {
    Reachable(events);
    var st := After(events).value;
    assert st.runs.Keys == {} <==> st.runs == map[];
  }

  // A cleanup erases every handler that was disabled when it began, and none that is
  // enabled, whatever was added or disabled meanwhile.
  lemma CleanupIsComplete(events: seq<Event>)
    requires After(events).Some? && After(events).value.owner.Some?
    ensures var st := After(events).value;
      match st.owner.value
      case Erasing(todo, dead) =>
        (forall id :: id in todo ==> IsDead(st.list, id)) &&
        (todo == [] ==> forall n :: n in st.list ==> n.id !in dead)
      case Collecting(w, dead) => forall id :: id in dead ==> IsDead(st.list, id)
      case _ => true
  {
    Reachable(events);
  }

  // A run visits exactly the handlers present at its start, once each, newest first.
  lemma RunVisitsItsStart(events: seq<Event>, run: nat)
    requires After(events).Some? && run in After(events).value.runs
    ensures var r := After(events).value.runs[run];
      r.visited <= r.start && (r.at.None? <==> r.visited == r.start) &&
      (forall i, j :: 0 <= i < j < |r.start| ==> r.start[i] > r.start[j])
  {
    Reachable(events);
    NewestFirst(events);
    StartDescends(After(events).value.list, After(events).value.runs[run]);
  }

  lemma StartDescends(list: seq<Node>, r: Run)
    requires RunInv(list, r) && Descending(list)
    ensures r.visited <= r.start && (r.at.None? <==> r.visited == r.start)
    ensures forall i, j :: 0 <= i < j < |r.start| ==> r.start[i] > r.start[j]
  {
    var shift := |list| - |r.start|;
    assert forall i :: 0 <= i < |r.start| ==> r.start[i] == list[shift + i].id;
  }

  lemma {:induction false} NewestFirst(events: seq<Event>)
    requires After(events).Some?
    ensures Descending(After(events).value.list)
  {
    if events != [] {
      var before := events[..|events| - 1];
      NewestFirst(before);
      Reachable(before);
      StaysDescending(After(before).value, events[|events| - 1]);
    }
  }

  lemma StaysDescending(st: State, e: Event)
    requires Inv(st) && Descending(st.list) && Next(st, e).Some?
    ensures Descending(Next(st, e).value.list)
  {
    match e {
      case Add => assert forall i :: 0 <= i < |st.list| ==> st.list[i] in st.list;
      case EraseRemoved => ErasedDescends(st.list, st.owner.value.id);
      case EraseNext => ErasedDescends(st.list, st.owner.value.todo[0]);
      case Remove(id, locked) => if !locked { DisabledDescends(st.list, id); }
      case _ =>
    }
  }

  lemma DisabledDescends(list: seq<Node>, id: nat)
    requires Descending(list)
    ensures Descending(Disabled(list, id))
  {
  }

  ghost predicate Descending(list: seq<Node>) {
    forall i, j :: 0 <= i < j < |list| ==> list[i].id > list[j].id
  }

  lemma {:induction false} ErasedDescends(list: seq<Node>, id: nat)
    requires Descending(list)
    ensures Descending(Erased(list, id))
  {
    if list != [] && list[0].id != id {
      ErasedDescends(list[1..], id);
      ErasedIsPart(list[1..], id);
      var rest := Erased(list[1..], id);
      assert forall j :: 0 <= j < |rest| ==> rest[j] in list[1..];
    }
  }

  // Once remove has returned, no visit of any run calls the handler, even if the run
  // started before.
  lemma RemovedIsNotCalled(events: seq<Event>, run: nat)
    requires After(events).Some? && Next(After(events).value, Visit(run)).Some?
    ensures var st := After(events).value;
      var st' := Next(st, Visit(run)).value;
      st'.runs[run].picked == st.runs[run].picked ||
      (st'.runs[run].picked == st.runs[run].picked + [st.runs[run].at.value] &&
       st.runs[run].at.value !in st.removed)
  {
    Reachable(events);
    var st := After(events).value;
    var k := PositionOf(st.list, st.runs[run].at.value);
    assert st.list[k] in st.list;
  }

  // ---- Progress ----

  lemma Continue(events: seq<Event>, e: Event)
    requires After(events).Some?
    ensures After(events + [e]) == Next(After(events).value, e)
  {
    assert (events + [e])[..|events|] == events;
  }

  predicate IsOwnerStep(e: Event) {
    e.EraseRemoved? || e.Collect? || e.Collected? || e.EraseNext? || e.Unlock?
  }

  // In every interleaving a thread that has the mutex to itself can take exactly one step,
  // and without one no such step is possible.
  lemma OwnerCanGoOn(events: seq<Event>)
    requires After(events).Some?
    ensures var st := After(events).value;
      ((exists e :: IsOwnerStep(e) && Next(st, e).Some?) <==> st.owner.Some?) &&
      forall e, f :: IsOwnerStep(e) && IsOwnerStep(f) && e != f ==> Next(st, e).None? || Next(st, f).None?
  {
    var st := After(events).value;
    OneStepAtMost(st);
    if st.owner.Some? {
      Reachable(events);
      OwnerHasStep(st);
    }
  }

  lemma OneStepAtMost(st: State)
    ensures forall e :: IsOwnerStep(e) && Next(st, e).Some? ==> st.owner.Some?
    ensures forall e, f :: IsOwnerStep(e) && IsOwnerStep(f) && e != f ==> Next(st, e).None? || Next(st, f).None?
  {
    hide Advanced, Erased;
  }

  lemma OwnerHasStep(st: State)
    requires Inv(st) && st.owner.Some?
    ensures exists e :: IsOwnerStep(e) && Next(st, e).Some?
  {
    hide Advanced, Erased;
    if st.owner.Some? {
      match st.owner.value {
        case Removing(_) => assert Next(st, EraseRemoved).Some?;
        case Removed(_) => assert Next(st, Unlock).Some?;
        case Collecting(w, _) =>
          if w.at.Some? {
            RunAdvances(st.list, w, false);
            assert Next(st, Collect).Some?;
          } else {
            assert Next(st, Collected).Some?;
          }
        case Erasing(todo, _) =>
          if todo == [] { assert Next(st, Unlock).Some?; } else { assert Next(st, EraseNext).Some?; }
      }
    }
  }

  // A run that is active can visit its next handler, which it then calls exactly when it is
  // enabled, or has none left and can end.
  lemma RunCanGoOn(events: seq<Event>, run: nat)
    requires After(events).Some?
    ensures var st := After(events).value;
      (Next(st, Visit(run)).Some? <==> run in st.runs && st.runs[run].at.Some?) &&
      (Next(st, End(run)).Some? <==> run in st.runs && st.runs[run].at.None?) &&
      (Next(st, End(run)).Some? ==> Next(st, End(run)).value.runs == st.runs - {run}) &&
      (Next(st, Visit(run)).Some? ==>
        var r, r' := st.runs[run], Next(st, Visit(run)).value.runs[run];
        r'.start == r.start && r'.visited == r.visited + [r.at.value] &&
        r'.picked == if Node(r.at.value, true) in st.list then r.picked + [r.at.value] else r.picked)
  {
    Reachable(events);
    var st := After(events).value;
    if run in st.runs && st.runs[run].at.Some? {
      var id := st.runs[run].at.value;
      RunAdvances(st.list, st.runs[run], true);
      var n := st.list[PositionOf(st.list, id)];
      assert n in st.list && n.id == id;
      if Node(id, true) in st.list { OneNode(st.list, n, Node(id, true)); }
    }
  }

  // At first there is no handler, no run and no thread with the mutex.
  lemma StartsEmpty()
    ensures var st := After([]);
      st.Some? && st.value.list == [] && st.value.nextId == 0 && st.value.owner == None && st.value.runs == map[] &&
      st.value.claimed == {} == st.value.removed
  {
  }

  // A new handler is at the front and enabled; a remove without the mutex only disables.
  lemma AddAndDisable(events: seq<Event>, id: nat)
    requires After(events).Some?
    ensures var st, added := After(events).value, After(events + [Add]);
      added == Some(st.(list := [Node(st.nextId, true)] + st.list, nextId := st.nextId + 1))
    ensures var st, st' := After(events).value, After(events + [Remove(id, false)]);
      id < st.nextId && id !in st.claimed ==>
        st'.Some? && id in st'.value.removed && st'.value.owner == st.owner && st'.value.runs == st.runs &&
        |st'.value.list| == |st.list| &&
        forall i :: 0 <= i < |st.list| ==>
          st'.value.list[i] == if st.list[i].id == id then Node(id, false) else st.list[i]
  {
    Continue(events, Add);
    Continue(events, Remove(id, false));
    if id < After(events).value.nextId && id !in After(events).value.claimed { CanRemoveIff(events, id, false); }
  }

  // With the mutex a remove takes three steps, and then its handler is gone and no other,
  // and the mutex is free.
  lemma RemoveCompletes(events: seq<Event>, id: nat)
    requires After(events).Some?
    requires var st := After(events).value; id < st.nextId && id !in st.claimed && st.owner == None && st.runs == map[]
    ensures var st, st' := After(events).value, After(events + [Remove(id, true), EraseRemoved, Unlock]);
      st'.Some? && st'.value.owner == None && st'.value.runs == map[] && id in st'.value.removed &&
      exists i :: 0 <= i < |st.list| && st.list[i].id == id && st'.value.list == st.list[..i] + st.list[i + 1..]
  {
    hide After, Next, Erased, PositionOf;
    RemoveIs(events, id);
    var st := After(events).value;
    Continue(events, Remove(id, true));
    Continue(events + [Remove(id, true)], EraseRemoved);
    Continue(events + [Remove(id, true)] + [EraseRemoved], Unlock);
    Associate(events, [Remove(id, true)], [EraseRemoved]);
    Associate(events, [Remove(id, true)] + [EraseRemoved], [Unlock]);
    assert [Remove(id, true)] + [EraseRemoved] + [Unlock] == [Remove(id, true), EraseRemoved, Unlock];
    var i := ErasedAt(st.list, id);
  }

  // The three steps, one by one.
  lemma RemoveIs(events: seq<Event>, id: nat)
    requires After(events).Some?
    requires var st := After(events).value; id < st.nextId && id !in st.claimed && st.owner == None && st.runs == map[]
    ensures var st := After(events).value;
      var begun := st.(mutex := Mutex(true, {}), owner := Some(Removing(id)), claimed := st.claimed + {id});
      var erased := begun.(list := Erased(st.list, id), owner := Some(Removed(id)));
      PositionOf(st.list, id) < |st.list| && Next(st, Remove(id, true)) == Some(begun) &&
      Next(begun, EraseRemoved) == Some(erased) &&
      Next(erased, Unlock) ==
        Some(erased.(mutex := Mutex(false, {}), owner := None, removed := st.removed + {id}))
  {
    hide Erased;
    CanRemoveIff(events, id, true);
    CleanupIs(events);
  }

  lemma {:induction false} ErasedAt(list: seq<Node>, id: nat) returns (i: nat)
    requires PositionOf(list, id) < |list|
    ensures i < |list| && list[i].id == id && Erased(list, id) == list[..i] + list[i + 1..]
  {
    i := 0;
    if list[0].id != id {
      var k := ErasedAt(list[1..], id);
      i := k + 1;
      assert list[..i] == [list[0]] + list[1..][..k] && list[i + 1..] == list[1..][i..];
      Associate([list[0]], list[1..][..k], list[i + 1..]);
    }
  }

  // A walk at position k of the list that it started on, having picked these.
  ghost predicate WalksAt(list: seq<Node>, w: Run, k: nat, picked: seq<Node>) {
    k <= |list| && w.start == Ids(list) && w.visited == Ids(list[..k]) && w.picked == Ids(picked) &&
    w.at == IdAt(list, k)
  }

  lemma WalkStarts(list: seq<Node>)
    ensures WalksAt(list, StartOf(list), 0, [])
  {
  }

  lemma WalkGoesOn(list: seq<Node>, w: Run, k: nat, picked: seq<Node>, pick: bool)
    requires Distinct(list) && WalksAt(list, w, k, picked) && k < |list|
    ensures AtNode(list, w) && PositionOf(list, w.at.value) == k
    ensures WalksAt(list, Advanced(list, w, pick), k + 1, picked + if pick then [list[k]] else [])
  {
    hide Distinct, PositionOf, Ids;
    PositionIs(list, w.at.value, k);
    assert list[..k + 1] == list[..k] + [list[k]];
    IdsAppend(list[..k], list[k]);
    IdsAppend(picked, list[k]);
    assert picked + [] == picked && w.picked + [] == w.picked;
  }

  lemma IdsAppend(list: seq<Node>, n: Node)
    ensures Ids(list + [n]) == Ids(list) + [n.id]
  {
  }

  lemma OneMoreSplit(list: seq<Node>, k: nat)
    requires k < |list|
    ensures Enabled(list[..k + 1]) == Enabled(list[..k]) + if list[k].enabled then [list[k]] else []
    ensures DisabledNodes(list[..k + 1]) == DisabledNodes(list[..k]) + if list[k].enabled then [] else [list[k]]
  {
    assert list[..k + 1] == list[..k] + [list[k]];
    CleanupKeepsOrder(list[..k], [list[k]]);
    assert [list[k]][1..] == [];
  }

  // Left to itself a cleanup collects all the disabled nodes,
  lemma {:induction false} CollectsAll(events: seq<Event>, w: Run, dead: set<nat>, k: nat) returns (more: seq<Event>)
    requires After(events).Some? && After(events).value.owner == Some(Collecting(w, dead))
    requires var list := After(events).value.list;
      Distinct(list) && k <= |list| && WalksAt(list, w, k, DisabledNodes(list[..k]))
    ensures var st := After(events).value;
      After(events + more) == Some(st.(owner := Some(Erasing(Ids(DisabledNodes(st.list)), dead))))
    decreases |After(events).value.list| - k
  {
    hide WalksAt, Distinct, Advanced, PositionOf, DisabledNodes, IdAt, Next, After;
    var st := After(events).value;
    var list := st.list;
    if k < |list| {
      var pick := !list[k].enabled;
      WalkGoesOn(list, w, k, DisabledNodes(list[..k]), pick);
      OneMoreSplit(list, k);
      CollectIs(st, w, dead);
      Continue(events, Collect);
      var rest := CollectsAll(events + [Collect], Advanced(list, w, pick), dead, k + 1);
      more := [Collect] + rest;
      Associate(events, [Collect], rest);
    } else {
      WalkIsOver(list, w, k);
      CollectIs(st, w, dead);
      Continue(events, Collected);
      more := [Collected];
    }
  }

  lemma CollectIs(st: State, w: Run, dead: set<nat>)
    requires st.owner == Some(Collecting(w, dead))
    ensures AtNode(st.list, w) ==>
      var n := st.list[PositionOf(st.list, w.at.value)];
      Next(st, Collect) == Some(st.(owner := Some(Collecting(Advanced(st.list, w, !n.enabled), dead))))
    ensures w.at.None? ==> Next(st, Collected) == Some(st.(owner := Some(Erasing(w.picked, dead))))
  {
  }

  lemma WalkIsOver(list: seq<Node>, w: Run, k: nat)
    requires k == |list| && WalksAt(list, w, k, DisabledNodes(list[..k]))
    ensures w.at.None? && w.picked == Ids(DisabledNodes(list))
  {
    assert list[..k] == list;
  }

  // erases them all,
  lemma {:induction false} ErasesAll(events: seq<Event>, dead: set<nat>) returns (more: seq<Event>)
    requires After(events).Some? && Distinct(After(events).value.list)
    requires var st := After(events).value; st.owner == Some(Erasing(Ids(DisabledNodes(st.list)), dead))
    ensures var st := After(events).value;
      After(events + more) == Some(st.(list := Enabled(st.list), owner := Some(Erasing([], dead))))
    decreases |DisabledNodes(After(events).value.list)|
  {
    hide After, Next, Enabled, DisabledNodes, Distinct, Erased;
    var st := After(events).value;
    var disabled := DisabledNodes(st.list);
    IdsTail(disabled);
    if disabled == [] {
      NoneDisabled(st.list);
      assert events + [] == events;
      more := [];
    } else {
      EraseFirstDisabled(st.list);
      EraseNextIs(st, dead);
      Continue(events, EraseNext);
      var rest := ErasesAll(events + [EraseNext], dead);
      more := [EraseNext] + rest;
      Associate(events, [EraseNext], rest);
    }
  }

  lemma IdsTail(list: seq<Node>)
    ensures list == [] ==> Ids(list) == []
    ensures list != [] ==> Ids(list) != [] && Ids(list)[1..] == Ids(list[1..]) && Ids(list)[0] == list[0].id
  {
  }

  lemma EraseNextIs(st: State, dead: set<nat>)
    requires st.owner.Some? && st.owner.value.Erasing? && st.owner.value.todo != [] && st.owner.value.dead == dead
    ensures var todo := st.owner.value.todo;
      Next(st, EraseNext) == Some(st.(list := Erased(st.list, todo[0]), owner := Some(Erasing(todo[1..], dead))))
  {
  }

  // and then lets go of the mutex: only the enabled handlers are left, in their order, and
  // nothing else has changed.
  lemma CleanupCompletes(events: seq<Event>) returns (more: seq<Event>)
    requires After(events).Some? && After(events).value.owner == None && After(events).value.runs == map[]
    ensures var st := After(events).value;
      After(events + [Cleanup] + more) == Some(st.(list := Enabled(st.list)))
  {
    hide After, Next, WalksAt, StartOf, Enabled, DisabledNodes, DisabledIds, Distinct;
    var st := After(events).value;
    CleanupIs(events);
    Continue(events, Cleanup);
    HandlersDiffer(events);
    WalkStarts(st.list);
    NoneSplit(st.list);
    var begun := events + [Cleanup];
    var collect := CollectsAll(begun, StartOf(st.list), DisabledIds(st.list), 0);
    var erase := ErasesAll(begun + collect, DisabledIds(st.list));
    UnlockIs(After(begun + collect + erase).value);
    Continue(begun + collect + erase, Unlock);
    more := collect + erase + [Unlock];
    Associate(begun, collect, erase);
    Associate(begun, collect + erase, [Unlock]);
  }

  lemma UnlockIs(st: State)
    requires st.owner.Some? && st.owner.value.Erasing? && st.owner.value.todo == []
    ensures Next(st, Unlock) == Some(st.(mutex := st.mutex.(exclusive := false), owner := None))
  {
  }

  lemma NoneSplit(list: seq<Node>)
    ensures DisabledNodes(list[..0]) == [] == Enabled(list[..0])
  {
  }

  lemma CleanupIs(events: seq<Event>)
    requires After(events).Some? && After(events).value.owner == None && After(events).value.runs == map[]
    ensures var st := After(events).value;
      st.mutex == Mutex(false, {}) &&
      Next(st, Cleanup) == Some(st.(mutex := Mutex(true, {}),
                                    owner := Some(Collecting(StartOf(st.list), DisabledIds(st.list)))))
  {
    Reachable(events);
  }

  // Left to itself a run calls every enabled handler, newest first, and no other.
  lemma {:induction false} RunCompletes(events: seq<Event>, run: nat, k: nat) returns (more: seq<Event>)
    requires After(events).Some? && run in After(events).value.runs
    requires var st := After(events).value;
      k <= |st.list| && WalksAt(st.list, st.runs[run], k, Enabled(st.list[..k]))
    ensures After(events + more).Some?
    ensures var st, st' := After(events).value, After(events + more).value;
      run in st'.runs && st'.runs[run].at.None? && st'.runs[run].picked == Ids(Enabled(st.list)) && st'.list == st.list
    decreases |After(events).value.list| - k
  {
    hide WalksAt, Inv, After, Next, Advanced, PositionOf, Enabled;
    var st := After(events).value;
    if k < |st.list| {
      var pick := st.list[k].enabled;
      HandlersDiffer(events);
      WalkGoesOn(st.list, st.runs[run], k, Enabled(st.list[..k]), pick);
      OneMoreSplit(st.list, k);
      VisitIs(st, run);
      Continue(events, Visit(run));
      var rest := RunCompletes(events + [Visit(run)], run, k + 1);
      more := [Visit(run)] + rest;
      Associate(events, [Visit(run)], rest);
    } else {
      RunIsOver(st.list, st.runs[run], k);
      assert events + [] == events;
      more := [];
    }
  }

  lemma HandlersDiffer(events: seq<Event>)
    requires After(events).Some?
    ensures Distinct(After(events).value.list)
  {
    Reachable(events);
  }

  lemma VisitIs(st: State, run: nat)
    requires run in st.runs && AtNode(st.list, st.runs[run])
    ensures var r := st.runs[run];
      Next(st, Visit(run)) ==
      Some(st.(runs := st.runs[run := Advanced(st.list, r, st.list[PositionOf(st.list, r.at.value)].enabled)]))
  {
  }

  lemma RunIsOver(list: seq<Node>, w: Run, k: nat)
    requires k == |list| && WalksAt(list, w, k, Enabled(list[..k]))
    ensures w.at.None? && w.picked == Ids(Enabled(list))
  {
    assert list[..k] == list;
  }

  lemma RunCallsEnabled(events: seq<Event>, run: nat) returns (more: seq<Event>)
    requires After(events).Some? && run !in After(events).value.runs && After(events).value.owner == None
    ensures After(events + [Begin(run)] + more).Some?
    ensures var st, st' := After(events).value, After(events + [Begin(run)] + more).value;
      run in st'.runs && st'.runs[run].at.None? && st'.runs[run].picked == Ids(Enabled(st.list)) && st'.list == st.list
  {
    CanLockIff(events, run);
    Continue(events, Begin(run));
    var st := After(events).value;
    WalkStarts(st.list);
    NoneSplit(st.list);
    more := RunCompletes(events + [Begin(run)], run, 0);
  }
}
