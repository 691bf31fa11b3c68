// The allocator of device and receiver nicknames: the smallest number not in use.
module Nicknames {
  import opened OrderedSets

  // The least number from 0 on that is not in s.
  ghost predicate IsLeastFree(s: set<int>, n: int) {
    n >= 0 && n !in s && forall k :: 0 <= k < n ==> k in s
  }

  predicate Valid(names: seq<int>) {
    Ordered(names) && forall i :: 0 <= i < |names| ==> names[i] >= 0
  }

  // Up to a first gap, names that start at 0 are 0, 1, 2 and so on.
  lemma {:induction false} DenseFromZero(names: seq<int>, i: nat)
    requires Valid(names) && i < |names| && names[0] == 0
    requires forall k :: 0 <= k < i ==> names[k] + 1 >= names[k + 1]
    ensures forall k :: 0 <= k <= i ==> names[k] == k
  {
    if i > 0 {
      DenseFromZero(names, i - 1);
      assert names[i - 1] + 1 >= names[i - 1 + 1] && names[i - 1] < names[i];
    }
  }

  lemma BetweenGap(names: seq<int>, i: nat, n: int)
    requires Valid(names) && i + 1 < |names| && names[i] < n < names[i + 1]
    ensures n !in names
  {
  }

  class DeviceManager {
    var names: seq<int>

    constructor ()
      ensures names == []
    {
      names := [];
    }

    // The position of the first name followed by a gap, or the length if there is none.
    method AdjacentFind() returns (i: nat)
      ensures i == |names| || i + 1 < |names|
      ensures i + 1 < |names| ==> names[i] + 1 < names[i + 1]
      ensures forall k :: 0 <= k < i && k + 1 < |names| ==> names[k] + 1 >= names[k + 1]
    {
      i := 0;
      while i + 1 < |names|
        invariant 0 <= i <= |names|
        invariant forall k :: 0 <= k < i && k + 1 < |names| ==> names[k] + 1 >= names[k + 1]
      {
        if names[i] + 1 < names[i + 1] { return; }
        i := i + 1;
      }
      i := |names|;
    }

    method NewNickname() returns (n: int)
      requires Valid(names)
      modifies this
      ensures Valid(names) && Elements(names) == Elements(old(names)) + {n}
      ensures IsLeastFree(Elements(old(names)), n)
    {
      n := LeastFree();
      InsertedIs(names, n);
      names := Inserted(names, n);
      assert forall i :: 0 <= i < |names| ==> names[i] in names;
    }

    // The choice of the number, without the insertion.
    method LeastFree() returns (n: int)
      requires Valid(names)
      ensures IsLeastFree(Elements(names), n)
    {
      if names != [] && names[0] != 0 {
        assert forall k :: 0 <= k < |names| ==> names[k] >= names[0];
        return 0;
      }
      var i := AdjacentFind();
      if i == |names| {
        if names == [] {
          n := 0;
        } else {
          n := names[|names| - 1] + 1;
          DenseFromZero(names, |names| - 1);
          assert forall k :: 0 <= k < |names| ==> names[k] <= names[|names| - 1];
        }
      } else {
        n := names[i] + 1;
        DenseFromZero(names, i);
        BetweenGap(names, i, n);
      }
      assert n !in Elements(names);
      forall k | 0 <= k < n
        ensures k in Elements(names)
      {
        assert names[k] == k;
      }
    }

    // The destructor of a nickname.
    method Release(n: int)
      requires Valid(names)
      modifies this
      ensures Valid(names) && Elements(names) == Elements(old(names)) - {n}
    {
      ErasedIs(names, n);
      names := Erased(names, n);
      assert forall i :: 0 <= i < |names| ==> names[i] in names;
    }
  }

  // ---- Any run of creations and destructions ----

  // The nickname of each live device, and the manager's record of them.
  datatype State = State(live: map<nat, int>, names: set<int>)

  ghost predicate Creates(s: State, t: State, id: nat, n: int) {
    id !in s.live && IsLeastFree(s.names, n) && t == State(s.live[id := n], s.names + {n})
  }

  ghost predicate Destroys(s: State, t: State, id: nat) {
    id in s.live && t == State(s.live - {id}, s.names - {s.live[id]})
  }

  ghost predicate Next(s: State, t: State) {
    || (exists id: nat, n: int :: Creates(s, t, id, n))
    || (exists id: nat :: Destroys(s, t, id))
  }

  ghost predicate IsRun(run: seq<State>) {
    && run != [] && run[0] == State(map[], {})
    && forall i :: 0 < i < |run| ==> Next(run[i - 1], run[i])
  }

  // The largest number of devices live at once.
  function Peak(run: seq<State>): nat {
    if run == [] then 0
    else
      var before := Peak(run[..|run| - 1]);
      if |run[|run| - 1].live| > before then |run[|run| - 1].live| else before
  }

  ghost predicate Inv(s: State) {
    && s.names == s.live.Values
    && (forall a: nat, b: nat :: a in s.live && b in s.live && a != b ==> s.live[a] != s.live[b])
  }

  lemma CreateKeeps(s: State, t: State, id: nat, n: int)
    requires Inv(s) && Creates(s, t, id, n)
    ensures Inv(t) && 0 <= n <= |s.live|
  {
    assert forall a :: a in s.live ==> s.live[a] in s.live.Values;
    assert t.live[id] == n;
    assert forall a :: a in s.live ==> t.live[a] == s.live[a];
    assert t.live.Values == s.live.Values + {n};
    AtLeast(s.names, n);
    ValuesFewer(s.live);
  }

  lemma DestroyKeeps(s: State, t: State, id: nat)
    requires Inv(s) && Destroys(s, t, id)
    ensures Inv(t)
  {
    forall v | v in s.live.Values - {s.live[id]}
      ensures v in t.live.Values
    {
      var a :| a in s.live && s.live[a] == v;
      assert a in t.live && t.live[a] == v;
    }
  }

  lemma {:induction false} AtLeast(s: set<int>, n: nat)
    requires forall k :: 0 <= k < n ==> k in s
    ensures n <= |s|
  {
    if n > 0 {
      AtLeast(s - {n - 1}, n - 1);
    }
  }

  lemma {:induction false} ValuesFewer(m: map<nat, int>)
    ensures |m.Values| <= |m|
    decreases |m|
  {
    if m != map[] {
      var k :| k in m;
      var rest := m - {k};
      ValuesFewer(rest);
      assert m.Values <= rest.Values + {m[k]} by {
        forall v | v in m.Values
          ensures v in rest.Values + {m[k]}
        {
          var a :| a in m && m[a] == v;
          if a != k { assert a in rest && rest[a] == v; }
        }
      }
      Subset(m.Values, rest.Values + {m[k]});
      assert |rest| == |m| - 1 by { assert m.Keys == rest.Keys + {k}; }
    } else {
      assert m.Values == {};
    }
  }

  lemma {:induction false} Subset<T>(a: set<T>, b: set<T>)
    requires a <= b
    ensures |a| <= |b|
  {
    if x :| x in a {
      Subset(a - {x}, b - {x});
    } else {
      assert a == {};
    }
  }

  ghost predicate AllBelow(s: State, peak: nat) {
    forall id: nat :: id in s.live ==> 0 <= s.live[id] < peak
  }

  lemma CreateBounded(s: State, t: State, id: nat, n: int, peak: nat)
    requires Inv(s) && Creates(s, t, id, n) && |s.live| <= peak && AllBelow(s, peak)
    ensures Inv(t) && |t.live| == |s.live| + 1 && AllBelow(t, if |t.live| > peak then |t.live| else peak)
  {
    CreateKeeps(s, t, id, n);
    OneMore(s.live, id, n);
    assert forall a: nat :: a in t.live ==> t.live[a] == n || (a in s.live && t.live[a] == s.live[a]);
  }

  lemma OneMore(m: map<nat, int>, id: nat, n: int)
    requires id !in m
    ensures |m[id := n]| == |m| + 1
  {
    assert m[id := n].Keys == m.Keys + {id};
    assert |m[id := n].Keys| == |m.Keys| + 1;
  }

  lemma DestroyBounded(s: State, t: State, id: nat, peak: nat)
    requires Inv(s) && Destroys(s, t, id) && |s.live| <= peak && AllBelow(s, peak)
    ensures Inv(t) && |t.live| <= peak && AllBelow(t, peak)
  {
    DestroyKeeps(s, t, id);
    assert t.live.Keys == s.live.Keys - {id};
    Subset(t.live.Keys, s.live.Keys);
    assert |t.live| == |t.live.Keys|;
  }

  // Live nicknames are distinct, and each is below the most that were ever live at once.
  lemma {:induction false} NicknamesStaySmall(run: seq<State>)
    requires IsRun(run)
    ensures var s := run[|run| - 1];
      Inv(s) && |s.live| <= Peak(run) && AllBelow(s, Peak(run))
  {
    var n := |run| - 1;
    if n > 0 {
      assert IsRun(run[..n]);
      NicknamesStaySmall(run[..n]);
      assert Next(run[n - 1], run[n]);
      var s, t, peak := run[n - 1], run[n], Peak(run[..n]);
      if id: nat, m: int :| Creates(s, t, id, m) {
        CreateBounded(s, t, id, m, peak);
      } else {
        var id: nat :| Destroys(s, t, id);
        DestroyBounded(s, t, id, peak);
      }
    }
  }
}
