// Ordered sets of integers, as ascending sequences.
module OrderedSets {

  predicate Ordered(s: seq<int>) {
    forall i, j :: 0 <= i < j < |s| ==> s[i] < s[j]
  }

  function Elements(s: seq<int>): set<int> {
    set n | n in s
  }

  function Inserted(s: seq<int>, n: int): seq<int> {
    if s == [] then [n]
    else if n < s[0] then [n] + s
    else if n == s[0] then s
    else [s[0]] + Inserted(s[1..], n)
  }

  function Erased(s: seq<int>, n: int): seq<int> {
    if s == [] then []
    else if s[0] == n then s[1..]
    else [s[0]] + Erased(s[1..], n)
  }

  lemma OrderedCons(x: int, rest: seq<int>)
    requires Ordered(rest) && forall m :: m in rest ==> x < m
    ensures Ordered([x] + rest)
  {
    assert forall j :: 0 < j < |rest| + 1 ==> ([x] + rest)[j] == rest[j - 1] && rest[j - 1] in rest;
  }

  lemma OrderedTail(s: seq<int>)
    requires Ordered(s) && s != []
    ensures Ordered(s[1..]) && forall m :: m in s[1..] ==> s[0] < m
  {
  }

  lemma {:induction false} InsertedIs(s: seq<int>, n: int)
    requires Ordered(s)
    ensures Ordered(Inserted(s, n))
    ensures forall m :: m in Inserted(s, n) <==> m == n || m in s
  {
    if s != [] {
      OrderedTail(s);
      if n < s[0] {
        OrderedCons(n, s);
      } else if s[0] < n {
        InsertedIs(s[1..], n);
        OrderedCons(s[0], Inserted(s[1..], n));
      }
    }
  }

  lemma {:induction false} ErasedIs(s: seq<int>, n: int)
    requires Ordered(s)
    ensures Ordered(Erased(s, n))
    ensures forall m :: m in Erased(s, n) <==> m != n && m in s
  {
    if s != [] {
      OrderedTail(s);
      if s[0] != n {
        ErasedIs(s[1..], n);
        OrderedCons(s[0], Erased(s[1..], n));
      }
    }
  }

  // An ordered set has one listing.
  lemma {:induction false} SameElements(s: seq<int>, t: seq<int>)
    requires Ordered(s) && Ordered(t) && forall m :: m in s <==> m in t
    ensures s == t
  {
    if t != [] { assert t[0] in t; }
    if s != [] {
      assert s[0] in s;
      OrderedTail(s);
      OrderedTail(t);
      assert s == [s[0]] + s[1..] && t == [t[0]] + t[1..];
      assert s[0] >= t[0] && t[0] >= s[0];
      assert forall m :: m in s[1..] <==> m in s && m != s[0];
      assert forall m :: m in t[1..] <==> m in t && m != t[0];
      SameElements(s[1..], t[1..]);
    }
  }
}
