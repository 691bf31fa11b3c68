// Byte strings, ::tolower, and the two string orders the configuration uses:
// std::string::operator< and less_caseless.
module Text {

  function LowerChar(c: char): char {
    if 'A' <= c <= 'Z' then (c as int + 32) as char else c
  }

  function Lower(s: string): string {
    seq(|s|, i requires 0 <= i < |s| => LowerChar(s[i]))
  }

  // A char as a number, where char is signed or where it is not.
  function Code(c: char, signed: bool): int {
    if signed && 0x80 <= c as int < 0x100 then c as int - 0x100 else c as int
  }

  // The first difference decides, a proper prefix is smaller. std::string compares its
  // chars as unsigned ones.
  predicate LexLess(a: string, b: string, signed: bool) {
    if b == [] then false
    else if a == [] then true
    else if a[0] != b[0] then Code(a[0], signed) < Code(b[0], signed)
    else LexLess(a[1..], b[1..], signed)
  }

  // less_caseless::operator(): two iterators advance together until the first difference,
  // and compare chars as the platform has them.
  method LessCaseless(a: string, b: string, signed: bool) returns (less: bool)
    ensures less == LexLess(Lower(a), Lower(b), signed)
  {
    var i := 0;
    while i < |a| && i < |b|
      invariant 0 <= i <= |a| && i <= |b|
      invariant LexLess(Lower(a), Lower(b), signed) == LexLess(Lower(a)[i..], Lower(b)[i..], signed)
    {
      if LowerChar(a[i]) != LowerChar(b[i]) {
        return Code(LowerChar(a[i]), signed) < Code(LowerChar(b[i]), signed);
      }
      assert Lower(a)[i..][1..] == Lower(a)[i + 1..];
      assert Lower(b)[i..][1..] == Lower(b)[i + 1..];
      i := i + 1;
    }
    return i != |b|;
  }

  lemma {:induction false} LexIrreflexive(a: string, signed: bool)
    ensures !LexLess(a, a, signed)
  {
    if a != [] { LexIrreflexive(a[1..], signed); }
  }

  lemma {:induction false} LexTransitive(a: string, b: string, c: string, signed: bool)
    requires LexLess(a, b, signed) && LexLess(b, c, signed)
    ensures LexLess(a, c, signed)
  {
    if a != [] && a[0] == b[0] && b[0] == c[0] { LexTransitive(a[1..], b[1..], c[1..], signed); }
  }

  lemma {:induction false} LexTotal(a: string, b: string, signed: bool)
    ensures LexLess(a, b, signed) || LexLess(b, a, signed) || a == b
  {
    if a != [] && b != [] && a[0] == b[0] {
      LexTotal(a[1..], b[1..], signed);
      if a[1..] == b[1..] { assert a == [a[0]] + a[1..] == b; }
    }
  }

  // a is smaller at position k: up to there both are the same, and then a has ended or has
  // the smaller byte, read as two's complement where char is signed.
  ghost predicate SmallerAt(a: string, b: string, signed: bool, k: nat) {
    k <= |a| && k < |b| && a[..k] == b[..k] &&
    (k == |a| ||
     if signed then (a[k] as int + 0x80) % 0x100 < (b[k] as int + 0x80) % 0x100 else a[k] < b[k])
  }

  predicate IsBytes(s: string) {
    forall i :: 0 <= i < |s| ==> s[i] as int < 0x100
  }

  lemma {:induction false} LexLessIff(a: string, b: string, signed: bool)
    requires IsBytes(a) && IsBytes(b)
    ensures LexLess(a, b, signed) <==> exists k: nat :: SmallerAt(a, b, signed, k)
  {
    if b == [] {
    } else if a == [] || a[0] != b[0] {
      DecidedAtOnce(a, b, signed);
      forall k: nat | SmallerAt(a, b, signed, k)
        ensures SmallerAt(a, b, signed, 0)
      {
        if k > 0 { SameStart(a, b, k); }
      }
    } else {
      hide SmallerAt;
      LexLessIff(a[1..], b[1..], signed);
      if k: nat :| SmallerAt(a[1..], b[1..], signed, k) {
        SmallerLater(a, b, signed, k);
      }
      if k: nat :| SmallerAt(a, b, signed, k) {
        NotAtOnce(a, b, signed);
        SmallerLater(a, b, signed, k - 1);
      }
    }
  }

  lemma DecidedAtOnce(a: string, b: string, signed: bool)
    requires IsBytes(a) && IsBytes(b) && b != [] && (a == [] || a[0] != b[0])
    ensures SmallerAt(a, b, signed, 0) <==> LexLess(a, b, signed)
  {
  }

  lemma SameStart(a: string, b: string, k: nat)
    requires 0 < k <= |a| && k < |b| && a[..k] == b[..k]
    ensures a[0] == b[0]
  {
    assert a[..k][0] == a[0] && b[..k][0] == b[0];
  }

  lemma NotAtOnce(a: string, b: string, signed: bool)
    requires a != [] && b != [] && a[0] == b[0]
    ensures !SmallerAt(a, b, signed, 0)
  {
  }

  lemma SmallerLater(a: string, b: string, signed: bool, k: nat)
    requires a != [] && b != [] && a[0] == b[0]
    ensures SmallerAt(a, b, signed, k + 1) <==> SmallerAt(a[1..], b[1..], signed, k)
  {
    if k < |a| && k + 1 < |b| {
      assert a[..k + 1] == [a[0]] + a[1..][..k] && b[..k + 1] == [b[0]] + b[1..][..k];
    }
  }

  // The letters from A to Z are lowered to those from a to z in order, and no other char.
  lemma LowerCharIs(c: char)
    ensures LowerChar(c) != c <==> 'A' <= c <= 'Z'
    ensures 'A' <= c <= 'Z' ==> LowerChar(c) - 'a' == c - 'A' && 'a' <= LowerChar(c) <= 'z'
  {
  }

  predicate CaselessLess(a: string, b: string, signed: bool) {
    LexLess(Lower(a), Lower(b), signed)
  }

  // What std::map demands of its comparator, for strings of any length: a strict weak
  // order, whose equivalence classes are exactly the strings equal up to case.
  lemma CaselessIsStrictWeakOrder(a: string, b: string, c: string, signed: bool)
    ensures !CaselessLess(a, a, signed)
    ensures CaselessLess(a, b, signed) ==> !CaselessLess(b, a, signed)
    ensures CaselessLess(a, b, signed) && CaselessLess(b, c, signed) ==> CaselessLess(a, c, signed)
    ensures !CaselessLess(a, b, signed) && !CaselessLess(b, a, signed) <==> Lower(a) == Lower(b)
    ensures CaselessLess(a, b, signed) ==> CaselessLess(a, c, signed) || CaselessLess(c, b, signed)
  {
    var x, y, z := Lower(a), Lower(b), Lower(c);
    LexIrreflexive(x, signed);
    LexTotal(x, y, signed);
    LexTotal(x, z, signed);
    LexTotal(z, y, signed);
    if LexLess(x, y, signed) && LexLess(y, x, signed) { LexTransitive(x, y, x, signed); }
    if LexLess(x, y, signed) && LexLess(y, z, signed) { LexTransitive(x, y, z, signed); }
    if LexLess(x, y, signed) && LexLess(z, x, signed) { LexTransitive(z, x, y, signed); }
  }
}
