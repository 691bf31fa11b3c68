// The DPI quantiser, and the decoder of the sensor's list of supported values that feeds it.
module Dpi {
  import opened Arithmetic
  import opened BytePairs
  import opened Options
  import opened Sequences

  // Entries from here on give the step of a range.
  const STEP_MARK := 0xe000

  // In a range, dpis holds its ends.
  datatype DpiList = DpiList(dpis: seq<Word>, isRange: bool, step: Word)

  // ---- Decoding the list ----

  // The decoder reads pairs of bytes until it finds a zero one, and checks only that the
  // first byte of a pair exists. Here every pair it reads from index i on does.
  predicate Readable(response: seq<Byte>, i: nat)
    decreases |response| - i
  {
    i >= |response| || (i + 1 < |response| && (WordAt(response, i) == 0 || Readable(response, i + 2)))
  }

  ghost predicate ZeroWord(response: seq<Byte>, i: nat, k: nat) {
    i + 2 * k + 1 < |response| && WordAt(response, i + 2 * k) == 0
  }

  // A response is safe to decode exactly when its length is odd or it holds a zero word.
  lemma {:induction false} ReadableIff(response: seq<Byte>, i: nat)
    ensures Readable(response, i) <==>
      i >= |response| || (|response| - i) % 2 == 0 || exists k: nat :: ZeroWord(response, i, k)
    decreases |response| - i
  {
    hide ZeroWord, WordAt;
    ZeroFirst(response, i);
    if i + 1 < |response| && WordAt(response, i) != 0 {
      var next := i + 2;
      ReadableIff(response, next);
      if k: nat :| ZeroWord(response, next, k) { ZeroLater(response, i, k); }
      if k: nat :| ZeroWord(response, i, k) { ZeroLater(response, i, k - 1); }
    } else if i + 1 >= |response| {
      forall k: nat
        ensures !ZeroWord(response, i, k)
      {
        TooShort(response, i, k);
      }
    }
  }

  lemma ZeroFirst(response: seq<Byte>, i: nat)
    ensures ZeroWord(response, i, 0) <==> i + 1 < |response| && WordAt(response, i) == 0
  {
  }

  lemma ZeroLater(response: seq<Byte>, i: nat, k: nat)
    ensures ZeroWord(response, i, k + 1) <==> ZeroWord(response, i + 2, k)
  {
    assert i + 2 * (k + 1) == i + 2 + 2 * k;
  }

  lemma TooShort(response: seq<Byte>, i: nat, k: nat)
    requires i + 1 >= |response|
    ensures !ZeroWord(response, i, k)
  {
  }

  function Noted(list: DpiList, w: Word): DpiList {
    if w >= STEP_MARK then list.(isRange := true, step := w - STEP_MARK)
    else list.(dpis := list.dpis + [w])
  }

  function NotedAll(words: seq<Word>): DpiList {
    if words == [] then DpiList([], false, 0)
    else Noted(NotedAll(words[..|words| - 1]), words[|words| - 1])
  }

  lemma NotedAppend(words: seq<Word>, w: Word)
    ensures NotedAll(words + [w]) == Noted(NotedAll(words), w)
  {
    assert (words + [w])[..|words|] == words;
  }

  // The words below 0xe000 are the values, in their order.
  lemma {:induction false} ValuesAre(words: seq<Word>, more: seq<Word>)
    ensures NotedAll([]).dpis == []
    ensures |more| == 1 ==> NotedAll(more).dpis == if more[0] < 0xe000 then more else []
    ensures NotedAll(words + more).dpis == NotedAll(words).dpis + NotedAll(more).dpis
    decreases |more|
  {
    hide NotedAll, Noted;
    NothingNoted();
    if more == [] {
      assert words + more == words;
    } else {
      var before := more[..|more| - 1];
      ValuesAre(words, before);
      LastNoted(more);
      AllButLast(words, more);
      LastNoted(words + more);
      var w := more[|more| - 1];
      Associate(NotedAll(words).dpis, NotedAll(before).dpis, if w < 0xe000 then [w] else []);
    }
  }

  lemma NothingNoted()
    ensures NotedAll([]).dpis == []
  {
  }

  lemma LastNoted(words: seq<Word>)
    requires words != []
    ensures var w := words[|words| - 1];
      NotedAll(words).dpis == NotedAll(words[..|words| - 1]).dpis + if w < 0xe000 then [w] else []
    ensures |words| == 1 ==> words[..|words| - 1] == [] && words == [words[0]]
  {
  }

  // Any other is the step of a range, plus 0xe000; the last one counts.
  lemma {:induction false} StepIs(words: seq<Word>)
    ensures NotedAll(words).isRange <==> exists k :: 0 <= k < |words| && words[k] >= 0xe000
    ensures NotedAll(words).step == if LastStep(words) < |words| then words[LastStep(words)] - 0xe000 else 0
  {
    if words != [] {
      var n := |words| - 1;
      StepIs(words[..n]);
      if k :| 0 <= k < n && words[k] >= 0xe000 { assert words[..n][k] >= 0xe000; }
    }
  }

  function LastStep(words: seq<Word>): (k: nat)
    ensures k <= |words|
    ensures k < |words| ==> words[k] >= 0xe000 && forall j :: k < j < |words| ==> words[j] < 0xe000
    ensures k == |words| ==> forall j :: 0 <= j < |words| ==> words[j] < 0xe000
  {
    if words == [] then 0
    else if words[|words| - 1] >= 0xe000 then |words| - 1
    else
      var k := LastStep(words[..|words| - 1]);
      if k == |words| - 1 then |words| else k
  }

  // None is a read past the end of the response, which has no defined outcome.
  method DecodeList(response: seq<Byte>) returns (list: Option<DpiList>)
    ensures list == if Readable(response, 1) then Some(NotedAll(WordsFrom(response, 1))) else None
  {
    var found := DpiList([], false, 0);
    ghost var seen: seq<Word> := [];
    var i := 1;
    while i < |response|
      invariant i >= 1 && (Readable(response, 1) <==> Readable(response, i))
      invariant seen + WordsFrom(response, i) == WordsFrom(response, 1)
      invariant found == NotedAll(seen)
    {
      if i + 1 >= |response| { return None; }
      var dpi: Word := response[i + 1];
      dpi := dpi + response[i] as int * 0x100;
      if dpi == 0 { break; }
      NotedAppend(seen, dpi);
      Regroup(seen, dpi, WordsFrom(response, i + 2));
      seen := seen + [dpi];
      found := if dpi >= STEP_MARK then DpiList(found.dpis, true, dpi - STEP_MARK)
               else DpiList(found.dpis + [dpi], found.isRange, found.step);
      i := i + 2;
    }
    assert seen + [] == seen;
    list := Some(found);
  }

  // The decoder inverts the encoding: the sensor's number, the words, a zero word and
  // whatever fills the report decode to the words, and are safe to decode.
  lemma DecodeInvertsEncode(sensor: Byte, words: seq<Word>, rest: seq<Byte>)
    requires NonZero(words)
    ensures var response := [sensor] + Encoded(words) + ([0, 0] + rest);
      Readable(response, 1) && WordsFrom(response, 1) == words
  {
    var response := [sensor] + Encoded(words) + ([0, 0] + rest);
    ReadsBack([sensor], words, [0, 0] + rest, 0);
    EncodedLength(words);
    assert ZeroWord(response, 1, |words|);
    ReadableIff(response, 1);
  }

  // High bytes come first: 0x0320 is 800 and 0x0640 is 1600.
  lemma ListExample(sensor: Byte)
    ensures var response := [sensor, 0x03, 0x20, 0x06, 0x40, 0, 0];
      Readable(response, 1) && NotedAll(WordsFrom(response, 1)) == DpiList([800, 1600], false, 0)
  {
    var response := [sensor, 0x03, 0x20, 0x06, 0x40, 0, 0];
    assert WordAt(response, 1) == 800 && WordAt(response, 3) == 1600 && WordAt(response, 5) == 0;
    assert WordsFrom(response, 5) == [] && WordsFrom(response, 3) == [1600] && WordsFrom(response, 1) == [800, 1600];
    NotedAppend([], 800);
    NotedAppend([800], 1600);
    assert [] + [800] == [800] && [800] + [1600] == [800, 1600];
  }

  // A sensor that offers a range is decoded to that range.
  lemma RangeDecodes(min: Word, max: Word, step: Word)
    requires 0 < min < STEP_MARK && 0 < max < STEP_MARK && step < 0x10000 - STEP_MARK
    ensures NonZero([min, STEP_MARK + step, max])
    ensures NotedAll([min, STEP_MARK + step, max]) == DpiList([min, max], true, step)
  {
    NotedAppend([], min);
    NotedAppend([min], STEP_MARK + step);
    NotedAppend([min, STEP_MARK + step], max);
    assert [min, STEP_MARK + step] + [max] == [min, STEP_MARK + step, max];
  }

  // Every decoded list keeps within these bounds.
  predicate IsDecoded(list: DpiList) {
    && (forall k :: 0 <= k < |list.dpis| ==> 0 < list.dpis[k] < STEP_MARK)
    && list.step < 0x10000 - STEP_MARK
  }

  lemma {:induction false} DecodedBounds(words: seq<Word>)
    requires NonZero(words)
    ensures IsDecoded(NotedAll(words))
  {
    if words != [] { DecodedBounds(words[..|words| - 1]); }
  }

  // ---- The quantiser ----

  function Min(s: seq<Word>): (m: Word)
    requires s != []
    ensures m in s && forall k :: 0 <= k < |s| ==> m <= s[k]
  {
    if |s| == 1 then s[0]
    else
      var m := Min(s[..|s| - 1]);
      if s[|s| - 1] < m then s[|s| - 1] else m
  }

  function Max(s: seq<Word>): (m: Word)
    requires s != []
    ensures m in s && forall k :: 0 <= k < |s| ==> s[k] <= m
  {
    if |s| == 1 then s[0]
    else
      var m := Max(s[..|s| - 1]);
      if m < s[|s| - 1] then s[|s| - 1] else m
  }

  function Distance(a: int, b: int): nat {
    if a < b then b - a else a - b
  }

  // The first of the values nearest to dpi.
  function Nearest(s: seq<Word>, dpi: Word): (r: Word)
    requires s != []
    ensures r in s && forall k :: 0 <= k < |s| ==> Distance(dpi, r) <= Distance(dpi, s[k])
  {
    if |s| == 1 then s[0]
    else
      var r := Nearest(s[..|s| - 1], dpi);
      if Distance(dpi, s[|s| - 1]) < Distance(dpi, r) then s[|s| - 1] else r
  }

  // Division rounded to the nearest integer, halves up.
  function Rounded(a: nat, b: nat): nat
    requires b > 0
  {
    (2 * a + b) / (2 * b)
  }

  // A range must have ends and a step: the quantiser divides by the step.
  predicate Usable(list: DpiList) {
    IsDecoded(list) && (list.isRange ==> list.dpis != [] && list.step > 0)
  }

  function GetClosest(list: DpiList, dpi: Word): Word
    requires Usable(list)
  {
    if list.isRange then
      var min, max := Min(list.dpis), Max(list.dpis);
      InRange(min, max, list.step, dpi)
    else if dpi in list.dpis then dpi
    else if list.dpis == [] then 0
    else Nearest(list.dpis, dpi)
  }

  predicate IsRange(min: Word, max: Word, step: nat) {
    min <= max < STEP_MARK && 0 < step < 0x10000 - STEP_MARK
  }

  function InRange(min: Word, max: Word, step: nat, dpi: Word): (r: Word)
    requires IsRange(min, max, step)
  {
    if dpi >= min && (dpi - min) % step == 0 && dpi <= max then dpi
    else if dpi > max then max
    else if dpi < min then min
    else
      Halfway(dpi - min, step);
      min + step * Rounded(dpi - min, step)
  }

  // Rounding is off by at most half a step.
  lemma Halfway(a: nat, b: nat)
    requires b > 0
    ensures 0 <= b * Rounded(a, b)
    ensures 2 * a - b < 2 * (b * Rounded(a, b)) <= 2 * a + b
  {
    Divided(2 * a + b, 2 * b);
    Product(b, Rounded(a, b));
    assert (2 * b) * Rounded(a, b) == 2 * (b * Rounded(a, b));
  }

  // ---- Lists of values ----

  lemma ListNearest(list: DpiList, dpi: Word)
    requires Usable(list) && !list.isRange && list.dpis != []
    ensures var r := GetClosest(list, dpi);
      r in list.dpis && (forall k :: 0 <= k < |list.dpis| ==> Distance(dpi, r) <= Distance(dpi, list.dpis[k])) &&
      GetClosest(list, r) == r
  {
  }

  // The value r is at position k, and every one before it is further from dpi.
  ghost predicate IsFirstAt(s: seq<Word>, dpi: Word, r: Word, k: nat) {
    k < |s| && s[k] == r && forall j :: 0 <= j < k ==> Distance(dpi, r) < Distance(dpi, s[j])
  }

  // Of values equally near the first one listed is the answer, and an empty list answers 0.
  lemma FirstOfNearest(list: DpiList, dpi: Word)
    requires Usable(list) && !list.isRange
    ensures var r := GetClosest(list, dpi);
      if list.dpis == [] then r == 0 else exists k: nat :: IsFirstAt(list.dpis, dpi, r, k)
  {
    if list.dpis != [] {
      var k := NearestIsFirst(list.dpis, dpi);
      if dpi in list.dpis {
        var i :| 0 <= i < |list.dpis| && list.dpis[i] == dpi;
        assert Distance(dpi, Nearest(list.dpis, dpi)) <= Distance(dpi, list.dpis[i]) == 0;
      }
      assert IsFirstAt(list.dpis, dpi, GetClosest(list, dpi), k);
    }
  }

  lemma {:induction false} NearestIsFirst(s: seq<Word>, dpi: Word) returns (k: nat)
    requires s != []
    ensures IsFirstAt(s, dpi, Nearest(s, dpi), k)
  {
    var n := |s| - 1;
    k := 0;
    if n > 0 {
      k := NearestIsFirst(s[..n], dpi);
      if Distance(dpi, s[n]) < Distance(dpi, Nearest(s[..n], dpi)) { k := n; }
    }
  }

  lemma ListMonotone(list: DpiList, a: Word, b: Word)
    requires Usable(list) && !list.isRange && a <= b
    ensures GetClosest(list, a) <= GetClosest(list, b)
  {
    if list.dpis != [] {
      ListNearest(list, a);
      ListNearest(list, b);
      var i :| 0 <= i < |list.dpis| && list.dpis[i] == GetClosest(list, a);
      var j :| 0 <= j < |list.dpis| && list.dpis[j] == GetClosest(list, b);
      assert Distance(a, list.dpis[i]) <= Distance(a, list.dpis[j]);
      assert Distance(b, list.dpis[j]) <= Distance(b, list.dpis[i]);
    }
  }

  // ---- Ranges ----

  predicate OnGrid(min: Word, max: Word, step: nat, v: int)
    requires step > 0
  {
    min <= v <= max && (v - min) % step == 0
  }

  // How far the upper end lies past the last grid value.
  function Overhang(min: Word, max: Word, step: nat): nat
    requires min <= max && step > 0
  {
    (max - min) % step
  }

  lemma Multiple(step: nat, k: nat)
    requires step > 0
    ensures (step * k) % step == 0 && (step * k) / step == k
    decreases k
  {
    Divided(step * k, step);
    var q, r := (step * k) / step, (step * k) % step;
    if q < k { MultiplesApart(step, q, k); }
    if k < q { MultiplesApart(step, k, q); }
  }

  // From the sensor's words to the answer.
  lemma RangeAnswers(min: Word, max: Word, step: nat, dpi: Word)
    requires 0 < min && IsRange(min, max, step)
    ensures var list := NotedAll([min, STEP_MARK + step, max]);
      Usable(list) && GetClosest(list, dpi) == InRange(min, max, step, dpi)
  {
    RangeDecodes(min, max, step);
    assert [min, max][0] == min && [min, max][1] == max;
  }

  // A request within the range is answered within half a step of it.
  lemma WithinHalfStep(min: Word, max: Word, step: nat, dpi: Word)
    requires IsRange(min, max, step) && min <= dpi <= max
    ensures 2 * Distance(dpi, InRange(min, max, step, dpi)) <= step
  {
    Halfway(dpi - min, step);
  }

  // Within the range the answer is the rounding, on or off the grid.
  lemma AnswerIsRounding(min: Word, max: Word, step: nat, dpi: Word)
    requires IsRange(min, max, step) && min <= dpi <= max
    ensures InRange(min, max, step, dpi) == min + step * Rounded(dpi - min, step)
  {
    var a := dpi - min;
    Halfway(a, step);
    if a % step == 0 {
      Divided(a, step);
      var k, q := Rounded(a, step), a / step;
      if k < q { MultiplesApart(step, k, q); }
      if q < k { MultiplesApart(step, q, k); }
    }
  }

  lemma RoundedMonotone(a: nat, b: nat, step: nat)
    requires step > 0 && a <= b
    ensures Rounded(a, step) <= Rounded(b, step)
    ensures step * Rounded(a, step) <= step * Rounded(b, step)
  {
    var k, l := Rounded(a, step), Rounded(b, step);
    Halfway(a, step);
    Halfway(b, step);
    if l < k { MultiplesApart(step, l, k); }
    if k < l { MultiplesApart(step, k, l); }
  }

  // The upper end itself is rounded down exactly when it lies less than half a step past
  // the last grid value.
  lemma TopAnswer(min: Word, max: Word, step: nat)
    requires IsRange(min, max, step)
    ensures var o := Overhang(min, max, step);
      InRange(min, max, step, max) == if 2 * o < step then max - o else max - o + step
  {
    var a := max - min;
    AnswerIsRounding(min, max, step, max);
    Halfway(a, step);
    Divided(a, step);
    var q, k, o := a / step, Rounded(a, step), a % step;
    assert step * (q + 1) == step * q + step;
    if 2 * o < step {
      if k < q { MultiplesApart(step, k, q); }
      if q < k { MultiplesApart(step, q, k); }
    } else {
      if k < q + 1 { MultiplesApart(step, k, q + 1); }
      if q + 1 < k { MultiplesApart(step, q + 1, k); }
    }
  }

  ghost predicate StaysInRange(min: Word, max: Word, step: nat)
    requires IsRange(min, max, step)
  {
    forall dpi: Word :: min <= InRange(min, max, step, dpi) <= max
  }

  ghost predicate IsMonotone(min: Word, max: Word, step: nat)
    requires IsRange(min, max, step)
  {
    forall a: Word, b: Word :: a <= b ==> InRange(min, max, step, a) <= InRange(min, max, step, b)
  }

  ghost predicate IsIdempotent(min: Word, max: Word, step: nat)
    requires IsRange(min, max, step)
  {
    forall dpi: Word :: InRange(min, max, step, InRange(min, max, step, dpi)) == InRange(min, max, step, dpi)
  }

  ghost predicate StaysOnGrid(min: Word, max: Word, step: nat)
    requires IsRange(min, max, step)
  {
    forall dpi: Word :: OnGrid(min, max, step, InRange(min, max, step, dpi))
  }

  lemma Below(min: Word, max: Word, step: nat, dpi: Word)
    requires IsRange(min, max, step) && 2 * Overhang(min, max, step) < step
    ensures min <= InRange(min, max, step, dpi) <= max
  {
    if min <= dpi <= max {
      AnswerIsRounding(min, max, step, dpi);
      AnswerIsRounding(min, max, step, max);
      RoundedMonotone(dpi - min, max - min, step);
      Halfway(dpi - min, step);
      TopAnswer(min, max, step);
    }
  }

  // Every answer is within the range exactly when the upper end overhangs the grid by
  // less than half a step.
  lemma InRangeIff(min: Word, max: Word, step: nat)
    requires IsRange(min, max, step)
    ensures StaysInRange(min, max, step) <==> 2 * Overhang(min, max, step) < step
  {
    TopAnswer(min, max, step);
    if 2 * Overhang(min, max, step) < step {
      forall dpi: Word
        ensures min <= InRange(min, max, step, dpi) <= max
      {
        Below(min, max, step, dpi);
      }
    } else {
      assert InRange(min, max, step, max) > max;
    }
  }

  lemma MonotonePair(min: Word, max: Word, step: nat, a: Word, b: Word)
    requires IsRange(min, max, step) && 2 * Overhang(min, max, step) < step && a <= b
    ensures InRange(min, max, step, a) <= InRange(min, max, step, b)
  {
    Below(min, max, step, a);
    Below(min, max, step, b);
    if min <= a && b <= max {
      AnswerIsRounding(min, max, step, a);
      AnswerIsRounding(min, max, step, b);
      RoundedMonotone(a - min, b - min, step);
    }
  }

  // The same condition decides whether a larger request never gets a smaller answer.
  lemma MonotoneIff(min: Word, max: Word, step: nat)
    requires IsRange(min, max, step)
    ensures IsMonotone(min, max, step) <==> 2 * Overhang(min, max, step) < step
  {
    if 2 * Overhang(min, max, step) < step {
      forall a: Word, b: Word | a <= b
        ensures InRange(min, max, step, a) <= InRange(min, max, step, b)
      {
        MonotonePair(min, max, step, a, b);
      }
    } else {
      TopAnswer(min, max, step);
      var top: Word := max + 1;
      assert InRange(min, max, step, max) > max == InRange(min, max, step, top);
    }
  }

  lemma AnswerOnGrid(min: Word, max: Word, step: nat, dpi: Word)
    requires IsRange(min, max, step) && Overhang(min, max, step) == 0
    ensures OnGrid(min, max, step, InRange(min, max, step, dpi))
  {
    Below(min, max, step, dpi);
    if min <= dpi <= max {
      AnswerIsRounding(min, max, step, dpi);
      Multiple(step, Rounded(dpi - min, step));
    } else if dpi < min {
      Multiple(step, 0);
    }
  }

  // Answers are on the grid, and asking again for an answer changes nothing, exactly when
  // the range is a whole number of steps.
  lemma GridIff(min: Word, max: Word, step: nat)
    requires IsRange(min, max, step)
    ensures StaysOnGrid(min, max, step) <==> Overhang(min, max, step) == 0
    ensures IsIdempotent(min, max, step) <==> Overhang(min, max, step) == 0
  {
    if Overhang(min, max, step) == 0 {
      forall dpi: Word
        ensures OnGrid(min, max, step, InRange(min, max, step, dpi))
      {
        AnswerOnGrid(min, max, step, dpi);
      }
    } else {
      TopAnswer(min, max, step);
      var top: Word := max + 1;
      var r := InRange(min, max, step, top);
      assert r == max && !OnGrid(min, max, step, r) && InRange(min, max, step, r) != r;
    }
  }

  // Then the answer is the grid value nearest to the request, for any request.
  lemma NearestOnGrid(min: Word, max: Word, step: nat, dpi: Word, v: int)
    requires IsRange(min, max, step) && Overhang(min, max, step) == 0 && OnGrid(min, max, step, v)
    ensures Distance(dpi, InRange(min, max, step, dpi)) <= Distance(dpi, v)
  {
    Below(min, max, step, dpi);
    if min <= dpi <= max {
      AnswerIsRounding(min, max, step, dpi);
      Halfway(dpi - min, step);
      Divided(v - min, step);
      var k, q := Rounded(dpi - min, step), (v - min) / step;
      if k < q { MultiplesApart(step, k, q); }
      if q < k { MultiplesApart(step, q, k); }
    }
  }
}
