// Words sent high byte first, as lists that a zero word or the end of the report closes.
module BytePairs {

  type Word = n: int | 0 <= n < 0x10000
  type Byte = n: int | 0 <= n < 0x100

  function WordAt(bytes: seq<Byte>, i: nat): Word
    requires i + 1 < |bytes|
  {
    bytes[i] as int * 0x100 + bytes[i + 1]
  }

  // The words from index i up to a zero one or the end.
  function WordsFrom(bytes: seq<Byte>, i: nat): seq<Word>
    decreases |bytes| - i
  {
    if i + 1 >= |bytes| || WordAt(bytes, i) == 0 then []
    else [WordAt(bytes, i)] + WordsFrom(bytes, i + 2)
  }

  function Encoded(words: seq<Word>): seq<Byte> {
    if words == [] then []
    else
      var w := words[|words| - 1];
      Encoded(words[..|words| - 1]) + [w / 0x100, w % 0x100]
  }

  predicate NonZero(words: seq<Word>) {
    forall k :: 0 <= k < |words| ==> words[k] != 0
  }

  // What may follow the last word of a list.
  predicate Closes(rest: seq<Byte>) {
    |rest| < 2 || (rest[0] == 0 && rest[1] == 0)
  }

  lemma {:induction false} EncodedLength(words: seq<Word>)
    ensures |Encoded(words)| == 2 * |words|
  {
    if words != [] { EncodedLength(words[..|words| - 1]); }
  }

  lemma {:induction false} EncodedAt(words: seq<Word>, k: nat)
    requires k < |words|
    ensures |Encoded(words)| == 2 * |words| && WordAt(Encoded(words), 2 * k) == words[k]
  {
    var n := |words| - 1;
    var w := words[n];
    assert w == (w / 0x100) * 0x100 + w % 0x100;
    if n > 0 { EncodedAt(words[..n], if k < n then k else 0); }
  }

  // Reading a list back finds the words that were encoded, whatever comes before and after.
  lemma {:induction false} ReadsBack(before: seq<Byte>, words: seq<Word>, rest: seq<Byte>, k: nat)
    requires NonZero(words) && Closes(rest) && k <= |words|
    ensures WordsFrom(before + Encoded(words) + rest, |before| + 2 * k) == words[k..]
    decreases |words| - k
  {
    var bytes := before + Encoded(words) + rest;
    EncodedLength(words);
    var i := |before| + 2 * k;
    if k < |words| {
      ReadsBack(before, words, rest, k + 1);
      EncodedAt(words, k);
      assert bytes[i] == Encoded(words)[2 * k] && bytes[i + 1] == Encoded(words)[2 * k + 1];
    } else if i + 1 < |bytes| {
      assert bytes[i] == rest[0] && bytes[i + 1] == rest[1];
    }
  }
}
