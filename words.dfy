/** Words as the session keeps them: lower-cased, and scored by length. */
module Words {

  const MinWordLength := 3

  /** `toLowerCase` on one character; the board only holds 'A'..'Z'. */
  function LowerChar(c: char): char {
    if 'A' <= c <= 'Z' then (c as int - 'A' as int + 'a' as int) as char else c
  }

  function ToLower(s: string): (r: string)
    ensures |r| == |s|
  {
    if s == [] then [] else [LowerChar(s[0])] + ToLower(s[1..])
  }

  /** Lower-casing works character by character. */
  lemma {:induction false} ToLowerLetters(s: string)
    ensures forall k :: 0 <= k < |s| ==> ToLower(s)[k] == LowerChar(s[k])
  {
    if s != [] {
      ToLowerLetters(s[1..]);
    }
  }

  /** Lower-casing twice is lower-casing once. */
  lemma {:induction false} ToLowerIdempotent(s: string)
    ensures ToLower(ToLower(s)) == ToLower(s)
  {
    if s != [] {
      ToLowerIdempotent(s[1..]);
      assert ToLower(s) == [LowerChar(s[0])] + ToLower(s[1..]);
      assert ToLower(s)[1..] == ToLower(s[1..]);
    }
  }

  /** An upper-case letter lowers to the lower-case letter at the same
      place in the alphabet; every other character is left as it is. */
  lemma LowerCharMeaning(c: char)
    ensures 'A' <= c <= 'Z' ==> 'a' <= LowerChar(c) <= 'z' && LowerChar(c) as int - 'a' as int == c as int - 'A' as int
    ensures !('A' <= c <= 'Z') ==> LowerChar(c) == c
  {
  }

  /** The sum of the lengths of a set of words. */
  ghost function SumLengths(words: set<string>): nat
    decreases |words|
  {
    if words == {} then 0
    else
      var w :| w in words;
      |w| + SumLengths(words - {w})
  }

  /** Taking any one word out of the set takes exactly its length off the sum. */
  lemma {:induction false} SumLengthsRemove(words: set<string>, x: string)
    requires x in words
    ensures SumLengths(words) == |x| + SumLengths(words - {x})
    decreases |words|
  {
    var y :| y in words && SumLengths(words) == |y| + SumLengths(words - {y});
    if y != x {
      SumLengthsRemove(words - {y}, x);
      SumLengthsRemove(words - {x}, y);
      assert words - {y} - {x} == words - {x} - {y};
    }
  }

  /** Adding a new word adds exactly its length to the sum. */
  lemma SumLengthsAdd(words: set<string>, w: string)
    requires w !in words
    ensures SumLengths(words + {w}) == SumLengths(words) + |w|
  {
    SumLengthsRemove(words + {w}, w);
    assert words + {w} - {w} == words;
  }
}
