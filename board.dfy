/** The board generator: 16 distinct letters drawn from A..Z without
    replacement, then put in random order by an in-place Fisher-Yates
    shuffle. The random numbers are supplied by the caller, each with the
    bound that `Math.floor(Math.random() * n)` guarantees. */
module Board {

  const BoardSize := 16

  /** The alphabet 'A'..'Z' in order, the pool the letters are drawn from. */
  const Alphabet: string := "ABCDEFGHIJKLMNOPQRSTUVWXYZ"

  predicate IsLetter(c: char) { 'A' <= c <= 'Z' }

  predicate Distinct<T(==)>(s: seq<T>) {
    forall j, k :: 0 <= j < k < |s| ==> s[j] != s[k]
  }

  /** A board: exactly 16 pairwise distinct upper-case letters. */
  predicate IsBoard(b: seq<char>) {
    |b| == BoardSize && Distinct(b) && forall k :: 0 <= k < |b| ==> IsLetter(b[k])
  }

  lemma DistinctAppend<T>(s: seq<T>, x: T)
    requires Distinct(s) && x !in s
    ensures Distinct(s + [x])
  {
    var r := s + [x];
    forall j, k | 0 <= j < k < |r| ensures r[j] != r[k] {
      if k < |s| { assert r[j] == s[j] && r[k] == s[k]; } else { assert r[j] == s[j]; }
    }
  }

  lemma AlphabetFacts()
    ensures |Alphabet| == 26 && Distinct(Alphabet)
    ensures forall c :: c in Alphabet ==> IsLetter(c)
  {
    assert forall k :: 0 <= k < |Alphabet| ==> Alphabet[k] as int == 'A' as int + k;
  }

  // ---------------------------------------------------------------------------
  // Drawing letters without replacement

  /** The k-th draw picks an index below the size of what is left of the pool. */
  predicate ValidPicks(picks: seq<nat>) {
    |picks| == BoardSize && forall k :: 0 <= k < |picks| ==> picks[k] < 26 - k
  }

  /** `pool.splice(i, 1)`: the pool without its i-th element. */
  function Splice(pool: seq<char>, i: nat): (r: seq<char>)
    requires i < |pool|
    ensures |r| == |pool| - 1
  {
    pool[..i] + pool[i + 1..]
  }

  /** The letters selected once the draws `picks[n..]` are made from `pool`,
      `selected` holding the letters of the n draws before. */
  function DrawFrom(selected: seq<char>, pool: seq<char>, picks: seq<nat>, n: nat): (r: seq<char>)
    requires ValidPicks(picks) && n <= BoardSize && |pool| + n == 26
    ensures |r| == |selected| + BoardSize - n
    decreases BoardSize - n
  {
    if n == BoardSize then selected
    else DrawFrom(selected + [pool[picks[n]]], Splice(pool, picks[n]), picks, n + 1)
  }

  /** The letters generateBoardLetters returns for the draws `picks`. */
  function Letters(picks: seq<nat>): seq<char>
    requires ValidPicks(picks)
  {
    DrawFrom([], Alphabet, picks, 0)
  }

  lemma SpliceKeepsDistinct(pool: seq<char>, i: nat)
    requires i < |pool| && Distinct(pool)
    ensures Distinct(Splice(pool, i))
    ensures forall c :: c in Splice(pool, i) ==> c in pool && c != pool[i]
  {
    var r := Splice(pool, i);
    forall c | c in r ensures c in pool && c != pool[i] {
      var k :| 0 <= k < |r| && r[k] == c;
      if k < i { assert c == pool[k]; } else { assert c == pool[k + 1]; }
    }
  }

  /** The selected letters and the letters left in the pool: letters, each
      list without repeats, and no letter in both. */
  predicate Partition(selected: seq<char>, pool: seq<char>) {
    Distinct(selected) && Distinct(pool) &&
    (forall c :: c in selected ==> c !in pool && IsLetter(c)) &&
    (forall c :: c in pool ==> IsLetter(c))
  }

  /** Moving one letter from the pool to the selection keeps the partition. */
  lemma PartitionStep(selected: seq<char>, pool: seq<char>, index: nat)
    requires index < |pool| && Partition(selected, pool)
    ensures Partition(selected + [pool[index]], Splice(pool, index))
  {
    SpliceKeepsDistinct(pool, index);
    DistinctAppend(selected, pool[index]);
  }

  /** Drawing from a partition yields distinct letters. */
  lemma {:induction false} DrawFromProps(selected: seq<char>, pool: seq<char>, picks: seq<nat>, n: nat)
    requires ValidPicks(picks) && n <= BoardSize && |pool| + n == 26
    requires Partition(selected, pool)
    ensures Distinct(DrawFrom(selected, pool, picks, n))
    ensures forall c :: c in DrawFrom(selected, pool, picks, n) ==> IsLetter(c)
    decreases BoardSize - n
  {
    if n < BoardSize {
      PartitionStep(selected, pool, picks[n]);
      DrawFromProps(selected + [pool[picks[n]]], Splice(pool, picks[n]), picks, n + 1);
    }
  }

  /** Whatever the draws, the generated letters are 16 distinct letters. */
  lemma LettersProps(picks: seq<nat>)
    requires ValidPicks(picks)
    ensures |Letters(picks)| == BoardSize && Distinct(Letters(picks))
    ensures forall c :: c in Letters(picks) ==> IsLetter(c)
  {
    AlphabetFacts();
    DrawFromProps([], Alphabet, picks, 0);
  }

  /** generateBoardLetters: repeatedly splice a letter out of the alphabet
      and push it onto `selected`, until 16 letters are selected. */
  method GenerateBoardLetters(picks: seq<nat>) returns (selected: seq<char>)
    requires ValidPicks(picks)
    ensures selected == Letters(picks)
    ensures |selected| == BoardSize && Distinct(selected)
    ensures forall k :: 0 <= k < |selected| ==> IsLetter(selected[k])
  {
    var alphabet := Alphabet;
    selected := [];
    while |selected| < BoardSize
      invariant |selected| <= BoardSize && |selected| + |alphabet| == 26
      invariant DrawFrom(selected, alphabet, picks, |selected|) == Letters(picks)
      decreases BoardSize - |selected|
    {
      var index := picks[|selected|];
      selected, alphabet := selected + [alphabet[index]], Splice(alphabet, index);
    }
    LettersProps(picks);
    assert forall k :: 0 <= k < |selected| ==> selected[k] in selected;
  }

  // ---------------------------------------------------------------------------
  // Fisher-Yates shuffle

  /** At step i (from the last index down to 1) the swap partner is in [0, i]. */
  predicate ValidSwaps(swaps: seq<nat>, n: nat) {
    |swaps| == n && forall i :: 0 <= i < n ==> swaps[i] <= i
  }

  /** `[s[i], s[j]] = [s[j], s[i]]` */
  function Swap<T>(s: seq<T>, i: nat, j: nat): seq<T>
    requires i < |s| && j < |s|
  {
    s[i := s[j]][j := s[i]]
  }

  /** The sequence after the swap steps for positions |s|-1, |s|-2, ..., k,
      in that order. */
  function ShuffleFrom<T>(s: seq<T>, swaps: seq<nat>, k: nat): (r: seq<T>)
    requires ValidSwaps(swaps, |s|)
    ensures |r| == |s|
    decreases |s| - k
  {
    if k >= |s| then s
    else Swap(ShuffleFrom(s, swaps, k + 1), k, swaps[k])
  }

  /** The whole shuffle of `s`: the swaps at positions |s|-1 down to 1. */
  function Shuffled<T>(s: seq<T>, swaps: seq<nat>): seq<T>
    requires ValidSwaps(swaps, |s|)
  {
    ShuffleFrom(s, swaps, 1)
  }

  /** A swap permutes the sequence. */
  lemma SwapPermutes<T>(s: seq<T>, i: nat, j: nat)
    requires i < |s| && j < |s|
    ensures multiset(Swap(s, i, j)) == multiset(s)
  {
  }

  /** A swap of distinct elements leaves them distinct. */
  lemma SwapKeepsDistinct<T>(s: seq<T>, i: nat, j: nat)
    requires i < |s| && j < |s| && Distinct(s)
    ensures Distinct(Swap(s, i, j))
  {
    var r := Swap(s, i, j);
    assert forall k :: 0 <= k < |s| ==>
      r[k] == if k == j then s[i] else if k == i then s[j] else s[k];
  }

  /** Every run of the shuffle is a permutation: the same multiset of elements. */
  lemma {:induction false} ShuffleFromPermutes<T>(s: seq<T>, swaps: seq<nat>, k: nat)
    requires ValidSwaps(swaps, |s|)
    ensures multiset(ShuffleFrom(s, swaps, k)) == multiset(s)
    decreases |s| - k
  {
    if k < |s| {
      var t := ShuffleFrom(s, swaps, k + 1);
      ShuffleFromPermutes(s, swaps, k + 1);
      SwapPermutes(t, k, swaps[k]);
    }
  }

  /** Shuffling distinct elements leaves them distinct. */
  lemma {:induction false} ShuffleFromKeepsDistinct<T>(s: seq<T>, swaps: seq<nat>, k: nat)
    requires ValidSwaps(swaps, |s|) && Distinct(s)
    ensures Distinct(ShuffleFrom(s, swaps, k))
    decreases |s| - k
  {
    if k < |s| {
      var t := ShuffleFrom(s, swaps, k + 1);
      ShuffleFromKeepsDistinct(s, swaps, k + 1);
      SwapKeepsDistinct(t, k, swaps[k]);
    }
  }

  /** shuffleArray: swap each position, from the last down to 1, with a
      position at or below it, in place. */
  method ShuffleArray<T>(arr: array<T>, swaps: seq<nat>)
    requires ValidSwaps(swaps, arr.Length)
    modifies arr
    ensures arr[..] == Shuffled(old(arr[..]), swaps)
    ensures multiset(arr[..]) == multiset(old(arr[..]))
  {
    var i := arr.Length - 1;
    while i > 0
      invariant -1 <= i < arr.Length
      invariant arr[..] == ShuffleFrom(old(arr[..]), swaps, i + 1)
    {
      var j := swaps[i];
      ghost var before := arr[..];
      assert ShuffleFrom(old(arr[..]), swaps, i) == Swap(before, i, j);
      arr[i], arr[j] := arr[j], arr[i];
      assert arr[..] == Swap(before, i, j);
      i := i - 1;
    }
    ShuffleFromPermutes(old(arr[..]), swaps, 1);
  }

  // ---------------------------------------------------------------------------
  // A new board: `shuffleArray(generateBoardLetters())`

  /** The random numbers one new board consumes. */
  datatype Draws = Draws(picks: seq<nat>, swaps: seq<nat>)

  predicate WellFormed(d: Draws) {
    ValidPicks(d.picks) && ValidSwaps(d.swaps, BoardSize)
  }

  function NewBoard(d: Draws): seq<char>
    requires WellFormed(d)
  {
    Shuffled(Letters(d.picks), d.swaps)
  }

  /** Whatever the random numbers, a new board is a valid board. */
  lemma NewBoardIsBoard(d: Draws)
    requires WellFormed(d)
    ensures IsBoard(NewBoard(d))
  {
    var letters := Letters(d.picks);
    LettersProps(d.picks);
    ShuffleFromPermutes(letters, d.swaps, 1);
    ShuffleFromKeepsDistinct(letters, d.swaps, 1);
    var b := NewBoard(d);
    forall k | 0 <= k < |b| ensures IsLetter(b[k]) {
      assert b[k] in multiset(b);
    }
  }

  /** The board installed by shuffleBoard: the generated letters, shuffled. */
  method ShuffledBoard(d: Draws) returns (b: seq<char>)
    requires WellFormed(d)
    ensures b == NewBoard(d) && IsBoard(b)
  {
    var letters := GenerateBoardLetters(d.picks);
    var arr := new char[|letters|](k requires 0 <= k < |letters| => letters[k]);
    assert arr[..] == letters;
    ShuffleArray(arr, d.swaps);
    b := arr[..];
    NewBoardIsBoard(d);
  }
}
