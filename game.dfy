/** The game session: the mutable state that index.js keeps in module-level
    variables, and its event handlers as methods. Randomness reaches the
    session as `Draws` values, and the dictionary lookup as a boolean. */
module Game {
  import opened Board
  import opened Grid
  import opened Words
  import opened Countdown

  /** How a submission ends. An empty selection is reported as TooShort:
      the length test comes before the emptiness test. */
  datatype Verdict = TooShort | AlreadyUsed | Invalid | Accepted {
    /** Whether the dictionary was consulted. */
    predicate ConsultedOracle() { this == Invalid || this == Accepted }
  }

  class Session {
    var board: seq<char>         // boardLetters
    var path: seq<nat>           // selectedBoxes, as cell indices
    var word: string             // selectedWord
    var usedWords: set<string>
    var score: int
    var timeLeft: int
    var isTimerMode: bool
    var running: bool            // timerInterval is set and not cleared

    /** The session invariant: a valid board, a valid path whose letters
        are the word, a score that is the total length of the accepted
        words, and an interval that only runs in timed mode with time left. */
    ghost predicate Valid()
      reads this
    {
      IsBoard(board) && ValidPath(path) && word == WordOf(board, path) &&
      score == SumLengths(usedWords) &&
      0 <= timeLeft <= RoundSeconds && (running ==> isTimerMode && timeLeft >= 1)
    }

    function TimerState(): Timer
      reads this
    {
      Timer(isTimerMode, timeLeft, running)
    }

    /** Page load: the initial globals, then the first shuffleBoard. */
    constructor (d: Draws)
      requires WellFormed(d)
      ensures Valid()
      ensures board == NewBoard(d) && path == [] && word == []
      ensures usedWords == {} && score == 0
      ensures timeLeft == RoundSeconds && !isTimerMode && !running
    {
      var b := ShuffledBoard(d);
      board := b;
      path, word := [], [];
      usedWords, score := {}, 0;
      timeLeft, isTimerMode, running := RoundSeconds, false, false;
    }

    /** clearSelection */
    method ClearSelection()
      requires Valid()
      modifies this`path, this`word
      ensures Valid() && path == [] && word == []
    {
      path, word := [], [];
    }

    /** resetGame */
    method ResetGame()
      requires Valid()
      modifies this`path, this`word, this`usedWords, this`score
      ensures Valid() && path == [] && word == []
      ensures usedWords == {} && score == 0
    {
      ClearSelection();
      usedWords := {};
      score := 0;
    }

    /** shuffleBoard: a new board and an empty selection; the score stays. */
    method ShuffleBoard(d: Draws)
      requires Valid() && WellFormed(d)
      modifies this`board, this`path, this`word
      ensures Valid() && board == NewBoard(d) && path == [] && word == []
    {
      var b := ShuffledBoard(d);
      assert ValidPath([]) && WordOf(b, []) == [];
      board := b;
      path, word := [], [];
    }

    /** The click handler of cell i. */
    method Select(i: nat) returns (outcome: Click)
      requires Valid() && i < Cells
      modifies this`path, this`word
      ensures Valid()
      ensures outcome == ClickResult(old(path), i)
      ensures path == if outcome == Added then old(path) + [i] else old(path)
      ensures word == if outcome == Added then old(word) + [board[i]] else old(word)
    {
      ClickAcceptedIffPathStaysValid(path, i);
      if i in path {
        return AlreadySelected;
      }
      if |path| > 0 {
        var last := path[|path| - 1];
        var rowDiff, colDiff := Abs(Row(i) - Row(last)), Abs(Col(i) - Col(last));
        if rowDiff > 1 || colDiff > 1 {
          return NotAdjacent;
        }
      }
      WordOfAppend(board, path, i);
      word := word + [board[i]];
      path := path + [i];
      outcome := Added;
    }

    /** The double-click handler of cell i: only the last selected cell can
        be taken back. */
    method Undo(i: nat) returns (removed: bool)
      requires Valid() && i < Cells
      modifies this`path, this`word
      ensures Valid()
      ensures removed <==> old(path) != [] && old(path)[|old(path)| - 1] == i
      ensures path == if removed then old(path)[..|old(path)| - 1] else old(path)
      ensures word == if removed then old(word)[..|old(word)| - 1] else old(word)
      ensures removed ==> old(path) == path + [i] && old(word) == word + [board[i]]
    {
      if |path| == 0 {
        return false;
      }
      if path[|path| - 1] != i {
        return false;
      }
      ghost var p, w := path, word;
      var q, v := path[..|path| - 1], word[..|word| - 1];
      UndoKeepsPathValid(p);
      WordOfDropLast(board, p);
      assert v == WordOf(board, q) && p == q + [i] && w == v + [board[i]];
      word, path := v, q;
      removed := true;
    }

    /** submitWord, with the dictionary's answer for the lower-cased word
        passed in; it only counts when the local checks pass. */
    method Submit(oracleSaysValid: bool) returns (outcome: Verdict)
      requires Valid()
      modifies this`path, this`word, this`usedWords, this`score
      ensures Valid()
      ensures outcome == TooShort <==> |old(word)| < MinWordLength
      ensures outcome == AlreadyUsed <==> |old(word)| >= MinWordLength && ToLower(old(word)) in old(usedWords)
      ensures outcome.ConsultedOracle() <==> |old(word)| >= MinWordLength && ToLower(old(word)) !in old(usedWords)
      ensures outcome.ConsultedOracle() ==> (outcome == Accepted <==> oracleSaysValid)
      ensures !outcome.ConsultedOracle() ==>
        path == old(path) && word == old(word) && usedWords == old(usedWords) && score == old(score)
      ensures outcome.ConsultedOracle() ==> path == [] && word == []
      ensures outcome == Accepted ==>
        usedWords == old(usedWords) + {ToLower(old(word))} && score == old(score) + |old(word)|
      ensures outcome != Accepted ==> usedWords == old(usedWords) && score == old(score)
    {
      var w := ToLower(word);
      if |w| < MinWordLength {
        return TooShort;
      }
      // The source's emptiness test comes here; it can never succeed.
      if w in usedWords {
        return AlreadyUsed;
      }
      if oracleSaysValid {
        SumLengthsAdd(usedWords, w);
        usedWords := usedWords + {w};
        score := score + |w|;
        outcome := Accepted;
      } else {
        outcome := Invalid;
      }
      ClearSelection();
    }

    /** startTimer: starts the interval, in timed mode only. */
    method StartTimer()
      requires Valid() && timeLeft >= 1
      modifies this`running
      ensures Valid()
      ensures running == (old(running) || isTimerMode)
    {
      if !isTimerMode {
        return;
      }
      running := true;
    }

    /** stopTimer: clears the interval; the seconds left stay. */
    method StopTimer()
      modifies this`running
      ensures !running
    {
      running := false;
    }

    /** endGame: stop, reset, new board; in timed mode also back to a full
        round, with the timer left stopped. */
    method EndGame(d: Draws)
      requires Valid() && WellFormed(d)
      modifies this`board, this`path, this`word, this`usedWords, this`score, this`timeLeft, this`running
      ensures Valid()
      ensures board == NewBoard(d) && path == [] && word == []
      ensures usedWords == {} && score == 0
      ensures isTimerMode == old(isTimerMode) && !running
      ensures timeLeft == if isTimerMode then RoundSeconds else old(timeLeft)
    {
      StopTimer();
      ResetGame();
      ShuffleBoard(d);
      if isTimerMode {
        timeLeft := RoundSeconds;
        StopTimer();
        ResetGame();
      }
    }

    /** One firing of the interval set up by startTimer. `d` is the
        randomness of the new board should the game end. */
    method Tick(d: Draws) returns (ended: bool)
      requires Valid() && WellFormed(d)
      modifies this
      ensures Valid()
      ensures (TimerState(), ended) == TickTimer(old(TimerState()))
      ensures ended ==> board == NewBoard(d) && path == [] && word == [] && usedWords == {} && score == 0
      ensures !ended ==> board == old(board) && path == old(path) && word == old(word) &&
                         usedWords == old(usedWords) && score == old(score)
    {
      if !running {
        return false;
      }
      timeLeft := timeLeft - 1;
      if timeLeft <= 0 {
        running := false;
        EndGame(d);
        return true;
      }
      ended := false;
    }

    /** The new-game button. */
    method NewGame(d: Draws)
      requires Valid() && WellFormed(d)
      modifies this
      ensures Valid()
      ensures board == NewBoard(d) && path == [] && word == []
      ensures usedWords == {} && score == 0
      ensures isTimerMode == old(isTimerMode) && running == isTimerMode
      ensures timeLeft == if isTimerMode then RoundSeconds else old(timeLeft)
    {
      ShuffleBoard(d);
      ResetGame();
      if isTimerMode {
        timeLeft := RoundSeconds;
        StartTimer();
      } else {
        StopTimer();
      }
    }

    /** Switching to unlimited mode. */
    method SetUnlimitedMode()
      requires Valid()
      modifies this`isTimerMode, this`running
      ensures Valid() && !isTimerMode && !running
    {
      isTimerMode := false;
      StopTimer();
    }

    /** Switching to timed mode: a full round, counting down. */
    method SetTimedMode()
      requires Valid()
      modifies this`isTimerMode, this`timeLeft, this`running
      ensures Valid() && isTimerMode && running && timeLeft == RoundSeconds
    {
      isTimerMode := true;
      timeLeft := RoundSeconds;
      StartTimer();
    }
  }

  /** With 'C', 'A', 'T' in the first three cells, clicking cells 0, 1 and
      2 from an empty selection is accepted each time and spells "CAT". */
  lemma SelectCat(board: seq<char>)
    requires |board| == Cells
    requires board[0] == 'C' && board[1] == 'A' && board[2] == 'T'
    ensures ClickResult([], 0) == Added && ClickResult([0], 1) == Added && ClickResult([0, 1], 2) == Added
    ensures ValidPath([0, 1, 2]) && WordOf(board, [0, 1, 2]) == "CAT"
  {
  }

  /** Submitting "CAT" for the first time with a positive dictionary answer
      records "cat", adds 3 to the score and clears the selection. */
  method SubmitNewCat(g: Session)
    requires g.Valid() && g.word == "CAT" && "cat" !in g.usedWords
    modifies g`path, g`word, g`usedWords, g`score
    ensures g.Valid() && g.path == [] && g.word == []
    ensures g.usedWords == old(g.usedWords) + {"cat"} && g.score == old(g.score) + 3
  {
    assert ToLower("CAT") == "cat";
    var v := g.Submit(true);
    assert v == Accepted;
  }

  /** Submitting "CAT" once "cat" is used is refused whatever the
      dictionary says, and leaves the score, the words and the selection
      as they were. */
  method SubmitUsedCat(g: Session, oracleSaysValid: bool)
    requires g.Valid() && g.word == "CAT" && "cat" in g.usedWords
    modifies g`path, g`word, g`usedWords, g`score
    ensures g.Valid() && g.word == "CAT" && g.path == old(g.path)
    ensures g.usedWords == old(g.usedWords) && g.score == old(g.score)
  {
    assert ToLower("CAT") == "cat";
    var v := g.Submit(oracleSaysValid);
    assert v == AlreadyUsed;
  }

  /** Submitting with nothing selected is refused as too short. */
  method SubmitEmpty(g: Session, oracleSaysValid: bool)
    requires g.Valid() && g.path == []
    modifies g`path, g`word, g`usedWords, g`score
    ensures g.Valid() && g.path == [] && g.word == []
    ensures g.usedWords == old(g.usedWords) && g.score == old(g.score)
  {
    var v := g.Submit(oracleSaysValid);
    assert v == TooShort;
  }
}
