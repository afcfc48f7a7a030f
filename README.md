# A verified model of a browser Boggle game

The game is a 4x4 board of letters. The player clicks adjacent cells to
spell a word, can double-click the last cell to take it back, and submits
the word to a dictionary. An accepted word scores its length and can be
used only once. In timed mode a 60-second countdown ends the game.

This project models the game logic of `index.js` in Dafny:

- `board.dfy` (`module Board`) generates the letters. It draws 16 letters
  from the alphabet without replacement with `splice`, modelled by the
  method `GenerateBoardLetters`, and shuffles them with an in-place
  Fisher–Yates shuffle over an `array`, modelled by `ShuffleArray`. Both
  methods are proved against the specification functions `Letters` and
  `Shuffled`. Lemmas about those functions show that every new board
  holds 16 pairwise distinct letters from `A`..`Z`, and that the shuffle
  is a permutation.
- `grid.dfy` (`module Grid`) holds the cell geometry (row `i / 4`, column
  `i % 4`), the click rule `ClickResult`, the valid selection path and the
  word a path spells.
- `words.dfy` (`module Words`) holds lower-casing of `A`..`Z` and the
  score as the total length of a set of accepted words.
- `countdown.dfy` (`module Countdown`) models the timer as a value:
  one firing of the interval (`TickTimer`), and `k` firings in a row
  (`RunTicks`).
- `game.dfy` (`module Game`) has the class `Session`. Its fields are the
  module-level variables of `index.js`. Its methods are the event
  handlers. The invariant `Valid()` says:
  - the board is a valid board;
  - the selection is a valid path;
  - the selected word is the letters along that path;
  - the score is the total length of the used words;
  - the interval runs only in timed mode with time left.

The random numbers are inputs. A `Draws` value holds, for each call of
`Math.floor(Math.random() * n)`, a natural number below `n`. The
dictionary's answer is a boolean passed to `Submit`. The one-second
interval is a method `Tick` that the environment calls.

## Model

| member | source | states |
|---|---|---|
| Board.Splice | index.js:45 | removing one element of the pool shortens it by one |
| Board.DrawFrom | index.js:43-46 | each remaining draw adds exactly one letter to the selection |
| Board.SpliceKeepsDistinct | index.js:45 | the spliced pool keeps no repeats, and loses exactly the spliced letter |
| Board.PartitionStep | index.js:44-45 | moving the spliced letter into the selection keeps selection and pool disjoint and free of repeats |
| Board.DrawFromProps | index.js:43-46 | drawing without replacement from a disjoint pool yields pairwise distinct letters |
| Board.LettersProps | index.js:40-48 | for all admissible random draws, the generated letters are 16 pairwise distinct upper-case letters |
| Board.GenerateBoardLetters | index.js:40-48 | the splice loop returns exactly `Letters(picks)`, which is 16 distinct letters from A..Z |
| Board.ShuffleFrom | index.js:52-55 | the swap steps keep the length |
| Board.SwapPermutes | index.js:54 | exchanging two elements keeps the multiset of elements |
| Board.SwapKeepsDistinct | index.js:54 | exchanging two elements of a repeat-free sequence keeps it repeat-free |
| Board.ShuffleFromPermutes | index.js:51-57 | every run of the shuffle is a permutation of its input |
| Board.ShuffleFromKeepsDistinct | index.js:51-57 | shuffling distinct elements leaves them distinct |
| Board.ShuffleArray | index.js:51-57 | the in-place loop leaves the array equal to `Shuffled(old contents, swaps)`, a permutation of the old contents |
| Board.NewBoardIsBoard | index.js:122 | for all admissible draws, a new board (the shuffled generated letters) is 16 distinct letters from A..Z |
| Board.ShuffledBoard | index.js:122 | `shuffleArray(generateBoardLetters())` computes `NewBoard(d)`, a valid board |
| Grid.ClickAcceptedIffPathStaysValid | index.js:137-161 | a click is accepted exactly when the extended path is still a valid path: in the grid, without repeats, and adjacent step by step |
| Grid.UndoKeepsPathValid | index.js:169-172 | removing the last cell of a valid path leaves a valid path |
| Grid.WordOfAppend | index.js:159-161 | appending a cell to the path appends its letter to the word |
| Grid.WordOfDropLast | index.js:170-172 | removing the last cell removes the last letter, and the path is what is left plus that cell |
| Words.ToLower | index.js:196 | lower-casing keeps the length, so the length test may be done on either form |
| Words.ToLowerLetters | index.js:196 | lower-casing works character by character |
| Words.ToLowerIdempotent | index.js:182 | lower-casing an already lower-cased word changes nothing, so the API's second `toLowerCase` is harmless |
| Words.LowerCharMeaning | index.js:196 | an upper-case letter maps to the lower-case letter at the same alphabet position; every other character is unchanged |
| Words.SumLengthsRemove | index.js:217-218 | removing any word from the set takes exactly its length off the total |
| Words.SumLengthsAdd | index.js:217-218 | adding a new word adds exactly its length to the total |
| Countdown.StoppedTimerNeverEnds | index.js:35-37 | once the interval is cleared, no number of ticks changes the timer or ends the game |
| Countdown.CountdownEndsOnce | index.js:22-33 | started with n seconds, after k < n ticks the countdown runs with n - k seconds left; from the n-th tick on, it has ended the game exactly once and stands stopped at a full round |
| Countdown.FullRoundEndsOnSixtiethTick | index.js:277-281 | a full timed round ends the game on the 60th tick, not before, and never again |
| Game.Session.constructor | index.js:1-9 | the initial state plus the first `shuffleBoard`: a new board, no selection, no words, score 0, 60 seconds, unlimited mode, no interval |
| Game.Session.ClearSelection | index.js:75-82 | the path and the word become empty; nothing else changes; the invariant holds |
| Game.Session.ResetGame | index.js:85-90 | clears the selection and the used words, and sets the score to 0 |
| Game.Session.ShuffleBoard | index.js:121-126 | installs `NewBoard(d)` and clears the selection; the words and the score stay |
| Game.Session.Select | index.js:136-164 | the outcome is `ClickResult`; only an accepted click appends the cell to the path and its letter to the word; the invariant holds |
| Game.Session.Undo | index.js:167-176 | a cell is removed exactly when it is the last one selected, and then the path and the word each lose their last element |
| Game.Session.Submit | index.js:195-226 | a word under 3 letters is too short; a used word is refused; only then is the dictionary consulted; an accepted word is recorded lower-cased and scores its length; the selection is cleared exactly when the dictionary was consulted |
| Game.Session.StartTimer | index.js:22-25 | the interval starts in timed mode only |
| Game.Session.StopTimer | index.js:35-37 | the interval is cleared; the seconds left stay |
| Game.Session.EndGame | index.js:236-248 | stops, resets and reshuffles; in timed mode it goes back to 60 seconds with the timer stopped |
| Game.Session.Tick | index.js:25-32 | the timer moves as `TickTimer` says; the game ends, with a new board and a reset score, exactly when the seconds reach zero |
| Game.Session.NewGame | index.js:259-268 | a new board and a reset game; in timed mode a full round, running; otherwise stopped |
| Game.Session.SetUnlimitedMode | index.js:271-275 | unlimited mode, with the interval cleared |
| Game.Session.SetTimedMode | index.js:277-281 | timed mode, a full round, running |
| Game.SelectCat | index.js:136-164 | on a board starting C, A, T, clicking cells 0, 1 and 2 is accepted each time and spells "CAT" |
| Game.SubmitNewCat | index.js:214-225 | a first accepted "CAT" records "cat", scores 3 and clears the selection |
| Game.SubmitUsedCat | index.js:209-212 | a second "CAT" is refused whatever the dictionary says, and nothing changes |
| Game.SubmitEmpty | index.js:198-201 | an empty selection is refused as too short, and nothing changes |

## Left out

- Rendering is not modelled: `updateSelectedDisplay`, `updateScore`, `updateTimerDisplay`, `showError`, `alert`, `renderBoard`'s text and the `selected` CSS class. A cell's `selected` class is modelled as its membership in the path.
- `drawConnectingLines` is not modelled. It is floating-point page geometry and has no effect on the game state.
- `checkWordWithAPI` is not modelled. It does a network fetch. Its answer, including the `false` it returns on any error, is the boolean argument of `Submit`.
- `Math.random` is not modelled. Its results are the `Draws` argument, each given with the bound the source's `Math.floor(Math.random() * n)` guarantees. The model proves properties for every admissible value.
- `setInterval` and `setTimeout` are not modelled. The one-second interval is the `Tick` method, called by the environment.
- Concurrency is not modelled. This covers a second submit while the dictionary answer is awaited, and the extra intervals a repeated `startTimer` would create. `running` is one flag, so at most one interval exists.
- Game.Session.StartTimer: requires at least one second left. Every caller in the source sets `timeLeft = 60` first, so the case of starting with no time left does not arise.
- Game.Session.Submit: the test `word.length === 0` at index.js:202 is dead code, because the length test before it already rejects the empty word. An empty selection therefore reports too short, as in the source.
- Words.ToLower: only `A`..`Z` are lowered. `toLowerCase` in the source is full Unicode, but the board only ever holds `A`..`Z`.
- Board.ShuffledBoard: the source shuffles the freshly generated array in place. The model copies the letters into a new array, shuffles that array in place, and reads it back as a sequence. No other reference to that array exists, so aliasing plays no part.
