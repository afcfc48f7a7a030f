/** The 4x4 grid and the selection path. Cell i sits at row i / 4 and
    column i % 4; a path is the sequence of cells the player has clicked,
    and the word it spells is the board's letters along it. */
module Grid {

  const Side := 4
  const Cells := 16

  function Row(i: nat): nat { i / Side }
  function Col(i: nat): nat { i % Side }

  function Abs(x: int): nat { if x < 0 then -x else x }

  /** Neither the row nor the column differs by more than one. */
  predicate Adjacent(a: nat, b: nat) {
    Abs(Row(a) - Row(b)) <= 1 && Abs(Col(a) - Col(b)) <= 1
  }

  /** A selection path: cells of the grid, none twice, each touching the one before. */
  predicate ValidPath(p: seq<nat>) {
    (forall k :: 0 <= k < |p| ==> p[k] < Cells) &&
    (forall j, k :: 0 <= j < k < |p| ==> p[j] != p[k]) &&
    (forall k :: 0 < k < |p| ==> Adjacent(p[k - 1], p[k]))
  }

  /** What a click on a cell does to the path. */
  datatype Click = Added | AlreadySelected | NotAdjacent

  /** The click handler's tests, in its order: a selected cell is inert,
      then a cell not adjacent to the last selected one is refused. */
  function ClickResult(p: seq<nat>, i: nat): Click {
    if i in p then AlreadySelected
    else if |p| > 0 && !Adjacent(p[|p| - 1], i) then NotAdjacent
    else Added
  }

  /** A click on a grid cell is accepted exactly when the extended path is
      still a valid path. */
  lemma ClickAcceptedIffPathStaysValid(p: seq<nat>, i: nat)
    requires ValidPath(p) && i < Cells
    ensures ClickResult(p, i) == Added <==> ValidPath(p + [i])
  {
    var q := p + [i];
    if ClickResult(p, i) == Added {
      forall j, k | 0 <= j < k < |q| ensures q[j] != q[k] {
        if k == |p| { assert q[j] == p[j]; } else { assert q[j] == p[j] && q[k] == p[k]; }
      }
      forall k | 0 < k < |q| ensures Adjacent(q[k - 1], q[k]) {
        if k == |p| { assert q[k - 1] == p[|p| - 1]; } else { assert q[k - 1] == p[k - 1] && q[k] == p[k]; }
      }
    } else if i in p {
      var m :| 0 <= m < |p| && p[m] == i;
      assert q[m] == q[|p|];
    } else {
      assert q[|p| - 1] == p[|p| - 1] && q[|p|] == i;
    }
  }

  /** Dropping the last cell of a valid path leaves a valid path. */
  lemma UndoKeepsPathValid(p: seq<nat>)
    requires ValidPath(p) && p != []
    ensures ValidPath(p[..|p| - 1])
  {
    var q := p[..|p| - 1];
    assert forall k :: 0 <= k < |q| ==> q[k] == p[k];
  }

  /** The word a path spells on a board: its cells' letters, in path order. */
  function WordOf(board: seq<char>, p: seq<nat>): string
    requires forall k :: 0 <= k < |p| ==> p[k] < |board|
  {
    seq(|p|, k requires 0 <= k < |p| => board[p[k]])
  }

  /** Selecting a cell appends its letter to the word. */
  lemma WordOfAppend(board: seq<char>, p: seq<nat>, i: nat)
    requires forall k :: 0 <= k < |p| ==> p[k] < |board|
    requires i < |board|
    ensures WordOf(board, p + [i]) == WordOf(board, p) + [board[i]]
  {
  }

  /** Taking back the last cell takes back the last letter. */
  lemma WordOfDropLast(board: seq<char>, p: seq<nat>)
    requires forall k :: 0 <= k < |p| ==> p[k] < |board|
    requires p != []
    ensures p == p[..|p| - 1] + [p[|p| - 1]]
    ensures WordOf(board, p[..|p| - 1]) == WordOf(board, p)[..|p| - 1]
    ensures WordOf(board, p) == WordOf(board, p[..|p| - 1]) + [board[p[|p| - 1]]]
  {
  }
}
