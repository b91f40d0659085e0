/**
 * The 2048 component's state (components/Game2048.tsx): the board, the
 * score and the game-over flag that React keeps, and the moves that
 * replace them.
 */
module Game2048Component {
  import opened Game2048

  /**
   * The game component's state as React keeps it: the board (a value
   * replaced by `setBoard`), the score, the game-over flag, how many times
   * `onGameOver` has been called, and the score it was last given.
   */
  class Game {
    var board: Grid
    var score: int
    var gameOver: bool
    var reports: nat
    var reportedScore: int

    /** The board is 4 by 4, and `onGameOver` has been called once exactly when the game is over. */
    ghost predicate Valid()
      reads this
    {
      IsGrid(board) && (gameOver <==> reports == 1) && reports <= 1
    }

    /** `useState(initBoard())` and its neighbours: the initial board, score 0, the game running. */
    constructor (initial: Grid)
      requires IsGrid(initial)
      ensures Valid() && board == initial
      ensures score == 0 && !gameOver && reports == 0
    {
      board := initial;
      score := 0;
      gameOver := false;
      reports, reportedScore := 0, 0;
    }

    /**
     * `move`: nothing once the game is over; otherwise play the move as
     * written (see `PlayMove`) and keep its board and score, ending the game and
     * reporting the new score when no move is left.
     */
    method Move(d: Direction, roll: real, tile: real)
      requires Valid() && 0.0 <= roll < 1.0
      modifies this
      ensures Valid()
      ensures old(gameOver) ==> board == old(board) && score == old(score) && gameOver && reports == old(reports)
      ensures !old(gameOver) ==>
        && Played(old(board), old(score), d, roll, tile, board, score, gameOver)
        && reports == (if gameOver then 1 else 0)
        && (gameOver ==> reportedScore == score)
    {
      if gameOver {
        return;
      }
      var next, nextScore, over := PlayMove(board, score, d, roll, tile);
      var newReports, newReported := reports, reportedScore;
      if over {
        newReports, newReported := reports + 1, nextScore;
      }
      board, score, gameOver, reports, reportedScore := next, nextScore, over, newReports, newReported;
    }
  }

  /**
   * What one move does to the board and score, as `move` is written: when
   * sliding the turned board moves anything, the board becomes the board
   * its turn-back loop leaves (`AfterMoveAsWritten`) with a tile spawned,
   * the score grows by the merged tiles, and the game is over when no move
   * is left; otherwise nothing changes.
   */
  ghost predicate Played(g: Grid, score: int, d: Direction, roll: real, tile: real,
                         next: Grid, nextScore: int, over: bool)
    requires IsGrid(g) && 0.0 <= roll < 1.0
  {
    var t := RotateN(g, Rotations(d));
    && IsGrid(next)
    && (MovedUpTo(t, Size) ==>
         && next == Spawn(AfterMoveAsWritten(g, d), roll, tile)
         && nextScore == score + ScoreUpTo(t, Size)
         && over == GameOver(next))
    && (!MovedUpTo(t, Size) ==> next == g && nextScore == score && !over)
  }

  /** `board.map(row => [...row])` of the board held in state. */
  method ToBoard(g: Grid) returns (b: array2<int>)
    requires IsGrid(g)
    ensures fresh(b) && IsBoard(b) && Cells(b) == g
  {
    b := new int[Size, Size]((i, j) requires 0 <= i < Size && 0 <= j < Size => g[i][j]);
    SameCells(Cells(b), g);
  }

  /**
   * The board work of `move` on a copy: turn the board so the direction is
   * "left", slide left, then run the turn-back loop, which on every pass
   * turns the moved board once (see `AfterMoveAsWritten`), and, if
   * anything moved, spawn a tile on the board that loop leaves and test it
   * for the end of the game.
   */
  method PlayMove(g: Grid, score: int, d: Direction, roll: real, tile: real)
    returns (next: Grid, nextScore: int, over: bool)
    requires IsGrid(g) && 0.0 <= roll < 1.0
    ensures Played(g, score, d, roll, tile, next, nextScore, over)
  {
    var board := ToBoard(g);
    var rotations := Rotations(d);
    var current := TurnBoard(board, rotations);
    var movedBoard, moved, scoreGained := MoveLeft(current);
    ghost var turned := Cells(current);
    assert turned == RotateN(g, Rotations(d));
    ghost var slid := Cells(movedBoard);
    for i := 0 to (4 - rotations) % 4
      invariant fresh(current) && IsBoard(current)
      invariant i == 0 ==> Cells(current) == turned
      invariant IsBoard(movedBoard) && Cells(movedBoard) == slid
      invariant i > 0 ==> Cells(current) == Rotate(slid)
    {
      current := RotateBoard(movedBoard);
    }
    AsWrittenLoop(g, d, Cells(current), turned, slid);
    if moved {
      AddRandomTile(current, roll, tile);
      nextScore := score + scoreGained;
      over := IsGameOver(current);
      next := Cells(current);
    } else {
      next, nextScore, over := g, score, false;
    }
  }

  /** The board the turn-back loop leaves is the board `move` keeps as written. */
  lemma AsWrittenLoop(g: Grid, d: Direction, c: Grid, turned: Grid, slid: Grid)
    requires IsGrid(g) && turned == RotateN(g, Rotations(d)) && slid == SlideAll(turned)
    requires (4 - Rotations(d)) % 4 == 0 ==> c == turned
    requires (4 - Rotations(d)) % 4 != 0 ==> c == Rotate(slid)
    ensures c == AfterMoveAsWritten(g, d)
  {
  }
}
