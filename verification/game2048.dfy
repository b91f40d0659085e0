/**
 * The 2048 game (components/Game2048.tsx): a 4×4 board of tiles, where 0
 * is an empty cell. A move slides every row to the left (after rotating
 * the board so that the chosen direction becomes "left"), merging equal
 * neighbours once; then a 2 or a 4 appears in a random empty cell.
 */
module Game2048 {

  const Size: nat := 4

  type Row = seq<int>
  type Grid = seq<Row>

  predicate IsGrid(g: Grid) {
    |g| == Size && forall i :: 0 <= i < Size ==> |g[i]| == Size
  }

  function Sum(row: Row): int {
    if row == [] then 0 else row[0] + Sum(row[1..])
  }

  lemma {:induction false} SumAppend(a: Row, b: Row)
    ensures Sum(a + b) == Sum(a) + Sum(b)
  {
    if a != [] {
      SumAppend(a[1..], b);
      assert (a + b)[0] == a[0];
      assert (a + b)[1..] == a[1..] + b;
    } else {
      assert a + b == b;
    }
  }

  predicate AllNonZero(row: Row) { forall k :: 0 <= k < |row| ==> row[k] != 0 }

  predicate AllZero(row: Row) { forall k :: 0 <= k < |row| ==> row[k] == 0 }

  // ---------------------------------------------------------------- one row

  /** `row.filter(val => val !== 0)`. */
  function NonZero(row: Row): (r: Row)
    ensures |r| <= |row|
    ensures AllNonZero(r)
    decreases |row|
  {
    if row == [] then []
    else NonZero(row[..|row| - 1]) + (if row[|row| - 1] != 0 then [row[|row| - 1]] else [])
  }

  lemma {:induction false} NonZeroSum(row: Row)
    ensures Sum(NonZero(row)) == Sum(row)
    decreases |row|
  {
    if row != [] {
      var init, x := row[..|row| - 1], row[|row| - 1];
      NonZeroSum(init);
      assert row == init + [x];
      SumAppend(init, [x]);
      SumAppend(NonZero(init), if x != 0 then [x] else []);
    }
  }

  /** A row without zeros is its own filter. */
  lemma {:induction false} NonZeroOfNonZero(row: Row)
    requires AllNonZero(row)
    ensures NonZero(row) == row
    decreases |row|
  {
    if row != [] {
      NonZeroOfNonZero(row[..|row| - 1]);
    }
  }

  lemma {:induction false} NonZeroAppend(a: Row, b: Row)
    ensures NonZero(a + b) == NonZero(a) + NonZero(b)
    decreases |b|
  {
    if b == [] {
      assert a + b == a;
    } else {
      NonZeroAppend(a, b[..|b| - 1]);
      assert (a + b)[..|a + b| - 1] == a + b[..|b| - 1];
    }
  }

  lemma {:induction false} NonZeroOfZeros(z: Row)
    requires AllZero(z)
    ensures NonZero(z) == []
    decreases |z|
  {
    if z != [] {
      NonZeroOfZeros(z[..|z| - 1]);
    }
  }

  /** The result of merging the tiles from position `j` on. */
  datatype Merged = Merged(tiles: Row, score: int, merges: nat)

  /**
   * The inner loop of `moveLeft` from position `j`: two equal neighbours
   * become one tile of twice the value (scoring that value) and the second
   * is skipped; any other tile is kept.
   */
  function MergeFrom(row: Row, j: nat): (m: Merged)
    requires j <= |row|
    ensures |m.tiles| + m.merges == |row| - j
    ensures 2 * m.merges <= |row| - j
    decreases |row| - j
  {
    if j == |row| then Merged([], 0, 0)
    else if j < |row| - 1 && row[j] == row[j + 1] then
      var rest := MergeFrom(row, j + 2);
      Merged([row[j] * 2] + rest.tiles, row[j] * 2 + rest.score, rest.merges + 1)
    else
      var rest := MergeFrom(row, j + 1);
      Merged([row[j]] + rest.tiles, rest.score, rest.merges)
  }

  function Merge(row: Row): Merged { MergeFrom(row, 0) }

  /** Merging keeps the total of the tiles; tiles that were non-zero stay non-zero. */
  lemma {:induction false} MergeFromSum(row: Row, j: nat)
    requires j <= |row|
    ensures Sum(MergeFrom(row, j).tiles) == Sum(row[j..])
    ensures AllNonZero(row[j..]) ==> AllNonZero(MergeFrom(row, j).tiles)
    decreases |row| - j
  {
    if j < |row| {
      if j < |row| - 1 && row[j] == row[j + 1] {
        MergeFromSum(row, j + 2);
        assert row[j..][1..][1..] == row[j + 2..];
      } else {
        MergeFromSum(row, j + 1);
        assert row[j..][1..] == row[j + 1..];
      }
    }
  }

  /**
   * With positive tiles, the score is positive exactly when a merge
   * happened, and it is at least twice the smallest merged tile.
   */
  lemma {:induction false} MergeFromScore(row: Row, j: nat)
    requires j <= |row|
    requires forall k :: j <= k < |row| ==> row[k] > 0
    ensures MergeFrom(row, j).score >= 0
    ensures MergeFrom(row, j).score > 0 <==> MergeFrom(row, j).merges > 0
    decreases |row| - j
  {
    if j < |row| {
      if j < |row| - 1 && row[j] == row[j + 1] {
        MergeFromScore(row, j + 2);
      } else {
        MergeFromScore(row, j + 1);
      }
    }
  }

  /** No merge happens exactly when no two neighbours are equal. */
  lemma {:induction false} MergeFromNone(row: Row, j: nat)
    requires j <= |row|
    ensures MergeFrom(row, j).merges == 0 <==> forall k :: j <= k < |row| - 1 ==> row[k] != row[k + 1]
    ensures MergeFrom(row, j).merges == 0 ==> MergeFrom(row, j).tiles == row[j..]
    decreases |row| - j
  {
    if j < |row| {
      if j < |row| - 1 && row[j] == row[j + 1] {
        MergeFromSum(row, j + 2);
      } else {
        MergeFromNone(row, j + 1);
        if MergeFrom(row, j + 1).merges == 0 {
          assert row[j..] == [row[j]] + row[j + 1..];
        }
      }
    }
  }

  /** `while (newRow.length < 4) newRow.push(0)`. */
  function Pad(tiles: Row): (r: Row)
    ensures |r| == if |tiles| < Size then Size else |tiles|
    ensures r[..|tiles|] == tiles && AllZero(r[|tiles|..])
  {
    tiles + seq(if |tiles| < Size then Size - |tiles| else 0, _ => 0)
  }

  /** One row after a move to the left. */
  function Slide(row: Row): Row {
    Pad(Merge(NonZero(row)).tiles)
  }

  /**
   * A slid row of four cells is four cells, its non-zero tiles packed to
   * the front and zeros after them, with the same total as before.
   */
  lemma SlideRow(row: Row)
    requires |row| == Size
    ensures var r, p := Slide(row), |Merge(NonZero(row)).tiles|;
      && |r| == Size
      && p <= Size && AllNonZero(r[..p]) && AllZero(r[p..])
      && Sum(r) == Sum(row)
  {
    var nz := NonZero(row);
    var m := Merge(nz).tiles;
    MergeFromSum(nz, 0);
    assert nz[0..] == nz;
    NonZeroSum(row);
    var r := Slide(row);
    assert r == m + r[|m|..];
    SumAppend(m, r[|m|..]);
    ZerosSum(r[|m|..]);
  }

  lemma {:induction false} ZerosSum(z: Row)
    requires AllZero(z)
    ensures Sum(z) == 0
  {
    if z != [] {
      ZerosSum(z[1..]);
    }
  }

  /** The non-zero tiles of a slid row are the merged tiles. */
  lemma SlideNonZero(row: Row)
    ensures NonZero(Slide(row)) == Merge(NonZero(row)).tiles
  {
    var nz := NonZero(row);
    var m := Merge(nz).tiles;
    MergeFromSum(nz, 0);
    assert nz[0..] == nz;
    var r := Slide(row);
    assert r == m + r[|m|..];
    NonZeroAppend(m, r[|m|..]);
    NonZeroOfNonZero(m);
    NonZeroOfZeros(r[|m|..]);
  }

  /** A merge always changes the row: `moved` set by a merge agrees with the row comparison. */
  lemma MergeChangesRow(row: Row)
    requires Merge(NonZero(row)).merges > 0
    ensures Slide(row) != row
  {
    SlideNonZero(row);
  }

  /** A row with no empty cell and no two equal neighbours does not move. */
  lemma StuckRow(row: Row)
    requires |row| == Size && AllNonZero(row)
    requires forall k :: 0 <= k < |row| - 1 ==> row[k] != row[k + 1]
    ensures Slide(row) == row
  {
    NonZeroOfNonZero(row);
    MergeFromNone(row, 0);
    assert row[0..] == row;
    assert Pad(row) == row + [];
  }

  // ---------------------------------------------------------------- the grid

  /** Every row moved to the left. */
  function SlideAll(g: Grid): (r: Grid)
    ensures |r| == |g| && forall i :: 0 <= i < |g| ==> r[i] == Slide(g[i])
  {
    seq(|g|, i requires 0 <= i < |g| => Slide(g[i]))
  }

  /** `scoreGained` over the first `n` rows. */
  function ScoreUpTo(g: Grid, n: nat): int
    requires n <= |g|
  {
    if n == 0 then 0 else ScoreUpTo(g, n - 1) + Merge(NonZero(g[n - 1])).score
  }

  /** `moved` over the first `n` rows: set by a merge or by a row that changed. */
  predicate MovedUpTo(g: Grid, n: nat)
    requires n <= |g|
  {
    n > 0 && (MovedUpTo(g, n - 1) || Merge(NonZero(g[n - 1])).merges > 0 || Slide(g[n - 1]) != g[n - 1])
  }

  /** `moved` is true exactly when the board changed. */
  lemma {:induction false} MovedIffChanged(g: Grid, n: nat)
    requires n <= |g|
    ensures MovedUpTo(g, n) <==> exists i :: 0 <= i < n && Slide(g[i]) != g[i]
  {
    if n > 0 {
      MovedIffChanged(g, n - 1);
      if Merge(NonZero(g[n - 1])).merges > 0 {
        MergeChangesRow(g[n - 1]);
      }
    }
  }

  lemma MovedIffBoardChanged(g: Grid)
    requires IsGrid(g)
    ensures MovedUpTo(g, Size) <==> SlideAll(g) != g
  {
    MovedIffChanged(g, Size);
    if SlideAll(g) != g {
      var i :| 0 <= i < Size && SlideAll(g)[i] != g[i];
    }
  }

  /** `rotateBoard`: the cell at row `i`, column `j` goes to row `j`, column `3 - i`. */
  function Rotate(g: Grid): (r: Grid)
    requires IsGrid(g)
    ensures IsGrid(r)
    ensures forall i, j :: 0 <= i < Size && 0 <= j < Size ==> r[i][j] == g[Size - 1 - j][i]
  {
    seq(Size, r requires 0 <= r < Size => seq(Size, c requires 0 <= c < Size => g[Size - 1 - c][r]))
  }

  function RotateN(g: Grid, n: nat): (r: Grid)
    requires IsGrid(g)
    ensures IsGrid(r)
  {
    if n == 0 then g else Rotate(RotateN(g, n - 1))
  }

  lemma {:induction false} RotateNAdd(g: Grid, a: nat, b: nat)
    requires IsGrid(g)
    ensures RotateN(RotateN(g, a), b) == RotateN(g, a + b)
    decreases b
  {
    if b > 0 {
      RotateNAdd(g, a, b - 1);
    }
  }

  /** Two quarter turns turn every cell around the centre. */
  lemma HalfTurn(g: Grid)
    requires IsGrid(g)
    ensures forall i, j :: 0 <= i < Size && 0 <= j < Size ==> Rotate(Rotate(g))[i][j] == g[Size - 1 - i][Size - 1 - j]
  {
  }

  /** Four quarter turns give back the board. */
  lemma FourRotations(g: Grid)
    requires IsGrid(g)
    ensures RotateN(g, 4) == g
  {
    var h := Rotate(Rotate(g));
    HalfTurn(g);
    HalfTurn(h);
    assert RotateN(g, 1) == Rotate(g);
    assert RotateN(g, 2) == h;
    assert RotateN(g, 3) == Rotate(h);
    assert RotateN(g, 4) == Rotate(Rotate(h));
    var r := Rotate(Rotate(h));
    forall i | 0 <= i < Size
      ensures r[i] == g[i]
    {
      assert forall j :: 0 <= j < Size ==> r[i][j] == g[i][j];
    }
  }

  /** `isGameOver`: no empty cell and no two equal neighbours in a row or a column. */
  predicate GameOver(g: Grid)
    requires IsGrid(g)
  {
    && (forall i, j :: 0 <= i < Size && 0 <= j < Size ==> g[i][j] != 0)
    && (forall i, j :: 0 <= i < Size && 0 <= j < Size - 1 ==> DiffRight(g, i, j) && DiffDown(g, j, i))
  }

  /** The cell at row `i`, column `j` differs from its right neighbour. */
  predicate DiffRight(g: Grid, i: nat, j: nat)
    requires IsGrid(g) && i < Size && j < Size - 1
  {
    g[i][j] != g[i][j + 1]
  }

  /** The cell at row `i`, column `j` differs from the one below it. */
  predicate DiffDown(g: Grid, i: nat, j: nat)
    requires IsGrid(g) && i < Size - 1 && j < Size
  {
    g[i][j] != g[i + 1][j]
  }

  /** A finished board is finished whichever way it is turned. */
  lemma GameOverRotate(g: Grid)
    requires IsGrid(g) && GameOver(g)
    ensures GameOver(Rotate(g))
  {
    var r := Rotate(g);
    forall i, j | 0 <= i < Size && 0 <= j < Size - 1
      ensures DiffRight(r, i, j) && DiffDown(r, j, i)
    {
      assert DiffDown(g, 2 - j, i);
      assert DiffRight(g, 3 - i, j);
    }
  }

  /** On a finished board, sliding to the left changes nothing. */
  lemma GameOverStuck(g: Grid)
    requires IsGrid(g) && GameOver(g)
    ensures SlideAll(g) == g
  {
    forall i | 0 <= i < Size
      ensures Slide(g[i]) == g[i]
    {
      forall k | 0 <= k < Size - 1
        ensures g[i][k] != g[i][k + 1]
      {
        assert DiffRight(g, i, k);
      }
      assert forall k :: 0 <= k < Size ==> g[i][k] != 0;
      StuckRow(g[i]);
    }
  }

  /** On a finished board no direction moves anything, so `moved` stays false whatever key is pressed. */
  lemma {:induction false} GameOverNoMove(g: Grid, n: nat)
    requires IsGrid(g) && GameOver(g)
    ensures GameOver(RotateN(g, n))
    ensures !MovedUpTo(RotateN(g, n), Size)
  {
    if n > 0 {
      GameOverNoMove(g, n - 1);
      GameOverRotate(RotateN(g, n - 1));
    }
    GameOverStuck(RotateN(g, n));
    MovedIffBoardChanged(RotateN(g, n));
  }

  // ---------------------------------------------------------------- moves

  datatype Direction = Left | Right | Up | Down

  /** How many quarter turns make the direction "left". */
  function Rotations(d: Direction): (n: nat)
    ensures n < 4
  {
    match d
    case Left => 0
    case Right => 2
    case Up => 3
    case Down => 1
  }

  /** How many quarter turns bring the turned board back. */
  function TurnsBack(d: Direction): (n: nat)
    ensures n < 4 && (Rotations(d) + n) % 4 == 0
  {
    match d
    case Left => 0
    case Right => 2
    case Up => 1
    case Down => 3
  }

  /**
   * The board `move` keeps before the new tile, as written: it turns the
   * board back with a single quarter turn of the moved board, repeated, and
   * for `left` it keeps the board from before the move.
   */
  function AfterMoveAsWritten(g: Grid, d: Direction): (r: Grid)
    requires IsGrid(g)
    ensures IsGrid(r)
  {
    var n := Rotations(d);
    var current := RotateN(g, n);
    var moved := SlideAll(current);
    SlideAllGrid(current);
    if (4 - n) % 4 == 0 then current else Rotate(moved)
  }

  lemma SlideAllGrid(g: Grid)
    requires IsGrid(g)
    ensures IsGrid(SlideAll(g))
  {
    forall i | 0 <= i < Size
      ensures |SlideAll(g)[i]| == Size
    {
      SlideRow(g[i]);
    }
  }

  /** What `move` evidently intends: turn, slide left, and turn back to the original orientation. */
  function AfterMove(g: Grid, d: Direction): (r: Grid)
    requires IsGrid(g)
    ensures IsGrid(r)
  {
    var n := Rotations(d);
    SlideAllGrid(RotateN(g, n));
    RotateN(SlideAll(RotateN(g, n)), TurnsBack(d))
  }

  /**
   * The board `move` keeps, as written, against the intended one: for
   * `left` the board from before the move, for `up` the intended board,
   * for `right` the intended board turned three more quarter turns, and
   * for `down` the intended board turned half round.
   */
  lemma AsWrittenAgainstIntended(g: Grid, d: Direction)
    requires IsGrid(g)
    ensures d == Left ==> AfterMoveAsWritten(g, d) == g
    ensures d == Up ==> AfterMoveAsWritten(g, d) == AfterMove(g, d)
    ensures d == Right ==> AfterMoveAsWritten(g, d) == RotateN(AfterMove(g, d), 3)
    ensures d == Down ==> AfterMoveAsWritten(g, d) == RotateN(AfterMove(g, d), 2)
  {
    match d
    case Left =>
    case Up => UpAsWritten(g);
    case Right => TurnedAsWritten(g, Right);
    case Down => TurnedAsWritten(g, Down);
  }

  /** For `up` the single quarter turn is exactly the turn back. */
  lemma UpAsWritten(g: Grid)
    requires IsGrid(g)
    ensures AfterMoveAsWritten(g, Up) == AfterMove(g, Up)
  {
    var s := SlideAll(RotateN(g, 3));
    SlideAllGrid(RotateN(g, 3));
    assert AfterMoveAsWritten(g, Up) == Rotate(s);
    assert RotateN(s, 1) == Rotate(RotateN(s, 0));
  }

  /** For `right` and `down` the single quarter turn overshoots the turn back by a whole turn less. */
  lemma TurnedAsWritten(g: Grid, d: Direction)
    requires IsGrid(g) && (d == Right || d == Down)
    ensures AfterMoveAsWritten(g, d) == RotateN(AfterMove(g, d), 5 - TurnsBack(d))
  {
    var s := SlideAll(RotateN(g, Rotations(d)));
    SlideAllGrid(RotateN(g, Rotations(d)));
    assert AfterMoveAsWritten(g, d) == Rotate(s);
    OneTurnFromTurned(s, TurnsBack(d), 5 - TurnsBack(d));
  }

  /** Turning a board `a` and then `b` quarter turns, five in all, is one quarter turn. */
  lemma OneTurnFromTurned(s: Grid, a: nat, b: nat)
    requires IsGrid(s) && a + b == 5
    ensures RotateN(RotateN(s, a), b) == Rotate(s)
  {
    RotateNAdd(s, a, b);
    FourRotations(s);
    assert RotateN(s, 5) == Rotate(RotateN(s, 4));
  }

  lemma {:induction false} NonZeroHasTile(row: Row, k: nat)
    requires k < |row| && row[k] != 0
    ensures NonZero(row) != []
    decreases |row|
  {
    if k < |row| - 1 {
      NonZeroHasTile(row[..|row| - 1], k);
    }
  }

  /** A row holding a tile has a tile at the front once slid. */
  lemma SlideFront(row: Row, k: nat)
    requires |row| == Size && k < Size && row[k] != 0
    ensures Slide(row)[0] != 0
  {
    NonZeroHasTile(row, k);
    SlideRow(row);
    var p := |Merge(NonZero(row)).tiles|;
    assert p > 0;
    assert Slide(row)[..p][0] == Slide(row)[0];
  }

  /**
   * A board where sliding left moves a tile: `moved` is true, yet as
   * written the tiles stay where they were, while the intended move slides
   * the tile to the edge.
   */
  lemma LeftMoveIgnored()
    ensures var g := [[0, 2, 0, 0], [0, 0, 0, 0], [0, 0, 0, 0], [0, 0, 0, 0]];
      IsGrid(g) && MovedUpTo(g, Size) && AfterMoveAsWritten(g, Left) == g && AfterMove(g, Left) != g
  {
    var g := [[0, 2, 0, 0], [0, 0, 0, 0], [0, 0, 0, 0], [0, 0, 0, 0]];
    SlideFront(g[0], 1);
    assert SlideAll(g)[0] != g[0];
    MovedIffBoardChanged(g);
    MoveLeftIsSlide(g);
  }

  /** Turning back by the remaining quarter turns undoes the turn. */
  lemma TurnBack(m: Grid, d: Direction)
    requires IsGrid(m)
    ensures RotateN(RotateN(m, TurnsBack(d)), Rotations(d)) == m
  {
    RotateNAdd(m, TurnsBack(d), Rotations(d));
    if d != Left {
      FourRotations(m);
    }
  }

  /** The corrected move is a left slide seen from the turned board. */
  lemma MoveIsTurnedSlide(g: Grid, d: Direction)
    requires IsGrid(g)
    ensures RotateN(AfterMove(g, d), Rotations(d)) == SlideAll(RotateN(g, Rotations(d)))
  {
    var turned := RotateN(g, Rotations(d));
    SlideAllGrid(turned);
    TurnBack(SlideAll(turned), d);
  }

  /** The corrected move to the left is the slide itself. */
  lemma MoveLeftIsSlide(g: Grid)
    requires IsGrid(g)
    ensures AfterMove(g, Left) == SlideAll(g)
  {
    SlideAllGrid(g);
  }

  // ---------------------------------------------------------------- new tiles

  type Cell = (nat, nat)

  /** The empty cells of `row`, which is row `i` of the board, from left to right. */
  function EmptyIn(row: Row, i: nat): (e: seq<Cell>)
    ensures forall k :: 0 <= k < |e| ==> e[k].0 == i && e[k].1 < |row| && row[e[k].1] == 0
  {
    if row == [] then []
    else EmptyIn(row[..|row| - 1], i) + (if row[|row| - 1] == 0 then [(i, |row| - 1)] else [])
  }

  /** The empty cells of `rows`, row by row, in the order `addRandomTile` collects them. */
  function EmptyRows(rows: seq<Row>): (e: seq<Cell>)
    ensures forall k :: 0 <= k < |e| ==> e[k].0 < |rows| && e[k].1 < |rows[e[k].0]| && rows[e[k].0][e[k].1] == 0
  {
    if rows == [] then []
    else EmptyRows(rows[..|rows| - 1]) + EmptyIn(rows[|rows| - 1], |rows| - 1)
  }

  function EmptyCells(g: Grid): (e: seq<Cell>)
    requires IsGrid(g)
    ensures forall k :: 0 <= k < |e| ==> e[k].0 < Size && e[k].1 < Size && g[e[k].0][e[k].1] == 0
  {
    EmptyRows(g)
  }

  lemma {:induction false} EmptyInSpec(row: Row, i: nat)
    ensures forall r: nat, c: nat :: (r, c) in EmptyIn(row, i) <==> r == i && c < |row| && row[c] == 0
    decreases |row|
  {
    if row != [] {
      EmptyInSpec(row[..|row| - 1], i);
    }
  }

  lemma {:induction false} EmptyRowsSpec(rows: seq<Row>)
    ensures forall r: nat, c: nat :: (r, c) in EmptyRows(rows) <==> r < |rows| && c < |rows[r]| && rows[r][c] == 0
    decreases |rows|
  {
    if rows != [] {
      EmptyRowsSpec(rows[..|rows| - 1]);
      EmptyInSpec(rows[|rows| - 1], |rows| - 1);
    }
  }

  /** The cells listed are exactly the empty ones. */
  lemma EmptyCellsSpec(g: Grid)
    requires IsGrid(g)
    ensures forall r: nat, c: nat :: (r, c) in EmptyCells(g) <==> r < Size && c < Size && g[r][c] == 0
  {
    EmptyRowsSpec(g);
  }

  /** `Math.floor(Math.random() * emptyCells.length)`, for a draw in [0, 1). */
  function PickIndex(roll: real, n: nat): (k: nat)
    requires 0.0 <= roll < 1.0 && n > 0
    ensures k < n
  {
    var x := roll * n as real;
    assert 0.0 <= x < n as real;
    x.Floor
  }

  /** `Math.random() < 0.9 ? 2 : 4`. */
  function TileValue(tile: real): (v: int)
    ensures v == 2 || v == 4
  {
    if tile < 0.9 then 2 else 4
  }

  /** `addRandomTile` with its two draws given: one empty cell gets a 2 or a 4. */
  function Spawn(g: Grid, roll: real, tile: real): (r: Grid)
    requires IsGrid(g) && 0.0 <= roll < 1.0
    ensures IsGrid(r)
  {
    var empty := EmptyCells(g);
    if empty == [] then g
    else
      var cell := empty[PickIndex(roll, |empty|)];
      g[cell.0 := g[cell.0][cell.1 := TileValue(tile)]]
  }

  /** A board has no empty cell exactly when every cell holds a tile; then a spawn leaves it alone. */
  lemma SpawnOnFull(g: Grid, roll: real, tile: real)
    requires IsGrid(g) && 0.0 <= roll < 1.0
    ensures EmptyCells(g) == [] <==> forall i, j :: 0 <= i < Size && 0 <= j < Size ==> g[i][j] != 0
    ensures EmptyCells(g) == [] ==> Spawn(g, roll, tile) == g
  {
    EmptyCellsSpec(g);
    var empty := EmptyCells(g);
    if empty == [] {
      forall i, j | 0 <= i < Size && 0 <= j < Size
        ensures g[i][j] != 0
      {
        assert (i, j) !in empty;
      }
    } else {
      assert empty[0] in empty;
    }
  }

  /** On a board with room, exactly one empty cell becomes a 2 or a 4 and every other cell stays. */
  lemma SpawnOneTile(g: Grid, roll: real, tile: real)
    requires IsGrid(g) && 0.0 <= roll < 1.0 && EmptyCells(g) != []
    ensures exists r: nat, c: nat :: (
      && r < Size && c < Size && g[r][c] == 0
      && (Spawn(g, roll, tile)[r][c] == 2 || Spawn(g, roll, tile)[r][c] == 4)
      && forall i, j :: 0 <= i < Size && 0 <= j < Size && (i, j) != (r, c) ==> Spawn(g, roll, tile)[i][j] == g[i][j])
  {
    var empty := EmptyCells(g);
    var cell := empty[PickIndex(roll, |empty|)];
    var r, c := cell.0, cell.1;
    assert g[r][c] == 0;
  }

  /** The number of tiles on the board. */
  function Tiles(g: Grid): int
    requires IsGrid(g)
  {
    Size * Size - |EmptyCells(g)|
  }

  /** Filling an empty cell of a row removes exactly one cell from its empty ones. */
  lemma {:induction false} EmptyInFill(row: Row, i: nat, c: nat, v: int)
    requires c < |row| && row[c] == 0 && v != 0
    ensures |EmptyIn(row[c := v], i)| == |EmptyIn(row, i)| - 1
    decreases |row|
  {
    var n := |row| - 1;
    if c < n {
      assert row[c := v][..n] == row[..n][c := v];
      EmptyInFill(row[..n], i, c, v);
    } else {
      assert row[c := v][..n] == row[..n];
    }
  }

  /** Filling an empty cell removes exactly one cell from the empty ones. */
  lemma {:induction false} EmptyRowsFill(rows: seq<Row>, r: nat, c: nat, v: int)
    requires r < |rows| && c < |rows[r]| && rows[r][c] == 0 && v != 0
    ensures |EmptyRows(rows[r := rows[r][c := v]])| == |EmptyRows(rows)| - 1
    decreases |rows|
  {
    var n := |rows| - 1;
    var filled := rows[r := rows[r][c := v]];
    if r < n {
      assert filled[..n] == rows[..n][r := rows[..n][r][c := v]];
      EmptyRowsFill(rows[..n], r, c, v);
    } else {
      assert filled[..n] == rows[..n];
      EmptyInFill(rows[n], n, c, v);
    }
  }

  /** A spawn on a board with room adds exactly one tile. */
  lemma SpawnAddsTile(g: Grid, roll: real, tile: real)
    requires IsGrid(g) && 0.0 <= roll < 1.0 && EmptyCells(g) != []
    ensures Tiles(Spawn(g, roll, tile)) == Tiles(g) + 1
  {
    EmptyCellsSpec(g);
    var empty := EmptyCells(g);
    var cell := empty[PickIndex(roll, |empty|)];
    assert cell in empty;
    EmptyRowsFill(g, cell.0, cell.1, TileValue(tile));
  }

  function EmptyGrid(): (g: Grid)
    ensures IsGrid(g)
  {
    seq(Size, _ => seq(Size, _ => 0))
  }

  lemma {:induction false} EmptyInZeros(row: Row, i: nat)
    requires forall c :: 0 <= c < |row| ==> row[c] == 0
    ensures |EmptyIn(row, i)| == |row|
    decreases |row|
  {
    if row != [] {
      EmptyInZeros(row[..|row| - 1], i);
    }
  }

  /** On rows of zeros every cell is empty. */
  lemma {:induction false} EmptyRowsZeros(rows: seq<Row>)
    requires forall r :: 0 <= r < |rows| ==> |rows[r]| == Size && forall c :: 0 <= c < Size ==> rows[r][c] == 0
    ensures |EmptyRows(rows)| == Size * |rows|
    decreases |rows|
  {
    if rows != [] {
      EmptyRowsZeros(rows[..|rows| - 1]);
      EmptyInZeros(rows[|rows| - 1], |rows| - 1);
    }
  }

  /** `initBoard`: two spawns on an empty board give exactly two tiles. */
  lemma InitTwoTiles(roll1: real, tile1: real, roll2: real, tile2: real)
    requires 0.0 <= roll1 < 1.0 && 0.0 <= roll2 < 1.0
    ensures Tiles(Spawn(Spawn(EmptyGrid(), roll1, tile1), roll2, tile2)) == 2
  {
    EmptyRowsZeros(EmptyGrid());
    var g1 := Spawn(EmptyGrid(), roll1, tile1);
    SpawnAddsTile(EmptyGrid(), roll1, tile1);
    assert Tiles(g1) == 1;
    SpawnAddsTile(g1, roll2, tile2);
  }

  // ---------------------------------------------------------------- the board in memory

  predicate IsBoard(b: array2<int>) { b.Length0 == Size && b.Length1 == Size }

  /** The cells of a board array, row by row. */
  function Cells(b: array2<int>): (g: Grid)
    reads b
    requires IsBoard(b)
    ensures IsGrid(g) && forall i, j :: 0 <= i < Size && 0 <= j < Size ==> g[i][j] == b[i, j]
  {
    RowsOf(b, Size)
  }

  /** The first `n` rows of a board array. */
  function RowsOf(b: array2<int>, n: nat): (g: Grid)
    reads b
    requires IsBoard(b) && n <= Size
    ensures |g| == n && forall i :: 0 <= i < n ==> g[i] == RowOf(b, i, Size)
  {
    if n == 0 then [] else RowsOf(b, n - 1) + [RowOf(b, n - 1, Size)]
  }

  /** The first `n` cells of row `i` of a board array. */
  function RowOf(b: array2<int>, i: nat, n: nat): (row: Row)
    reads b
    requires IsBoard(b) && i < Size && n <= Size
    ensures |row| == n && forall j :: 0 <= j < n ==> row[j] == b[i, j]
  {
    if n == 0 then [] else RowOf(b, i, n - 1) + [b[i, n - 1]]
  }

  /** Two boards with the same cells have the same grid. */
  lemma SameCells(g: Grid, h: Grid)
    requires IsGrid(g) && IsGrid(h)
    requires forall i, j :: 0 <= i < Size && 0 <= j < Size ==> g[i][j] == h[i][j]
    ensures g == h
  {
    forall i | 0 <= i < Size
      ensures g[i] == h[i]
    {
    }
  }

  /** `Array(4).fill(null).map(() => Array(4).fill(0))`. */
  method NewBoard() returns (b: array2<int>)
    ensures fresh(b) && IsBoard(b) && Cells(b) == EmptyGrid()
  {
    b := new int[Size, Size]((_, _) => 0);
    SameCells(Cells(b), EmptyGrid());
  }

  /** `board.map(row => [...row])`. */
  method CopyBoard(board: array2<int>) returns (b: array2<int>)
    requires IsBoard(board)
    ensures fresh(b) && IsBoard(b) && Cells(b) == Cells(board)
  {
    b := new int[Size, Size]((_, _) => 0);
    for i := 0 to Size
      invariant forall r, c :: 0 <= r < i && 0 <= c < Size ==> b[r, c] == board[r, c]
    {
      for j := 0 to Size
        invariant forall r, c :: 0 <= r < i && 0 <= c < Size ==> b[r, c] == board[r, c]
        invariant forall c :: 0 <= c < j ==> b[i, c] == board[i, c]
      {
        b[i, j] := board[i, j];
      }
    }
    SameCells(Cells(b), Cells(board));
  }

  /** `rotateBoard`: a fresh board with every cell given a quarter turn. */
  method RotateBoard(board: array2<int>) returns (newBoard: array2<int>)
    requires IsBoard(board)
    ensures fresh(newBoard) && IsBoard(newBoard) && Cells(newBoard) == Rotate(Cells(board))
  {
    newBoard := new int[Size, Size]((_, _) => 0);
    for i := 0 to Size
      invariant forall r, c :: 0 <= r < i && 0 <= c < Size ==> newBoard[c, Size - 1 - r] == board[r, c]
    {
      for j := 0 to Size
        invariant forall r, c :: 0 <= r < i && 0 <= c < Size ==> newBoard[c, Size - 1 - r] == board[r, c]
        invariant forall c :: 0 <= c < j ==> newBoard[c, Size - 1 - i] == board[i, c]
      {
        newBoard[j, Size - 1 - i] := board[i, j];
      }
    }
    forall r, c | 0 <= r < Size && 0 <= c < Size
      ensures Cells(newBoard)[r][c] == Rotate(Cells(board))[r][c]
    {
      assert newBoard[r, Size - 1 - (Size - 1 - c)] == board[Size - 1 - c, r];
    }
    SameCells(Cells(newBoard), Rotate(Cells(board)));
  }

  /** `isGameOver`, with its early returns. */
  method IsGameOver(board: array2<int>) returns (over: bool)
    requires IsBoard(board)
    ensures over == GameOver(Cells(board))
  {
    ghost var g := Cells(board);
    for i := 0 to Size
      invariant forall r, c :: 0 <= r < i && 0 <= c < Size ==> g[r][c] != 0
    {
      for j := 0 to Size
        invariant forall r, c :: 0 <= r < i && 0 <= c < Size ==> g[r][c] != 0
        invariant forall c :: 0 <= c < j ==> g[i][c] != 0
      {
        if board[i, j] == 0 {
          return false;
        }
      }
    }
    for i := 0 to Size
      invariant forall r, c :: 0 <= r < i && 0 <= c < Size - 1 ==> DiffRight(g, r, c) && DiffDown(g, c, r)
    {
      for j := 0 to Size - 1
        invariant forall r, c :: 0 <= r < i && 0 <= c < Size - 1 ==> DiffRight(g, r, c) && DiffDown(g, c, r)
        invariant forall c :: 0 <= c < j ==> DiffRight(g, i, c) && DiffDown(g, c, i)
      {
        if board[i, j] == board[i, j + 1] {
          assert !DiffRight(g, i, j);
          return false;
        }
        if board[j, i] == board[j + 1, i] {
          assert !DiffDown(g, j, i);
          return false;
        }
      }
    }
    return true;
  }

  /** The first loop of `addRandomTile`: the empty cells, row by row. */
  method CollectEmpty(board: array2<int>) returns (emptyCells: seq<Cell>)
    requires IsBoard(board)
    ensures emptyCells == EmptyCells(Cells(board))
  {
    ghost var g := Cells(board);
    emptyCells := [];
    for i := 0 to Size
      invariant emptyCells == EmptyRows(g[..i])
    {
      var found := CollectRow(board, i);
      emptyCells := emptyCells + found;
      EmptyRowsSnoc(g, i);
    }
    assert g[..Size] == g;
  }

  /** The inner loop of that collection: the empty cells of row `i`, left to right. */
  method CollectRow(board: array2<int>, i: nat) returns (found: seq<Cell>)
    requires IsBoard(board) && i < Size
    ensures found == EmptyIn(Cells(board)[i][..Size], i)
  {
    ghost var row := Cells(board)[i];
    found := [];
    for j := 0 to Size
      invariant found == EmptyIn(row[..j], i)
    {
      EmptyInSnoc(row, i, j);
      if board[i, j] == 0 {
        found := found + [(i, j)];
      }
    }
  }

  lemma EmptyInSnoc(row: Row, i: nat, j: nat)
    requires j < |row|
    ensures EmptyIn(row[..j + 1], i) == EmptyIn(row[..j], i) + (if row[j] == 0 then [(i, j)] else [])
  {
    assert row[..j + 1][..j] == row[..j];
  }

  lemma EmptyRowsSnoc(rows: seq<Row>, i: nat)
    requires i < |rows|
    ensures EmptyRows(rows[..i + 1]) == EmptyRows(rows[..i]) + EmptyIn(rows[i][..|rows[i]|], i)
  {
    assert rows[..i + 1][..i] == rows[..i];
    assert rows[i][..|rows[i]|] == rows[i];
  }

  /** `addRandomTile`: collect the empty cells row by row, then fill the drawn one with the drawn value. */
  method AddRandomTile(board: array2<int>, roll: real, tile: real)
    requires IsBoard(board) && 0.0 <= roll < 1.0
    modifies board
    ensures Cells(board) == Spawn(old(Cells(board)), roll, tile)
  {
    ghost var g := Cells(board);
    var emptyCells := CollectEmpty(board);
    if |emptyCells| > 0 {
      var cell := emptyCells[PickIndex(roll, |emptyCells|)];
      board[cell.0, cell.1] := if tile < 0.9 then 2 else 4;
    }
    SameCells(Cells(board), Spawn(g, roll, tile));
  }

  /** `newBoard[i].filter(val => val !== 0)`. */
  method FilterRow(b: array2<int>, i: nat) returns (row: Row)
    requires IsBoard(b) && i < Size
    ensures row == NonZero(Cells(b)[i])
  {
    ghost var cells := Cells(b)[i];
    row := [];
    for j := 0 to Size
      invariant row == NonZero(cells[..j])
    {
      assert cells[..j + 1][..j] == cells[..j];
      if b[i, j] != 0 {
        row := row + [b[i, j]];
      }
    }
    assert cells[..Size] == cells;
  }

  /** The merging loop of `moveLeft`, with its `j++` skip after a merge. */
  method MergeRow(row: Row) returns (newRow: Row, gained: int, merged: bool)
    ensures newRow == Merge(row).tiles && gained == Merge(row).score && (merged <==> Merge(row).merges > 0)
  {
    ghost var total := MergeFrom(row, 0);
    newRow, gained, merged := [], 0, false;
    var j := 0;
    while j < |row|
      invariant j <= |row|
      invariant newRow + MergeFrom(row, j).tiles == total.tiles
      invariant gained + MergeFrom(row, j).score == total.score
      invariant MergeFrom(row, j).merges <= total.merges
      invariant merged <==> MergeFrom(row, j).merges < total.merges
      decreases |row| - j
    {
      MergeStep(row, j, newRow, gained);
      if j < |row| - 1 && row[j] == row[j + 1] {
        newRow := newRow + [row[j] * 2];
        gained := gained + row[j] * 2;
        j := j + 1;
        merged := true;
      } else {
        newRow := newRow + [row[j]];
      }
      j := j + 1;
    }
    assert newRow + [] == newRow;
  }

  /** One step of the merging loop, in terms of what is left to merge. */
  lemma MergeStep(row: Row, j: nat, done: Row, gained: int)
    requires j < |row|
    ensures var here := MergeFrom(row, j);
      if j < |row| - 1 && row[j] == row[j + 1] then
        var rest := MergeFrom(row, j + 2);
        && done + here.tiles == (done + [row[j] * 2]) + rest.tiles
        && gained + here.score == (gained + row[j] * 2) + rest.score
        && here.merges == rest.merges + 1
      else
        var rest := MergeFrom(row, j + 1);
        && done + here.tiles == (done + [row[j]]) + rest.tiles
        && gained + here.score == gained + rest.score
        && here.merges == rest.merges
  {
    if j < |row| - 1 && row[j] == row[j + 1] {
      var rest := MergeFrom(row, j + 2);
      assert done + ([row[j] * 2] + rest.tiles) == (done + [row[j] * 2]) + rest.tiles;
    } else {
      var rest := MergeFrom(row, j + 1);
      assert done + ([row[j]] + rest.tiles) == (done + [row[j]]) + rest.tiles;
    }
  }

  /** Replaces row `i` of the board and nothing else. */
  method WriteRow(b: array2<int>, i: nat, row: Row)
    requires IsBoard(b) && i < Size && |row| == Size
    modifies b
    ensures forall r, c :: 0 <= r < Size && 0 <= c < Size ==> b[r, c] == if r == i then row[c] else old(b[r, c])
  {
    for j := 0 to Size
      invariant forall r, c :: 0 <= r < Size && 0 <= c < Size ==> b[r, c] == if r == i && c < j then row[c] else old(b[r, c])
    {
      b[i, j] := row[j];
    }
  }

  /** The new row of `moveLeft` for row `i`: filtered, merged and padded with zeros. */
  method NewRow(b: array2<int>, i: nat) returns (newRow: Row, gained: int, merged: bool)
    requires IsBoard(b) && i < Size
    ensures newRow == Slide(Cells(b)[i]) && |newRow| == Size
    ensures gained == Merge(NonZero(Cells(b)[i])).score && (merged <==> Merge(NonZero(Cells(b)[i])).merges > 0)
  {
    var row := FilterRow(b, i);
    newRow, gained, merged := MergeRow(row);
    SlideRow(Cells(b)[i]);
    ghost var m := newRow;
    while |newRow| < Size
      invariant |m| <= |newRow| <= Size && newRow[..|m|] == m && AllZero(newRow[|m|..])
    {
      newRow := newRow + [0];
    }
    PadUnique(m, newRow);
  }

  /**
   * `moveLeft`: a fresh board with every row slid to the left; `moved` is
   * set by a merge or by a row that changed, and `scoreGained` adds the
   * merged tiles of every row. The board passed in is not changed.
   */
  method MoveLeft(board: array2<int>) returns (newBoard: array2<int>, moved: bool, scoreGained: int)
    requires IsBoard(board)
    ensures fresh(newBoard) && IsBoard(newBoard)
    ensures Cells(newBoard) == SlideAll(Cells(board))
    ensures moved == MovedUpTo(Cells(board), Size)
    ensures scoreGained == ScoreUpTo(Cells(board), Size)
  {
    ghost var g := Cells(board);
    moved, scoreGained := false, 0;
    newBoard := CopyBoard(board);
    for i := 0 to Size
      invariant IsBoard(newBoard) && SlidUpTo(Cells(newBoard), g, i)
      invariant moved == MovedUpTo(g, i) && scoreGained == ScoreUpTo(g, i)
    {
      var gained, changed := SlideRowAt(newBoard, g, i);
      assert ScoreUpTo(g, i + 1) == ScoreUpTo(g, i) + gained;
      assert MovedUpTo(g, i + 1) == (MovedUpTo(g, i) || changed);
      scoreGained := scoreGained + gained;
      moved := moved || changed;
    }
    SameRows(Cells(newBoard), SlideAll(g));
  }

  /**
   * One pass of `moveLeft`'s loop: row `i` is replaced by its slid row;
   * `changed` is set by a merge or a row that differs, `gained` is the
   * row's merged tiles.
   */
  method SlideRowAt(newBoard: array2<int>, ghost g: Grid, i: nat) returns (gained: int, changed: bool)
    requires IsBoard(newBoard) && IsGrid(g) && i < Size && SlidUpTo(Cells(newBoard), g, i)
    modifies newBoard
    ensures IsBoard(newBoard) && SlidUpTo(Cells(newBoard), g, i + 1)
    ensures gained == Merge(NonZero(g[i])).score
    ensures changed <==> Merge(NonZero(g[i])).merges > 0 || Slide(g[i]) != g[i]
  {
    var newRow, merged;
    newRow, gained, merged := NewRow(newBoard, i);
    changed := merged || newRow != Cells(newBoard)[i];
    ghost var before := Cells(newBoard);
    WriteRow(newBoard, i, newRow);
    RowWritten(before, Cells(newBoard), g, i, newRow);
  }

  /** The first `i` rows of `cur` are the slid rows of `g`, and the others are those of `g`. */
  ghost predicate SlidUpTo(cur: Grid, g: Grid, i: nat)
    requires IsGrid(cur) && IsGrid(g)
  {
    forall r :: 0 <= r < Size ==> cur[r] == if r < i then Slide(g[r]) else g[r]
  }

  /** Writing the slid row `i` extends the rows already slid by one. */
  lemma RowWritten(before: Grid, after: Grid, g: Grid, i: nat, row: Row)
    requires IsGrid(before) && IsGrid(after) && IsGrid(g) && i < Size && row == Slide(g[i]) && |row| == Size
    requires SlidUpTo(before, g, i)
    requires forall r, c {:trigger after[r][c]} :: 0 <= r < Size && 0 <= c < Size ==> after[r][c] == if r == i then row[c] else before[r][c]
    ensures SlidUpTo(after, g, i + 1)
  {
    forall r | 0 <= r < Size
      ensures after[r] == if r < i + 1 then Slide(g[r]) else g[r]
    {
      var expected := if r == i then row else before[r];
      assert |after[r]| == |expected| == Size;
      forall c | 0 <= c < Size
        ensures after[r][c] == expected[c]
      {
        assert after[r][c] == if r == i then row[c] else before[r][c];
      }
    }
  }

  lemma SameRows(g: Grid, h: Grid)
    requires IsGrid(g) && |h| == Size && forall r :: 0 <= r < Size ==> g[r] == h[r]
    ensures g == h
  {
  }

  lemma PadUnique(m: Row, r: Row)
    requires |m| <= |r| == Size && r[..|m|] == m && AllZero(r[|m|..])
    ensures r == Pad(m)
  {
    var p := Pad(m);
    forall k | 0 <= k < Size
      ensures r[k] == p[k]
    {
      if k < |m| {
        assert r[..|m|][k] == p[..|m|][k];
      } else {
        assert r[|m|..][k - |m|] == p[|m|..][k - |m|];
      }
    }
  }

  /** `initBoard`: an empty board with two tiles spawned on it. */
  method InitBoard(roll1: real, tile1: real, roll2: real, tile2: real) returns (b: array2<int>)
    requires 0.0 <= roll1 < 1.0 && 0.0 <= roll2 < 1.0
    ensures fresh(b) && IsBoard(b)
    ensures Cells(b) == Spawn(Spawn(EmptyGrid(), roll1, tile1), roll2, tile2)
  {
    b := NewBoard();
    AddRandomTile(b, roll1, tile1);
    AddRandomTile(b, roll2, tile2);
  }

  /** `rotateBoard` applied `n` times, starting from a copy when `n` is 0. */
  method TurnBoard(board: array2<int>, n: nat) returns (current: array2<int>)
    requires IsBoard(board)
    ensures fresh(current) && IsBoard(current) && Cells(current) == RotateN(Cells(board), n)
  {
    current := CopyBoard(board);
    for i := 0 to n
      invariant fresh(current) && IsBoard(current) && Cells(current) == RotateN(Cells(board), i)
    {
      current := RotateBoard(current);
    }
  }
}
