/** Tetris: a 20×10 board of settled blocks (0 empty, 1..7 the colour id of the
    kind of piece that left them) and one falling tetromino. */
module Tetris {
  import opened Grid
  import opened Options

  const ROWS: nat := 20
  const COLS: nat := 10

  predicate IsBoard(b: Board) {
    IsRect(b, ROWS, COLS)
  }

  // ---------------------------------------------------------------------------
  // Tetrominoes

  /** A rotation matrix: 1 where the piece has a block. */
  type Shape = seq<seq<int>>

  datatype Kind = I | O | T | S | Z | J | L

  /** `TYPES`, in the order that gives the colour ids. */
  const KINDS: seq<Kind> := [I, O, T, S, Z, J, L]

  /** `TETROMINOES`: each kind's rotation matrices, clockwise from the spawn orientation. */
  function Rotations(k: Kind): seq<Shape> {
    match k
    case I => [
      [[1, 1, 1, 1]],
      [[1], [1], [1], [1]]
    ]
    case O => [
      [[1, 1],
       [1, 1]]
    ]
    case T => [
      [[0, 1, 0],
       [1, 1, 1]],
      [[1, 0],
       [1, 1],
       [1, 0]],
      [[1, 1, 1],
       [0, 1, 0]],
      [[0, 1],
       [1, 1],
       [0, 1]]
    ]
    case S => [
      [[0, 1, 1],
       [1, 1, 0]],
      [[1, 0],
       [1, 1],
       [0, 1]]
    ]
    case Z => [
      [[1, 1, 0],
       [0, 1, 1]],
      [[0, 1],
       [1, 1],
       [1, 0]]
    ]
    case J => [
      [[1, 0, 0],
       [1, 1, 1]],
      [[1, 1],
       [1, 0],
       [1, 0]],
      [[1, 1, 1],
       [0, 0, 1]],
      [[0, 1],
       [0, 1],
       [1, 1]]
    ]
    case L => [
      [[0, 0, 1],
       [1, 1, 1]],
      [[1, 0],
       [1, 0],
       [1, 1]],
      [[1, 1, 1],
       [1, 0, 0]],
      [[1, 1],
       [0, 1],
       [0, 1]]
    ]
  }

  /** `TYPE_TO_ID`: a kind's colour id is one plus its position in `TYPES`. */
  function KindId(k: Kind): (id: int)
    ensures 1 <= id <= |KINDS| && KINDS[id - 1] == k
  {
    match k
    case I => 1
    case O => 2
    case T => 3
    case S => 4
    case Z => 5
    case J => 6
    case L => 7
  }

  /** The shape has a block at row `dy`, column `dx` of its matrix. */
  predicate Filled(shape: Shape, dy: int, dx: int) {
    0 <= dy < |shape| && 0 <= dx < |shape[dy]| && shape[dy][dx] != 0
  }

  /** The blocks of row `dy` from column `dx` on, as (row, column) offsets. */
  function RowCells(row: seq<int>, dy: int, dx: nat): (r: seq<(int, int)>)
    ensures forall p :: p in r <==> p.0 == dy && dx <= p.1 < |row| && row[p.1] != 0
    decreases |row| - dx
  {
    if dx >= |row| then []
    else if row[dx] != 0 then [(dy, dx)] + RowCells(row, dy, dx + 1)
    else RowCells(row, dy, dx + 1)
  }

  /** The blocks of the shape from matrix row `dy` down, in the order in which the
      nested loops of the source visit them. */
  function CellsFrom(shape: Shape, dy: nat): (r: seq<(int, int)>)
    ensures forall p :: p in r <==> dy <= p.0 && Filled(shape, p.0, p.1)
    decreases |shape| - dy
  {
    if dy >= |shape| then []
    else RowCells(shape[dy], dy, 0) + CellsFrom(shape, dy + 1)
  }

  /** Every block of the shape, in row-major order. */
  function ShapeCells(shape: Shape): (r: seq<(int, int)>)
    ensures forall p :: p in r <==> Filled(shape, p.0, p.1)
  {
    CellsFrom(shape, 0)
  }

  /** The number of blocks of a 0/1 matrix. */
  function Blocks(shape: Shape): int {
    if |shape| == 0 then 0 else Sum(shape[0]) + Blocks(shape[1..])
  }

  /** A rotation matrix as the game needs it: a rectangle of 0/1 entries, one to four
      rows high, with exactly four blocks, some of them in the top row. */
  predicate WellFormed(shape: Shape) {
    && |shape| >= 1
    && |shape[0]| >= 1
    && (forall dy :: 0 <= dy < |shape| ==> |shape[dy]| == |shape[0]|)
    && (forall dy, dx :: 0 <= dy < |shape| && 0 <= dx < |shape[dy]| ==> shape[dy][dx] == 0 || shape[dy][dx] == 1)
    && Blocks(shape) == 4
    && Sum(shape[0]) > 0
  }

  lemma {:induction false} NonZeroSumHasBlock(s: seq<int>)
    requires Sum(s) != 0
    ensures exists i :: 0 <= i < |s| && s[i] != 0
  {
    if s[0] == 0 {
      NonZeroSumHasBlock(s[1..]);
      var i :| 0 <= i < |s[1..]| && s[1..][i] != 0;
      assert s[i + 1] != 0;
    }
  }

  /** A well-formed shape has a block in its top row. */
  lemma TopRowFilled(shape: Shape)
    requires WellFormed(shape)
    ensures exists dx :: Filled(shape, 0, dx)
  {
    NonZeroSumHasBlock(shape[0]);
    var dx :| 0 <= dx < |shape[0]| && shape[0][dx] != 0;
    assert Filled(shape, 0, dx);
  }

  lemma IWellFormed(r: int)
    requires 0 <= r < |Rotations(I)|
    ensures WellFormed(Rotations(I)[r])
  {
    assert |Rotations(I)| == 2;
  }

  lemma OWellFormed(r: int)
    requires 0 <= r < |Rotations(O)|
    ensures WellFormed(Rotations(O)[r])
  {
    assert |Rotations(O)| == 1;
  }

  lemma TWellFormed(r: int)
    requires 0 <= r < |Rotations(T)|
    ensures WellFormed(Rotations(T)[r])
  {
    if r < 2 {
      TWellFormedEarly(r);
    } else {
      TWellFormedLate(r);
    }
  }

  lemma TWellFormedEarly(r: int)
    requires 0 <= r < 2
    ensures WellFormed(Rotations(T)[r])
  {
  }

  lemma TWellFormedLate(r: int)
    requires 2 <= r < |Rotations(T)|
    ensures WellFormed(Rotations(T)[r])
  {
    assert |Rotations(T)| == 4;
  }

  lemma SWellFormed(r: int)
    requires 0 <= r < |Rotations(S)|
    ensures WellFormed(Rotations(S)[r])
  {
    assert |Rotations(S)| == 2;
  }

  lemma ZWellFormed(r: int)
    requires 0 <= r < |Rotations(Z)|
    ensures WellFormed(Rotations(Z)[r])
  {
    assert |Rotations(Z)| == 2;
  }

  lemma JWellFormed(r: int)
    requires 0 <= r < |Rotations(J)|
    ensures WellFormed(Rotations(J)[r])
  {
    if r < 2 {
      JWellFormedEarly(r);
    } else {
      JWellFormedLate(r);
    }
  }

  lemma JWellFormedEarly(r: int)
    requires 0 <= r < 2
    ensures WellFormed(Rotations(J)[r])
  {
  }

  lemma JWellFormedLate(r: int)
    requires 2 <= r < |Rotations(J)|
    ensures WellFormed(Rotations(J)[r])
  {
    assert |Rotations(J)| == 4;
  }

  lemma LWellFormed(r: int)
    requires 0 <= r < |Rotations(L)|
    ensures WellFormed(Rotations(L)[r])
  {
    if r < 2 {
      LWellFormedEarly(r);
    } else {
      LWellFormedLate(r);
    }
  }

  lemma LWellFormedEarly(r: int)
    requires 0 <= r < 2
    ensures WellFormed(Rotations(L)[r])
  {
  }

  lemma LWellFormedLate(r: int)
    requires 2 <= r < |Rotations(L)|
    ensures WellFormed(Rotations(L)[r])
  {
    assert |Rotations(L)| == 4;
  }

  /** Every rotation matrix of every kind is a rectangle of 0/1 entries with exactly
      four blocks, one of them in the top row. */
  lemma TableWellFormed(k: Kind, r: int)
    requires 0 <= r < |Rotations(k)|
    ensures WellFormed(Rotations(k)[r])
    ensures exists dx :: Filled(Rotations(k)[r], 0, dx)
  {
    KindWellFormed(k, r);
    TopRowFilled(Rotations(k)[r]);
  }

  lemma KindWellFormed(k: Kind, r: int)
    requires 0 <= r < |Rotations(k)|
    ensures WellFormed(Rotations(k)[r])
  {
    match k {
      case I => IWellFormed(r);
      case O => OWellFormed(r);
      case T => TWellFormed(r);
      case S => SWellFormed(r);
      case Z => ZWellFormed(r);
      case J => JWellFormed(r);
      case L => LWellFormed(r);
    }
  }

  // ---------------------------------------------------------------------------
  // Collision

  /** A falling piece: its kind, rotation index and the board cell of the top-left
      corner of its matrix (y may be negative while the piece is above the board). */
  datatype Piece = Piece(kind: Kind, rot: int, x: int, y: int)

  predicate ValidRot(p: Piece) {
    0 <= p.rot < |Rotations(p.kind)|
  }

  function ShapeOf(p: Piece): Shape
    requires ValidRot(p)
  {
    Rotations(p.kind)[p.rot]
  }

  /** A block cannot go to column `cx`, row `cy`: it is left, right or below the
      board, or on a settled block. Rows above the board are free. */
  predicate Blocked(board: Board, cx: int, cy: int)
    requires IsBoard(board)
  {
    cx < 0 || cx >= COLS || cy >= ROWS || (cy >= 0 && board[cy][cx] != 0)
  }

  /** The blocks of the shape from matrix row `dy`, column `dx` on, in row-major
      order, are not blocked; the first blocked one ends the scan (`return false`
      inside the nested loops). */
  function FitsFrom(board: Board, shape: Shape, x: int, y: int, dy: nat, dx: nat): (ok: bool)
    requires IsBoard(board)
    ensures ok <==> forall ry, rx :: Filled(shape, ry, rx) && (dy < ry || (dy == ry && dx <= rx)) ==> !Blocked(board, x + rx, y + ry)
    decreases |shape| - dy, (if dy < |shape| then |shape[dy]| else 0) - dx
  {
    if dy >= |shape| then true
    else if dx >= |shape[dy]| then FitsFrom(board, shape, x, y, dy + 1, 0)
    else if shape[dy][dx] != 0 && Blocked(board, x + dx, y + dy) then
      assert Filled(shape, dy, dx);
      false
    else FitsFrom(board, shape, x, y, dy, dx + 1)
  }

  /** The shape with its matrix's top-left corner on column `x`, row `y` has no
      blocked block. */
  function FitsAt(board: Board, shape: Shape, x: int, y: int): (ok: bool)
    requires IsBoard(board)
    ensures ok <==> forall dy, dx :: Filled(shape, dy, dx) ==> !Blocked(board, x + dx, y + dy)
  {
    FitsFrom(board, shape, x, y, 0, 0)
  }

  /** `isValidPosition(board, piece, offX, offY, rot)`: false exactly when some block
      of rotation `rot`, shifted by (offX, offY), is left, right or below the board
      or on a settled block; blocks above the board are allowed. */
  function IsValidPosition(board: Board, p: Piece, offX: int, offY: int, rot: int): (ok: bool)
    requires IsBoard(board) && 0 <= rot < |Rotations(p.kind)|
    ensures ok <==> forall dy, dx :: Filled(Rotations(p.kind)[rot], dy, dx) ==> !Blocked(board, p.x + offX + dx, p.y + offY + dy)
  {
    FitsAt(board, Rotations(p.kind)[rot], p.x + offX, p.y + offY)
  }

  /** The piece, in its own rotation, does not collide. */
  predicate Fine(board: Board, p: Piece)
    requires IsBoard(board) && ValidRot(p)
  {
    IsValidPosition(board, p, 0, 0, p.rot)
  }

  /** A position that fits has its top row above the floor. */
  lemma FitsAboveFloor(board: Board, p: Piece, offX: int, offY: int, rot: int)
    requires IsBoard(board) && 0 <= rot < |Rotations(p.kind)| && IsValidPosition(board, p, offX, offY, rot)
    ensures p.y + offY < ROWS
  {
    TableWellFormed(p.kind, rot);
    var dx :| Filled(Rotations(p.kind)[rot], 0, dx);
    assert !Blocked(board, p.x + offX + dx, p.y + offY + 0);
  }

  // ---------------------------------------------------------------------------
  // Locking and clearing

  /** Writes `id` on every listed block that lands on the board, in list order. */
  function Stamp(board: Board, cells: seq<(int, int)>, x: int, y: int, id: int): (r: Board)
    requires IsBoard(board)
    ensures IsBoard(r)
    ensures forall row, col :: 0 <= row < ROWS && 0 <= col < COLS ==>
      r[row][col] == (if (row - y, col - x) in cells then id else board[row][col])
    decreases |cells|
  {
    if |cells| == 0 then board
    else
      var ry := y + cells[0].0;
      var rx := x + cells[0].1;
      var b1 := if 0 <= ry < ROWS && 0 <= rx < COLS then SetCell(board, ry, rx, id) else board;
      var r := Stamp(b1, cells[1..], x, y, id);
      assert forall p :: p in cells <==> p == cells[0] || p in cells[1..] by {
        assert cells == [cells[0]] + cells[1..];
      }
      r
  }

  /** `mergePiece`: the board with the piece's colour id written on every block of the
      piece that lies on the board; blocks above the board are dropped and every other
      cell keeps its value. */
  function MergePiece(board: Board, p: Piece): (r: Board)
    requires IsBoard(board) && ValidRot(p)
    ensures IsBoard(r) && Merged(board, r, ShapeOf(p), p.x, p.y, KindId(p.kind))
  {
    StampShape(board, ShapeOf(p), p.x, p.y, KindId(p.kind))
  }

  /** `r` is `board` with `id` on every block of `shape` placed at (x, y) that lies on
      the board, and every other cell as it was. */
  predicate Merged(board: Board, r: Board, shape: Shape, x: int, y: int, id: int)
    requires IsBoard(board) && IsBoard(r)
  {
    forall row, col :: 0 <= row < ROWS && 0 <= col < COLS ==>
      r[row][col] == (if Filled(shape, row - y, col - x) then id else board[row][col])
  }

  /** Writes `id` on every block of `shape`, placed at (x, y), that lands on the board. */
  function StampShape(board: Board, shape: Shape, x: int, y: int, id: int): (r: Board)
    requires IsBoard(board)
    ensures IsBoard(r) && Merged(board, r, shape, x, y, id)
  {
    var cells := ShapeCells(shape);
    var r := Stamp(board, cells, x, y, id);
    StampedCells(board, r, cells, shape, x, y, id);
    r
  }

  /** Stamping the block list of a shape is merging that shape. */
  lemma StampedCells(board: Board, r: Board, cells: seq<(int, int)>, shape: Shape, x: int, y: int, id: int)
    requires IsBoard(board) && IsBoard(r)
    requires forall p :: p in cells <==> Filled(shape, p.0, p.1)
    requires forall row, col :: 0 <= row < ROWS && 0 <= col < COLS ==>
      r[row][col] == (if (row - y, col - x) in cells then id else board[row][col])
    ensures Merged(board, r, shape, x, y, id)
  {
    forall row, col | 0 <= row < ROWS && 0 <= col < COLS
      ensures r[row][col] == (if Filled(shape, row - y, col - x) then id else board[row][col])
    {
      assert (row - y, col - x) in cells <==> Filled(shape, row - y, col - x);
    }
  }

  /** Every cell of the row is filled. */
  predicate FullRow(row: Row) {
    forall c :: 0 <= c < |row| ==> row[c] != 0
  }

  /** The rows that keep an empty cell, in their order (`board.filter(row => row.some(cell => cell === 0))`). */
  function KeepRows(rows: seq<Row>): (r: seq<Row>)
    ensures |r| + FullCount(rows) == |rows|
    ensures forall i :: 0 <= i < |r| ==> !FullRow(r[i]) && r[i] in rows
  {
    if |rows| == 0 then []
    else if !FullRow(rows[0]) then [rows[0]] + KeepRows(rows[1..])
    else KeepRows(rows[1..])
  }

  /** The number of full rows. */
  function FullCount(rows: seq<Row>): nat {
    if |rows| == 0 then 0
    else (if FullRow(rows[0]) then 1 else 0) + FullCount(rows[1..])
  }

  datatype Cleared = Cleared(board: Board, lines: nat)

  /** `clearLines`: the full rows are removed, the others keep their order and sink to
      the bottom, and as many empty rows as were removed come in on top. */
  function ClearLines(board: Board): (r: Cleared)
    requires IsBoard(board)
    ensures IsBoard(r.board)
    ensures r.lines == FullCount(board) && r.lines + |KeepRows(board)| == ROWS
    ensures forall i, c :: 0 <= i < r.lines && 0 <= c < COLS ==> r.board[i][c] == 0
    ensures r.board[r.lines..] == KeepRows(board)
    ensures forall i :: 0 <= i < ROWS ==> !FullRow(r.board[i])
  {
    var remaining := KeepRows(board);
    var cleared := ROWS - |remaining|;
    var top := seq(cleared, _ => Zeros(COLS));
    assert forall i :: 0 <= i < cleared ==> !FullRow(top[i]) by {
      forall i | 0 <= i < cleared
        ensures !FullRow(top[i])
      {
        assert top[i][0] == 0;
      }
    }
    assert (top + remaining)[cleared..] == remaining;
    Cleared(top + remaining, cleared)
  }

  lemma {:induction false} KeepAllRows(rows: seq<Row>)
    requires forall i :: 0 <= i < |rows| ==> !FullRow(rows[i])
    ensures KeepRows(rows) == rows && FullCount(rows) == 0
  {
    if |rows| > 0 {
      KeepAllRows(rows[1..]);
    }
  }

  /** No full row is left after clearing, so clearing again removes nothing and
      changes nothing. */
  lemma ClearLinesIdempotent(board: Board)
    requires IsBoard(board)
    ensures ClearLines(ClearLines(board).board) == Cleared(ClearLines(board).board, 0)
  {
    ClearNothing(ClearLines(board).board);
  }

  /** A board without a full row is left as it is. */
  lemma ClearNothing(board: Board)
    requires IsBoard(board) && forall i :: 0 <= i < ROWS ==> !FullRow(board[i])
    ensures ClearLines(board) == Cleared(board, 0)
  {
    KeepAllRows(board);
    var c := ClearLines(board);
    assert c.board == c.board[0..];
  }

  /** The points for clearing `n` lines at once: the table 100, 300, 500, 800 for one to
      four lines, and 100 per line for any other count. */
  function LineScore(n: nat): (pts: nat)
    requires n > 0
    ensures pts >= 100 * n
  {
    if n == 1 then 100
    else if n == 2 then 300
    else if n == 3 then 500
    else if n == 4 then 800
    else n * 100
  }

  /** Clearing more lines at once never scores less per line, within the table: one
      to four lines score strictly increasing amounts. */
  lemma LineScoreIncreasing(n: nat, m: nat)
    requires 0 < n < m <= 4
    ensures LineScore(n) < LineScore(m)
  {
  }

  /** If every full row lies in rows `lo` to `hi - 1`, there are at most that many. */
  lemma {:induction false} FullCountWindow(rows: seq<Row>, lo: nat, hi: int)
    requires forall i :: 0 <= i < |rows| && FullRow(rows[i]) ==> lo <= i < hi
    ensures FullCount(rows) <= if hi <= lo then 0 else hi - lo
  {
    if |rows| > 0 {
      assert forall i :: 0 <= i < |rows| - 1 ==> rows[1..][i] == rows[i + 1];
      if lo == 0 {
        FullCountWindow(rows[1..], 0, hi - 1);
      } else {
        FullCountWindow(rows[1..], lo - 1, hi - 1);
      }
    }
  }

  /** A lock completes at most as many lines as the piece is high, so at most four:
      the `lines * 100` fallback of the scoring table is never used. */
  lemma LockClearsAtMostFour(board: Board, p: Piece)
    requires IsBoard(board) && ValidRot(p)
    requires forall r :: 0 <= r < ROWS ==> !FullRow(board[r])
    ensures ClearLines(MergePiece(board, p)).lines <= |ShapeOf(p)| <= 4
  {
    TableWellFormed(p.kind, p.rot);
    StampClearsAtMost(board, MergePiece(board, p), ShapeOf(p), p.x, p.y, KindId(p.kind));
  }

  /** Stamping a shape onto a board without full rows completes rows only among the
      shape's own matrix rows. */
  lemma StampClearsAtMost(board: Board, m: Board, shape: Shape, x: int, y: int, id: int)
    requires IsBoard(board) && IsBoard(m) && Merged(board, m, shape, x, y, id)
    requires forall r :: 0 <= r < ROWS ==> !FullRow(board[r])
    ensures ClearLines(m).lines <= |shape|
  {
    var lo := if y < 0 then 0 else y;
    forall i | 0 <= i < ROWS && !(lo <= i < y + |shape|)
      ensures !FullRow(m[i])
    {
      var c :| 0 <= c < COLS && board[i][c] == 0;
      assert !Filled(shape, i - y, c - x);
    }
    FullCountWindow(m, lo, y + |shape|);
  }

  // ---------------------------------------------------------------------------
  // The game

  datatype State = State(board: Board, piece: Piece, score: int, lines: int, paused: bool, gameOver: bool)

  /** A new piece of kind `k`: rotation 0, horizontally centred, two rows above the board. */
  function SpawnPiece(k: Kind): (p: Piece)
    ensures ValidRot(p) && p.rot == 0 && p.y == -2
  {
    Piece(k, 0, (COLS - |Rotations(k)[0][0]|) / 2, -2)
  }

  /** The spawn column keeps the whole spawn shape on the board and leaves the free
      columns on its two sides equal or one more on the right. */
  lemma SpawnCentred(k: Kind)
    ensures var p := SpawnPiece(k);
            var w := |Rotations(k)[0][0]|;
            && 0 <= p.x && p.x + w <= COLS
            && (COLS - w - p.x) - p.x in {0, 1}
            && forall dy, dx :: Filled(ShapeOf(p), dy, dx) ==> 0 <= p.x + dx < COLS
  {
    TableWellFormed(k, 0);
  }

  /** The spawn shape is at most two rows high, so at y = -2 all of it is above the board. */
  lemma SpawnAboveBoard(k: Kind)
    ensures forall dy, dx :: Filled(Rotations(k)[0], dy, dx) ==> dy < 2
  {
  }

  /** A spawned piece always fits, whatever the board: every block is above the board
      and within the columns. The game-over branch of `spawn` is therefore never taken. */
  lemma SpawnAlwaysFits(board: Board, k: Kind)
    requires IsBoard(board)
    ensures IsValidPosition(board, SpawnPiece(k), 0, 0, 0)
  {
    SpawnCentred(k);
    SpawnAboveBoard(k);
  }

  /** `spawn`, testing the new piece against `board`: game over when it does not fit
      (and the old piece stays), otherwise it becomes the falling piece. */
  function Spawn(board: Board, s: State, k: Kind): (s': State)
    requires IsBoard(board)
    ensures s'.gameOver <==> s.gameOver || !IsValidPosition(board, SpawnPiece(k), 0, 0, 0)
    ensures s'.board == s.board && s'.score == s.score && s'.lines == s.lines && s'.paused == s.paused
    ensures s'.piece == (if IsValidPosition(board, SpawnPiece(k), 0, 0, 0) then SpawnPiece(k) else s.piece)
  {
    var next := SpawnPiece(k);
    if !IsValidPosition(board, next, 0, 0, next.rot) then s.(gameOver := true)
    else s.(piece := next)
  }

  /** Settles the piece, clears lines and adds their points. */
  function Settle(s: State): (s': State)
    requires IsBoard(s.board) && ValidRot(s.piece)
    ensures IsBoard(s'.board)
    ensures s'.lines >= s.lines && s'.score >= s.score
    ensures s'.piece == s.piece && s'.paused == s.paused && s'.gameOver == s.gameOver
    ensures s'.score == s.score <==> s'.lines == s.lines
    ensures s'.score - s.score >= 100 * (s'.lines - s.lines)
    ensures var c := ClearLines(MergePiece(s.board, s.piece));
            && s'.board == c.board && s'.lines == s.lines + c.lines
            && s'.score == s.score + (if c.lines > 0 then LineScore(c.lines) else 0)
  {
    var c := ClearLines(MergePiece(s.board, s.piece));
    s.(board := c.board,
       lines := s.lines + c.lines,
       score := s.score + (if c.lines > 0 then LineScore(c.lines) else 0))
  }

  /** The piece has a block above the top row; since every shape has a block in its
      top row, that is the case exactly when `y < 0`. */
  predicate LocksOut(p: Piece) {
    p.y < 0
  }

  lemma LocksOutIff(p: Piece)
    requires ValidRot(p)
    ensures LocksOut(p) <==> exists dy, dx :: Filled(ShapeOf(p), dy, dx) && p.y + dy < 0
  {
    TableWellFormed(p.kind, p.rot);
    var dx :| Filled(ShapeOf(p), 0, dx);
  }

  /** Locking as the source does it: settle, then spawn tested against the board from
      before the lock (the closure's `board`). */
  function LockAsWritten(s: State, k: Kind): (s': State)
    requires IsBoard(s.board) && ValidRot(s.piece)
    ensures IsBoard(s'.board) && ValidRot(s'.piece)
    ensures s'.score >= s.score && s'.lines >= s.lines && s'.paused == s.paused
    ensures s.gameOver ==> s'.gameOver
    ensures var t := Settle(s);
            && s'.board == t.board && s'.score == t.score && s'.lines == t.lines
            && s'.piece == SpawnPiece(k) && s'.gameOver == s.gameOver
  {
    SpawnAlwaysFits(s.board, k);
    Spawn(s.board, Settle(s), k)
  }

  /** Locking with lock-out: a piece that settles with a block above the board ends the
      game; otherwise the next piece spawns. */
  function Lock(s: State, k: Kind): (s': State)
    requires IsBoard(s.board) && ValidRot(s.piece)
    ensures IsBoard(s'.board) && ValidRot(s'.piece)
    ensures s'.score >= s.score && s'.lines >= s.lines && s'.paused == s.paused
    ensures s.gameOver || LocksOut(s.piece) ==> s'.gameOver
    ensures var t := Settle(s);
            s'.board == t.board && s'.score == t.score && s'.lines == t.lines
    ensures LocksOut(s.piece) ==> s'.piece == s.piece
    ensures !LocksOut(s.piece) ==> s'.piece == SpawnPiece(k) && s'.gameOver == s.gameOver
  {
    var settled := Settle(s);
    if LocksOut(s.piece) then settled.(gameOver := true)
    else
      SpawnAlwaysFits(settled.board, k);
      Spawn(settled.board, settled, k)
  }

  /** `stepDown` as written: fall one row if possible, otherwise lock. */
  function StepDownAsWritten(s: State, k: Kind): (s': State)
    requires IsBoard(s.board) && ValidRot(s.piece)
    ensures IsBoard(s'.board) && ValidRot(s'.piece)
    ensures s'.score >= s.score && s'.lines >= s.lines && s'.paused == s.paused
    ensures s.gameOver ==> s'.gameOver
    ensures IsValidPosition(s.board, s.piece, 0, 1, s.piece.rot) ==> s' == s.(piece := s.piece.(y := s.piece.y + 1))
    ensures !IsValidPosition(s.board, s.piece, 0, 1, s.piece.rot) ==> s' == LockAsWritten(s, k)
  {
    if IsValidPosition(s.board, s.piece, 0, 1, s.piece.rot) then s.(piece := s.piece.(y := s.piece.y + 1))
    else LockAsWritten(s, k)
  }

  /** `stepDown` with lock-out: fall one row if possible, otherwise lock. */
  function StepDown(s: State, k: Kind): (s': State)
    requires IsBoard(s.board) && ValidRot(s.piece)
    ensures IsBoard(s'.board) && ValidRot(s'.piece)
    ensures s'.score >= s.score && s'.lines >= s.lines && s'.paused == s.paused
    ensures s.gameOver ==> s'.gameOver
    ensures IsValidPosition(s.board, s.piece, 0, 1, s.piece.rot) ==> s' == s.(piece := s.piece.(y := s.piece.y + 1))
    ensures !IsValidPosition(s.board, s.piece, 0, 1, s.piece.rot) ==> s' == Lock(s, k)
  {
    if IsValidPosition(s.board, s.piece, 0, 1, s.piece.rot) then s.(piece := s.piece.(y := s.piece.y + 1))
    else Lock(s, k)
  }

  /** `softDrop`, and the gravity timer, which runs the same step only while the game
      is neither paused nor over. */
  function SoftDrop(s: State, k: Kind): (s': State)
    requires IsBoard(s.board) && ValidRot(s.piece)
    ensures IsBoard(s'.board) && ValidRot(s'.piece)
    ensures s'.score >= s.score && s'.lines >= s.lines && s'.paused == s.paused
    ensures s.gameOver ==> s'.gameOver
    ensures s.gameOver || s.paused ==> s' == s
    ensures !s.gameOver && !s.paused ==> s' == StepDown(s, k)
  {
    if s.gameOver || s.paused then s else StepDown(s, k)
  }

  /** `softDrop` and the gravity timer as written, over the as-written step. */
  function SoftDropAsWritten(s: State, k: Kind): (s': State)
    requires IsBoard(s.board) && ValidRot(s.piece)
    ensures IsBoard(s'.board) && ValidRot(s'.piece)
    ensures s'.score >= s.score && s'.lines >= s.lines && s'.paused == s.paused
    ensures s.gameOver ==> s'.gameOver
    ensures s.gameOver || s.paused ==> s' == s
    ensures !s.gameOver && !s.paused ==> s' == StepDownAsWritten(s, k)
  {
    if s.gameOver || s.paused then s else StepDownAsWritten(s, k)
  }

  /** `move(dx)`: shift sideways when the shifted piece fits. */
  function MoveSideways(s: State, dx: int): (s': State)
    requires IsBoard(s.board) && ValidRot(s.piece)
    ensures s' == s.(piece := s'.piece)
    ensures s'.piece == s.piece.(x := s'.piece.x) && s'.piece.x - s.piece.x in {0, dx}
    ensures s'.piece != s.piece ==> Fine(s.board, s'.piece)
    ensures !IsValidPosition(s.board, s.piece, dx, 0, s.piece.rot) ==> s' == s
    ensures s.gameOver || s.paused ==> s' == s
    ensures !s.gameOver && !s.paused && IsValidPosition(s.board, s.piece, dx, 0, s.piece.rot) ==>
      s'.piece.x == s.piece.x + dx
  {
    if s.gameOver || s.paused then s
    else if IsValidPosition(s.board, s.piece, dx, 0, s.piece.rot) then s.(piece := s.piece.(x := s.piece.x + dx))
    else s
  }

  /** A sideways step that happened is undone by the opposite step: the piece came
      from a position where it fits, so stepping back is always allowed. */
  lemma MoveSidewaysUndo(s: State, dx: int)
    requires IsBoard(s.board) && ValidRot(s.piece) && Fine(s.board, s.piece)
    requires MoveSideways(s, dx) != s
    ensures MoveSideways(MoveSideways(s, dx), -dx) == s
  {
    var t := MoveSideways(s, dx);
    assert t.piece == s.piece.(x := s.piece.x + dx);
    SameCells(s.board, s.piece, 0, t.piece, -dx, s.piece.rot);
    assert t.piece.(x := t.piece.x + -dx) == s.piece;
  }

  /** Two pieces of one kind whose shifted corners coincide are tested on the same
      cells. */
  lemma SameCells(board: Board, p: Piece, offX: int, q: Piece, offX': int, rot: int)
    requires IsBoard(board) && 0 <= rot < |Rotations(p.kind)|
    requires q.kind == p.kind && q.y == p.y && p.x + offX == q.x + offX'
    ensures IsValidPosition(board, p, offX, 0, rot) == IsValidPosition(board, q, offX', 0, rot)
  {
  }

  /** The wall kicks tried by `rotate`, in order. */
  const KICKS: seq<int> := [0, -1, 1, -2, 2]

  /** The index of the first kick from `i` on under which rotation `rot` fits, or
      `|KICKS|` when none does. */
  function FirstFit(board: Board, p: Piece, rot: int, i: nat): (j: nat)
    requires IsBoard(board) && 0 <= rot < |Rotations(p.kind)| && i <= |KICKS|
    ensures i <= j <= |KICKS|
    ensures j < |KICKS| ==> IsValidPosition(board, p, KICKS[j], 0, rot)
    ensures forall j' :: i <= j' < j ==> !IsValidPosition(board, p, KICKS[j'], 0, rot)
    decreases |KICKS| - i
  {
    if i == |KICKS| then i
    else if IsValidPosition(board, p, KICKS[i], 0, rot) then i
    else FirstFit(board, p, rot, i + 1)
  }

  /** The next rotation clockwise, `(rot + 1) % rotations.length`, which wraps the
      last rotation around to the first. */
  function NextRot(p: Piece): (r: int)
    requires ValidRot(p)
    ensures 0 <= r < |Rotations(p.kind)|
    ensures r == (p.rot + 1) % |Rotations(p.kind)|
  {
    if p.rot + 1 == |Rotations(p.kind)| then 0 else p.rot + 1
  }

  /** `rotate`: turn clockwise to `(rot + 1) mod (number of rotations)`, shifted by the
      first kick under which the turned piece fits; nothing happens if none fits. */
  function RotatePiece(s: State): (s': State)
    requires IsBoard(s.board) && ValidRot(s.piece)
    ensures s' == s.(piece := s'.piece) && ValidRot(s'.piece)
    ensures s'.piece.kind == s.piece.kind && s'.piece.y == s.piece.y
    ensures s'.piece != s.piece ==>
      && s'.piece.rot == NextRot(s.piece) && s'.piece.x - s.piece.x in KICKS
      && Fine(s.board, s'.piece)
    ensures s.gameOver || s.paused ==> s' == s
  {
    if s.gameOver || s.paused then s
    else
      var nextRot := NextRot(s.piece);
      var j := FirstFit(s.board, s.piece, nextRot, 0);
      if j < |KICKS| then s.(piece := s.piece.(rot := nextRot, x := s.piece.x + KICKS[j]))
      else s
  }

  /** `rotate` commits the first kick `KICKS[j]` under which the turned piece fits,
      and keeps the piece when no kick fits. */
  lemma RotateTakesFirstKick(s: State) returns (j: nat)
    requires IsBoard(s.board) && ValidRot(s.piece) && !s.gameOver && !s.paused
    ensures var nextRot := NextRot(s.piece);
            && j <= |KICKS|
            && (forall j' :: 0 <= j' < j ==> !IsValidPosition(s.board, s.piece, KICKS[j'], 0, nextRot))
            && (j == |KICKS| ==> RotatePiece(s) == s)
            && (j < |KICKS| ==> IsValidPosition(s.board, s.piece, KICKS[j], 0, nextRot))
            && (j < |KICKS| ==> RotatePiece(s) == s.(piece := s.piece.(rot := nextRot, x := s.piece.x + KICKS[j])))
  {
    var nextRot := NextRot(s.piece);
    j := FirstFit(s.board, s.piece, nextRot, 0);
  }

  /** `hardDrop` as written: its loop re-tests the unchanged `piece`, so when the piece
      can fall one row the loop never ends (None); otherwise it locks where it is. */
  function HardDropAsWritten(s: State, k: Kind): (r: Option<State>)
    requires IsBoard(s.board) && ValidRot(s.piece)
    ensures r.None? <==> !s.gameOver && !s.paused && IsValidPosition(s.board, s.piece, 0, 1, s.piece.rot)
    ensures s.gameOver || s.paused ==> r == Some(s)
    ensures r.Some? && !s.gameOver && !s.paused ==> r.value == LockAsWritten(s, k)
  {
    if s.gameOver || s.paused then Some(s)
    else if IsValidPosition(s.board, s.piece, 0, 1, s.piece.rot) then None
    else Some(LockAsWritten(s, k))
  }

  /** The lowest row the shape reaches falling straight down from row `y`: every row
      passed on the way fits, and one row further down does not. */
  function DropRow(board: Board, shape: Shape, x: int, y: int): (y': int)
    requires IsBoard(board) && exists dx :: Filled(shape, 0, dx)
    ensures y' >= y && !FitsAt(board, shape, x, y' + 1)
    decreases ROWS - y
  {
    if FitsAt(board, shape, x, y + 1) then
      ShapeAboveFloor(board, shape, x, y + 1);
      DropRow(board, shape, x, y + 1)
    else y
  }

  lemma DropRowPath(board: Board, shape: Shape, x: int, y: int)
    requires IsBoard(board) && exists dx :: Filled(shape, 0, dx)
    ensures forall y' :: y < y' <= DropRow(board, shape, x, y) ==> FitsAt(board, shape, x, y')
  {
    forall y' | y < y' <= DropRow(board, shape, x, y)
      ensures FitsAt(board, shape, x, y')
    {
      DropRowPasses(board, shape, x, y, y');
    }
  }

  /** Each row the shape passes on its way down from row `y` is a row where it fits. */
  lemma {:induction false} DropRowPasses(board: Board, shape: Shape, x: int, y: int, t: int)
    requires IsBoard(board) && exists dx :: Filled(shape, 0, dx)
    requires y < t <= DropRow(board, shape, x, y)
    ensures FitsAt(board, shape, x, t)
    decreases ROWS - y
  {
    DropRowAdvances(board, shape, x, y);
    if t != y + 1 {
      ShapeAboveFloor(board, shape, x, y + 1);
      DropRowPasses(board, shape, x, y + 1, t);
    }
  }

  /** A shape that drops at all first moves one row down. */
  lemma DropRowAdvances(board: Board, shape: Shape, x: int, y: int)
    requires IsBoard(board) && exists dx :: Filled(shape, 0, dx)
    requires DropRow(board, shape, x, y) > y
    ensures FitsAt(board, shape, x, y + 1)
    ensures DropRow(board, shape, x, y) == DropRow(board, shape, x, y + 1)
  {
  }

  /** A shape with a block in its top matrix row fits only above the floor. */
  lemma ShapeAboveFloor(board: Board, shape: Shape, x: int, y: int)
    requires IsBoard(board) && exists dx :: Filled(shape, 0, dx)
    requires FitsAt(board, shape, x, y)
    ensures y < ROWS
  {
    var dx :| Filled(shape, 0, dx);
    assert !Blocked(board, x + dx, y + 0);
  }

  /** Where the piece lands when it falls straight down. */
  function DropTarget(board: Board, p: Piece): (q: Piece)
    requires IsBoard(board) && ValidRot(p)
    ensures q == p.(y := q.y) && q.y >= p.y
    ensures !IsValidPosition(board, q, 0, 1, q.rot)
    ensures forall y :: p.y < y <= q.y ==> FitsAt(board, ShapeOf(p), p.x, y)
  {
    TableWellFormed(p.kind, p.rot);
    DropRowPath(board, ShapeOf(p), p.x, p.y);
    p.(y := DropRow(board, ShapeOf(p), p.x, p.y))
  }

  /** A piece that fits still fits where it lands. */
  lemma DropTargetFits(board: Board, p: Piece)
    requires IsBoard(board) && ValidRot(p) && Fine(board, p)
    ensures Fine(board, DropTarget(board, p))
  {
    var q := DropTarget(board, p);
    if q.y > p.y {
      assert FitsAt(board, ShapeOf(p), p.x, q.y);
    }
  }

  /** Hard drop: fall as far as the piece fits, then lock. */
  function HardDrop(s: State, k: Kind): (s': State)
    requires IsBoard(s.board) && ValidRot(s.piece)
    ensures IsBoard(s'.board) && ValidRot(s'.piece)
    ensures s'.score >= s.score && s'.lines >= s.lines && s'.paused == s.paused
    ensures s.gameOver ==> s'.gameOver
  {
    if s.gameOver || s.paused then s
    else Lock(s.(piece := DropTarget(s.board, s.piece)), k)
  }

  /** `reset` and the initial state: an empty board and a fresh piece of kind `k`. */
  function Reset(k: Kind): (s: State)
  {
    State(Empty(ROWS, COLS), SpawnPiece(k), 0, 0, false, false)
  }

  datatype Key = LeftKey | RightKey | DownKey | UpKey | SpaceKey | PauseKey | OtherKey

  /** The keydown handler with lock-out and a hard drop that lands; `k` is the kind
      a spawn would draw. Score and lines never go down, and a game that is over
      stays over. */
  function OnKey(s: State, key: Key, k: Kind): (s': State)
    requires IsBoard(s.board) && ValidRot(s.piece)
    ensures IsBoard(s'.board) && ValidRot(s'.piece)
    ensures s'.score >= s.score && s'.lines >= s.lines
    ensures key != PauseKey ==> s'.paused == s.paused
    ensures s.gameOver ==> s'.gameOver
  {
    match key
    case LeftKey => MoveSideways(s, -1)
    case RightKey => MoveSideways(s, 1)
    case DownKey => SoftDrop(s, k)
    case UpKey => RotatePiece(s)
    case SpaceKey => HardDrop(s, k)
    case PauseKey => s.(paused := !s.paused)
    case OtherKey => s
  }

  /** The keydown handler as written: the hard drop is the as-written one (None when
      it never returns) and the soft drop locks without lock-out. Apart from the
      hanging hard drop, every key keeps the board a board and never lowers the
      score or the line count. */
  function OnKeyAsWritten(s: State, key: Key, k: Kind): (r: Option<State>)
    requires IsBoard(s.board) && ValidRot(s.piece)
    ensures r.None? <==> key == SpaceKey && !s.gameOver && !s.paused && IsValidPosition(s.board, s.piece, 0, 1, s.piece.rot)
    ensures r.Some? ==> IsBoard(r.value.board) && ValidRot(r.value.piece)
    ensures r.Some? ==> r.value.score >= s.score && r.value.lines >= s.lines
  {
    match key
    case LeftKey => Some(MoveSideways(s, -1))
    case RightKey => Some(MoveSideways(s, 1))
    case DownKey => Some(SoftDropAsWritten(s, k))
    case UpKey => Some(RotatePiece(s))
    case SpaceKey => HardDropAsWritten(s, k)
    case PauseKey => Some(s.(paused := !s.paused))
    case OtherKey => Some(s)
  }

  /** While paused or over, every key but P leaves the game as it is. */
  lemma FrozenIgnoresKeys(s: State, key: Key, k: Kind)
    requires IsBoard(s.board) && ValidRot(s.piece) && (s.paused || s.gameOver) && key != PauseKey
    ensures OnKey(s, key, k) == s
    ensures OnKeyAsWritten(s, key, k) == Some(s)
  {
  }

  /** Cells hold 0 or a colour id. */
  predicate RowColours(row: Row) {
    forall c :: 0 <= c < |row| ==> 0 <= row[c] <= |KINDS|
  }

  predicate Colours(b: Board) {
    forall r :: 0 <= r < |b| ==> RowColours(b[r])
  }

  lemma MergeColours(board: Board, p: Piece)
    requires IsBoard(board) && ValidRot(p) && Colours(board)
    ensures Colours(MergePiece(board, p))
  {
    var m := MergePiece(board, p);
    forall r | 0 <= r < ROWS
      ensures RowColours(m[r])
    {
      assert RowColours(board[r]);
    }
  }

  lemma ClearColours(board: Board)
    requires IsBoard(board) && Colours(board)
    ensures Colours(ClearLines(board).board)
  {
    var c := ClearLines(board);
    forall r | 0 <= r < ROWS
      ensures RowColours(c.board[r])
    {
      if r >= c.lines {
        assert c.board[r] == c.board[c.lines..][r - c.lines];
        assert c.board[r] in board;
      }
    }
  }

  /** The state invariant: a 20×10 board of colour ids without full rows, a piece with a
      rotation of its kind, and, while the game runs, no collision. */
  predicate Inv(s: State) {
    && IsBoard(s.board)
    && Colours(s.board)
    && (forall r :: 0 <= r < ROWS ==> !FullRow(s.board[r]))
    && ValidRot(s.piece)
    && (!s.gameOver ==> Fine(s.board, s.piece))
  }

  lemma ResetInv(k: Kind)
    ensures Inv(Reset(k))
  {
    SpawnAlwaysFits(Empty(ROWS, COLS), k);
    var b := Empty(ROWS, COLS);
    forall r | 0 <= r < ROWS
      ensures !FullRow(b[r])
    {
      assert b[r][0] == 0;
    }
  }

  lemma SettleInv(s: State)
    requires Inv(s)
    ensures IsBoard(Settle(s).board) && Colours(Settle(s).board)
    ensures forall r :: 0 <= r < ROWS ==> !FullRow(Settle(s).board[r])
  {
    MergeColours(s.board, s.piece);
    ClearColours(MergePiece(s.board, s.piece));
  }

  lemma LockInv(s: State, k: Kind)
    requires Inv(s)
    ensures Inv(Lock(s, k))
  {
    SettleInv(s);
    if !LocksOut(s.piece) {
      SpawnAlwaysFits(Settle(s).board, k);
    }
  }

  lemma StepDownInv(s: State, k: Kind)
    requires Inv(s)
    ensures Inv(StepDown(s, k))
  {
    if IsValidPosition(s.board, s.piece, 0, 1, s.piece.rot) {
    } else {
      LockInv(s, k);
    }
  }

  /** Every key keeps the invariant: the falling piece never overlaps a settled block
      or leaves the sides or bottom of the board while the game runs. */
  lemma OnKeyInv(s: State, key: Key, k: Kind)
    requires Inv(s)
    ensures Inv(OnKey(s, key, k))
  {
    if !s.gameOver && !s.paused {
      match key
      case LeftKey =>
      case RightKey =>
      case DownKey => StepDownInv(s, k);
      case UpKey =>
        var nextRot := NextRot(s.piece);
        var j := FirstFit(s.board, s.piece, nextRot, 0);
        if j < |KICKS| {
        }
      case SpaceKey =>
        var q := DropTarget(s.board, s.piece);
        DropTargetFits(s.board, s.piece);
        LockInv(s.(piece := q), k);
      case PauseKey =>
      case OtherKey =>
    }
  }

  /** The as-written lock keeps the invariant too: it tests the spawn against the old
      board, but a spawned piece fits on any board, the settled one included. */
  lemma LockAsWrittenInv(s: State, k: Kind)
    requires Inv(s)
    ensures Inv(LockAsWritten(s, k))
  {
    SettleInv(s);
    SpawnAlwaysFits(s.board, k);
    SpawnAlwaysFits(Settle(s).board, k);
  }

  lemma StepDownAsWrittenInv(s: State, k: Kind)
    requires Inv(s)
    ensures Inv(StepDownAsWritten(s, k))
  {
    if !IsValidPosition(s.board, s.piece, 0, 1, s.piece.rot) {
      LockAsWrittenInv(s, k);
    }
  }

  /** The keydown handler as written keeps the invariant whenever it returns. */
  lemma OnKeyAsWrittenInv(s: State, key: Key, k: Kind)
    requires Inv(s)
    ensures var r := OnKeyAsWritten(s, key, k);
            r.Some? ==> Inv(r.value)
  {
    if !s.gameOver && !s.paused && key == DownKey {
      StepDownAsWrittenInv(s, k);
    } else if !s.gameOver && !s.paused && key == SpaceKey {
      if !IsValidPosition(s.board, s.piece, 0, 1, s.piece.rot) {
        LockAsWrittenInv(s, k);
      }
    } else {
      OnKeyInv(s, key, k);
    }
  }

  // ---------------------------------------------------------------------------
  // The two defects of the source and their corrections

  /** The as-written hard drop never returns for a freshly spawned piece on an empty
      board. */
  lemma HardDropAsWrittenHangs(k: Kind, k': Kind)
    ensures HardDropAsWritten(Reset(k), k') == None
  {
    var s := Reset(k);
    SpawnCentred(k);
    SpawnAboveBoard(k);
    assert IsValidPosition(s.board, s.piece, 0, 1, s.piece.rot);
  }

  /** The corrected hard drop lands: it locks the piece at the lowest row it can fall
      to, having passed only through free positions. */
  lemma HardDropLands(s: State, k: Kind)
    requires Inv(s) && !s.gameOver && !s.paused
    ensures var q := DropTarget(s.board, s.piece);
            && q.y >= s.piece.y && q.x == s.piece.x && q.rot == s.piece.rot
            && Fine(s.board, q)
            && !IsValidPosition(s.board, q, 0, 1, q.rot)
            && HardDrop(s, k) == Lock(s.(piece := q), k)
  {
    DropTargetFits(s.board, s.piece);
  }

  /** As written, a step never ends the game: the spawn test always passes. */
  lemma StepDownAsWrittenNeverEnds(s: State, k: Kind)
    requires IsBoard(s.board) && ValidRot(s.piece) && !s.gameOver
    ensures !StepDownAsWritten(s, k).gameOver
  {
    SpawnAlwaysFits(s.board, k);
  }

  /** As written, the game is never over: no key and no gravity step sets `gameOver`. */
  lemma AsWrittenNeverEnds(s: State, key: Key, k: Kind)
    requires IsBoard(s.board) && ValidRot(s.piece) && !s.gameOver
    ensures var r := OnKeyAsWritten(s, key, k);
            r.Some? ==> !r.value.gameOver
    ensures !SoftDropAsWritten(s, k).gameOver
  {
    SpawnAlwaysFits(s.board, k);
  }

  /** The corrections change only what they are meant to: a lock that does not lock
      out is the lock as written, and so every key but the hard drop does the same in
      both games unless its step locks out. */
  lemma LockAgreesUnlessLockOut(s: State, k: Kind)
    requires IsBoard(s.board) && ValidRot(s.piece) && !LocksOut(s.piece)
    ensures Lock(s, k) == LockAsWritten(s, k)
  {
    SpawnAlwaysFits(s.board, k);
    SpawnAlwaysFits(Settle(s).board, k);
  }

  lemma OnKeyAgreesUnlessLockOut(s: State, key: Key, k: Kind)
    requires IsBoard(s.board) && ValidRot(s.piece) && key != SpaceKey
    requires key == DownKey ==> !LocksOut(s.piece)
    ensures OnKeyAsWritten(s, key, k) == Some(OnKey(s, key, k))
  {
    if key == DownKey {
      LockAgreesUnlessLockOut(s, k);
    }
  }

  /** A stack that fills every row but column 0 up to the top of the board. */
  function Ceiling(): (b: Board)
    ensures IsBoard(b)
    ensures forall r, c :: 0 <= r < ROWS && 0 <= c < COLS ==> (b[r][c] == 0 <==> c == 0)
  {
    seq(ROWS, _ => seq(COLS, c => if c == 0 then 0 else 1))
  }

  /** Two 20×10 boards with the same cells are equal. */
  lemma BoardExt(a: Board, b: Board)
    requires IsBoard(a) && IsBoard(b)
    requires forall r, c :: 0 <= r < ROWS && 0 <= c < COLS ==> a[r][c] == b[r][c]
    ensures a == b
  {
    forall r | 0 <= r < ROWS
      ensures a[r] == b[r]
    {
    }
  }

  /** The fresh O piece over `Ceiling()` cannot fall: its lower left block would land
      on the filled top row. */
  lemma CeilingStopsO()
    ensures !IsValidPosition(Ceiling(), SpawnPiece(O), 0, 1, 0)
  {
    var p := SpawnPiece(O);
    assert Filled(ShapeOf(p), 1, 1);
    assert Ceiling()[0][5] == 1;
    assert Blocked(Ceiling(), p.x + 0 + 1, p.y + 1 + 1);
  }

  /** Merging the fresh O piece into `Ceiling()` writes nothing: all its blocks are
      above the board. */
  lemma CeilingMergeIsVoid()
    ensures MergePiece(Ceiling(), SpawnPiece(O)) == Ceiling()
  {
    BoardExt(MergePiece(Ceiling(), SpawnPiece(O)), Ceiling());
  }

  /** `Ceiling()` has no full row, so clearing leaves it as it is. */
  lemma CeilingClearIsVoid()
    ensures ClearLines(Ceiling()) == Cleared(Ceiling(), 0)
  {
    var b := Ceiling();
    forall r | 0 <= r < ROWS
      ensures !FullRow(b[r])
    {
      assert b[r][0] == 0;
    }
    ClearNothing(b);
  }

  /** As written, an O piece that spawns over a stack reaching the top row locks above
      the board: none of its four blocks is kept and the game goes on. */
  lemma StepDownAsWrittenDropsBlocks()
    ensures var s := Reset(O).(board := Ceiling());
            var s' := StepDownAsWritten(s, O);
            && !s'.gameOver
            && s'.board == s.board
            && s'.lines == 0
  {
    CeilingStopsO();
    CeilingMergeIsVoid();
    CeilingClearIsVoid();
    SpawnAlwaysFits(Ceiling(), O);
  }

  /** With lock-out, a lock that lets the game go on keeps every block of the piece:
      each lands on the board and carries the piece's colour. */
  lemma LockKeepsEveryBlock(s: State, k: Kind)
    requires Inv(s) && !s.gameOver && !Lock(s, k).gameOver
    ensures forall dy, dx :: Filled(ShapeOf(s.piece), dy, dx) ==>
      && 0 <= s.piece.y + dy < ROWS && 0 <= s.piece.x + dx < COLS
      && MergePiece(s.board, s.piece)[s.piece.y + dy][s.piece.x + dx] == KindId(s.piece.kind)
  {
    assert !LocksOut(s.piece);
    FineBlocksLand(s.board, s.piece);
  }

  /** A fitting piece whose top row is on the board has every block on the board, and
      merging writes its colour on each. */
  lemma FineBlocksLand(board: Board, p: Piece)
    requires IsBoard(board) && ValidRot(p) && Fine(board, p) && p.y >= 0
    ensures forall dy, dx :: Filled(ShapeOf(p), dy, dx) ==>
      && 0 <= p.y + dy < ROWS && 0 <= p.x + dx < COLS
      && MergePiece(board, p)[p.y + dy][p.x + dx] == KindId(p.kind)
  {
    ShapeBlocksLand(board, MergePiece(board, p), ShapeOf(p), p.x, p.y, KindId(p.kind));
  }

  lemma ShapeBlocksLand(board: Board, r: Board, shape: Shape, x: int, y: int, id: int)
    requires IsBoard(board) && IsBoard(r) && Merged(board, r, shape, x, y, id) && y >= 0
    requires FitsAt(board, shape, x, y)
    ensures forall dy, dx :: Filled(shape, dy, dx) ==>
      0 <= y + dy < ROWS && 0 <= x + dx < COLS && r[y + dy][x + dx] == id
  {
    forall dy, dx | Filled(shape, dy, dx)
      ensures 0 <= y + dy < ROWS && 0 <= x + dx < COLS && r[y + dy][x + dx] == id
    {
      assert !Blocked(board, x + dx, y + dy);
      assert Filled(shape, (y + dy) - y, (x + dx) - x);
    }
  }

  /** With lock-out, the stack of `StepDownAsWrittenDropsBlocks` ends the game. */
  lemma LockOutEndsGame()
    ensures StepDown(Reset(O).(board := Ceiling()), O).gameOver
  {
    CeilingStopsO();
  }
}
