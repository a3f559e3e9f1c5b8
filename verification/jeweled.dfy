/** Jeweled, a match-3 game on an 8×8 board of gems 1..6 (0 marks a cell emptied by
    a match). Clicking two adjacent cells swaps them; the swap stays only if it makes
    a straight run of three or more equal gems, and then matches are removed, the gems
    above fall and new gems drop in, cascade after cascade. */
module Jeweled {
  import opened Grid
  import opened Chance
  import opened Options

  const ROWS: nat := 8
  const COLS: nat := 8
  const TYPES: nat := 6
  /** The cascade loop stops after this many rounds even if matches remain. */
  const CASCADE_CAP: nat := 20
  /** The message shown after a swap that makes no match. */
  const NO_MATCH: string := "Sin combinación…"

  predicate IsBoard(b: Board) {
    IsRect(b, ROWS, COLS)
  }

  /** Every cell holds a gem. */
  predicate Gems(b: Board)
    requires IsBoard(b)
  {
    forall r, c :: 0 <= r < ROWS && 0 <= c < COLS ==> 1 <= b[r][c] <= TYPES
  }

  type Cell = (int, int)

  predicate OnBoard(p: Cell) {
    0 <= p.0 < ROWS && 0 <= p.1 < COLS
  }

  /** `randomGem()`: the draw picks one of the gems 1..6. */
  function RandomGem(u: Draw): (g: int)
    requires Valid(u)
    ensures 1 <= g <= TYPES
  {
    1 + Scale(u, TYPES)
  }

  // ---------------------------------------------------------------------------
  // Matches

  /** Three equal gems start at position `i` of the line. */
  predicate Triple(s: seq<int>, i: int) {
    0 <= i && i + 2 < |s| && s[i] != 0 && s[i] == s[i + 1] && s[i + 1] == s[i + 2]
  }

  /** Position `k` lies in a run of three or more equal gems. */
  predicate InRun(s: seq<int>, k: int) {
    Triple(s, k - 2) || Triple(s, k - 1) || Triple(s, k)
  }

  /** The cells that lie in a horizontal or a vertical run of three or more equal gems. */
  function MatchSet(b: Board): (m: set<Cell>)
    requires IsBoard(b)
    ensures forall p :: p in m ==> OnBoard(p)
  {
    set r, c | 0 <= r < ROWS && 0 <= c < COLS && (InRun(b[r], c) || InRun(Column(b, c), r)) :: (r, c)
  }

  /** Positions `a` to `c - 1` form a maximal block of equal values as the run counter
      of `findMatches` sees it: each one after the first is a non-empty cell equal to
      its predecessor, and neither the cell before nor the cell after continues it. */
  predicate MaximalRun(s: seq<int>, a: int, c: int) {
    && 0 <= a < c <= |s|
    && (forall i :: a < i < c ==> s[i] != 0 && s[i] == s[i - 1])
    && (a > 0 ==> !(s[a] != 0 && s[a] == s[a - 1]))
    && (c < |s| ==> !(s[c] != 0 && s[c] == s[c - 1]))
  }

  lemma RunEqual(s: seq<int>, a: int, c: int)
    requires MaximalRun(s, a, c)
    ensures forall i :: a <= i < c ==> s[i] == s[a]
  {
    var i := a;
    while i < c
      invariant a <= i <= c
      invariant forall j :: a <= j < i ==> s[j] == s[a]
    {
      if i > a {
        assert s[i] == s[i - 1];
      }
      i := i + 1;
    }
  }

  /** A maximal block puts its cells in a run exactly when it is three or more long. */
  lemma RunFlush(s: seq<int>, a: int, c: int)
    requires MaximalRun(s, a, c)
    ensures forall k :: a <= k < c ==> (InRun(s, k) <==> c - a >= 3)
  {
    RunEqual(s, a, c);
    forall k | a <= k < c
      ensures InRun(s, k) <==> c - a >= 3
    {
      if c - a >= 3 {
        assert s[a + 1] != 0;
        if k + 2 < c {
          assert Triple(s, k);
        } else if k + 1 < c {
          assert Triple(s, k - 1);
        } else {
          assert Triple(s, k - 2);
        }
      } else {
        NoTripleInShortRun(s, a, c, k - 2);
        NoTripleInShortRun(s, a, c, k - 1);
        NoTripleInShortRun(s, a, c, k);
      }
    }
  }

  lemma NoTripleInShortRun(s: seq<int>, a: int, c: int, i: int)
    requires MaximalRun(s, a, c) && c - a < 3 && i <= c - 1 && a <= i + 2
    ensures !Triple(s, i)
  {
    if 0 <= i && i + 2 < |s| {
      if i < a {
        assert !(s[a] != 0 && s[a] == s[a - 1]);
      } else {
        assert !(s[c] != 0 && s[c] == s[c - 1]);
      }
    }
  }

  /** The integers from `lo` to `hi - 1`. */
  function Span(lo: int, hi: int): (r: set<int>)
    ensures forall k :: k in r <==> lo <= k < hi
    decreases hi - lo
  {
    if lo >= hi then {} else {lo} + Span(lo + 1, hi)
  }

  /** The run counter of `findMatches` over one line: the positions that lie in a run
      of three or more equal gems. */
  method ScanLine(s: seq<int>) returns (m: set<int>)
    ensures forall k :: k in m <==> 0 <= k < |s| && InRun(s, k)
  {
    m := {};
    if |s| == 0 {
      return;
    }
    var run := 1;
    var c := 1;
    while c <= |s|
      invariant 1 <= c <= |s| + 1
      invariant 1 <= run <= c
      invariant c <= |s| ==> forall i :: c - run < i < c ==> s[i] != 0 && s[i] == s[i - 1]
      invariant c <= |s| && c - run > 0 ==> !(s[c - run] != 0 && s[c - run] == s[c - run - 1])
      invariant c == |s| + 1 ==> run == 1
      invariant forall k :: k in m <==> 0 <= k < c - run && InRun(s, k)
    {
      var same := c < |s| && s[c] != 0 && s[c] == s[c - 1];
      if same {
        run := run + 1;
      } else {
        RunFlush(s, c - run, c);
        if run >= 3 {
          m := m + Span(c - run, c);
        }
        run := 1;
      }
      c := c + 1;
    }
  }

  /** `findMatches`: the cells in a horizontal or vertical run of three or more equal
      gems, rows scanned first, then columns. */
  method FindMatches(b: Board) returns (m: set<Cell>)
    requires IsBoard(b)
    ensures m == MatchSet(b)
  {
    m := {};
    var r := 0;
    while r < ROWS
      invariant 0 <= r <= ROWS
      invariant forall p :: p in m <==> 0 <= p.0 < r && 0 <= p.1 < COLS && InRun(b[p.0], p.1)
    {
      var ks := ScanLine(b[r]);
      m := m + set k | k in ks :: (r, k);
      r := r + 1;
    }
    var c := 0;
    while c < COLS
      invariant 0 <= c <= COLS
      invariant forall p :: p in m <==> OnBoard(p) && (InRun(b[p.0], p.1) || (p.1 < c && InRun(Column(b, p.1), p.0)))
    {
      var ks := ScanLine(Column(b, c));
      m := m + set k | k in ks :: (k, c);
      c := c + 1;
    }
    assert forall p :: p in m <==> p in MatchSet(b);
  }

  // ---------------------------------------------------------------------------
  // Removing, falling and refilling

  /** The board with the cells of `m` emptied. */
  function Removed(b: Board, m: set<Cell>): (out: Board)
    requires IsBoard(b)
    ensures IsBoard(out)
  {
    seq(ROWS, r requires 0 <= r < ROWS =>
      seq(COLS, c requires 0 <= c < COLS => if (r, c) in m then 0 else b[r][c]))
  }

  /** A column after gravity: empty cells on top of the column's gems, which keep
      their order. */
  function Settled(col: Row): (out: Row)
    ensures |out| == |col|
  {
    Zeros(|col| - |NonZero(col)|) + NonZero(col)
  }

  /** The board with every column settled. */
  function Fallen(b: Board): (out: Board)
    requires IsBoard(b)
    ensures IsBoard(out)
  {
    seq(ROWS, r requires 0 <= r < ROWS =>
      seq(COLS, c requires 0 <= c < COLS => Settled(Column(b, c))[r]))
  }

  /** `removeMatches`: the matched cells become empty, one at a time as the set is
      walked, and every other cell keeps its gem. */
  method RemoveMatches(b: Board, m: set<Cell>) returns (out: Board)
    requires IsBoard(b) && forall p :: p in m ==> OnBoard(p)
    ensures IsBoard(out)
    ensures forall r, c :: 0 <= r < ROWS && 0 <= c < COLS ==> out[r][c] == if (r, c) in m then 0 else b[r][c]
    ensures out == Removed(b, m)
  {
    out := b;
    var left := m;
    while left != {}
      invariant IsBoard(out) && left <= m
      invariant forall r, c :: 0 <= r < ROWS && 0 <= c < COLS ==> out[r][c] == if (r, c) in m - left then 0 else b[r][c]
      decreases |left|
    {
      var p :| p in left;
      out := SetCell(out, p.0, p.1, 0);
      left := left - {p};
    }
    forall r | 0 <= r < ROWS
      ensures out[r] == Removed(b, m)[r]
    {
    }
  }

  lemma NonZeroStep(s: seq<int>, r: int)
    requires 0 <= r < |s|
    ensures NonZero(s[r..]) == (if s[r] != 0 then [s[r]] else []) + NonZero(s[r + 1..])
  {
    assert s[r..][1..] == s[r + 1..];
  }

  /** Writing the gem of row `r` at the write pointer extends the packed suffix by
      that gem and leaves the rows above `r` untouched. */
  lemma WriteGem(out: seq<int>, col: seq<int>, r: int, write: int)
    requires 0 <= r <= write < |out| == |col| && col[r] != 0
    requires out[..r + 1] == col[..r + 1]
    requires out[write + 1..] == NonZero(col[r + 1..])
    ensures out[write := col[r]][..r] == col[..r]
    ensures out[write := col[r]][write..] == NonZero(col[r..])
  {
    NonZeroStep(col, r);
    var o := out[write := col[r]];
    assert o[..r] == out[..r + 1][..r];
    assert o[write..] == [col[r]] + out[write + 1..];
  }

  /** An empty cell at row `r` is skipped. */
  lemma SkipEmpty(out: seq<int>, col: seq<int>, r: int, write: int)
    requires 0 <= r <= write < |out| == |col| && col[r] == 0
    requires out[..r + 1] == col[..r + 1]
    requires out[write + 1..] == NonZero(col[r + 1..])
    ensures out[..r] == col[..r]
    ensures out[write + 1..] == NonZero(col[r..])
  {
    NonZeroStep(col, r);
    assert out[..r] == out[..r + 1][..r];
  }

  /** One column of `collapse`, with its write pointer: walking up from the bottom, each
      gem is written at the pointer, which then moves up; the cells above the pointer
      are emptied at the end. Top to bottom, the result is empty cells followed by the
      column's gems in their original order. */
  method CollapseColumn(col: seq<int>) returns (out: seq<int>)
    ensures out == Zeros(|col| - |NonZero(col)|) + NonZero(col)
  {
    out := col;
    var write := |col| - 1;
    var r := |col| - 1;
    while r >= 0
      invariant -1 <= r <= write <= |col| - 1
      invariant |out| == |col|
      invariant write == |col| - 1 - |NonZero(col[r + 1..])|
      invariant out[..r + 1] == col[..r + 1]
      invariant out[write + 1..] == NonZero(col[r + 1..])
      decreases r
    {
      assert out[r] == out[..r + 1][r] == col[r];
      NonZeroStep(col, r);
      if out[r] != 0 {
        WriteGem(out, col, r, write);
        out := out[write := out[r]];
        write := write - 1;
      } else {
        SkipEmpty(out, col, r, write);
      }
      r := r - 1;
    }
    assert col[0..] == col;
    out := EmptyAbove(out, write + 1);
  }

  /** The second half of a column of `collapse`: the `n` cells above the write pointer
      are emptied, from the pointer up, and the rest keep their values. */
  method EmptyAbove(s: seq<int>, n: nat) returns (out: seq<int>)
    requires n <= |s|
    ensures out == Zeros(n) + s[n..]
  {
    out := s;
    var z := n - 1;
    while z >= 0
      invariant -1 <= z <= n - 1
      invariant |out| == |s|
      invariant out[n..] == s[n..]
      invariant forall i :: z < i < n ==> out[i] == 0
      invariant forall i :: 0 <= i <= z ==> out[i] == s[i]
      decreases z
    {
      out := out[z := 0];
      z := z - 1;
    }
    assert out == Zeros(n) + s[n..];
  }

  /** `collapse` (gravity): in every column the gems keep their order, sink to the
      bottom, and the cells above them are empty. */
  method Collapse(b: Board) returns (out: Board)
    requires IsBoard(b)
    ensures IsBoard(out)
    ensures forall c :: 0 <= c < COLS ==>
      Column(out, c) == Zeros(ROWS - |NonZero(Column(b, c))|) + NonZero(Column(b, c))
    ensures out == Fallen(b)
  {
    var cols: seq<seq<int>> := [];
    var c := 0;
    while c < COLS
      invariant 0 <= c <= COLS && |cols| == c
      invariant forall j :: 0 <= j < c ==> cols[j] == Zeros(ROWS - |NonZero(Column(b, j))|) + NonZero(Column(b, j))
    {
      var col := CollapseColumn(Column(b, c));
      cols := cols + [col];
      c := c + 1;
    }
    out := seq(ROWS, r requires 0 <= r < ROWS => seq(COLS, j requires 0 <= j < COLS => cols[j][r]));
    forall j | 0 <= j < COLS
      ensures Column(out, j) == cols[j]
    {
    }
    forall r | 0 <= r < ROWS
      ensures out[r] == Fallen(b)[r]
    {
    }
  }

  /** A drops draw for every cell; `refill` uses those of the empty cells. */
  predicate DrawGrid(u: seq<seq<Draw>>) {
    && |u| == ROWS
    && (forall r :: 0 <= r < ROWS ==> |u[r]| == COLS)
    && forall r, c :: 0 <= r < ROWS && 0 <= c < COLS ==> Valid(u[r][c])
  }

  /** `refill`: every empty cell gets a new gem 1..6 and every other cell keeps its gem. */
  function Refill(b: Board, u: seq<seq<Draw>>): (out: Board)
    requires IsBoard(b) && DrawGrid(u)
    ensures IsBoard(out)
    ensures forall r, c :: 0 <= r < ROWS && 0 <= c < COLS ==> out[r][c] != 0
    ensures forall r, c :: 0 <= r < ROWS && 0 <= c < COLS && b[r][c] != 0 ==> out[r][c] == b[r][c]
    ensures forall r, c :: 0 <= r < ROWS && 0 <= c < COLS && b[r][c] == 0 ==> 1 <= out[r][c] <= TYPES
  {
    seq(ROWS, r requires 0 <= r < ROWS =>
      seq(COLS, c requires 0 <= c < COLS => if b[r][c] == 0 then RandomGem(u[r][c]) else b[r][c]))
  }

  // ---------------------------------------------------------------------------
  // Swapping

  function Abs(n: int): nat {
    if n < 0 then -n else n
  }

  /** `areAdjacent`: the Manhattan distance is 1. */
  function AreAdjacent(a: Cell, b: Cell): bool {
    Abs(a.0 - b.0) + Abs(a.1 - b.1) == 1
  }

  /** Adjacent cells are exactly the four neighbours: up, down, left and right. */
  lemma AdjacentIff(a: Cell, b: Cell)
    ensures AreAdjacent(a, b) <==> b in {(a.0 - 1, a.1), (a.0 + 1, a.1), (a.0, a.1 - 1), (a.0, a.1 + 1)}
  {
  }

  /** The board with the gems of cells `a` and `b` exchanged. */
  function Swap(board: Board, a: Cell, b: Cell): (r: Board)
    requires IsBoard(board) && OnBoard(a) && OnBoard(b)
    ensures IsBoard(r)
    ensures r[a.0][a.1] == board[b.0][b.1] && r[b.0][b.1] == board[a.0][a.1]
    ensures forall i, j :: 0 <= i < ROWS && 0 <= j < COLS && (i, j) != a && (i, j) != b ==> r[i][j] == board[i][j]
  {
    var va := board[a.0][a.1];
    var vb := board[b.0][b.1];
    SetCell(SetCell(board, a.0, a.1, vb), b.0, b.1, va)
  }

  /** Swapping the same two cells twice gives back the board. */
  lemma SwapTwice(board: Board, a: Cell, b: Cell)
    requires IsBoard(board) && OnBoard(a) && OnBoard(b)
    ensures Swap(Swap(board, a, b), a, b) == board
  {
    var s := Swap(Swap(board, a, b), a, b);
    forall r | 0 <= r < ROWS
      ensures s[r] == board[r]
    {
    }
  }

  // ---------------------------------------------------------------------------
  // Cascades

  /** The points of round `cascade` for `n` matched gems: ten per gem times the
      round number. */
  function Points(n: nat, cascade: nat): nat {
    n * 10 * cascade
  }

  /** `Σ sizes[i] · 10 · (i + 1)`: the points of a whole cascade whose round `i + 1`
      matched `sizes[i]` gems. */
  function Gain(sizes: seq<nat>): nat {
    if |sizes| == 0 then 0 else Gain(sizes[..|sizes| - 1]) + Points(sizes[|sizes| - 1], |sizes|)
  }

  /** Round `n` adds its points to the gain of the rounds before it. */
  lemma GainStep(sizes: seq<nat>, x: nat, n: nat)
    requires n == |sizes| + 1
    ensures Gain(sizes + [x]) == Gain(sizes) + Points(x, n)
  {
    assert (sizes + [x])[..|sizes|] == sizes;
  }

  lemma {:induction false} GainAtLeastFirst(sizes: seq<nat>)
    requires |sizes| >= 1
    ensures Gain(sizes) >= 10 * sizes[0]
  {
    if |sizes| > 1 {
      GainAtLeastFirst(sizes[..|sizes| - 1]);
    }
  }

  /** Every cell holds a gem or is empty. */
  predicate InRange(b: Board)
    requires IsBoard(b)
  {
    forall r, c :: 0 <= r < ROWS && 0 <= c < COLS ==> 0 <= b[r][c] <= TYPES
  }

  /** Gravity moves gems but makes none: a board of gems and empty cells stays one. */
  lemma CollapseInRange(b: Board, out: Board)
    requires IsBoard(b) && IsBoard(out) && InRange(b)
    requires forall c :: 0 <= c < COLS ==>
      Column(out, c) == Zeros(ROWS - |NonZero(Column(b, c))|) + NonZero(Column(b, c))
    ensures InRange(out)
  {
    forall r, c | 0 <= r < ROWS && 0 <= c < COLS
      ensures 0 <= out[r][c] <= TYPES
    {
      var col := Column(b, c);
      var nz := NonZero(col);
      assert out[r][c] == Column(out, c)[r];
      if r >= ROWS - |nz| {
        assert out[r][c] == nz[r - (ROWS - |nz|)];
        assert out[r][c] in col;
      }
    }
  }

  /** The board after one round on `b`, with drops `u`: its matches removed, the gems
      fallen, the empty cells refilled. */
  function NextBoard(b: Board, u: seq<seq<Draw>>): (out: Board)
    requires IsBoard(b) && DrawGrid(u)
    ensures IsBoard(out)
  {
    Refill(Fallen(Removed(b, MatchSet(b))), u)
  }

  /** A round on a board of gems and empty cells leaves a board of gems. */
  lemma NextBoardGems(b: Board, u: seq<seq<Draw>>)
    requires IsBoard(b) && DrawGrid(u)
    ensures InRange(b) ==> Gems(NextBoard(b, u))
  {
    if InRange(b) {
      var removed := Removed(b, MatchSet(b));
      CollapseInRange(removed, Fallen(removed));
    }
  }

  /** One round of the cascade on the board's matches: remove them, let the gems
      fall, refill. */
  method Round(board: Board, matches: set<Cell>, u: seq<seq<Draw>>) returns (out: Board)
    requires IsBoard(board) && DrawGrid(u) && matches == MatchSet(board)
    ensures out == NextBoard(board, u)
  {
    var removed := RemoveMatches(board, matches);
    var fallen := Collapse(removed);
    out := Refill(fallen, u);
    RoundIsNextBoard(board, matches, u, out);
  }

  /** Every round has its grid of drops. */
  predicate DrawGrids(drops: seq<seq<seq<Draw>>>) {
    forall i :: 0 <= i < |drops| ==> DrawGrid(drops[i])
  }

  /** A round on the matches of the board computes the next board. */
  lemma RoundIsNextBoard(board: Board, matches: set<Cell>, u: seq<seq<Draw>>, out: Board)
    requires IsBoard(board) && DrawGrid(u) && matches == MatchSet(board)
    requires out == Refill(Fallen(Removed(board, matches)), u)
    ensures out == NextBoard(board, u)
  {
  }

  /** The rounds of a cascade from `start` so far: `boards[i]` is the board before
      round `i + 1` and `sizes[i]` the number of cells that round matched. Every round
      had matches and led to the next board with its own drops. */
  predicate Trace(start: Board, drops: seq<seq<seq<Draw>>>, boards: seq<Board>, sizes: seq<nat>)
    requires DrawGrids(drops)
  {
    && |boards| == |sizes| + 1 && |sizes| <= |drops| && boards[0] == start
    && (forall i :: 0 <= i < |boards| ==> IsBoard(boards[i]))
    && forall i {:trigger sizes[i]} :: 0 <= i < |sizes| ==>
         && sizes[i] == |MatchSet(boards[i])|
         && sizes[i] > 0
         && boards[i + 1] == NextBoard(boards[i], drops[i])
  }

  /** A whole cascade: its rounds, ending on a board without matches or once every
      round has run. */
  predicate IsCascade(start: Board, drops: seq<seq<seq<Draw>>>, boards: seq<Board>, sizes: seq<nat>) {
    && DrawGrids(drops)
    && Trace(start, drops, boards, sizes)
    && (|sizes| < |drops| ==> |MatchSet(boards[|sizes|])| == 0)
  }

  /** One more round on a board with matches extends the trace. */
  lemma TraceExtend(start: Board, drops: seq<seq<seq<Draw>>>, boards: seq<Board>, sizes: seq<nat>, next: Board)
    requires DrawGrids(drops) && Trace(start, drops, boards, sizes) && |sizes| < |drops|
    requires |MatchSet(boards[|sizes|])| > 0 && next == NextBoard(boards[|sizes|], drops[|sizes|])
    ensures Trace(start, drops, boards + [next], sizes + [|MatchSet(boards[|sizes|])|])
  {
    var boards', sizes' := boards + [next], sizes + [|MatchSet(boards[|sizes|])|];
    forall i | 0 <= i < |sizes'|
      ensures sizes'[i] == |MatchSet(boards'[i])| && sizes'[i] > 0
      ensures boards'[i + 1] == NextBoard(boards'[i], drops[i])
    {
      if i < |sizes| {
        assert sizes'[i] == sizes[i] && boards'[i] == boards[i] && boards'[i + 1] == boards[i + 1];
      }
    }
  }

  /** Round `i + 1` of a trace. */
  lemma TraceStep(start: Board, drops: seq<seq<seq<Draw>>>, boards: seq<Board>, sizes: seq<nat>, i: nat, j: nat)
    requires DrawGrids(drops) && Trace(start, drops, boards, sizes) && i < |sizes| && j == i + 1
    ensures IsBoard(boards[i]) && sizes[i] == |MatchSet(boards[i])| > 0
    ensures boards[j] == NextBoard(boards[i], drops[i])
  {
  }

  /** Two traces from the same start with the same drops agree on their first `n`
      rounds. */
  lemma {:induction false} TracesAgree(start: Board, drops: seq<seq<seq<Draw>>>,
                                       b1: seq<Board>, s1: seq<nat>, b2: seq<Board>, s2: seq<nat>, n: nat)
    requires DrawGrids(drops) && Trace(start, drops, b1, s1) && Trace(start, drops, b2, s2)
    requires n <= |s1| && n <= |s2|
    ensures b1[n] == b2[n]
  {
    if n > 0 {
      TracesAgree(start, drops, b1, s1, b2, s2, n - 1);
      TraceStep(start, drops, b1, s1, n - 1, n);
      TraceStep(start, drops, b2, s2, n - 1, n);
    }
  }

  /** The cascade is determined by its start and its drops. */
  lemma CascadeUnique(start: Board, drops: seq<seq<seq<Draw>>>,
                      b1: seq<Board>, s1: seq<nat>, b2: seq<Board>, s2: seq<nat>)
    requires IsCascade(start, drops, b1, s1) && IsCascade(start, drops, b2, s2)
    ensures b1 == b2 && s1 == s2
  {
    var n := if |s1| <= |s2| then |s1| else |s2|;
    TracesAgree(start, drops, b1, s1, b2, s2, n);
    if |s1| < |s2| {
      TraceStep(start, drops, b2, s2, n, n + 1);
      assert false;
    } else if |s2| < |s1| {
      TraceStep(start, drops, b1, s1, n, n + 1);
      assert false;
    }
    forall k | 0 <= k < |b1|
      ensures b1[k] == b2[k]
    {
      TracesAgree(start, drops, b1, s1, b2, s2, k);
    }
    forall i | 0 <= i < |s1|
      ensures s1[i] == s2[i]
    {
      TracesAgree(start, drops, b1, s1, b2, s2, i);
      TraceStep(start, drops, b1, s1, i, i + 1);
      TraceStep(start, drops, b2, s2, i, i + 1);
    }
  }

  /** The first round: a start without matches ends the cascade at once; otherwise
      the first round counts the start's matched cells. */
  lemma CascadeFirst(start: Board, drops: seq<seq<seq<Draw>>>, boards: seq<Board>, sizes: seq<nat>)
    requires IsCascade(start, drops, boards, sizes) && |drops| >= 1
    ensures |MatchSet(start)| == 0 ==> boards == [start] && sizes == []
    ensures |MatchSet(start)| > 0 ==> |sizes| >= 1 && sizes[0] == |MatchSet(start)|
  {
    if |sizes| > 0 {
      assert sizes[0] == |MatchSet(boards[0])|;
    }
  }

  /** Starting from gems and empty cells, every board of the cascade holds gems and
      empty cells. */
  lemma {:induction false} TraceInRange(start: Board, drops: seq<seq<seq<Draw>>>, boards: seq<Board>, sizes: seq<nat>, n: nat)
    requires DrawGrids(drops) && Trace(start, drops, boards, sizes) && InRange(start) && n < |boards|
    ensures InRange(boards[n])
  {
    if n > 0 {
      TraceInRange(start, drops, boards, sizes, n - 1);
      TraceStep(start, drops, boards, sizes, n - 1, n);
      NextBoardGems(boards[n - 1], drops[n - 1]);
    }
  }

  /** The cascade loop of `handleCell`: while the board has matches and fewer than 20
      rounds have run, score the matches, remove them, let the gems fall and refill,
      round `i + 1` drawing its new gems from `drops[i]`. `boards` and `sizes` record
      the cascade round by round. */
  method Cascade(start: Board, drops: seq<seq<seq<Draw>>>)
    returns (board: Board, gained: nat, sizes: seq<nat>, ghost boards: seq<Board>)
    requires IsBoard(start) && DrawGrids(drops) && |drops| == CASCADE_CAP
    ensures IsCascade(start, drops, boards, sizes) && board == boards[|sizes|]
    ensures gained == Gain(sizes)
  {
    board := start;
    gained := 0;
    sizes := [];
    boards := [start];
    var cascade := 1;
    while true
      invariant 1 <= cascade <= CASCADE_CAP && |sizes| == cascade - 1
      invariant Trace(start, drops, boards, sizes) && board == boards[|sizes|]
      invariant gained == Gain(sizes)
      decreases CASCADE_CAP + 1 - cascade
    {
      var matches := FindMatches(board);
      if |matches| == 0 {
        break;
      }
      var next := Round(board, matches, drops[|sizes|]);
      TraceExtend(start, drops, boards, sizes, next);
      GainStep(sizes, |matches|, cascade);
      gained := gained + Points(|matches|, cascade);
      sizes := sizes + [|matches|];
      boards := boards + [next];
      board := next;
      cascade := cascade + 1;
      if cascade > CASCADE_CAP {
        break;
      }
    }
  }

  // ---------------------------------------------------------------------------
  // The click handler

  datatype Game = Game(board: Board, score: int, sel: Option<Cell>, message: string)

  /** `handleCell(r, c)`: the selection state machine and the swap rule. */
  method HandleCell(g: Game, at: Cell, drops: seq<seq<seq<Draw>>>) returns (g': Game)
    requires IsBoard(g.board) && OnBoard(at)
    requires g.sel.Some? ==> OnBoard(g.sel.value)
    requires DrawGrids(drops) && |drops| == CASCADE_CAP
    ensures IsBoard(g'.board) && (g'.sel.Some? ==> OnBoard(g'.sel.value))
    ensures InRange(g.board) ==> InRange(g'.board)
    ensures g.sel == None ==> g' == g.(sel := Some(at), message := "")
    ensures g.sel == Some(at) ==> g' == g.(sel := None, message := "")
    ensures g.sel.Some? && g.sel.value != at && !AreAdjacent(g.sel.value, at) ==> g' == g.(sel := Some(at), message := "")
    ensures g.sel.Some? && AreAdjacent(g.sel.value, at) && |MatchSet(Swap(g.board, g.sel.value, at))| == 0 ==>
      g' == g.(sel := None, message := NO_MATCH)
    ensures g.sel.Some? && AreAdjacent(g.sel.value, at) && |MatchSet(Swap(g.board, g.sel.value, at))| > 0 ==>
      && (exists boards, sizes :: IsCascade(Swap(g.board, g.sel.value, at), drops, boards, sizes) &&
            g' == Game(boards[|sizes|], g.score + Gain(sizes), None, ""))
      && g'.score >= g.score + 10 * |MatchSet(Swap(g.board, g.sel.value, at))|
  {
    if g.sel == None {
      return g.(sel := Some(at), message := "");
    }
    var sel := g.sel.value;
    if sel == at {
      return g.(sel := None, message := "");
    }
    if !AreAdjacent(sel, at) {
      return g.(sel := Some(at), message := "");
    }
    var swapped := Swap(g.board, sel, at);
    assert InRange(g.board) ==> InRange(swapped);
    var m := FindMatches(swapped);
    if |m| == 0 {
      return g.(sel := None, message := NO_MATCH);
    }
    g' := Accept(g, swapped, drops);
  }

  /** An accepted swap: the cascade runs on the swapped board, its points are added
      to the score and the selection is cleared. */
  method Accept(g: Game, swapped: Board, drops: seq<seq<seq<Draw>>>) returns (g': Game)
    requires IsBoard(swapped) && |MatchSet(swapped)| > 0
    requires DrawGrids(drops) && |drops| == CASCADE_CAP
    ensures exists boards, sizes :: IsCascade(swapped, drops, boards, sizes) &&
              g' == Game(boards[|sizes|], g.score + Gain(sizes), None, "")
    ensures IsBoard(g'.board) && (InRange(swapped) ==> InRange(g'.board))
    ensures g'.score >= g.score + 10 * |MatchSet(swapped)|
  {
    var board, gained, sizes, boards := Cascade(swapped, drops);
    CascadeFirst(swapped, drops, boards, sizes);
    GainAtLeastFirst(sizes);
    if InRange(swapped) {
      TraceInRange(swapped, drops, boards, sizes, |sizes|);
    }
    g' := Game(board, g.score + gained, None, "");
  }

  // ---------------------------------------------------------------------------
  // A new board

  /** Gem `g` may go at (r, c) of a board filled in row-major order: it would not be the
      third of three equal gems to its left or above it. */
  predicate Acceptable(b: Board, r: int, c: int, g: int)
    requires IsBoard(b) && 0 <= r < ROWS && 0 <= c < COLS
  {
    !((c >= 2 && b[r][c - 1] == g && b[r][c - 2] == g) || (r >= 2 && b[r - 1][c] == g && b[r - 2][c] == g))
  }

  /** Whatever the board, one of the six gems is acceptable: at most two are excluded. */
  lemma AcceptableGemExists(b: Board, r: int, c: int)
    requires IsBoard(b) && 0 <= r < ROWS && 0 <= c < COLS
    ensures exists g :: 1 <= g <= TYPES && Acceptable(b, r, c, g)
  {
    var h := if c >= 2 then b[r][c - 1] else 0;
    var v := if r >= 2 then b[r - 1][c] else 0;
    var g := if 1 != h && 1 != v then 1 else if 2 != h && 2 != v then 2 else 3;
    assert Acceptable(b, r, c, g);
  }

  /** Cells before the `n`-th in row-major order hold gems and none of them completes
      three equal gems to its left or above it; the later cells are still empty. */
  predicate FilledTo(b: Board, n: int)
    requires IsBoard(b)
  {
    forall r, c :: 0 <= r < ROWS && 0 <= c < COLS ==>
      if r * COLS + c < n then 1 <= b[r][c] <= TYPES && Acceptable(b, r, c, b[r][c])
      else b[r][c] == 0
  }

  /** `makeBoardNoInitialMatches`, from cell `n` on: each cell draws gems until one is
      acceptable. None when the draws run out first (the source would keep drawing). */
  function FillFrom(b: Board, n: nat, draws: seq<Draw>): (r: Option<Board>)
    requires IsBoard(b) && n <= ROWS * COLS && FilledTo(b, n)
    requires forall i :: 0 <= i < |draws| ==> Valid(draws[i])
    ensures r.Some? ==> IsBoard(r.value) && FilledTo(r.value, ROWS * COLS)
    decreases |draws|
  {
    if n == ROWS * COLS then Some(b)
    else if |draws| == 0 then None
    else
      var row := n / COLS;
      var col := n % COLS;
      var g := RandomGem(draws[0]);
      if Acceptable(b, row, col, g) then
        var b' := SetCell(b, row, col, g);
        assert FilledTo(b', n + 1) by {
          forall r, c | 0 <= r < ROWS && 0 <= c < COLS
            ensures if r * COLS + c < n + 1 then 1 <= b'[r][c] <= TYPES && Acceptable(b', r, c, b'[r][c]) else b'[r][c] == 0
          {
            if r * COLS + c < n {
              assert Acceptable(b, r, c, b[r][c]);
            }
          }
        }
        FillFrom(b', n + 1, draws[1..])
      else
        FillFrom(b, n, draws[1..])
  }

  /** A fully built board has gems everywhere and no match. */
  lemma FilledHasNoMatch(b: Board)
    requires IsBoard(b) && FilledTo(b, ROWS * COLS)
    ensures Gems(b) && |MatchSet(b)| == 0
  {
    forall r, c | 0 <= r < ROWS && 0 <= c < COLS
      ensures !InRun(b[r], c) && !InRun(Column(b, c), r)
    {
      forall i | 0 <= i < COLS
        ensures !Triple(b[r], i)
      {
        if i + 2 < COLS {
          assert Acceptable(b, r, i + 2, b[r][i + 2]);
        }
      }
      forall i | 0 <= i < ROWS
        ensures !Triple(Column(b, c), i)
      {
        if i + 2 < ROWS {
          assert Acceptable(b, i + 2, c, b[i + 2][c]);
        }
      }
    }
  }

  /** `makeBoardNoInitialMatches`: a board of gems 1..6 without any match. */
  function MakeBoard(draws: seq<Draw>): (r: Option<Board>)
    requires forall i :: 0 <= i < |draws| ==> Valid(draws[i])
    ensures r.Some? ==> IsBoard(r.value) && Gems(r.value) && |MatchSet(r.value)| == 0
  {
    var r := FillFrom(Empty(ROWS, COLS), 0, draws);
    if r.Some? then FilledHasNoMatch(r.value); r else r
  }

  /** `reset` and the initial state: a new board, no score, no selection, no message. */
  function Reset(draws: seq<Draw>): (g: Option<Game>)
    requires forall i :: 0 <= i < |draws| ==> Valid(draws[i])
    ensures g.Some? ==> IsBoard(g.value.board) && Gems(g.value.board) && |MatchSet(g.value.board)| == 0
    ensures g.Some? ==> g.value.score == 0 && g.value.sel == None && g.value.message == ""
  {
    match MakeBoard(draws)
    case None => None
    case Some(b) => Some(Game(b, 0, None, ""))
  }
}
