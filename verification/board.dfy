/** The board engine of src/game/gameManager.js: a 6-row by 7-column grid of
    integers where 0 is an empty cell and 1, 2 are the two players' marks.
    Row 0 is the top row and row 5 the bottom one, so a disc falls towards
    higher row indices. */
module Board {

  const Rows: int := 6
  const Cols: int := 7

  type Grid = seq<seq<int>>

  /** The shape every board has: six rows of seven cells. */
  predicate WellFormed(b: Grid) {
    |b| == Rows && forall r :: 0 <= r < Rows ==> |b[r]| == Cols
  }

  predicate OnBoard(r: int, c: int) {
    0 <= r < Rows && 0 <= c < Cols
  }

  /** Every cell holds 0 or one of the two marks. */
  ghost predicate MarksOnly(b: Grid)
    requires WellFormed(b)
  {
    forall r, c :: OnBoard(r, c) ==> b[r][c] in {0, 1, 2}
  }

  /** Discs rest on each other: every cell below an occupied one is occupied. */
  ghost predicate Stacked(b: Grid)
    requires WellFormed(b)
  {
    forall r, r', c :: 0 <= r < r' < Rows && 0 <= c < Cols && b[r][c] != 0 ==> b[r'][c] != 0
  }

  function EmptyBoard(): (b: Grid)
    ensures WellFormed(b) && MarksOnly(b) && Stacked(b)
    ensures forall r, c :: OnBoard(r, c) ==> b[r][c] == 0
  {
    seq(Rows, _ => seq(Cols, _ => 0))
  }

  /** `board[row][col] === 0`: false for a column outside 0..6, where the
      source reads `undefined`. */
  predicate IsEmptyAt(b: Grid, r: int, c: int)
    requires WellFormed(b) && 0 <= r < Rows
  {
    0 <= c < Cols && b[r][c] == 0
  }

  /** Two well-formed boards that agree on every cell are the same board. */
  lemma SameCells(a: Grid, b: Grid)
    requires WellFormed(a) && WellFormed(b)
    requires forall r, c :: OnBoard(r, c) ==> a[r][c] == b[r][c]
    ensures a == b
  {
    forall r | 0 <= r < Rows
      ensures a[r] == b[r]
    {
      assert |a[r]| == |b[r]| == Cols;
    }
  }

  /** The board with one cell overwritten. */
  function Put(b: Grid, r: int, c: int, v: int): (b': Grid)
    requires WellFormed(b) && OnBoard(r, c)
    ensures WellFormed(b')
    ensures b'[r][c] == v
    ensures forall r', c' :: OnBoard(r', c') && (r' != r || c' != c) ==> b'[r'][c'] == b[r'][c']
  {
    b[r := b[r][c := v]]
  }

  // ---------------------------------------------------------------------
  // dropDisc

  /** The scan of `dropDisc`: from `row` upwards, the first row whose cell in
      column `c` is empty, or -1. The result is the lowest empty row at or
      above `row`. */
  function ScanUp(b: Grid, c: int, row: int): (r: int)
    requires WellFormed(b) && -1 <= row < Rows
    ensures -1 <= r <= row
    ensures r >= 0 ==> IsEmptyAt(b, r, c)
    ensures forall k :: r < k <= row ==> !IsEmptyAt(b, k, c)
    ensures r >= 0 ==> forall k :: r < k <= row ==> b[k][c] != 0
    decreases row + 1
  {
    if row < 0 then -1
    else if IsEmptyAt(b, row, c) then row
    else ScanUp(b, c, row - 1)
  }

  datatype Dropped = Dropped(board: Grid, row: int)

  /** `dropDisc(board, col, value)`: the disc lands in the lowest empty cell
      of the column; the landing row is returned, or -1 with the board
      untouched when the column is full or not a column at all. */
  function DropDisc(b: Grid, col: int, value: int): (d: Dropped)
    requires WellFormed(b)
    ensures WellFormed(d.board)
    ensures -1 <= d.row < Rows
    ensures d.row == -1 <==> forall r :: 0 <= r < Rows ==> !IsEmptyAt(b, r, col)
    ensures !(0 <= col < Cols) ==> d.row == -1
    ensures d.row == -1 ==> d.board == b
    ensures d.row >= 0 ==> 0 <= col < Cols && b[d.row][col] == 0 && d.board == Put(b, d.row, col, value)
    ensures d.row >= 0 ==> forall r :: d.row < r < Rows ==> b[r][col] != 0
  {
    var row := ScanUp(b, col, Rows - 1);
    if row == -1 then Dropped(b, -1) else Dropped(Put(b, row, col, value), row)
  }

  // ---------------------------------------------------------------------
  // Occupancy

  /** Number of non-zero entries of one row. */
  function RowOccupied(s: seq<int>): (n: nat)
    ensures n <= |s|
  {
    if |s| == 0 then 0 else (if s[0] != 0 then 1 else 0) + RowOccupied(s[1..])
  }

  /** Number of non-empty cells of the board. */
  function Occupied(b: Grid): nat {
    if |b| == 0 then 0 else RowOccupied(b[0]) + Occupied(b[1..])
  }

  lemma {:induction false} RowOccupiedFull(s: seq<int>)
    ensures RowOccupied(s) == |s| <==> forall i :: 0 <= i < |s| ==> s[i] != 0
  {
    if |s| > 0 {
      RowOccupiedFull(s[1..]);
      assert forall i :: 1 <= i < |s| ==> s[i] == s[1..][i - 1];
    }
  }

  lemma {:induction false} RowOccupiedPut(s: seq<int>, i: int, v: int)
    requires 0 <= i < |s| && s[i] == 0 && v != 0
    ensures RowOccupied(s[i := v]) == RowOccupied(s) + 1
  {
    if i == 0 {
      assert s[i := v][1..] == s[1..];
    } else {
      assert s[i := v][1..] == s[1..][i - 1 := v];
      RowOccupiedPut(s[1..], i - 1, v);
    }
  }

  lemma {:induction false} OccupiedBound(b: seq<seq<int>>)
    requires forall r :: 0 <= r < |b| ==> |b[r]| == Cols
    ensures Occupied(b) <= |b| * Cols
    ensures Occupied(b) == |b| * Cols <==> forall r, c :: 0 <= r < |b| && 0 <= c < Cols ==> b[r][c] != 0
  {
    if |b| > 0 {
      var tail := b[1..];
      OccupiedBound(tail);
      RowOccupiedFull(b[0]);
      assert forall r :: 1 <= r < |b| ==> b[r] == tail[r - 1];
      assert Occupied(b) == RowOccupied(b[0]) + Occupied(tail);
      assert |b| * Cols == Cols + |tail| * Cols;
    }
  }

  /** A row of zeros has no occupied cell. */
  lemma {:induction false} ZeroRowIsEmpty(s: seq<int>)
    requires forall i :: 0 <= i < |s| ==> s[i] == 0
    ensures RowOccupied(s) == 0
  {
    if |s| > 0 {
      ZeroRowIsEmpty(s[1..]);
    }
  }

  /** A board of zeros has no occupied cell. */
  lemma {:induction false} ZeroBoardIsEmpty(b: seq<seq<int>>)
    requires forall r, c :: 0 <= r < |b| && 0 <= c < |b[r]| ==> b[r][c] == 0
    ensures Occupied(b) == 0
  {
    if |b| > 0 {
      ZeroRowIsEmpty(b[0]);
      assert forall r :: 1 <= r < |b| ==> b[1..][r - 1] == b[r];
      ZeroBoardIsEmpty(b[1..]);
    }
  }

  lemma {:induction false} OccupiedPut(b: seq<seq<int>>, r: int, c: int, v: int)
    requires 0 <= r < |b| && 0 <= c < |b[r]| && b[r][c] == 0 && v != 0
    ensures Occupied(b[r := b[r][c := v]]) == Occupied(b) + 1
  {
    var b' := b[r := b[r][c := v]];
    if r == 0 {
      assert b'[1..] == b[1..];
      RowOccupiedPut(b[0], c, v);
    } else {
      assert b'[1..] == b[1..][r - 1 := b[r][c := v]];
      OccupiedPut(b[1..], r - 1, c, v);
    }
  }

  /** Clearing an occupied cell lowers the count by one. */
  lemma OccupiedClear(b: Grid, r: int, c: int)
    requires WellFormed(b) && OnBoard(r, c) && b[r][c] != 0
    ensures Occupied(Put(b, r, c, 0)) + 1 == Occupied(b)
  {
    var b1 := Put(b, r, c, 0);
    assert b1[r][c := b[r][c]] == b[r];
    assert b1[r := b1[r][c := b[r][c]]] == b;
    OccupiedPut(b1, r, c, b[r][c]);
  }

  /** Two distinct occupied cells count at least two. */
  lemma OccupiedAtLeastTwo(b: Grid, r1: int, c1: int, r2: int, c2: int)
    requires WellFormed(b) && OnBoard(r1, c1) && OnBoard(r2, c2) && (r1 != r2 || c1 != c2)
    requires b[r1][c1] != 0 && b[r2][c2] != 0
    ensures Occupied(b) >= 2
  {
    OccupiedClear(b, r1, c1);
    var b1 := Put(b, r1, c1, 0);
    OccupiedClear(b1, r2, c2);
  }

  /** A successful drop of a real mark fills exactly one more cell. */
  lemma DropAddsOneDisc(b: Grid, col: int, value: int)
    requires WellFormed(b) && value != 0
    ensures var d := DropDisc(b, col, value);
      d.row >= 0 ==> Occupied(d.board) == Occupied(b) + 1
  {
    var d := DropDisc(b, col, value);
    if d.row >= 0 {
      OccupiedPut(b, d.row, col, value);
    }
  }

  /** A successful drop changes exactly the landing cell, from 0 to the mark. */
  lemma DropChangesOneCell(b: Grid, col: int, value: int)
    requires WellFormed(b)
    ensures var d := DropDisc(b, col, value);
      d.row >= 0 ==>
        && b[d.row][col] == 0 && d.board[d.row][col] == value
        && forall r, c :: OnBoard(r, c) && (r != d.row || c != col) ==> d.board[r][c] == b[r][c]
  {
  }

  /** Dropping keeps a stacked board stacked and a board of marks a board of marks. */
  lemma DropKeepsShape(b: Grid, col: int, value: int)
    requires WellFormed(b) && Stacked(b) && MarksOnly(b) && value in {1, 2}
    ensures Stacked(DropDisc(b, col, value).board)
    ensures MarksOnly(DropDisc(b, col, value).board)
  {
    var d := DropDisc(b, col, value);
    if d.row >= 0 {
      var b' := d.board;
      assert forall r, r', c :: 0 <= r < r' < Rows && 0 <= c < Cols && b'[r][c] != 0 ==> b'[r'][c] != 0;
    }
  }

  /** Number of entries of one row equal to `v`. */
  function RowCount(s: seq<int>, v: int): (n: nat)
    ensures n <= |s|
  {
    if |s| == 0 then 0 else (if s[0] == v then 1 else 0) + RowCount(s[1..], v)
  }

  /** Number of cells of the board holding `v`. */
  function MarkCount(b: seq<seq<int>>, v: int): nat {
    if |b| == 0 then 0 else RowCount(b[0], v) + MarkCount(b[1..], v)
  }

  lemma {:induction false} RowCountPut(s: seq<int>, i: int, x: int, v: int)
    requires 0 <= i < |s|
    ensures RowCount(s[i := x], v) + (if s[i] == v then 1 else 0) == RowCount(s, v) + (if x == v then 1 else 0)
  {
    if i == 0 {
      assert s[i := x][1..] == s[1..];
    } else {
      assert s[i := x][1..] == s[1..][i - 1 := x];
      RowCountPut(s[1..], i - 1, x, v);
    }
  }

  lemma {:induction false} MarkCountPut(b: seq<seq<int>>, r: int, c: int, x: int, v: int)
    requires 0 <= r < |b| && 0 <= c < |b[r]|
    ensures MarkCount(b[r := b[r][c := x]], v) + (if b[r][c] == v then 1 else 0)
         == MarkCount(b, v) + (if x == v then 1 else 0)
  {
    var b' := b[r := b[r][c := x]];
    if r == 0 {
      assert b'[1..] == b[1..];
      RowCountPut(b[0], c, x, v);
    } else {
      assert b'[1..] == b[1..][r - 1 := b[r][c := x]];
      MarkCountPut(b[1..], r - 1, c, x, v);
    }
  }

  lemma {:induction false} MarkCountEmpty(b: seq<seq<int>>, v: int)
    requires v != 0
    requires forall r, c :: 0 <= r < |b| && 0 <= c < |b[r]| ==> b[r][c] == 0
    ensures MarkCount(b, v) == 0
  {
    if |b| > 0 {
      RowCountZero(b[0], v);
      assert forall r :: 1 <= r < |b| ==> b[1..][r - 1] == b[r];
      MarkCountEmpty(b[1..], v);
    }
  }

  lemma {:induction false} RowCountZero(s: seq<int>, v: int)
    requires v != 0 && forall i :: 0 <= i < |s| ==> s[i] == 0
    ensures RowCount(s, v) == 0
  {
    if |s| > 0 {
      RowCountZero(s[1..], v);
    }
  }

  /** Four in a line needs at least four cells holding the mark. */
  lemma FourNeedsFourMarks(b: Grid, v: int, r: int, c: int, d: Direction)
    requires WellFormed(b) && v != 0 && FourInLine(b, v, r, c, d)
    ensures MarkCount(b, v) >= 4
  {
    var dr, dc := d.DeltaRow(), d.DeltaCol();
    var b1 := Put(b, r, c, 0);
    MarkCountPut(b, r, c, 0, v);
    var b2 := Put(b1, r + dr, c + dc, 0);
    MarkCountPut(b1, r + dr, c + dc, 0, v);
    var b3 := Put(b2, r + 2 * dr, c + 2 * dc, 0);
    MarkCountPut(b2, r + 2 * dr, c + 2 * dc, 0, v);
    MarkCountPut(b3, r + 3 * dr, c + 3 * dc, 0, v);
  }

  /** A board holding fewer than four of a mark has no win for it. */
  lemma FewMarksNoWin(b: Grid, v: int)
    requires WellFormed(b) && v != 0 && MarkCount(b, v) < 4
    ensures !CheckWin(b, v)
  {
    CheckWinSpec(b, v);
    if HasFour(b, v) {
      var r, c, d :| FourInLine(b, v, r, c, d);
      FourNeedsFourMarks(b, v, r, c, d);
    }
  }

  /** A board with a single disc holds no four in a line. */
  lemma OnlyOneDiscNoFour(b: Grid, v: int)
    requires WellFormed(b) && Occupied(b) == 1 && v != 0
    ensures !HasFour(b, v)
  {
    if HasFour(b, v) {
      var r, c, d :| FourInLine(b, v, r, c, d);
      assert b[r][c] != 0 && b[r + d.DeltaRow()][c + d.DeltaCol()] != 0;
      OccupiedAtLeastTwo(b, r, c, r + d.DeltaRow(), c + d.DeltaCol());
    }
  }

  // ---------------------------------------------------------------------
  // isDraw

  /** `board.every(r => r.every(c => c !== 0))`. */
  predicate IsDraw(b: Grid) {
    forall r | 0 <= r < |b| :: forall c | 0 <= c < |b[r]| :: b[r][c] != 0
  }

  /** The board counts as a draw exactly when all 42 cells are occupied. */
  lemma DrawIffFull(b: Grid)
    requires WellFormed(b)
    ensures IsDraw(b) <==> Occupied(b) == Rows * Cols
    ensures Occupied(b) <= Rows * Cols
  {
    OccupiedBound(b);
  }

  // ---------------------------------------------------------------------
  // checkWin

  /** The four scan directions of `checkWin`, as (row step, column step). */
  datatype Direction = Vertical | Horizontal | Diagonal | AntiDiagonal {
    function DeltaRow(): int {
      match this
      case Vertical => 1
      case Horizontal => 0
      case Diagonal => 1
      case AntiDiagonal => 1
    }
    function DeltaCol(): int {
      match this
      case Vertical => 0
      case Horizontal => 1
      case Diagonal => 1
      case AntiDiagonal => -1
    }
  }

  /** The cell (r, c) is on the board and holds `v`: the negation of the
      `break` condition of the counting loop. */
  predicate Holds(b: Grid, v: int, r: int, c: int)
    requires WellFormed(b)
  {
    OnBoard(r, c) && b[r][c] == v
  }

  /** The counter `cnt` of `checkWin`: how many consecutive cells, from the
      k-th step on, hold `v` before the first one that does not. */
  function RunLength(b: Grid, v: int, r: int, c: int, d: Direction, k: nat): nat
    requires WellFormed(b)
    decreases 4 - k
  {
    if k >= 4 then 0
    else if Holds(b, v, r + d.DeltaRow() * k, c + d.DeltaCol() * k) then 1 + RunLength(b, v, r, c, d, k + 1)
    else 0
  }

  /** The inner `for (const [dr, dc] of dir)` loop: some direction counts four. */
  predicate SomeDirectionCountsFour(b: Grid, v: int, r: int, c: int)
    requires WellFormed(b)
  {
    || RunLength(b, v, r, c, Vertical, 0) == 4
    || RunLength(b, v, r, c, Horizontal, 0) == 4
    || RunLength(b, v, r, c, Diagonal, 0) == 4
    || RunLength(b, v, r, c, AntiDiagonal, 0) == 4
  }

  /** The column loop of `checkWin` over row r, from column c on. */
  predicate ScanColumns(b: Grid, v: int, r: int, c: int)
    requires WellFormed(b) && 0 <= r < Rows && 0 <= c <= Cols
    decreases Cols - c
  {
    if c == Cols then false
    else (b[r][c] == v && SomeDirectionCountsFour(b, v, r, c)) || ScanColumns(b, v, r, c + 1)
  }

  /** The row loop of `checkWin`, from row r on. */
  predicate ScanRows(b: Grid, v: int, r: int)
    requires WellFormed(b) && 0 <= r <= Rows
    decreases Rows - r
  {
    if r == Rows then false else ScanColumns(b, v, r, 0) || ScanRows(b, v, r + 1)
  }

  /** `checkWin(b, v)`. */
  predicate CheckWin(b: Grid, v: int)
    requires WellFormed(b)
  {
    ScanRows(b, v, 0)
  }

  /** Reference definition: four cells in a line starting at (r, c), all on
      the board and all holding `v`. */
  predicate FourInLine(b: Grid, v: int, r: int, c: int, d: Direction)
    requires WellFormed(b)
  {
    && Holds(b, v, r, c)
    && Holds(b, v, r + d.DeltaRow(), c + d.DeltaCol())
    && Holds(b, v, r + 2 * d.DeltaRow(), c + 2 * d.DeltaCol())
    && Holds(b, v, r + 3 * d.DeltaRow(), c + 3 * d.DeltaCol())
  }

  ghost predicate HasFour(b: Grid, v: int)
    requires WellFormed(b)
  {
    exists r, c, d :: FourInLine(b, v, r, c, d)
  }

  lemma RunLengthFour(b: Grid, v: int, r: int, c: int, d: Direction)
    requires WellFormed(b)
    ensures RunLength(b, v, r, c, d, 0) == 4 <==> FourInLine(b, v, r, c, d)
  {
    assert RunLength(b, v, r, c, d, 4) == 0;
  }

  lemma {:induction false} ScanColumnsSpec(b: Grid, v: int, r: int, c: int)
    requires WellFormed(b) && 0 <= r < Rows && 0 <= c <= Cols
    ensures ScanColumns(b, v, r, c) <==> exists c', d :: c <= c' && FourInLine(b, v, r, c', d)
    decreases Cols - c
  {
    if c < Cols {
      ScanColumnsSpec(b, v, r, c + 1);
      RunLengthFour(b, v, r, c, Vertical);
      RunLengthFour(b, v, r, c, Horizontal);
      RunLengthFour(b, v, r, c, Diagonal);
      RunLengthFour(b, v, r, c, AntiDiagonal);
      if exists c', d :: c <= c' && FourInLine(b, v, r, c', d) {
        var c', d :| c <= c' && FourInLine(b, v, r, c', d);
        if c' == c {
          match d
          case Vertical =>
          case Horizontal =>
          case Diagonal =>
          case AntiDiagonal =>
        } else {
          assert c + 1 <= c';
        }
      }
    }
  }

  lemma {:induction false} ScanRowsSpec(b: Grid, v: int, r: int)
    requires WellFormed(b) && 0 <= r <= Rows
    ensures ScanRows(b, v, r) <==> exists r', c', d :: r <= r' && FourInLine(b, v, r', c', d)
    decreases Rows - r
  {
    if r < Rows {
      ScanRowsSpec(b, v, r + 1);
      ScanColumnsSpec(b, v, r, 0);
      if exists r', c', d :: r <= r' && FourInLine(b, v, r', c', d) {
        var r', c', d :| r <= r' && FourInLine(b, v, r', c', d);
        assert Holds(b, v, r', c');
        if r' == r {
          assert exists c'', d' :: 0 <= c'' && FourInLine(b, v, r, c'', d');
        } else {
          assert r + 1 <= r';
        }
      }
    }
  }

  /** `checkWin(b, v)` holds exactly when some four cells in a row, column or
      diagonal all hold `v`. */
  lemma CheckWinSpec(b: Grid, v: int)
    requires WellFormed(b)
    ensures CheckWin(b, v) <==> HasFour(b, v)
  {
    ScanRowsSpec(b, v, 0);
    if HasFour(b, v) {
      var r, c, d :| FourInLine(b, v, r, c, d);
      assert Holds(b, v, r, c);
    }
  }

  /** Only the cells holding `v` matter to `checkWin(b, v)`. */
  lemma CheckWinSeesOnlyMark(b1: Grid, b2: Grid, v: int)
    requires WellFormed(b1) && WellFormed(b2)
    requires forall r, c :: OnBoard(r, c) ==> (b1[r][c] == v <==> b2[r][c] == v)
    ensures CheckWin(b1, v) == CheckWin(b2, v)
  {
    CheckWinSpec(b1, v);
    CheckWinSpec(b2, v);
    assert forall r, c :: Holds(b1, v, r, c) == Holds(b2, v, r, c);
    if HasFour(b1, v) {
      var r, c, d :| FourInLine(b1, v, r, c, d);
      assert FourInLine(b2, v, r, c, d);
    }
    if HasFour(b2, v) {
      var r, c, d :| FourInLine(b2, v, r, c, d);
      assert FourInLine(b1, v, r, c, d);
    }
  }

  // ---------------------------------------------------------------------
  // Columns the bot may choose

  /** The columns c' >= c whose top cell is empty, in increasing order. */
  function OpenColumnsFrom(b: Grid, c: int): (cols: seq<int>)
    requires WellFormed(b) && 0 <= c <= Cols
    ensures forall x :: x in cols <==> c <= x < Cols && b[0][x] == 0
    ensures forall i, j :: 0 <= i < j < |cols| ==> cols[i] < cols[j]
    decreases Cols - c
  {
    if c == Cols then []
    else
      var rest := OpenColumnsFrom(b, c + 1);
      assert forall j :: 0 <= j < |rest| ==> rest[j] in rest;
      assert forall j :: 0 <= j < |rest| ==> c < rest[j];
      if b[0][c] == 0 then [c] + rest else rest
  }

  /** The `validCols` array of `botMove`. */
  function ValidColumns(b: Grid): (cols: seq<int>)
    requires WellFormed(b)
    ensures forall x :: x in cols <==> 0 <= x < Cols && b[0][x] == 0
    ensures forall i, j :: 0 <= i < j < |cols| ==> cols[i] < cols[j]
  {
    OpenColumnsFrom(b, 0)
  }

  /** On a stacked board the bot's candidate columns are exactly the columns
      a disc can be dropped into. */
  lemma ValidColumnsAreDroppable(b: Grid, col: int, value: int)
    requires WellFormed(b) && Stacked(b)
    ensures col in ValidColumns(b) <==> DropDisc(b, col, value).row != -1
  {
    var d := DropDisc(b, col, value);
    if d.row > 0 {
      assert b[0][col] == 0;
    } else if col in ValidColumns(b) {
      assert IsEmptyAt(b, 0, col);
    }
  }
}
