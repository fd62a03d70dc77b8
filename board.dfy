/**
 * The geometry of the board and of the win check, on a value view of the
 * grid: `b` is the 6 x 7 grid read row by row (row 0 at the top), so the
 * cell at column `x`, row `y` (both 0-based) is `b[y * Width + x]`.
 */
module Board {
  import opened Text

  const Width: int := 7
  const Height: int := 6
  const MinRounds: int := 6
  const MaxRounds: int := Width * Height
  const WinAmount: int := 4

  const EmptyChar: char := ' '
  const PlayerOneColor: char := 'r'
  const PlayerTwoColor: char := 'y'

  /** The four 7-cell windows of (column, row) offsets around the last piece. */
  const RowIndices: seq<(int, int)> := [(-3, 0), (-2, 0), (-1, 0), (0, 0), (1, 0), (2, 0), (3, 0)]
  const ColIndices: seq<(int, int)> := [(0, -3), (0, -2), (0, -1), (0, 0), (0, 1), (0, 2), (0, 3)]
  const Dia1Indices: seq<(int, int)> := [(-3, -3), (-2, -2), (-1, -1), (0, 0), (1, 1), (2, 2), (3, 3)]
  const Dia2Indices: seq<(int, int)> := [(-3, 3), (-2, 2), (-1, 1), (0, 0), (1, -1), (2, -2), (3, -3)]
  const AllMatrices: seq<seq<(int, int)>> := [RowIndices, ColIndices, Dia1Indices, Dia2Indices]

  /** The step of each window: horizontal, vertical and the two diagonals. */
  const Directions: seq<(int, int)> := [(1, 0), (0, 1), (1, 1), (1, -1)]

  /** Window `d` holds the cells -3..3 steps away along direction `d`, in that order. */
  lemma MatrixOffsets(d: int, i: int)
    requires 0 <= d < 4 && 0 <= i < 7
    ensures |AllMatrices| == 4 && |AllMatrices[d]| == 7
    ensures AllMatrices[d][i] == ((i - 3) * Directions[d].0, (i - 3) * Directions[d].1)
  {
  }

  predicate InRange(x: int, y: int) {
    0 <= x < Width && 0 <= y < Height
  }

  function CellIndex(x: int, y: int): (k: nat)
    requires InRange(x, y)
    ensures k < Width * Height
  {
    y * Width + x
  }

  /** Distinct cells of the board have distinct positions in the row-by-row view. */
  lemma CellIndexInjective(x: int, y: int, x': int, y': int)
    requires InRange(x, y) && InRange(x', y')
    ensures CellIndex(x, y) == CellIndex(x', y') <==> x == x' && y == y'
  {
  }

  predicate IsBoard(b: seq<char>) {
    |b| == Width * Height
  }

  /** `getColorOfField`: the cell's content, or the empty marker for a cell off the board. */
  function ColorAt(b: seq<char>, x: int, y: int): (ch: char)
    requires IsBoard(b)
    ensures !InRange(x, y) ==> ch == EmptyChar
    ensures InRange(x, y) ==> ch == b[CellIndex(x, y)]
  {
    if InRange(x, y) then b[CellIndex(x, y)] else EmptyChar
  }

  /** The cells a window of offsets covers around (x, y), off-board cells read as empty. */
  function Window(b: seq<char>, m: seq<(int, int)>, x: int, y: int): (w: seq<char>)
    requires IsBoard(b)
    ensures |w| == |m|
    ensures forall i | 0 <= i < |m| :: w[i] == ColorAt(b, x + m[i].0, y + m[i].1)
  {
    seq(|m|, i requires 0 <= i < |m| => ColorAt(b, x + m[i].0, y + m[i].1))
  }

  // ----- runs of one colour in a window -----

  predicate RunAt(w: seq<char>, c: char, s: int, n: int) {
    0 <= s && 0 <= n && s + n <= |w| && forall j | s <= j < s + n :: w[j] == c
  }

  /** Some `n` consecutive cells of `w` hold `c`. */
  predicate HasRun(w: seq<char>, c: char, n: int) {
    exists s | 0 <= s <= |w| :: RunAt(w, c, s, n)
  }

  /** Length of the run of `c` that ends the window. */
  function SuffixRun(w: seq<char>, c: char): (n: nat)
    ensures n <= |w|
    decreases |w|
  {
    if w == [] || w[|w| - 1] != c then 0 else 1 + SuffixRun(w[..|w| - 1], c)
  }

  /** Length of the longest run of `c`: the longest of the runs ending at each position. */
  function MaxRun(w: seq<char>, c: char): (n: nat)
    ensures n <= |w|
    decreases |w|
  {
    if w == [] then 0
    else
      var before := MaxRun(w[..|w| - 1], c);
      var last := SuffixRun(w, c);
      if before < last then last else before
  }

  lemma {:induction false} SuffixRunIsRun(w: seq<char>, c: char)
    ensures RunAt(w, c, |w| - SuffixRun(w, c), SuffixRun(w, c))
    ensures SuffixRun(w, c) < |w| ==> w[|w| - 1 - SuffixRun(w, c)] != c
    decreases |w|
  {
    if w != [] && w[|w| - 1] == c {
      var p := w[..|w| - 1];
      SuffixRunIsRun(p, c);
      assert forall j | 0 <= j < |p| :: w[j] == p[j];
    }
  }

  /** A run that reaches the end of the window is no longer than the suffix run. */
  lemma {:induction false} SuffixRunIsLongest(w: seq<char>, c: char, s: int)
    requires RunAt(w, c, s, |w| - s)
    ensures |w| - s <= SuffixRun(w, c)
    decreases |w|
  {
    if s < |w| {
      var p := w[..|w| - 1];
      assert RunAt(p, c, s, |p| - s);
      SuffixRunIsLongest(p, c, s);
    }
  }

  /** `MaxRun` is the length of a run that occurs, and no longer run occurs. */
  lemma {:induction false} MaxRunIsLongest(w: seq<char>, c: char)
    ensures HasRun(w, c, MaxRun(w, c))
    ensures !HasRun(w, c, MaxRun(w, c) + 1)
    decreases |w|
  {
    if w == [] {
      assert RunAt(w, c, 0, 0);
    } else {
      var p := w[..|w| - 1];
      MaxRunIsLongest(p, c);
      SuffixRunIsRun(w, c);
      var m := MaxRun(w, c);
      if m == SuffixRun(w, c) {
        assert RunAt(w, c, |w| - m, m);
      } else {
        var s :| 0 <= s <= |p| && RunAt(p, c, s, MaxRun(p, c));
        assert RunAt(w, c, s, m);
      }
      if HasRun(w, c, m + 1) {
        var s :| 0 <= s <= |w| && RunAt(w, c, s, m + 1);
        if s + m + 1 == |w| {
          SuffixRunIsLongest(w, c, s);
        } else {
          assert RunAt(p, c, s, m + 1);
          HasRunShorter(p, c, s, m + 1, MaxRun(p, c) + 1);
        }
      }
    }
  }

  lemma HasRunShorter(w: seq<char>, c: char, s: int, n: int, k: int)
    requires RunAt(w, c, s, n) && 0 <= k <= n
    ensures HasRun(w, c, k)
  {
    assert RunAt(w, c, s, k);
  }

  /** Some run of length n exists exactly when the longest run is at least n long. */
  lemma HasRunIffMaxRun(w: seq<char>, c: char, n: nat)
    ensures HasRun(w, c, n) <==> n <= MaxRun(w, c)
  {
    MaxRunIsLongest(w, c);
    var m := MaxRun(w, c);
    if n <= m {
      var s :| 0 <= s <= |w| && RunAt(w, c, s, m);
      HasRunShorter(w, c, s, m, n);
    } else if HasRun(w, c, n) {
      var s :| 0 <= s <= |w| && RunAt(w, c, s, n);
      HasRunShorter(w, c, s, n, m + 1);
    }
  }

  /** In a 7-cell window every run of four or more covers the middle cell. */
  lemma RunContainsCentre(w: seq<char>, c: char, n: int)
    requires |w| == 7 && 4 <= n && HasRun(w, c, n)
    ensures w[3] == c
  {
    var s :| 0 <= s <= |w| && RunAt(w, c, s, n);
    assert s <= 3 < s + n;
  }

  // ----- the win condition -----

  /** `checkGameOver`: one of the four windows around (x, y) holds at least four `c` in a row. */
  predicate Wins(b: seq<char>, c: char, x: int, y: int)
    requires IsBoard(b)
  {
    exists d | 0 <= d < 4 :: HasRun(Window(b, AllMatrices[d], x, y), c, WinAmount)
  }

  predicate OwnedAt(b: seq<char>, c: char, x: int, y: int)
    requires IsBoard(b)
  {
    InRange(x, y) && b[CellIndex(x, y)] == c
  }

  /** The cell `k` steps from (x, y) along (dx, dy) holds `c`. */
  predicate OwnedStep(b: seq<char>, c: char, x: int, y: int, dx: int, dy: int, k: int)
    requires IsBoard(b)
  {
    OwnedAt(b, c, x + k * dx, y + k * dy)
  }

  predicate LineFrom(b: seq<char>, c: char, x: int, y: int, dx: int, dy: int, s: int)
    requires IsBoard(b)
  {
    forall k | s <= k < s + WinAmount :: OwnedStep(b, c, x, y, dx, dy, k)
  }

  /** Four cells of `c` in a row along (dx, dy), on the board, one of them (x, y). */
  predicate LineOfFour(b: seq<char>, c: char, x: int, y: int, dx: int, dy: int)
    requires IsBoard(b)
  {
    exists s | -3 <= s <= 0 :: LineFrom(b, c, x, y, dx, dy, s)
  }

  lemma WindowIffLine(b: seq<char>, c: char, x: int, y: int, d: int)
    requires IsBoard(b) && c != EmptyChar && 0 <= d < 4
    ensures HasRun(Window(b, AllMatrices[d], x, y), c, WinAmount) <==>
            LineOfFour(b, c, x, y, Directions[d].0, Directions[d].1)
  {
    var w := Window(b, AllMatrices[d], x, y);
    var (dx, dy) := Directions[d];
    forall i | 0 <= i < 7
      ensures w[i] == c <==> OwnedStep(b, c, x, y, dx, dy, i - 3)
    {
      MatrixOffsets(d, i);
    }
    forall k | -3 <= k <= 3
      ensures w[k + 3] == c <==> OwnedStep(b, c, x, y, dx, dy, k)
    {
      MatrixOffsets(d, k + 3);
    }
    if HasRun(w, c, WinAmount) {
      var s :| 0 <= s <= |w| && RunAt(w, c, s, WinAmount);
      assert LineFrom(b, c, x, y, dx, dy, s - 3);
    }
    if LineOfFour(b, c, x, y, dx, dy) {
      var t :| -3 <= t <= 0 && LineFrom(b, c, x, y, dx, dy, t);
      assert RunAt(w, c, t + 3, WinAmount);
    }
  }

  /** The win check reports exactly a line of four through the cell just played. */
  lemma WinIffLine(b: seq<char>, c: char, x: int, y: int)
    requires IsBoard(b) && c != EmptyChar
    ensures Wins(b, c, x, y) <==> exists d | 0 <= d < 4 :: LineOfFour(b, c, x, y, Directions[d].0, Directions[d].1)
  {
    forall d | 0 <= d < 4
      ensures HasRun(Window(b, AllMatrices[d], x, y), c, WinAmount) <==>
              LineOfFour(b, c, x, y, Directions[d].0, Directions[d].1)
    {
      WindowIffLine(b, c, x, y, d);
    }
  }

  /** A win always goes through the cell just played, and that cell holds the winner's colour. */
  lemma WinThroughPiece(b: seq<char>, c: char, x: int, y: int)
    requires IsBoard(b) && c != EmptyChar && Wins(b, c, x, y)
    ensures OwnedAt(b, c, x, y)
  {
    var d :| 0 <= d < 4 && HasRun(Window(b, AllMatrices[d], x, y), c, WinAmount);
    RunContainsCentre(Window(b, AllMatrices[d], x, y), c, WinAmount);
    MatrixOffsets(d, 3);
  }

  // ----- counting pieces -----

  /** The positions holding `c`. */
  function Owned(b: seq<char>, c: char): set<int> {
    set k | 0 <= k < |b| && b[k] == c
  }

  /** How many cells hold `c`, counted cell by cell. */
  function Count(b: seq<char>, c: char): (n: nat)
    ensures n <= |b|
    decreases |b|
  {
    if b == [] then 0 else Count(b[..|b| - 1], c) + (if b[|b| - 1] == c then 1 else 0)
  }

  lemma PrefixOwnedStep(b: seq<char>, n: int, ch: char)
    requires 0 < n <= |b|
    ensures (set k | 0 <= k < n && b[k] == ch)
         == (set k | 0 <= k < n - 1 && b[k] == ch) + (if b[n - 1] == ch then {n - 1} else {})
  {
  }

  lemma {:induction false} CountPrefix(b: seq<char>, c: char, n: int)
    requires 0 <= n <= |b|
    ensures Count(b[..n], c) == |set k | 0 <= k < n && b[k] == c|
    decreases n
  {
    if n > 0 {
      CountPrefix(b, c, n - 1);
      assert b[..n][..n - 1] == b[..n - 1];
      PrefixOwnedStep(b, n, c);
    }
  }

  /** The count is the number of positions holding `c`. */
  lemma CountOwned(b: seq<char>, c: char)
    ensures Count(b, c) == |Owned(b, c)|
  {
    CountPrefix(b, c, |b|);
    assert b[..|b|] == b;
  }

  lemma {:induction false} SubsetCard<T>(a: set<T>, s: set<T>)
    requires a <= s
    ensures |a| <= |s|
    decreases |a|
  {
    if a != {} {
      var e :| e in a;
      SubsetCard(a - {e}, s - {e});
    }
  }

  /** A player with at most three pieces cannot have four in a row: the check can be skipped. */
  lemma FewPiecesNoWin(b: seq<char>, c: char, x: int, y: int)
    requires IsBoard(b) && c != EmptyChar && |Owned(b, c)| < WinAmount
    ensures !Wins(b, c, x, y)
  {
    if Wins(b, c, x, y) {
      var d :| 0 <= d < 4 && HasRun(Window(b, AllMatrices[d], x, y), c, WinAmount);
      WindowIffLine(b, c, x, y, d);
      var t :| -3 <= t <= 0 && LineFrom(b, c, x, y, Directions[d].0, Directions[d].1, t);
      LineNeedsFourPieces(b, c, x, y, d, t);
    }
  }

  /** The four cells of a line are four distinct cells of the colour. */
  lemma LineNeedsFourPieces(b: seq<char>, c: char, x: int, y: int, d: int, t: int)
    requires IsBoard(b) && 0 <= d < 4 && LineFrom(b, c, x, y, Directions[d].0, Directions[d].1, t)
    ensures |Owned(b, c)| >= WinAmount
  {
    var (dx, dy) := Directions[d];
    var (x0, y0) := (x + t * dx, y + t * dy);
    forall i | 0 <= i < 4
      ensures OwnedAt(b, c, x0 + i * dx, y0 + i * dy)
    {
      assert OwnedStep(b, c, x, y, dx, dy, t + i);
      assert (t + i) * dx == t * dx + i * dx && (t + i) * dy == t * dy + i * dy;
    }
    FourInLine(b, c, x0, y0, dx, dy);
  }

  lemma FourInLine(b: seq<char>, c: char, x0: int, y0: int, dx: int, dy: int)
    requires IsBoard(b) && -1 <= dx <= 1 && -1 <= dy <= 1 && (dx, dy) != (0, 0)
    requires forall i | 0 <= i < 4 :: OwnedAt(b, c, x0 + i * dx, y0 + i * dy)
    ensures |Owned(b, c)| >= WinAmount
  {
    assert OwnedAt(b, c, x0, y0) by { assert OwnedAt(b, c, x0 + 0 * dx, y0 + 0 * dy); }
    assert OwnedAt(b, c, x0 + dx, y0 + dy) by { assert OwnedAt(b, c, x0 + 1 * dx, y0 + 1 * dy); }
    assert OwnedAt(b, c, x0 + 2 * dx, y0 + 2 * dy);
    assert OwnedAt(b, c, x0 + 3 * dx, y0 + 3 * dy);
    var step := Width * dy + dx;
    assert step != 0;
    var k0 := CellIndex(x0, y0);
    FourCells(b, c, k0, k0 + step, k0 + 2 * step, k0 + 3 * step);
  }

  lemma FourCells(b: seq<char>, c: char, k0: int, k1: int, k2: int, k3: int)
    requires k0 != k1 && k0 != k2 && k0 != k3 && k1 != k2 && k1 != k3 && k2 != k3
    requires {k0, k1, k2, k3} <= Owned(b, c)
    ensures |Owned(b, c)| >= WinAmount
  {
    CardFour(k0, k1, k2, k3);
    SubsetCard({k0, k1, k2, k3}, Owned(b, c));
  }

  lemma CardFour(a: int, b: int, c: int, d: int)
    requires a != b && a != c && a != d && b != c && b != d && c != d
    ensures |{a, b, c, d}| == 4
  {
    assert {a, b, c, d} == {a} + {b} + {c} + {d};
  }


  // ----- rendering -----

  /** Row `y` of the grid, left to right. */
  function RowText(b: seq<char>, y: int): (r: string)
    requires IsBoard(b) && 0 <= y < Height
    ensures |r| == Width
    ensures forall x | 0 <= x < Width :: r[x] == b[CellIndex(x, y)]
  {
    b[y * Width..y * Width + Width]
  }

  const Header: string := "  1234567"

  /** The line for row `y` (0-based): `[cells]`, led by the 1-based row number with details. */
  function RowLine(b: seq<char>, y: int, fullDetails: bool): string
    requires IsBoard(b) && 0 <= y < Height
  {
    (if fullDetails then IntToString(y + 1) else "") + "[" + RowText(b, y) + "]"
  }

  /** The row lines, top to bottom. */
  function FieldRows(b: seq<char>, fullDetails: bool): (rows: seq<string>)
    requires IsBoard(b)
    ensures |rows| == Height
    ensures forall y | 0 <= y < Height :: rows[y] == RowLine(b, y, fullDetails)
  {
    seq(Height, y requires 0 <= y < Height => RowLine(b, y, fullDetails))
  }

  /** The lines of `getCurrentField`: the header with details, then the rows top to bottom. */
  function FieldLines(b: seq<char>, fullDetails: bool): (lines: seq<string>)
    requires IsBoard(b)
    ensures |lines| == Height + (if fullDetails then 1 else 0)
  {
    (if fullDetails then [Header] else []) + FieldRows(b, fullDetails)
  }

  /**
   * Reading the rendered field back: split at line breaks, the line of row
   * `y` holds the cell (x, y) right after the row number and the bracket.
   */
  lemma RenderedCell(b: seq<char>, fullDetails: bool, x: int, y: int)
    requires IsBoard(b) && '\n' !in b && InRange(x, y)
    ensures var lines := Split(Join(FieldLines(b, fullDetails), LineSeparator), '\n');
      var off := if fullDetails then 1 else 0;
      && |lines| == Height + off
      && |lines[y + off]| == Width + 2 + off
      && lines[y + off][off + 1 + x] == b[CellIndex(x, y)]
  {
    var lines := FieldLines(b, fullDetails);
    var off := if fullDetails then 1 else 0;
    FieldLinesUnbroken(b, fullDetails);
    assert LineSeparator == ['\n'];
    SplitJoin(lines, '\n');
    assert Split(Join(lines, LineSeparator), '\n') == lines;
    FieldLineOfRow(b, fullDetails, y);
    RowLineAt(b, y, fullDetails, x);
  }

  lemma FieldLineOfRow(b: seq<char>, fullDetails: bool, y: int)
    requires IsBoard(b) && 0 <= y < Height
    ensures FieldLines(b, fullDetails)[y + (if fullDetails then 1 else 0)] == RowLine(b, y, fullDetails)
  {
  }

  lemma RowLineAt(b: seq<char>, y: int, fullDetails: bool, x: int)
    requires IsBoard(b) && InRange(x, y)
    ensures var off := if fullDetails then 1 else 0;
      |RowLine(b, y, fullDetails)| == Width + 2 + off &&
      RowLine(b, y, fullDetails)[off + 1 + x] == b[CellIndex(x, y)]
  {
    if fullDetails {
      assert |IntToString(y + 1)| == 1;
    }
  }

  lemma FieldLinesUnbroken(b: seq<char>, fullDetails: bool)
    requires IsBoard(b) && '\n' !in b
    ensures NoneContains(FieldLines(b, fullDetails), '\n')
  {
    var lines := FieldLines(b, fullDetails);
    forall i | 0 <= i < |lines|
      ensures '\n' !in lines[i]
    {
      if fullDetails && i == 0 {
        assert lines[i] == Header;
      } else {
        var r := if fullDetails then i - 1 else i;
        assert lines[i] == RowLine(b, r, fullDetails);
        var t := RowText(b, r);
        assert forall j | 0 <= j < |t| :: t[j] in b;
        if fullDetails {
          assert |IntToString(r + 1)| == 1 && IsDigit(IntToString(r + 1)[0]);
        }
      }
    }
  }
}
