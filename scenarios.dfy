/**
 * Whole games and move sequences played through `Rules.PlayStep`, as the
 * engine's own usage shows them: the first drop of a game, a column that
 * overflows, a retry of a taken cell, a vertical win on round 7, and a
 * bottom row filled between two off-board calls, with the records it logs.
 */
module Scenarios {
  import opened Text
  import opened Board
  import opened Results
  import opened LogEntry
  import opened Rules
  import opened Game

  /** The state after playing `moves` (1-based cells) one after another from `s`. */
  function Run(s: GameState, firstName: string, secondName: string, moves: seq<(int, int)>): (r: GameState)
    requires IsBoard(s.board)
    ensures IsBoard(r.board)
    ensures s.gameOver ==> r == s
    decreases |moves|
  {
    if moves == [] then s
    else Run(PlayStep(s, firstName, secondName, moves[0].0, moves[0].1).next, firstName, secondName, moves[1..])
  }

  /** Every state reachable from a consistent one, in particular from a new game, is consistent. */
  lemma {:induction false} RunConsistent(s: GameState, firstName: string, secondName: string, moves: seq<(int, int)>)
    requires Consistent(s)
    ensures Consistent(Run(s, firstName, secondName, moves))
    decreases |moves|
  {
    if moves != [] {
      PlayStepConsistent(s, firstName, secondName, moves[0].0, moves[0].1);
      RunConsistent(PlayStep(s, firstName, secondName, moves[0].0, moves[0].1).next, firstName, secondName, moves[1..]);
    }
  }

  /** On a fresh game, dropping into column 3 lands on the bottom row for player one and passes the turn. */
  lemma FirstDropPassesTurn(firstName: string, secondName: string)
    ensures var step := PlayStep(InitialState(), firstName, secondName, 3, Height - DropsInto(map[], 3));
      && step.result == RoundResult(Some(firstName), Some(PlacedMessage(3, 6, firstName)), true)
      && step.next.current == P2 && step.next.playedRounds == 1
      && step.next.board[CellIndex(2, 5)] == PlayerOneColor
  {
  }

  /** After six drops into a column the counter targets row 0, off the board: the seventh drop is rejected. */
  lemma SeventhDropRejected(s: GameState, firstName: string, secondName: string, counts: map<int, int>, x: int)
    requires IsBoard(s.board) && !s.gameOver && DropsInto(counts, x) == Height
    ensures PlayStep(s, firstName, secondName, x, Height - DropsInto(counts, x))
         == Rejected(s, NameOf(s.current, firstName, secondName), OutOfRangeMessage(x, 0))
  {
  }

  /**
   * Player two picking the cell player one just took is refused and
   * attributed to player two, who is still to move and whose next valid
   * placement is logged under their number.
   */
  lemma TakenCellKeepsTurn(firstName: string, secondName: string)
    ensures var s1 := PlayStep(InitialState(), firstName, secondName, 1, 1).next;
      var retry := PlayStep(s1, firstName, secondName, 1, 1);
      var next := PlayStep(retry.next, firstName, secondName, 2, 1);
      && retry.next == s1 && s1.current == P2
      && retry.result == RoundResult(Some(secondName), Some(TakenMessage(1, 1)), false)
      && retry.records == [Record(Invalid, -1, 2, TakenMessage(1, 1), false)]
      && next.result.valid && next.records[0].playerNumber == 2 && next.next.current == P1
  {
    var s0 := InitialState();
    QuietRound(s0, firstName, secondName, 1, 1);
    var s1 := PlayStep(s0, firstName, secondName, 1, 1).next;
    QuietRound(s1, firstName, secondName, 2, 1);
  }

  /** Player one stacks four in column 1 while player two stacks three in column 2. */
  const VerticalWin: seq<(int, int)> := [(1, 6), (2, 6), (1, 5), (2, 5), (1, 4), (2, 4), (1, 3)]

  /** The state after the first three moves of `VerticalWin`: two pieces of player one, one of player two. */
  function Opened(): (s: GameState)
    ensures IsBoard(s.board)
  {
    var b := EmptyBoard()[CellIndex(0, 5) := PlayerOneColor][CellIndex(1, 5) := PlayerTwoColor][CellIndex(0, 4) := PlayerOneColor];
    GameState(b, 3, P2, false, false)
  }

  /** The first three moves of `VerticalWin` are quiet rounds that reach `Opened()`. */
  lemma OpeningMoves(firstName: string, secondName: string)
    ensures Run(InitialState(), firstName, secondName, VerticalWin)
         == Run(Opened(), firstName, secondName, VerticalWin[3..])
  {
    var f, n, m := firstName, secondName, VerticalWin;
    var s0 := InitialState();
    var b1 := s0.board[CellIndex(0, 5) := PlayerOneColor];
    var b2 := b1[CellIndex(1, 5) := PlayerTwoColor];
    var s1 := GameState(b1, 1, P2, false, false);
    var s2 := GameState(b2, 2, P1, false, false);
    QuietRound(s0, f, n, 1, 6);
    QuietRound(s1, f, n, 2, 6);
    QuietRound(s2, f, n, 1, 5);
    assert Run(s2, f, n, m[2..]) == Run(Opened(), f, n, m[3..]);
    assert Run(s1, f, n, m[1..]) == Run(s2, f, n, m[2..]);
    assert Run(s0, f, n, m) == Run(s1, f, n, m[1..]);
  }

  /** The seventh round completes player one's column: the game is won, not drawn, and the turn stays. */
  lemma VerticalWinEndsGame(firstName: string, secondName: string)
    ensures var s := Run(InitialState(), firstName, secondName, VerticalWin);
      s.gameOver && !s.draw && s.current == P1 && s.playedRounds == 7
  {
    var f, n, m := firstName, secondName, VerticalWin;
    OpeningMoves(f, n);
    var s3 := Opened();
    var b4 := s3.board[CellIndex(1, 4) := PlayerTwoColor];
    var b5 := b4[CellIndex(0, 3) := PlayerOneColor];
    var b6 := b5[CellIndex(1, 3) := PlayerTwoColor];
    var s4 := GameState(b4, 4, P1, false, false);
    var s5 := GameState(b5, 5, P2, false, false);
    var s6 := GameState(b6, 6, P1, false, false);
    QuietRound(s3, f, n, 2, 5);
    QuietRound(s4, f, n, 1, 4);
    QuietRound(s5, f, n, 2, 4);
    var s7 := PlayStep(s6, f, n, 1, 3).next;
    ColumnWin(s6, f, n);
    assert Run(s6, f, n, m[6..]) == s7;
    assert Run(s5, f, n, m[5..]) == Run(s6, f, n, m[6..]);
    assert Run(s4, f, n, m[4..]) == Run(s5, f, n, m[5..]);
    assert Run(s3, f, n, m[3..]) == Run(s4, f, n, m[4..]);
  }

  /** Up to round 6 a valid placement never ends the game: the piece lands and the turn passes. */
  lemma QuietRound(s: GameState, firstName: string, secondName: string, x: int, y: int)
    requires IsBoard(s.board) && !s.gameOver && s.playedRounds < MinRounds
    requires InRange(x - 1, y - 1) && s.board[CellIndex(x - 1, y - 1)] == EmptyChar
    ensures PlayStep(s, firstName, secondName, x, y).next
         == s.(board := s.board[CellIndex(x - 1, y - 1) := s.current.Color()],
               playedRounds := s.playedRounds + 1, current := s.current.Other())
  {
  }

  /** Player one's piece on (1, 3) tops three of theirs below it in column 1: four in a line, a win. */
  lemma ColumnWin(s: GameState, firstName: string, secondName: string)
    requires IsBoard(s.board) && !s.gameOver && !s.draw && s.playedRounds == MinRounds && s.current == P1
    requires s.board[CellIndex(0, 2)] == EmptyChar
    requires forall j | 3 <= j < Height :: s.board[CellIndex(0, j)] == PlayerOneColor
    ensures var next := PlayStep(s, firstName, secondName, 1, 3).next;
      next.gameOver && !next.draw && next.current == P1 && next.playedRounds == 7
  {
    var b := s.board[CellIndex(0, 2) := PlayerOneColor];
    assert LineFrom(b, PlayerOneColor, 0, 2, 0, 1, 0) by {
      forall k | 0 <= k < WinAmount
        ensures OwnedStep(b, PlayerOneColor, 0, 2, 0, 1, k)
      {
        CellIndexInjective(0, 2, 0, 2 + k);
      }
    }
    assert Directions[1] == (0, 1);
    assert LineOfFour(b, PlayerOneColor, 0, 2, Directions[1].0, Directions[1].1);
    WinIffLine(b, PlayerOneColor, 0, 2);
  }

  // ----- the nine calls along the bottom row that both test suites play -----

  /** The records that playing `moves` one after another from `s` offers to the log, in order. */
  function RunLog(s: GameState, firstName: string, secondName: string, moves: seq<(int, int)>): (rs: seq<Record>)
    requires IsBoard(s.board)
    ensures s.gameOver ==> rs == []
    decreases |moves|
  {
    if moves == [] then []
    else
      var step := PlayStep(s, firstName, secondName, moves[0].0, moves[0].1);
      step.records + RunLog(step.next, firstName, secondName, moves[1..])
  }

  /** Column 0, the bottom row, each column of it in turn, then column 8 (Java's `testGameLog`). */
  const BottomRowMoves: seq<(int, int)> := [(0, 6), (1, 6), (2, 6), (3, 6), (4, 6), (5, 6), (6, 6), (7, 6), (8, 6)]

  /** The game after `k` pieces along the bottom row, player one's in the odd columns, player two's in the even. */
  function BottomRow(k: int): (s: GameState)
    requires 0 <= k <= Width
    ensures IsBoard(s.board)
  {
    var b := seq(Width * Height, i requires 0 <= i < Width * Height =>
      if CellIndex(0, Height - 1) <= i < CellIndex(0, Height - 1) + k then
        (if (i - CellIndex(0, Height - 1)) % 2 == 0 then PlayerOneColor else PlayerTwoColor)
      else EmptyChar);
    GameState(b, k, if k % 2 == 0 then P1 else P2, false, false)
  }

  /** The default entry of round `k` along the bottom row: player one in odd rounds, player two in even ones. */
  function RowRecord(firstName: string, secondName: string, k: int): Record {
    var name := if k % 2 == 1 then firstName else secondName;
    Record(Default, k, if k % 2 == 1 then 1 else 2, PlacedMessage(k, 6, name), true)
  }

  /** Placing the piece of round k + 1 on the bottom row: logged under round k + 1, and the turn passes. */
  lemma BottomRowStep(firstName: string, secondName: string, k: int)
    requires 0 <= k < Width
    ensures var step := PlayStep(BottomRow(k), firstName, secondName, k + 1, Height);
      step.next == BottomRow(k + 1) && step.records == [RowRecord(firstName, secondName, k + 1)]
  {
    var s := BottomRow(k);
    var base := CellIndex(0, Height - 1);
    assert CellIndex(k, Height - 1) == base + k && s.board[base + k] == EmptyChar;
    var b := s.board[base + k := s.current.Color()];
    forall i | 0 <= i < Width * Height
      ensures b[i] == BottomRow(k + 1).board[i]
    {
    }
    assert b == BottomRow(k + 1).board;
    if k < MinRounds {
      QuietRound(s, firstName, secondName, k + 1, Height);
    } else {
      SeventhPieceNoWin(b);
    }
  }

  /** On round 7 the piece in column 7 has player two's piece to its left and empty or off-board cells elsewhere. */
  lemma SeventhPieceNoWin(b: seq<char>)
    requires b == BottomRow(Width).board
    ensures !Wins(b, PlayerOneColor, Width - 1, Height - 1)
  {
    assert CellIndex(0, Height - 1) == 35 && CellIndex(5, 5) == 40;
    assert CellIndex(6, 4) == 34 && CellIndex(5, 4) == 33;
    assert b[40] == PlayerTwoColor && b[34] == EmptyChar && b[33] == EmptyChar;
    forall d | 0 <= d < 4
      ensures !HasRun(Window(b, AllMatrices[d], Width - 1, Height - 1), PlayerOneColor, WinAmount)
    {
      MatrixOffsets(d, 2);
      MatrixOffsets(d, 4);
      var w := Window(b, AllMatrices[d], Width - 1, Height - 1);
      assert w[2] != PlayerOneColor && w[4] != PlayerOneColor;
      GapsBlockRun(w, PlayerOneColor);
    }
  }

  /** A run of four in seven cells covers the centre and one of its neighbours. */
  lemma GapsBlockRun(w: seq<char>, c: char)
    requires |w| == 7 && w[2] != c && w[4] != c
    ensures !HasRun(w, c, WinAmount)
  {
  }

  /** The records of the bottom-row rounds after the first `k`. */
  function RowRecords(firstName: string, secondName: string, k: int): seq<Record>
    requires 0 <= k <= Width
  {
    seq(Width - k, i requires 0 <= i < Width - k => RowRecord(firstName, secondName, k + 1 + i))
  }

  /** Round k + 1 on the bottom row offers its default entry, then play goes on from `k + 1` pieces. */
  lemma RoundCall(firstName: string, secondName: string, k: int, rest: seq<(int, int)>)
    requires 0 <= k < Width
    ensures RunLog(BottomRow(k), firstName, secondName, [(k + 1, Height)] + rest)
         == [RowRecord(firstName, secondName, k + 1)] + RunLog(BottomRow(k + 1), firstName, secondName, rest)
  {
    BottomRowStep(firstName, secondName, k);
    assert ([(k + 1, Height)] + rest)[1..] == rest;
  }

  /** Column 8 is off the board: player two's call is refused and logged as invalid. */
  lemma LastCall(firstName: string, secondName: string)
    ensures RunLog(BottomRow(Width), firstName, secondName, [(8, 6)])
         == [Record(Invalid, -1, 2, OutOfRangeMessage(8, 6), false)]
  {
    RejectedPlay(BottomRow(Width), firstName, secondName, 8, 6);
  }

  /** The calls after the first `k` pieces: the rest of the bottom row, then column 8. */
  function RowMoves(k: int): seq<(int, int)>
    requires 0 <= k <= Width
  {
    seq(Width - k, i requires 0 <= i < Width - k => (k + 1 + i, Height)) + [(8, 6)]
  }

  /** From `k` pieces on, the bottom row logs one default entry per round, then the invalid column 8. */
  lemma {:induction false} BottomRowRecords(firstName: string, secondName: string, k: int)
    requires 0 <= k <= Width
    ensures RunLog(BottomRow(k), firstName, secondName, RowMoves(k))
         == RowRecords(firstName, secondName, k) + [Record(Invalid, -1, 2, OutOfRangeMessage(8, 6), false)]
    decreases Width - k
  {
    if k == Width {
      assert RowMoves(k) == [(8, 6)];
      LastCall(firstName, secondName);
      assert RowRecords(firstName, secondName, k) == [];
    } else {
      assert RowMoves(k) == [(k + 1, Height)] + RowMoves(k + 1);
      RoundCall(firstName, secondName, k, RowMoves(k + 1));
      BottomRowRecords(firstName, secondName, k + 1);
      RowRecordsCons(firstName, secondName, k);
    }
  }

  lemma RowRecordsCons(firstName: string, secondName: string, k: int)
    requires 0 <= k < Width
    ensures RowRecords(firstName, secondName, k)
         == [RowRecord(firstName, secondName, k + 1)] + RowRecords(firstName, secondName, k + 1)
  {
    var rest := RowRecords(firstName, secondName, k + 1);
    forall i | 0 <= i < |rest|
      ensures rest[i] == RowRecords(firstName, secondName, k)[i + 1]
    {
      var j := k + 2 + i;
      assert rest[i] == RowRecord(firstName, secondName, j);
    }
  }

  /** Column 0 is off the board: player one's first call is refused, and the game is still new. */
  lemma FirstCall(firstName: string, secondName: string)
    ensures RunLog(InitialState(), firstName, secondName, BottomRowMoves)
         == [Record(Invalid, -1, 1, OutOfRangeMessage(0, 6), false)] + RunLog(BottomRow(0), firstName, secondName, RowMoves(0))
  {
    var s := InitialState();
    assert s.board == BottomRow(0).board;
    RejectedPlay(s, firstName, secondName, 0, 6);
    assert BottomRowMoves[1..] == RowMoves(0);
  }

  /**
   * Java's `testGameLog`: an off-board call for player one, seven default
   * entries for rounds 1 to 7 alternating between the players (no win on
   * round 7), and an off-board call for player two: nine entries, seven
   * of them valid.
   */
  lemma BottomRowLog(firstName: string, secondName: string)
    ensures var rs := RunLog(InitialState(), firstName, secondName, BottomRowMoves);
      && |rs| == 9
      && rs[0] == Record(Invalid, -1, 1, OutOfRangeMessage(0, 6), false)
      && (forall k | 1 <= k <= 7 :: rs[k] == RowRecord(firstName, secondName, k) && rs[k].valid)
      && rs[8] == Record(Invalid, -1, 2, OutOfRangeMessage(8, 6), false)
  {
    BottomRowRun(firstName, secondName);
    RowEntries(firstName, secondName);
    var rs := RunLog(InitialState(), firstName, secondName, BottomRowMoves);
    var rows := RowRecords(firstName, secondName, 0);
    var tail := rows + [Record(Invalid, -1, 2, OutOfRangeMessage(8, 6), false)];
    assert rs == [rs[0]] + tail;
    forall k | 1 <= k <= 7
      ensures rs[k] == rows[k - 1]
    {
      assert rs[k] == tail[k - 1];
    }
    assert rs[8] == tail[7];
  }

  /** The whole run: the two refused calls around the seven placements. */
  lemma BottomRowRun(firstName: string, secondName: string)
    ensures RunLog(InitialState(), firstName, secondName, BottomRowMoves)
         == [Record(Invalid, -1, 1, OutOfRangeMessage(0, 6), false)]
            + (RowRecords(firstName, secondName, 0) + [Record(Invalid, -1, 2, OutOfRangeMessage(8, 6), false)])
  {
    FirstCall(firstName, secondName);
    BottomRowRecords(firstName, secondName, 0);
  }

  /** The seven placements of the bottom row, round by round. */
  lemma RowEntries(firstName: string, secondName: string)
    ensures var rows := RowRecords(firstName, secondName, 0);
      && |rows| == 7
      && forall k | 1 <= k <= 7 :: rows[k - 1] == RowRecord(firstName, secondName, k) && rows[k - 1].valid
  {
    var rows := RowRecords(firstName, secondName, 0);
    forall k | 1 <= k <= 7
      ensures rows[k - 1] == RowRecord(firstName, secondName, k)
    {
      var j := 0 + 1 + (k - 1);
      assert rows[k - 1] == RowRecord(firstName, secondName, j);
    }
  }
}
