/**
 * The game engine: a 6 x 7 grid of characters updated in place, the
 * player to move, the round counter, the draw and game-over latches, the
 * per-column drop counter and the game log. Both game variants share it:
 * in the column-drop variant (`DefaultConnect4`) a cell may only be played
 * through `PlayColumn`, which arms a one-shot flag that `PlayCell` checks
 * and clears; in the free-positioned variant `PlayColumn` is unsupported.
 * Every method that plays is proved against `Rules.PlayStep`.
 */
module Game {
  import opened Text
  import opened Board
  import opened Results
  import opened LogEntry
  import opened LogEntryBuilder
  import opened Log
  import opened Rules

  datatype Variant = ColumnDrop | FreePositioned

  /** A call either plays and yields a result, or is not supported by the variant (Java throws). */
  datatype Outcome = Played(result: RoundResult) | Unsupported

  /** The drop counter of column `x`, zero for a column never played. */
  function DropsInto(counts: map<int, int>, x: int): int {
    if x in counts then counts[x] else 0
  }

  /** The log entry `e` holds exactly the content `r`. */
  predicate Holds(e: GameLogEntry, r: Record) {
    && e.roundTitle == Some(r.title) && e.roundNumber == r.roundNumber
    && e.playerNumber == r.playerNumber && e.message == Some(r.message) && e.validRound == r.valid
  }

  predicate HoldAll(es: seq<GameLogEntry>, rs: seq<Record>) {
    |es| == |rs| && forall i | 0 <= i < |es| :: Holds(es[i], rs[i])
  }

  class Connect4 {
    const variant: Variant
    const firstPlayerName: string
    const secondPlayerName: string
    /** `field[y, x]`: row `y` (0 is the top), column `x`. */
    const field: array2<char>
    const gameLog: GameLog
    var current: Player
    var playedRounds: int
    var draw: bool
    var gameOver: bool
    var entriesPerColumn: map<int, int>
    /** `DefaultConnect4.valid`: set by a column drop, consumed by the cell play it leads to. */
    var armed: bool

    /** The grid row by row, as the rules see it: cell (x, y) at `CellIndex(x, y)`. */
    ghost var board: seq<char>

    /** The grid has the game's dimensions and `board` is its row-by-row view. */
    ghost predicate Coupled()
      reads this`board, field
    {
      && field.Length0 == Height && field.Length1 == Width && IsBoard(board)
      && forall x, y | InRange(x, y) :: field[y, x] == board[CellIndex(x, y)]
    }

    ghost function State(): GameState
      reads this`board, this`playedRounds, this`current, this`draw, this`gameOver
    {
      GameState(board, playedRounds, current, draw, gameOver)
    }

    /** The engine invariant: the rules' invariant on the current state, with distinct player names. */
    ghost predicate Inv()
      reads this`board, this`playedRounds, this`current, this`draw, this`gameOver, field
    {
      Coupled() && firstPlayerName != secondPlayerName && Consistent(State())
    }

    /** Between public calls the column-drop flag is down. */
    ghost predicate Valid()
      reads this`board, this`playedRounds, this`current, this`draw, this`gameOver, this`armed, field
    {
      Inv() && !armed
    }

    constructor(variant: Variant, firstPlayerName: string, secondPlayerName: string)
      requires firstPlayerName != secondPlayerName
      ensures Valid() && State() == InitialState()
      ensures this.variant == variant
      ensures this.firstPlayerName == firstPlayerName && this.secondPlayerName == secondPlayerName
      ensures fresh(field) && fresh(gameLog) && gameLog.entries == [] && entriesPerColumn == map[]
    {
      this.variant := variant;
      this.firstPlayerName := firstPlayerName;
      this.secondPlayerName := secondPlayerName;
      var grid := CreateNewField();
      var log := new GameLog();
      field := grid;
      gameLog := log;
      current := P1;
      playedRounds := 0;
      draw := false;
      gameOver := false;
      entriesPerColumn := map[];
      armed := false;
      board := EmptyBoard();
      new;
      InitialConsistent();
    }

    /** A new grid with every cell empty. */
    static method CreateNewField() returns (f: array2<char>)
      ensures fresh(f) && f.Length0 == Height && f.Length1 == Width
      ensures forall y, x | 0 <= y < Height && 0 <= x < Width :: f[y, x] == EmptyChar
    {
      f := new char[Height, Width];
      for y := 0 to Height
        invariant forall r, x | 0 <= r < y && 0 <= x < Width :: f[r, x] == EmptyChar
      {
        for x := 0 to Width
          invariant forall r, c | 0 <= r < y && 0 <= c < Width :: f[r, c] == EmptyChar
          invariant forall c | 0 <= c < x :: f[y, c] == EmptyChar
        {
          f[y, x] := EmptyChar;
        }
      }
    }

    function CurrentPlayerName(): string
      reads this`current
    {
      NameOf(current, firstPlayerName, secondPlayerName)
    }

    /** 1 for the first player, 2 for the second, decided by comparing names. */
    function CurrentPlayerNumber(): (n: int)
      reads this`current
      ensures firstPlayerName != secondPlayerName ==> n == current.Number()
    {
      if CurrentPlayerName() == firstPlayerName then 1 else 2
    }

    /** The mover's colour, decided by comparing names. */
    function CurrentPlayerColor(): (c: char)
      reads this`current
      ensures firstPlayerName != secondPlayerName ==> c == current.Color()
    {
      if CurrentPlayerName() == firstPlayerName then PlayerOneColor else PlayerTwoColor
    }

    /** Hands the turn to the other player. */
    method UpdatePlayer()
      modifies this`current
      ensures firstPlayerName != secondPlayerName ==> current == old(current).Other()
    {
      current := if CurrentPlayerName() == firstPlayerName then P2 else P1;
    }

    /** The cell at internal coordinates (x, y). */
    function GetCharAtPosition(x: int, y: int): (ch: char)
      requires Coupled() && InRange(x, y)
      reads this, field
      ensures ch == board[CellIndex(x, y)]
    {
      field[y, x]
    }

    /** The cell at an offset from (srcX, srcY); a cell off the grid reads as empty. */
    function GetColorOfField(element: (int, int), srcX: int, srcY: int): (ch: char)
      requires Coupled()
      reads this, field
      ensures ch == ColorAt(board, srcX + element.0, srcY + element.1)
    {
      var (x, y) := (srcX + element.0, srcY + element.1);
      if InRange(x, y) then GetCharAtPosition(x, y) else EmptyChar
    }

    /** Writes the mover's colour into one cell and nowhere else. */
    method SetField(x: int, y: int)
      requires Coupled() && InRange(x, y)
      modifies field, this`board
      ensures Coupled() && board == old(board)[CellIndex(x, y) := CurrentPlayerColor()]
    {
      field[y, x] := CurrentPlayerColor();
      board := board[CellIndex(x, y) := CurrentPlayerColor()];
      forall x', y' | InRange(x', y')
        ensures field[y', x'] == board[CellIndex(x', y')]
      {
        CellIndexInjective(x, y, x', y');
      }
    }

    /**
     * The target row of a drop into column `x`: counts the drop, and
     * answers 6 minus the drops counted before it (so the seventh drop
     * into a column answers 0, which is off the grid).
     */
    method NextAvailablePosition(x: int) returns (y: int)
      modifies this`entriesPerColumn
      ensures y == Height - DropsInto(old(entriesPerColumn), x)
      ensures entriesPerColumn == old(entriesPerColumn)[x := DropsInto(old(entriesPerColumn), x) + 1]
    {
      var entriesInColumn := DropsInto(entriesPerColumn, x);
      entriesPerColumn := entriesPerColumn[x := entriesInColumn];
      entriesPerColumn := entriesPerColumn[x := entriesPerColumn[x] + 1];
      y := Height - entriesInColumn;
    }

    /**
     * Builds an entry for `result` (the mover's number for a player
     * title, 0 otherwise), offers it to the log and hands `result` back.
     */
    method ReturnAndLog(result: RoundResult, title: RoundTitle, roundNr: int)
      returns (r: RoundResult, ghost e: GameLogEntry)
      modifies gameLog
      ensures r == result && fresh(e)
      ensures e.roundTitle == Some(title) && e.roundNumber == roundNr && e.validRound == result.valid
      ensures e.playerNumber == (if title.IsFromPlayer() then CurrentPlayerNumber() else 0)
      ensures e.message == result.message
      ensures gameLog.entries == Added(old(gameLog.entries), e)
    {
      var playerNumber := if title.IsFromPlayer() then CurrentPlayerNumber() else 0;
      var builder := new GameLogEntryBuilder();
      builder := builder.SetTitle(Some(title));
      builder := builder.SetRoundNumber(roundNr);
      builder := builder.SetMessage(result.message);
      builder := builder.SetPlayerNumber(playerNumber);
      builder := builder.SetValidRound(result.valid);
      var entry := builder.Build();
      var added := gameLog.AddEntry(entry);
      r, e := result, entry;
    }

    /** The longest run of the mover's colour in the window `matrix` lays around (srcX, srcY). */
    method GetHitsInOrder(matrix: seq<(int, int)>, srcX: int, srcY: int) returns (hits: int)
      requires Coupled()
      ensures var w := Window(board, matrix, srcX, srcY);
        hits == MaxRun(w, CurrentPlayerColor())
        && HasRun(w, CurrentPlayerColor(), hits) && !HasRun(w, CurrentPlayerColor(), hits + 1)
    {
      var hitsInOrder, maxHits := 0, 0;
      var currentPlayerColour := CurrentPlayerColor();
      ghost var w := Window(board, matrix, srcX, srcY);
      for i := 0 to |matrix|
        invariant hitsInOrder == SuffixRun(w[..i], currentPlayerColour)
        invariant (if maxHits < hitsInOrder then hitsInOrder else maxHits) == MaxRun(w[..i], currentPlayerColour)
      {
        var colorOfField := GetColorOfField(matrix[i], srcX, srcY);
        assert w[..i + 1][..i] == w[..i];
        if colorOfField == currentPlayerColour {
          hitsInOrder := hitsInOrder + 1;
        } else {
          maxHits := if maxHits < hitsInOrder then hitsInOrder else maxHits;
          hitsInOrder := 0;
        }
      }
      assert w[..|matrix|] == w;
      hits := if maxHits < hitsInOrder then hitsInOrder else maxHits;
      MaxRunIsLongest(w, currentPlayerColour);
    }

    /** Whether one of the four windows around (lastX, lastY) holds four of the mover's colour in a row. */
    method CheckGameOver(lastX: int, lastY: int) returns (over: bool)
      requires Coupled()
      ensures over <==> Wins(board, CurrentPlayerColor(), lastX, lastY)
    {
      for i := 0 to |AllMatrices|
        invariant forall d | 0 <= d < i ::
          !HasRun(Window(board, AllMatrices[d], lastX, lastY), CurrentPlayerColor(), WinAmount)
      {
        var hits := GetHitsInOrder(AllMatrices[i], lastX, lastY);
        HasRunIffMaxRun(Window(board, AllMatrices[i], lastX, lastY), CurrentPlayerColor(), WinAmount);
        if hits >= WinAmount {
          return true;
        }
      }
      return false;
    }

    /**
     * `Connect4.play(x, y)` with 1-based coordinates: exactly the step
     * `PlayStep` describes, on the grid, the counters and the log.
     */
    method Play(x: int, y: int) returns (r: RoundResult, ghost logged: seq<GameLogEntry>)
      requires Inv()
      modifies this, field, gameLog
      ensures Inv()
      ensures var step := PlayStep(old(State()), firstPlayerName, secondPlayerName, x, y);
        State() == step.next && r == step.result && HoldAll(logged, step.records)
      ensures gameLog.entries == AddedAll(old(gameLog.entries), logged)
      ensures RoundsPlayed(old(gameLog.entries), old(playedRounds)) ==>
        gameLog.entries == old(gameLog.entries) + logged && RoundsPlayed(gameLog.entries, playedRounds)
      ensures entriesPerColumn == old(entriesPerColumn) && armed == old(armed)
    {
      ghost var s0, log0 := State(), gameLog.entries;
      var alreadyOver := gameOver;
      if alreadyOver {
        r, logged := Unattributed(Some(AlreadyOverMessage), false), [];
      } else {
        var currentPlayer := CurrentPlayerName();
        var internalX, internalY := x - 1, y - 1;
        var inRange := InRange(internalX, internalY);
        if !inRange {
          r, logged := Reject(currentPlayer, OutOfRangeMessage(x, y));
        } else {
          var charAtPos := GetCharAtPosition(internalX, internalY);
          if charAtPos != EmptyChar {
            r, logged := Reject(currentPlayer, TakenMessage(x, y));
          } else {
            r, logged := Place(x, y, currentPlayer);
          }
        }
      }
      if RoundsPlayed(log0, s0.playedRounds) {
        LoggedAppends(s0, firstPlayerName, secondPlayerName, x, y, log0, logged);
      }
    }

    /** An invalid attempt: logged as an invalid entry for the mover, nothing else changes. */
    method Reject(currentPlayer: string, message: string) returns (r: RoundResult, ghost logged: seq<GameLogEntry>)
      requires Coupled() && firstPlayerName != secondPlayerName && currentPlayer == CurrentPlayerName()
      modifies gameLog
      ensures var step := Rejected(old(State()), currentPlayer, message);
        State() == step.next && r == step.result && HoldAll(logged, step.records)
      ensures gameLog.entries == AddedAll(old(gameLog.entries), logged)
    {
      ghost var e: GameLogEntry;
      r, e := ReturnAndLog(RoundResult(Some(currentPlayer), Some(message), false), Invalid, -1);
      logged := [e];
      assert AddedAll(old(gameLog.entries), logged) == AddedAll(gameLog.entries, []);
    }

    /** The placing part of `play(x, y)`: mark the free cell, then settle the round. */
    method Place(x: int, y: int, currentPlayer: string) returns (r: RoundResult, ghost logged: seq<GameLogEntry>)
      requires Inv() && !gameOver && currentPlayer == CurrentPlayerName()
      requires InRange(x - 1, y - 1) && board[CellIndex(x - 1, y - 1)] == EmptyChar
      modifies this, field, gameLog
      ensures Inv()
      ensures var step := Placed(old(State()), currentPlayer, x, y);
        State() == step.next && r == step.result && HoldAll(logged, step.records)
      ensures gameLog.entries == AddedAll(old(gameLog.entries), logged)
      ensures entriesPerColumn == old(entriesPerColumn) && armed == old(armed)
    {
      ghost var s := State();
      ghost var log0 := gameLog.entries;
      PlacedConsistent(s, currentPlayer, x, y);
      var defaultResult, e1 := Mark(x, y, currentPlayer);
      ghost var m := State();
      ghost var rest: seq<GameLogEntry>;
      r, rest := Settle(x, y, currentPlayer, defaultResult);
      logged := [e1] + rest;
      ghost var settled := Settled(m, currentPlayer, x, y);
      ghost var placed := Record(Default, m.playedRounds, s.current.Number(), PlacedMessage(x, y, currentPlayer), true);
      assert m == Marked(s, x, y);
      assert Placed(s, currentPlayer, x, y) == Step(settled.next, settled.result, [placed] + settled.records);
      HoldAllPrepend(e1, rest, placed, settled.records);
      AddedAllPrepend(log0, e1, rest);
    }

    /** Places the mover's piece on free cell (x, y), counts the round and logs it as a default entry. */
    method Mark(x: int, y: int, currentPlayer: string) returns (defaultResult: RoundResult, ghost e: GameLogEntry)
      requires Coupled() && firstPlayerName != secondPlayerName && InRange(x - 1, y - 1)
      requires currentPlayer == CurrentPlayerName()
      modifies this`playedRounds, this`board, field, gameLog
      ensures Coupled() && State() == Marked(old(State()), x, y)
      ensures defaultResult == RoundResult(Some(currentPlayer), Some(PlacedMessage(x, y, currentPlayer)), true)
      ensures Holds(e, Record(Default, playedRounds, current.Number(), PlacedMessage(x, y, currentPlayer), true))
      ensures gameLog.entries == Added(old(gameLog.entries), e)
    {
      SetField(x - 1, y - 1);
      playedRounds := playedRounds + 1;
      defaultResult, e := ReturnAndLog(RoundResult(Some(currentPlayer), Some(PlacedMessage(x, y, currentPlayer)), true),
                                       Default, playedRounds);
    }

    /** Ends the round just marked: a win, else a draw, else the turn passes (`Rules.Settled`). */
    method Settle(x: int, y: int, currentPlayer: string, defaultResult: RoundResult)
      returns (r: RoundResult, ghost logged: seq<GameLogEntry>)
      requires Coupled() && firstPlayerName != secondPlayerName && InRange(x - 1, y - 1)
      requires currentPlayer == CurrentPlayerName()
      requires defaultResult == RoundResult(Some(currentPlayer), Some(PlacedMessage(x, y, currentPlayer)), true)
      modifies this`gameOver, this`draw, this`current, gameLog
      ensures var settled := Settled(old(State()), currentPlayer, x, y);
        State() == settled.next && r == settled.result && HoldAll(logged, settled.records)
      ensures gameLog.entries == AddedAll(old(gameLog.entries), logged)
    {
      ghost var e: GameLogEntry;
      if playedRounds > MinRounds {
        var over := CheckGameOver(x - 1, y - 1);
        if over {
          gameOver := true;
          r, e := ReturnAndLog(RoundResult(Some(currentPlayer), Some(WonMessage(currentPlayer)), true), GameOver, -1);
          logged := [e];
          assert AddedAll(old(gameLog.entries), logged) == AddedAll(gameLog.entries, []);
          return;
        }
      }
      if playedRounds == MaxRounds {
        draw := true;
        gameOver := true;
        r, e := ReturnAndLog(Unattributed(Some(DrawMessage), true), Draw, -1);
        logged := [e];
        assert AddedAll(old(gameLog.entries), logged) == AddedAll(gameLog.entries, []);
        return;
      }
      UpdatePlayer();
      r, logged := defaultResult, [];
    }

    /**
     * `play(x, y)` as the variant dispatches it: the free-positioned game
     * plays the cell; the column-drop game plays it only when a column
     * drop armed the flag (which it clears), and is unsupported otherwise,
     * changing nothing.
     */
    method PlayCell(x: int, y: int) returns (outcome: Outcome, ghost logged: seq<GameLogEntry>)
      requires Inv() && (variant == FreePositioned ==> !armed)
      modifies this, field, gameLog
      ensures Valid()
      ensures variant == ColumnDrop && !old(armed) ==>
        && outcome == Unsupported && logged == [] && State() == old(State())
        && gameLog.entries == old(gameLog.entries)
      ensures variant == FreePositioned || old(armed) ==>
        var step := PlayStep(old(State()), firstPlayerName, secondPlayerName, x, y);
        && outcome == Played(step.result) && State() == step.next && HoldAll(logged, step.records)
        && gameLog.entries == AddedAll(old(gameLog.entries), logged)
      ensures RoundsPlayed(old(gameLog.entries), old(playedRounds)) ==>
        gameLog.entries == old(gameLog.entries) + logged && RoundsPlayed(gameLog.entries, playedRounds)
      ensures entriesPerColumn == old(entriesPerColumn)
    {
      if variant == ColumnDrop {
        if !armed {
          return Unsupported, [];
        }
        ghost var s0 := State();
        armed := false;
        assert State() == s0;
      }
      var r;
      r, logged := Play(x, y);
      outcome := Played(r);
    }

    /**
     * `play(x)`: unsupported in the free-positioned game, changing nothing;
     * in the column-drop game, arms the flag, counts the drop and plays
     * the cell the counter names, leaving the flag down.
     */
    method PlayColumn(x: int) returns (outcome: Outcome, ghost logged: seq<GameLogEntry>)
      requires Valid()
      modifies this, field, gameLog
      ensures Valid()
      ensures variant == FreePositioned ==>
        && outcome == Unsupported && logged == [] && State() == old(State())
        && gameLog.entries == old(gameLog.entries) && entriesPerColumn == old(entriesPerColumn)
      ensures variant == ColumnDrop ==>
        var target := Height - DropsInto(old(entriesPerColumn), x);
        var step := PlayStep(old(State()), firstPlayerName, secondPlayerName, x, target);
        && outcome == Played(step.result) && State() == step.next && HoldAll(logged, step.records)
        && gameLog.entries == AddedAll(old(gameLog.entries), logged)
        && entriesPerColumn == old(entriesPerColumn)[x := DropsInto(old(entriesPerColumn), x) + 1]
      ensures RoundsPlayed(old(gameLog.entries), old(playedRounds)) ==>
        gameLog.entries == old(gameLog.entries) + logged && RoundsPlayed(gameLog.entries, playedRounds)
    {
      if variant == FreePositioned {
        return Unsupported, [];
      }
      ghost var s0, log0 := State(), gameLog.entries;
      ghost var target := Height - DropsInto(entriesPerColumn, x);
      outcome, logged := Drop(x);
      PlayStepConsistent(s0, firstPlayerName, secondPlayerName, x, target);
      if RoundsPlayed(log0, s0.playedRounds) {
        LoggedAppends(s0, firstPlayerName, secondPlayerName, x, target, log0, logged);
      }
    }

    /** The column-drop `play(x)`: arm the flag, count the drop, play the cell the counter names. */
    method Drop(x: int) returns (outcome: Outcome, ghost logged: seq<GameLogEntry>)
      requires Valid() && variant == ColumnDrop
      modifies this, field, gameLog
      ensures Coupled() && !armed
      ensures var target := Height - DropsInto(old(entriesPerColumn), x);
        var step := PlayStep(old(State()), firstPlayerName, secondPlayerName, x, target);
        && outcome == Played(step.result) && State() == step.next && HoldAll(logged, step.records)
        && gameLog.entries == AddedAll(old(gameLog.entries), logged)
        && entriesPerColumn == old(entriesPerColumn)[x := DropsInto(old(entriesPerColumn), x) + 1]
    {
      ghost var s0 := State();
      ghost var log0 := gameLog.entries;
      ghost var target := Height - DropsInto(entriesPerColumn, x);
      armed := true;
      var y := NextAvailablePosition(x);
      assert State() == s0 && gameLog.entries == log0 && y == target;
      outcome, logged := PlayCell(x, y);
    }

    /** The rendered grid: with details a column-number header and row numbers, lines joined by the separator. */
    method GetCurrentField(fullDetails: bool) returns (s: string)
      requires Coupled()
      ensures s == Join(FieldLines(board, fullDetails), LineSeparator)
    {
      var builder := "";
      if fullDetails {
        builder := HeaderLine();
      }
      ghost var head := builder;
      ghost var b := board;
      assert builder == head + RenderedRows(b, fullDetails, 0);
      for c := 1 to Height + 1
        invariant builder == head + RenderedRows(b, fullDetails, c - 1)
      {
        ghost var before := builder;
        var row := GetRow(c - 1);
        if fullDetails {
          builder := builder + IntToString(c);
        }
        builder := builder + "[" + row + "]";
        ghost var line := RowLine(b, c - 1, fullDetails);
        RowAppended(before, builder, fullDetails, c, row, line);
        if c != Height {
          builder := builder + LineSeparator;
        }
        ghost var tail := if c != Height then LineSeparator else "";
        AppendRegroup(head, RenderedRows(b, fullDetails, c - 1), line, tail);
        RenderedRowsStep(b, fullDetails, c - 1);
      }
      RenderedField(b, fullDetails);
      s := builder;
    }

    /** The first line with details: two spaces, the column numbers 1 to 7, the separator. */
    static method HeaderLine() returns (line: string)
      ensures line == Header + LineSeparator
    {
      line := "  ";
      for c := 1 to Width + 1
        invariant line == "  " + ColumnNumbers(c - 1)
      {
        line := line + IntToString(c);
      }
      ColumnHeader();
      line := line + LineSeparator;
    }

    /** Row `y` of the grid, left to right. */
    function GetRow(y: int): (row: string)
      requires Coupled() && 0 <= y < Height
      reads this, field
      ensures row == RowText(board, y)
    {
      seq(Width, x requires 0 <= x < Width reads field => field[y, x])
    }

    /** `toString`: the grid without the header and the row numbers. */
    method ToString() returns (s: string)
      requires Coupled()
      ensures s == Join(FieldLines(board, false), LineSeparator)
    {
      s := GetCurrentField(false);
    }
  }

  /** The column numbers 1..n run together. */
  function ColumnNumbers(n: nat): string {
    if n == 0 then "" else ColumnNumbers(n - 1) + IntToString(n)
  }

  lemma ColumnHeader()
    ensures "  " + ColumnNumbers(Width) == Header
  {
    forall n | 1 <= n <= Width
      ensures ColumnNumbers(n) == ColumnNumbers(n - 1) + ["0123456789"[n]]
    {
      SingleDigit(n);
    }
  }

  lemma SingleDigit(n: nat)
    requires n < 10
    ensures IntToString(n) == ["0123456789"[n]]
  {
  }

  /** The first `n` row lines joined, with the separator that follows them while rows remain. */
  function RenderedRows(b: seq<char>, fullDetails: bool, n: int): string
    requires IsBoard(b) && 0 <= n <= Height
  {
    Join(FieldRows(b, fullDetails)[..n], LineSeparator) + (if 0 < n < Height then LineSeparator else "")
  }

  lemma RenderedRowsStep(b: seq<char>, fullDetails: bool, n: int)
    requires IsBoard(b) && 0 <= n < Height
    ensures RenderedRows(b, fullDetails, n + 1)
         == RenderedRows(b, fullDetails, n) + RowLine(b, n, fullDetails)
            + (if n + 1 != Height then LineSeparator else "")
  {
    var rows := FieldRows(b, fullDetails);
    assert rows[..n + 1] == rows[..n] + [rows[n]];
    if n > 0 {
      JoinAppend(rows[..n], rows[n], LineSeparator);
    }
  }

  lemma RenderedField(b: seq<char>, fullDetails: bool)
    requires IsBoard(b)
    ensures (if fullDetails then Header + LineSeparator else "") + RenderedRows(b, fullDetails, Height)
         == Join(FieldLines(b, fullDetails), LineSeparator)
  {
    var rows := FieldRows(b, fullDetails);
    assert rows[..Height] == rows;
    if fullDetails {
      assert ([Header] + rows)[1..] == rows;
    } else {
      assert [] + rows == rows;
    }
  }

  lemma AppendRegroup(a: string, b: string, c: string, d: string)
    ensures a + b + c + d == a + (b + c + d)
  {
  }

  lemma RowAppended(before: string, after: string, fullDetails: bool, c: int, row: string, line: string)
    requires after == (if fullDetails then before + IntToString(c) else before) + "[" + row + "]"
    requires line == (if fullDetails then IntToString(c) else "") + "[" + row + "]"
    ensures after == before + line
  {
  }

  /** Entries that match records stay matched when one more matching pair is put in front. */
  lemma HoldAllPrepend(e: GameLogEntry, es: seq<GameLogEntry>, r: Record, rs: seq<Record>)
    requires Holds(e, r) && HoldAll(es, rs)
    ensures HoldAll([e] + es, [r] + rs)
  {
  }

  /** Every entry of the log belongs to a round already played (or to none, round -1). */
  predicate RoundsPlayed(log: seq<GameLogEntry>, playedRounds: int) {
    forall i | 0 <= i < |log| :: log[i].roundNumber <= playedRounds
  }

  /**
   * A log that holds only rounds already played (as one written by the
   * engine alone does) accepts every entry a call offers: it grows by
   * exactly those entries, one per record and in order, and afterwards
   * still holds only rounds played.
   */
  lemma LoggedAppends(s: GameState, firstName: string, secondName: string, x: int, y: int,
                      log: seq<GameLogEntry>, logged: seq<GameLogEntry>)
    requires Consistent(s) && RoundsPlayed(log, s.playedRounds)
    requires HoldAll(logged, PlayStep(s, firstName, secondName, x, y).records)
    ensures AddedAll(log, logged) == log + logged
    ensures |logged| == |PlayStep(s, firstName, secondName, x, y).records|
    ensures RoundsPlayed(log + logged, PlayStep(s, firstName, secondName, x, y).next.playedRounds)
  {
    var step := PlayStep(s, firstName, secondName, x, y);
    StepRecordRounds(s, firstName, secondName, x, y);
    assert FreshDefaultRounds(log, logged);
    AddedAllAppends(log, logged);
  }
}
