/**
 * The rules of one `play(x, y)` call as a function on game-state values.
 * The engine class performs this step in place; here the step is stated
 * once, as a value, so that what it promises can be proved as lemmas.
 * Coordinates are 1-based, as callers pass them.
 */
module Rules {
  import opened Text
  import opened Board
  import opened Results
  import opened LogEntry

  datatype Player = P1 | P2
  {
    function Other(): Player {
      if P1? then P2 else P1
    }

    function Color(): char {
      if P1? then PlayerOneColor else PlayerTwoColor
    }

    function Number(): int {
      if P1? then 1 else 2
    }
  }

  /** The observable state of a game; the board is the row-by-row view of the grid. */
  datatype GameState = GameState(board: seq<char>, playedRounds: int, current: Player, draw: bool, gameOver: bool)

  /** The content of one log entry, as a value. */
  datatype Record = Record(title: RoundTitle, roundNumber: int, playerNumber: int, message: string, valid: bool)

  /** What one call does: the next state, the returned result, the entries it asks the log to add. */
  datatype Step = Step(next: GameState, result: RoundResult, records: seq<Record>)

  const AlreadyOverMessage: string := "Game is already over!"
  const DrawMessage: string := "Draw, nobody won!"

  function OutOfRangeMessage(x: int, y: int): string {
    "Chosen position (" + IntToString(x) + ", " + IntToString(y) + ") is not in range!"
  }

  function TakenMessage(x: int, y: int): string {
    "Chosen position (" + IntToString(x) + ", " + IntToString(y) + ") is already taken!"
  }

  function PlacedMessage(x: int, y: int, name: string): string {
    "Position (" + IntToString(x) + ", " + IntToString(y) + ") belongs now to player " + name
  }

  function WonMessage(name: string): string {
    "Player " + name + " has won the game!"
  }

  function NameOf(p: Player, firstName: string, secondName: string): string {
    if p == P1 then firstName else secondName
  }

  /** An empty 6 x 7 board. */
  function EmptyBoard(): (b: seq<char>)
    ensures IsBoard(b)
  {
    seq(Width * Height, _ => EmptyChar)
  }

  function InitialState(): GameState {
    GameState(EmptyBoard(), 0, P1, false, false)
  }

  /** An invalid attempt: state unchanged, one invalid entry (round -1) for the player to move. */
  function Rejected(s: GameState, name: string, message: string): Step {
    Step(s, RoundResult(Some(name), Some(message), false), [Record(Invalid, -1, s.current.Number(), message, false)])
  }

  /**
   * `play(x, y)`: the game-over guard, then range, then occupancy; on
   * success the piece is placed, the round counted and logged (`Marked`),
   * and the round settled (`Settled`).
   */
  function PlayStep(s: GameState, firstName: string, secondName: string, x: int, y: int): Step
    requires IsBoard(s.board)
  {
    if s.gameOver then Step(s, Unattributed(Some(AlreadyOverMessage), false), [])
    else
      var name := NameOf(s.current, firstName, secondName);
      if !InRange(x - 1, y - 1) then Rejected(s, name, OutOfRangeMessage(x, y))
      else if s.board[CellIndex(x - 1, y - 1)] != EmptyChar then Rejected(s, name, TakenMessage(x, y))
      else Placed(s, name, x, y)
  }

  /** A valid placement: the piece lands and is logged as a default entry, then the round is settled. */
  function Placed(s: GameState, name: string, x: int, y: int): Step
    requires IsBoard(s.board) && InRange(x - 1, y - 1)
  {
    var m := Marked(s, x, y);
    var settled := Settled(m, name, x, y);
    var placed := Record(Default, m.playedRounds, s.current.Number(), PlacedMessage(x, y, name), true);
    Step(settled.next, settled.result, [placed] + settled.records)
  }

  /** The mover's colour written into cell (x, y), one more round counted. */
  function Marked(s: GameState, x: int, y: int): GameState
    requires IsBoard(s.board) && InRange(x - 1, y - 1)
  {
    s.(board := s.board[CellIndex(x - 1, y - 1) := s.current.Color()], playedRounds := s.playedRounds + 1)
  }

  /**
   * After the piece landed: a win is looked for only after round 6 (the
   * game ends, the turn stays), then a draw at round 42 (the game ends,
   * no player named), and otherwise the turn passes with the placement
   * message as the result.
   */
  function Settled(m: GameState, name: string, x: int, y: int): Step
    requires IsBoard(m.board)
  {
    if m.playedRounds > MinRounds && Wins(m.board, m.current.Color(), x - 1, y - 1) then
      var message := WonMessage(name);
      Step(m.(gameOver := true), RoundResult(Some(name), Some(message), true), [Record(GameOver, -1, 0, message, true)])
    else if m.playedRounds == MaxRounds then
      Step(m.(draw := true, gameOver := true), Unattributed(Some(DrawMessage), true), [Record(Draw, -1, 0, DrawMessage, true)])
    else
      Step(m.(current := m.current.Other()), RoundResult(Some(name), Some(PlacedMessage(x, y, name)), true), [])
  }

  // ----- the state invariant -----

  predicate IsCellValue(ch: char) {
    ch == EmptyChar || ch == PlayerOneColor || ch == PlayerTwoColor
  }

  /**
   * What every reachable state satisfies: cells hold only the three
   * markers, the pieces on the board are the rounds played, player one
   * is one piece ahead exactly when player two is to move (or when
   * player one made the final move), a draw is a full board.
   */
  predicate Consistent(s: GameState) {
    && IsBoard(s.board)
    && (forall k | 0 <= k < |s.board| :: IsCellValue(s.board[k]))
    && 0 <= s.playedRounds <= MaxRounds
    && Count(s.board, PlayerOneColor) + Count(s.board, PlayerTwoColor) == s.playedRounds
    && Count(s.board, PlayerOneColor)
       == Count(s.board, PlayerTwoColor) + (if (s.current == P2) != s.gameOver then 1 else 0)
    && (s.draw ==> s.gameOver && s.playedRounds == MaxRounds)
    && (!s.gameOver ==> s.playedRounds < MaxRounds)
  }

  lemma InitialConsistent()
    ensures Consistent(InitialState())
  {
    var b := EmptyBoard();
    assert Owned(b, PlayerOneColor) == {};
    assert Owned(b, PlayerTwoColor) == {};
    CountOwned(b, PlayerOneColor);
    CountOwned(b, PlayerTwoColor);
  }

  /** Placing `c` on an empty cell adds that cell to `c`'s pieces and leaves every other colour's alone. */
  lemma OwnedAfterPlace(b: seq<char>, k: int, c: char, other: char)
    requires 0 <= k < |b| && b[k] == EmptyChar && c != EmptyChar && other != c && other != EmptyChar
    ensures Owned(b[k := c], c) == Owned(b, c) + {k} && k !in Owned(b, c)
    ensures |Owned(b[k := c], c)| == |Owned(b, c)| + 1
    ensures Owned(b[k := c], other) == Owned(b, other)
  {
  }

  /** Every call keeps the invariant. */
  lemma PlayStepConsistent(s: GameState, firstName: string, secondName: string, x: int, y: int)
    requires Consistent(s)
    ensures Consistent(PlayStep(s, firstName, secondName, x, y).next)
  {
    if !s.gameOver && InRange(x - 1, y - 1) && s.board[CellIndex(x - 1, y - 1)] == EmptyChar {
      PlacedConsistent(s, NameOf(s.current, firstName, secondName), x, y);
    }
  }

  /** A valid placement keeps the invariant. */
  lemma PlacedConsistent(s: GameState, name: string, x: int, y: int)
    requires Consistent(s) && !s.gameOver
    requires InRange(x - 1, y - 1) && s.board[CellIndex(x - 1, y - 1)] == EmptyChar
    ensures Consistent(Placed(s, name, x, y).next)
  {
    var k := CellIndex(x - 1, y - 1);
    var color := s.current.Color();
    var other := s.current.Other().Color();
    OwnedAfterPlace(s.board, k, color, other);
    var m := Marked(s, x, y);
    CountOwned(s.board, color);
    CountOwned(s.board, other);
    CountOwned(m.board, color);
    CountOwned(m.board, other);
    assert forall j | 0 <= j < |m.board| :: IsCellValue(m.board[j]);
    SettledConsistent(m, name, x, y);
  }

  /**
   * Whichever way a marked round is settled, the invariant holds again:
   * the mover is one piece ahead until the turn passes or the game ends.
   */
  lemma SettledConsistent(m: GameState, name: string, x: int, y: int)
    requires IsBoard(m.board) && (forall k | 0 <= k < |m.board| :: IsCellValue(m.board[k]))
    requires 0 < m.playedRounds <= MaxRounds && !m.gameOver && !m.draw
    requires Count(m.board, PlayerOneColor) + Count(m.board, PlayerTwoColor) == m.playedRounds
    requires Count(m.board, PlayerOneColor)
      == Count(m.board, PlayerTwoColor) + (if m.current == P1 then 1 else 0)
    ensures Consistent(Settled(m, name, x, y).next)
  {
  }

  // ----- what one call does -----

  /** After the game is over a call returns the fixed message, logs nothing and changes nothing. */
  lemma PlayAfterGameOver(s: GameState, firstName: string, secondName: string, x: int, y: int)
    requires IsBoard(s.board) && s.gameOver
    ensures var step := PlayStep(s, firstName, secondName, x, y);
      && step.next == s && step.records == []
      && step.result == RoundResult(None, Some(AlreadyOverMessage), false)
  {
  }

  /**
   * A target off the board, or else an occupied one, is rejected: the
   * state stays as it was and exactly one invalid entry (round -1, the
   * number of the player still to move) is logged.
   */
  lemma RejectedPlay(s: GameState, firstName: string, secondName: string, x: int, y: int)
    requires IsBoard(s.board) && !s.gameOver
    requires !InRange(x - 1, y - 1) || s.board[CellIndex(x - 1, y - 1)] != EmptyChar
    ensures var step := PlayStep(s, firstName, secondName, x, y);
      var message := if !InRange(x - 1, y - 1) then OutOfRangeMessage(x, y) else TakenMessage(x, y);
      && step.next == s
      && step.result == RoundResult(Some(NameOf(s.current, firstName, secondName)), Some(message), false)
      && step.records == [Record(Invalid, -1, s.current.Number(), message, false)]
  {
  }

  /**
   * A valid placement writes the mover's colour into exactly the chosen,
   * previously empty cell, counts one more round and logs a default entry
   * numbered with that round first.
   */
  lemma PlacementEffect(s: GameState, firstName: string, secondName: string, x: int, y: int)
    requires IsBoard(s.board) && !s.gameOver
    requires InRange(x - 1, y - 1) && s.board[CellIndex(x - 1, y - 1)] == EmptyChar
    ensures var step := PlayStep(s, firstName, secondName, x, y);
      var k := CellIndex(x - 1, y - 1);
      && |step.next.board| == |s.board|
      && step.next.board[k] == s.current.Color() != EmptyChar
      && (forall j | 0 <= j < |s.board| && j != k :: step.next.board[j] == s.board[j])
      && step.next.playedRounds == s.playedRounds + 1
      && 1 <= |step.records| <= 2
      && step.records[0] == Record(Default, s.playedRounds + 1, s.current.Number(),
                                   PlacedMessage(x, y, NameOf(s.current, firstName, secondName)), true)
      && step.result.valid
  {
  }

  /** Cells are never emptied or overwritten: a call only fills an empty cell. */
  lemma PiecesStay(s: GameState, firstName: string, secondName: string, x: int, y: int, k: int)
    requires IsBoard(s.board) && 0 <= k < |s.board| && s.board[k] != EmptyChar
    ensures PlayStep(s, firstName, secondName, x, y).next.board[k] == s.board[k]
  {
  }

  /**
   * Skipping the win check up to round 6 loses nothing: the mover then
   * has at most three pieces, so in a consistent state a placement wins
   * exactly when the new piece completes four in a row.
   */
  lemma ThresholdIsSound(s: GameState, x: int, y: int)
    requires Consistent(s) && !s.gameOver
    requires InRange(x - 1, y - 1) && s.board[CellIndex(x - 1, y - 1)] == EmptyChar
    ensures var color := s.current.Color();
      var board := s.board[CellIndex(x - 1, y - 1) := color];
      (s.playedRounds + 1 > MinRounds && Wins(board, color, x - 1, y - 1)) <==> Wins(board, color, x - 1, y - 1)
  {
    var k := CellIndex(x - 1, y - 1);
    var color := s.current.Color();
    var board := s.board[k := color];
    OwnedAfterPlace(s.board, k, color, s.current.Other().Color());
    CountOwned(s.board, PlayerOneColor);
    CountOwned(s.board, PlayerTwoColor);
    if s.playedRounds + 1 <= MinRounds {
      assert |Owned(board, color)| < WinAmount;
      FewPiecesNoWin(board, color, x - 1, y - 1);
    }
  }

  /**
   * Outcome of a valid placement in a consistent state: the mover wins
   * exactly when the new piece lies on a line of four (the game ends, not
   * as a draw, and the turn stays); otherwise the 42nd round is a draw
   * (the game ends, no player is named); otherwise the turn passes.
   */
  lemma PlacementOutcome(s: GameState, firstName: string, secondName: string, x: int, y: int)
    requires Consistent(s) && !s.gameOver
    requires InRange(x - 1, y - 1) && s.board[CellIndex(x - 1, y - 1)] == EmptyChar
    ensures var step := PlayStep(s, firstName, secondName, x, y);
      var color := s.current.Color();
      var name := NameOf(s.current, firstName, secondName);
      var won := exists d | 0 <= d < 4 :: LineOfFour(step.next.board, color, x - 1, y - 1, Directions[d].0, Directions[d].1);
      && (won ==>
            && step.next.gameOver && !step.next.draw && step.next.current == s.current
            && step.result == RoundResult(Some(name), Some(WonMessage(name)), true)
            && step.records[1..] == [Record(GameOver, -1, 0, WonMessage(name), true)])
      && (!won && step.next.playedRounds == MaxRounds ==>
            && step.next.gameOver && step.next.draw && step.next.current == s.current
            && step.result == RoundResult(None, Some(DrawMessage), true)
            && step.records[1..] == [Record(Draw, -1, 0, DrawMessage, true)])
      && (!won && step.next.playedRounds < MaxRounds ==>
            && !step.next.gameOver && !step.next.draw && step.next.current == s.current.Other()
            && step.result == RoundResult(Some(name), Some(PlacedMessage(x, y, name)), true)
            && step.records[1..] == [])
  {
    var color := s.current.Color();
    var board := s.board[CellIndex(x - 1, y - 1) := color];
    ThresholdIsSound(s, x, y);
    WinIffLine(board, color, x - 1, y - 1);
  }

  /** The turn passes exactly on a valid placement that does not end the game. */
  lemma TurnPassesOnlyOnValidPlacement(s: GameState, firstName: string, secondName: string, x: int, y: int)
    requires Consistent(s)
    ensures var step := PlayStep(s, firstName, secondName, x, y);
      step.next.current != s.current <==> step.result.valid && !step.next.gameOver
  {
  }

  /** A finished game stays finished, and draw and game-over are never reset. */
  lemma LatchesStay(s: GameState, firstName: string, secondName: string, x: int, y: int)
    requires Consistent(s)
    ensures var next := PlayStep(s, firstName, secondName, x, y).next;
      && (s.gameOver ==> next.gameOver) && (s.draw ==> next.draw)
      && next.playedRounds >= s.playedRounds
  {
  }

  /**
   * The round numbers a call logs: only its first record can be a default
   * one, numbered with the round the call plays; every other record has
   * round -1.
   */
  lemma StepRecordRounds(s: GameState, firstName: string, secondName: string, x: int, y: int)
    requires IsBoard(s.board)
    ensures var step := PlayStep(s, firstName, secondName, x, y);
      && |step.records| <= 2
      && (forall j | 0 <= j < |step.records| && step.records[j].title == Default ::
            j == 0 && step.records[j].roundNumber == s.playedRounds + 1 == step.next.playedRounds)
      && (forall j | 0 <= j < |step.records| && step.records[j].title != Default :: step.records[j].roundNumber == -1)
      && step.next.playedRounds >= s.playedRounds
  {
  }

  // ----- a full board -----

  lemma {:induction false} OwnedSplit(b: seq<char>, n: int)
    requires 0 <= n <= |b| && forall k | 0 <= k < |b| :: IsCellValue(b[k])
    ensures |set k | 0 <= k < n && b[k] == EmptyChar| + |set k | 0 <= k < n && b[k] == PlayerOneColor|
            + |set k | 0 <= k < n && b[k] == PlayerTwoColor| == n
    decreases n
  {
    if n > 0 {
      OwnedSplit(b, n - 1);
      PrefixOwnedStep(b, n, EmptyChar);
      PrefixOwnedStep(b, n, PlayerOneColor);
      PrefixOwnedStep(b, n, PlayerTwoColor);
    }
  }

  /** The pieces of the three kinds partition the 42 cells. */
  lemma OwnedPartition(b: seq<char>)
    requires IsBoard(b) && forall k | 0 <= k < |b| :: IsCellValue(b[k])
    ensures |Owned(b, EmptyChar)| + |Owned(b, PlayerOneColor)| + |Owned(b, PlayerTwoColor)| == MaxRounds
  {
    OwnedSplit(b, |b|);
  }

  /** In a consistent state, 42 rounds have been played exactly when no cell is empty. */
  lemma FullIffMaxRounds(s: GameState)
    requires Consistent(s)
    ensures s.playedRounds == MaxRounds <==> EmptyChar !in s.board
  {
    OwnedPartition(s.board);
    CountOwned(s.board, PlayerOneColor);
    CountOwned(s.board, PlayerTwoColor);
    if EmptyChar in s.board {
      var k :| 0 <= k < |s.board| && s.board[k] == EmptyChar;
      assert k in Owned(s.board, EmptyChar);
    } else {
      assert Owned(s.board, EmptyChar) == {};
    }
  }

  /** A draw is declared only on a full board with no line of four through the last piece. */
  lemma DrawMeansFullBoard(s: GameState, firstName: string, secondName: string, x: int, y: int)
    requires Consistent(s) && !s.gameOver
    requires PlayStep(s, firstName, secondName, x, y).next.draw
    ensures var next := PlayStep(s, firstName, secondName, x, y).next;
      EmptyChar !in next.board && !Wins(next.board, s.current.Color(), x - 1, y - 1)
  {
    PlayStepConsistent(s, firstName, secondName, x, y);
    FullIffMaxRounds(PlayStep(s, firstName, secondName, x, y).next);
  }
}
