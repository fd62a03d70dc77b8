# Connect Four engine — a verified Dafny model

This project models the rules engine of a two-player Connect Four game.

**The board.** A 6 × 7 grid of characters: `' '` for an empty cell, `'r'` for player one, `'y'` for player two. Coordinates passed to `play` are 1-based: column x in 1..7, row y in 1..6, with row 1 at the top.

**A round.** A call to `play(x, y)` checks three guards in order:

1. The game is already over.
2. The target is off the board.
3. The target is occupied.

If all three pass, the call:

- places the mover's piece;
- counts the round;
- offers a default entry to the log.

It then settles the round, checking in this order:

1. A win, looked for only after round 6.
2. A draw, at round 42.
3. Otherwise the turn passes.

A win is four of the mover's pieces in a row in one of four 7-cell windows centred on the new piece: the row, the column and the two diagonals.

**The two variants.**

- The column-drop game (`DefaultConnect4`) accepts only `play(x)`. It counts drops per column, targets row `6 - drops so far`, and plays that cell through a one-shot flag.
- The free-positioned game accepts only `play(x, y)`.

**The log.** The engine offers entries to an ordered game log:

- a refused call offers one `INVALID` entry;
- a placement offers a default (round) entry, then a `GAME_OVER` or `DRAW` entry if the round ends the game;
- a call after the game is over, or one the variant does not support, offers nothing.

The log refuses a default entry whose round number is already present. A log that the engine alone has written never refuses one, because every round number it holds is at most the rounds played.

A default or `INVALID` entry renders as `[label] [Player N]: message`, and any other entry as `[label] message`. The log renders as those texts joined by line separators.

**Modules.**

- `Text`: decimal rendering of integers, `%02d` padding, joining and splitting lines.
- `Board`: constants, cell addressing, the win windows and runs, counting pieces, and rendering the grid.
- `Results`: the `RoundResult` value.
- `LogEntry`: `RoundTitle`, and `GameLogEntry` as an object with constant fields.
- `LogEntryBuilder`: the mutable builder class.
- `Log`: the `GameLog` class, over a `seq` field that its mutators reassign, with its specification functions.
- `Rules`: one call of `play(x, y)` as a pure function `PlayStep` on game-state values. It has the state invariant `Consistent` and the lemmas about a step.
- `Game`: the `Connect4` engine class. It holds the grid as an `array2<char>` updated in place, the counters and latches, the per-column drop map, the column-drop flag and the log. Every method that plays is proved to do exactly what `PlayStep` says, on the grid, the fields and the log.
- `Scenarios`: move sequences folded through `PlayStep`. These are the first drop, a column overflow, a retry of a taken cell, a vertical win, and a bottom row filled between two off-board calls, with the nine records it logs.

## Model

Paths are relative to the repository root.

| member | source | states |
|---|---|---|
| Board.MatrixOffsets | src/main/java/tk/dmanstrator/connectfour/Connect4.java:26-43 | window d lists the cells -3..3 steps along direction d (row, column, two diagonals), in order |
| Board.CellIndexInjective | src/main/java/tk/dmanstrator/connectfour/Connect4.java:321-323 | two on-board cells share a position in the row-by-row view iff they are the same cell |
| Board.ColorAt | src/main/java/tk/dmanstrator/connectfour/Connect4.java:483-490 | an off-board cell reads as empty, an on-board cell as its content |
| Board.Window | src/main/java/tk/dmanstrator/connectfour/Connect4.java:457-461 | the window's i-th cell is the colour at the i-th offset from the centre, off-board cells empty |
| Board.MaxRunIsLongest | src/main/java/tk/dmanstrator/connectfour/Connect4.java:457-470 | a run of the longest-run length occurs in the window, and no longer run does |
| Board.HasRunIffMaxRun | src/main/java/tk/dmanstrator/connectfour/Connect4.java:438-447 | a run of n cells exists iff the longest run is at least n, so `hits >= 4` means four in a row |
| Board.RunContainsCentre | src/main/java/tk/dmanstrator/connectfour/Connect4.java:26-43 | in a 7-cell window every run of four or more covers the centre cell |
| Board.WindowIffLine | src/main/java/tk/dmanstrator/connectfour/Connect4.java:438-490 | a window holds four in a row iff four on-board cells of the colour lie in a line through the centre along that direction |
| Board.WinIffLine | src/main/java/tk/dmanstrator/connectfour/Connect4.java:438-447 | the win check holds iff, in some direction, there is a line of four through the last cell |
| Board.WinThroughPiece | src/main/java/tk/dmanstrator/connectfour/Connect4.java:438-447 | a reported win includes the cell just played, which holds the winner's colour |
| Board.FewPiecesNoWin | src/main/java/tk/dmanstrator/connectfour/Connect4.java:184-185 | a colour with fewer than four pieces never wins, so skipping the check is safe |
| Board.LineNeedsFourPieces | src/main/java/tk/dmanstrator/connectfour/Connect4.java:24 | a line of four occupies four distinct cells, so its owner has at least four pieces |
| Board.RowText | src/main/java/tk/dmanstrator/connectfour/Connect4.java:250 | the row text is 7 characters and its x-th character is cell (x, y) |
| Board.FieldRows | src/main/java/tk/dmanstrator/connectfour/Connect4.java:249-265 | six row lines, top to bottom, each the row number (with details), `[`, the row, `]` |
| Board.FieldLines | src/main/java/tk/dmanstrator/connectfour/Connect4.java:239-267 | seven lines with details (the header first), six without |
| Board.RenderedCell | src/main/java/tk/dmanstrator/connectfour/Connect4.java:239-267 | splitting the rendered grid at line breaks gives 6 or 7 lines of fixed width, and cell (x, y) is read back at its place in row y's line |
| Board.FieldLinesUnbroken | src/main/java/tk/dmanstrator/connectfour/Connect4.java:241-263 | no rendered line contains a line break |
| Text.NatToString | src/main/java/tk/dmanstrator/connectfour/Connect4.java:163-164 | decimal digits only, no leading zero, a single digit iff the number is below 10 |
| Text.ParseNatToString | src/main/java/tk/dmanstrator/connectfour/Connect4.java:163-164 | reading the digits back gives the number (round trip) |
| Text.IntToString | src/main/java/tk/dmanstrator/connectfour/Connect4.java:163-164 | a `%d` rendering starts with a minus sign iff the number is negative |
| Text.IntToStringParses | src/main/java/tk/dmanstrator/connectfour/Connect4.java:163-164 | after any sign, the digits read back as the absolute value |
| Text.Pad2 | src/main/java/tk/dmanstrator/connectfour/log/GameLogEntry.java:145-147 | `%02d`: at least two characters, exactly two for 0..99, and the digits read back as the number; a number from 10 up, or a negative one, renders exactly as `%d` |
| Text.IndexOf | src/main/java/tk/dmanstrator/connectfour/log/GameLog.java:43-45 | the position of the first occurrence |
| Text.JoinAppend | src/main/java/tk/dmanstrator/connectfour/log/GameLog.java:142-146 | joining one more item adds one separator and that item |
| Text.JoinLength | src/main/java/tk/dmanstrator/connectfour/log/GameLog.java:142-146 | the joined length is the items' lengths plus one separator between each pair of neighbours, none trailing |
| Text.SplitJoin | src/main/java/tk/dmanstrator/connectfour/log/GameLog.java:142-146 | splitting the joined lines gives the lines back, when none contains the separator |
| Results.RoundResult.ToString | src/main/java/tk/dmanstrator/connectfour/RoundResult.java:65-67 | the text is the fixed prefix followed by the message, which can be read back; a `null` message prints `Result of Round: null` |
| Results.Unattributed | src/main/java/tk/dmanstrator/connectfour/RoundResult.java:20-22 | the two-argument result names no player, with the message (possibly `null`) and validity given |
| Results.ToStringInjective | src/main/java/tk/dmanstrator/connectfour/RoundResult.java:65-67 | two results have the same text iff their messages print the same; two present messages print the same iff they are equal, and a `null` message prints like the message `null` |
| LogEntry.TitleTable | src/main/java/tk/dmanstrator/connectfour/log/GameLogEntry.java:19-39 | exactly DEFAULT and INVALID are player-attributed; only DEFAULT has a placeholder; the other titles are 8 characters |
| LogEntry.DefaultLabelRoundTrip | src/main/java/tk/dmanstrator/connectfour/log/GameLogEntry.java:145-147 | a default label for rounds 0..99 is `Round ` and two digits that read back as the round |
| LogEntry.LabelsAligned | src/main/java/tk/dmanstrator/connectfour/log/GameLogEntry.java:145-147 | every label the game writes (round -1, or 0..99) is 8 characters wide, except a default one with round -1 |
| LogEntry.GameLogEntry.constructor | src/main/java/tk/dmanstrator/connectfour/log/GameLogEntry.java:87-94 | the fields are the arguments; they are constants, so the entry never changes |
| LogEntry.GameLogEntry.AsString | src/main/java/tk/dmanstrator/connectfour/log/GameLogEntry.java:142-154 | no text iff there is no title; otherwise the text starts with `[label] ` and continues with the player part and the message |
| LogEntry.GameLogEntry.ToString | src/main/java/tk/dmanstrator/connectfour/log/GameLogEntry.java:162-164 | `toString` is the entry's text |
| LogEntry.PlayerAttributedText | src/main/java/tk/dmanstrator/connectfour/log/GameLogEntry.java:149-153 | a DEFAULT or INVALID entry reads `[label] [Player N]: message` |
| LogEntry.UnattributedText | src/main/java/tk/dmanstrator/connectfour/log/GameLogEntry.java:149-153 | any other entry reads `[label] message` |
| LogEntryBuilder.GameLogEntryBuilder.constructor | src/main/java/tk/dmanstrator/connectfour/log/GameLogEntryBuilder.java:12-16 | a new builder has no message and no title, round 0, player 0, and is not valid |
| LogEntryBuilder.GameLogEntryBuilder.SetMessage | src/main/java/tk/dmanstrator/connectfour/log/GameLogEntryBuilder.java:24-27 | sets only the message and returns the same builder |
| LogEntryBuilder.GameLogEntryBuilder.SetTitle | src/main/java/tk/dmanstrator/connectfour/log/GameLogEntryBuilder.java:35-38 | sets only the title and returns the same builder |
| LogEntryBuilder.GameLogEntryBuilder.SetValidRound | src/main/java/tk/dmanstrator/connectfour/log/GameLogEntryBuilder.java:46-49 | sets only the validity and returns the same builder |
| LogEntryBuilder.GameLogEntryBuilder.SetRoundNumber | src/main/java/tk/dmanstrator/connectfour/log/GameLogEntryBuilder.java:57-61 | sets the round number and also forces the validity to true |
| LogEntryBuilder.GameLogEntryBuilder.SetPlayerNumber | src/main/java/tk/dmanstrator/connectfour/log/GameLogEntryBuilder.java:69-72 | sets only the player number and returns the same builder |
| LogEntryBuilder.GameLogEntryBuilder.Build | src/main/java/tk/dmanstrator/connectfour/log/GameLogEntryBuilder.java:78-80 | a new entry holding the builder's current values |
| Log.FindRound | src/main/java/tk/dmanstrator/connectfour/log/GameLog.java:78-82 | the first position with that round number; none iff no entry has it |
| Log.AcceptsIff | src/main/java/tk/dmanstrator/connectfour/log/GameLog.java:28-35 | an entry is accepted iff it is not a default one, or no entry has its round number |
| Log.AddedAllKeepsRoundsUnique | src/main/java/tk/dmanstrator/connectfour/log/GameLog.java:28-35 | after any additions, no default entry shares its round number with an earlier entry, if none did before |
| Log.AddedAllAppends | src/main/java/tk/dmanstrator/connectfour/log/GameLog.java:28-35 | when every default entry added has a round number new to the log and to the entries before it, every addition is accepted and the log grows by exactly those entries, in order |
| Log.RemoveFirst | src/main/java/tk/dmanstrator/connectfour/log/GameLog.java:43-45 | an absent entry leaves the list as it was; otherwise its first occurrence is cut out and one copy leaves the multiset |
| Log.Filter | src/main/java/tk/dmanstrator/connectfour/log/GameLog.java:154-158 | the kept entries have the requested validity and every such entry is kept |
| Log.FilterAppend | src/main/java/tk/dmanstrator/connectfour/log/GameLog.java:154-158 | filtering keeps the log order: the filter of a concatenation is the concatenation of the filters |
| Log.FilterPartition | src/main/java/tk/dmanstrator/connectfour/log/GameLog.java:106-116 | the valid and the invalid entries partition the log, in size and as multisets |
| Log.FirstOfRoundIsFirstOccurrence | src/main/java/tk/dmanstrator/connectfour/log/GameLog.java:53-55 | the first entry of a round is the first occurrence of that object, so removing it removes that position |
| Log.Texts | src/main/java/tk/dmanstrator/connectfour/log/GameLog.java:143-144 | one text per entry, each the entry's own text |
| Log.Render | src/main/java/tk/dmanstrator/connectfour/log/GameLog.java:142-146 | a rendering exists iff every entry has a title; an empty list renders as the empty text |
| Log.RenderAppend | src/main/java/tk/dmanstrator/connectfour/log/GameLog.java:142-146 | one more entry adds one separator and its text, with no trailing separator |
| Log.RenderLines | src/main/java/tk/dmanstrator/connectfour/log/GameLog.java:142-146 | splitting the rendering at line breaks gives the entries' texts back |
| Log.GameLog.constructor | src/main/java/tk/dmanstrator/connectfour/log/GameLog.java:18 | a new log is empty |
| Log.GameLog.AddEntry | src/main/java/tk/dmanstrator/connectfour/log/GameLog.java:28-35 | returns whether the entry was accepted; the log gains it at the end exactly then |
| Log.GameLog.RemoveEntry | src/main/java/tk/dmanstrator/connectfour/log/GameLog.java:43-45 | returns whether the entry was present; its first occurrence is removed |
| Log.GameLog.RemoveEntryFromRound | src/main/java/tk/dmanstrator/connectfour/log/GameLog.java:53-55 | true iff some entry has the round, and then the first such is removed; false with the log unchanged otherwise |
| Log.GameLog.GetEntry | src/main/java/tk/dmanstrator/connectfour/log/GameLog.java:64-70 | nothing for a negative or too large index, otherwise the entry at that index |
| Log.GameLog.GetEntryFromRound | src/main/java/tk/dmanstrator/connectfour/log/GameLog.java:78-82 | the first entry in log order with the round number; none iff there is none |
| Log.GameLog.GetLastEntry | src/main/java/tk/dmanstrator/connectfour/log/GameLog.java:88-92 | nothing iff the log is empty, otherwise the final entry |
| Log.GameLog.GetEntries | src/main/java/tk/dmanstrator/connectfour/log/GameLog.java:154-158 | exactly the entries of the requested validity, in log order (`Filter`): every kept entry has that validity and every such entry is kept; with the others they make up the whole log |
| Log.GameLog.GetValidEntries | src/main/java/tk/dmanstrator/connectfour/log/GameLog.java:106-108 | the valid entries in log order |
| Log.GameLog.GetInvalidEntries | src/main/java/tk/dmanstrator/connectfour/log/GameLog.java:114-116 | the invalid entries in log order |
| Log.GameLog.GetEntriesAsString | src/main/java/tk/dmanstrator/connectfour/log/GameLog.java:124-126 | the rendering of the filtered entries |
| Log.GameLog.GetAllEntriesAsString | src/main/java/tk/dmanstrator/connectfour/log/GameLog.java:132-134 | the rendering of the whole log |
| Rules.InitialConsistent | src/main/java/tk/dmanstrator/connectfour/Connect4.java:49-71 | a new game satisfies the state invariant |
| Rules.OwnedAfterPlace | src/main/java/tk/dmanstrator/connectfour/Connect4.java:330-332 | filling an empty cell adds exactly that cell to the mover's pieces and leaves the other player's pieces alone |
| Rules.PlayStepConsistent | src/main/java/tk/dmanstrator/connectfour/Connect4.java:150-201 | every call keeps the invariant: cell values, pieces equal rounds played, player one ahead by the turn, a draw only on round 42 |
| Rules.PlacedConsistent | src/main/java/tk/dmanstrator/connectfour/Connect4.java:176-199 | a valid placement keeps the invariant |
| Rules.PlayAfterGameOver | src/main/java/tk/dmanstrator/connectfour/Connect4.java:151-154 | after the game is over a call returns "Game is already over!", invalid and naming no player, logs nothing and changes nothing |
| Rules.RejectedPlay | src/main/java/tk/dmanstrator/connectfour/Connect4.java:161-174 | an off-board target (checked first), else an occupied one, gives an invalid result for the mover and exactly one INVALID entry (round -1, mover's number); nothing else changes |
| Rules.PlacementEffect | src/main/java/tk/dmanstrator/connectfour/Connect4.java:176-182 | a valid placement writes the mover's colour into exactly the chosen empty cell, counts one round and first logs a default entry numbered with the new round |
| Rules.PiecesStay | src/main/java/tk/dmanstrator/connectfour/Connect4.java:169-176 | an occupied cell is never overwritten or emptied |
| Rules.ThresholdIsSound | src/main/java/tk/dmanstrator/connectfour/Connect4.java:184-185 | checking for a win only after round 6 misses no win |
| Rules.PlacementOutcome | src/main/java/tk/dmanstrator/connectfour/Connect4.java:184-200 | a line of four through the new piece ends the game as a win (not a draw, turn kept, GAME_OVER entry); otherwise round 42 is a draw (no player named, DRAW entry); otherwise the turn passes |
| Rules.TurnPassesOnlyOnValidPlacement | src/main/java/tk/dmanstrator/connectfour/Connect4.java:199 | the turn changes iff the round was valid and did not end the game |
| Rules.LatchesStay | src/main/java/tk/dmanstrator/connectfour/Connect4.java:184-197 | game over and draw are never reset, and the round count never decreases |
| Rules.StepRecordRounds | src/main/java/tk/dmanstrator/connectfour/Connect4.java:176-197 | a call offers at most two records; only the first can be a default one, and it carries the new round count; every other record has round -1; the round count never decreases |
| Rules.OwnedPartition | src/main/java/tk/dmanstrator/connectfour/Connect4.java:45-47 | empty cells and the two players' pieces partition the 42 cells |
| Rules.FullIffMaxRounds | src/main/java/tk/dmanstrator/connectfour/Connect4.java:193 | in a consistent state, 42 rounds are played iff no cell is empty |
| Rules.DrawMeansFullBoard | src/main/java/tk/dmanstrator/connectfour/Connect4.java:193-197 | a draw is declared only on a full board without a line of four through the last piece |
| Game.Connect4.constructor | src/main/java/tk/dmanstrator/connectfour/Connect4.java:67-71 | a new game: empty grid, round 0, player one to move, no latches, empty log, no drops counted |
| Game.Connect4.CreateNewField | src/main/java/tk/dmanstrator/connectfour/Connect4.java:284-291 | a new 6 x 7 grid with every cell empty |
| Game.Connect4.CurrentPlayerNumber | src/main/java/tk/dmanstrator/connectfour/Connect4.java:339-343 | with distinct names, 1 when player one is to move and 2 otherwise |
| Game.Connect4.CurrentPlayerColor | src/main/java/tk/dmanstrator/connectfour/Connect4.java:349-353 | with distinct names, `r` for player one and `y` for player two |
| Game.Connect4.UpdatePlayer | src/main/java/tk/dmanstrator/connectfour/Connect4.java:358-362 | the turn goes to the other player |
| Game.Connect4.GetCharAtPosition | src/main/java/tk/dmanstrator/connectfour/Connect4.java:321-323 | the grid cell is the board's cell (x, y) |
| Game.Connect4.GetColorOfField | src/main/java/tk/dmanstrator/connectfour/Connect4.java:483-490 | the colour at the offset cell, empty when it is off the grid |
| Game.Connect4.SetField | src/main/java/tk/dmanstrator/connectfour/Connect4.java:330-332 | exactly that cell becomes the mover's colour |
| Game.Connect4.NextAvailablePosition | src/main/java/tk/dmanstrator/connectfour/Connect4.java:299-303 | returns 6 minus the drops counted before, and counts this drop |
| Game.Connect4.ReturnAndLog | src/main/java/tk/dmanstrator/connectfour/Connect4.java:399-415 | returns the result unchanged; offers the log one new entry with the title, round, the result's message (possibly `null`) and validity, and the mover's number for a player title (0 otherwise) |
| Game.Connect4.GetHitsInOrder | src/main/java/tk/dmanstrator/connectfour/Connect4.java:457-470 | the longest run of the mover's colour in the window: such a run occurs and no longer one does |
| Game.Connect4.CheckGameOver | src/main/java/tk/dmanstrator/connectfour/Connect4.java:438-447 | true iff some window around the cell holds four of the mover's colour in a row |
| Game.Connect4.Play | src/main/java/tk/dmanstrator/connectfour/Connect4.java:150-201 | the grid, fields, result and log change exactly as `PlayStep` says, and the invariant is kept; on a log holding only rounds played, every offered entry is appended in order and the log still holds only rounds played |
| Game.Connect4.Reject | src/main/java/tk/dmanstrator/connectfour/Connect4.java:161-174 | an invalid attempt logs one INVALID entry and changes no game state |
| Game.Connect4.Place | src/main/java/tk/dmanstrator/connectfour/Connect4.java:176-200 | a valid placement as `Placed` describes it: marked, logged, settled |
| Game.Connect4.Mark | src/main/java/tk/dmanstrator/connectfour/Connect4.java:176-182 | the piece lands, the round is counted and a default entry with the new round is offered to the log |
| Game.Connect4.Settle | src/main/java/tk/dmanstrator/connectfour/Connect4.java:184-200 | a win, else a draw, else the turn passes, exactly as `Settled` says |
| Game.Connect4.PlayCell | src/main/java/tk/dmanstrator/connectfour/DefaultConnect4.java:39-45 | in the column-drop game without the flag: unsupported, nothing changes; otherwise the flag is cleared and the call is `PlayStep`, with every offered entry appended to a log holding only rounds played; afterwards the flag is down |
| Game.Connect4.PlayColumn | src/main/java/tk/dmanstrator/connectfour/Connect4.java:137-139 | unsupported in the free-positioned game, changing nothing; in the column-drop game it counts the drop and plays the counted row as `PlayStep`, with every offered entry appended to a log holding only rounds played; the flag is down afterwards |
| Game.Connect4.Drop | src/main/java/tk/dmanstrator/connectfour/DefaultConnect4.java:27-30 | raises the flag, counts the drop and plays cell (x, 6 - earlier drops), leaving the flag down |
| Game.LoggedAppends | src/main/java/tk/dmanstrator/connectfour/Connect4.java:176-199 | on a log holding only rounds already played, the entries a call offers are all accepted: the log becomes the old log followed by one entry per record, and it still holds only rounds played |
| Game.Connect4.GetCurrentField | src/main/java/tk/dmanstrator/connectfour/Connect4.java:239-267 | the rendered lines joined by the separator, none trailing |
| Game.Connect4.HeaderLine | src/main/java/tk/dmanstrator/connectfour/Connect4.java:241-247 | two spaces, the column numbers 1 to 7, then a separator |
| Game.Connect4.GetRow | src/main/java/tk/dmanstrator/connectfour/Connect4.java:250 | the grid's row y, left to right |
| Game.Connect4.ToString | src/main/java/tk/dmanstrator/connectfour/Connect4.java:276-278 | the rendering without header and row numbers |
| Game.ColumnHeader | src/main/java/tk/dmanstrator/connectfour/Connect4.java:242-245 | the header line is `  1234567` |
| Scenarios.Run | src/main/java/tk/dmanstrator/connectfour/Connect4.java:150-201 | playing a move sequence keeps a valid board, and a finished game stays as it is |
| Scenarios.RunConsistent | src/main/java/tk/dmanstrator/connectfour/Connect4.java:150-201 | every state reached from a consistent one by any moves is consistent |
| Scenarios.FirstDropPassesTurn | src/test/java/tk/dmanstrator/connectfour/DefaultConnect4Test.java:23-29 | on a new game, a drop into column 3 lands on the bottom row for player one and passes the turn to player two |
| Scenarios.SeventhDropRejected | src/test/java/tk/dmanstrator/connectfour/DefaultConnect4Test.java:95-100 | after six drops into a column the next targets row 0 and is rejected as out of range |
| Scenarios.TakenCellKeepsTurn | src/test/java/tk/dmanstrator/connectfour/FreePositionedConnect4Test.java:190-201 | player two retrying player one's cell is refused and attributed to player two, who is still to move; their next valid move is logged as player 2 and passes the turn |
| Scenarios.ColumnWin | src/main/java/tk/dmanstrator/connectfour/Connect4.java:184-191 | on round 7, player one playing on top of three of their own pieces in column 1 wins: the game is over, not drawn, and player one keeps the turn |
| Scenarios.QuietRound | src/main/java/tk/dmanstrator/connectfour/Connect4.java:184-199 | before round 7 a valid placement only fills the cell, counts the round and passes the turn |
| Scenarios.VerticalWinEndsGame | src/main/java/tk/dmanstrator/connectfour/Connect4.java:184-191 | four of player one's pieces stacked in column 1 on round 7 end the game as a win, not a draw, with player one still to move |
| Scenarios.RunLog | src/main/java/tk/dmanstrator/connectfour/Connect4.java:150-201 | the records a move sequence logs, call by call; a finished game logs nothing more |
| Scenarios.BottomRowStep | src/main/java/tk/dmanstrator/connectfour/Connect4.java:184-200 | dropping the next piece into the bottom row, alternating players, fills that cell, counts the round, passes the turn and logs only the default entry for that round |
| Scenarios.SeventhPieceNoWin | src/main/java/tk/dmanstrator/connectfour/Connect4.java:184-191 | a bottom row of alternating colours holds no line of four through its last piece, so round 7 is not a win |
| Scenarios.BottomRowRecords | src/main/java/tk/dmanstrator/connectfour/Connect4.java:150-201 | from any point of the bottom row, the remaining drops log one default record per round, followed by the refused off-board call |
| Scenarios.BottomRowLog | src/test/java/tk/dmanstrator/connectfour/Connect4Test.java:73-85 | an off-board call, seven drops along the bottom row and another off-board call log nine records: an `INVALID` one for player one, seven valid default ones for rounds 1 to 7 alternating between the players, and an `INVALID` one for player two |

## Left out

- `System.lineSeparator()` is fixed to `"\n"`.
- Integers are unbounded. The source's counters never come near the 32-bit limit, so wrap-around is not modelled.
- `String.format` is modelled only for the messages the engine builds: `%d`, `%02d` and `%s`.
- A `null` message is `None` and renders as `null`. A `null` title gives no text, where the source throws.
- Player names are never `null`. The source accepts `null` names in its constructor, and its next `play` then throws a `NullPointerException` at `currentPlayerName.equals` (Connect4.java:340, 350, 359). The model has no such failure.
- `GameLog.toString` (GameLog.java:165-168) only returns `getAllEntriesAsString()`, so it has no member of its own; `GetAllEntriesAsString` models it.
- Game.Connect4.Drop: its contract states the log through `AddedAll` only. The corollary that every offered entry is appended is proved for `PlayColumn`, which calls it, via `LoggedAppends`.
- `UnsupportedOperationException` is modelled as the `Unsupported` outcome.
- Players are the values `P1` and `P2`.
  - `Game.Connect4.constructor` requires distinct names. The source compares names with `equals`; with equal names it would always pick player one.
  - `CurrentPlayerNumber`, `CurrentPlayerColor` and `UpdatePlayer` state their result only for distinct names.
- The getters of `RoundResult`, `GameLogEntry` and `Connect4` (names, counters, latches, log) are left out: the fields themselves are the getters. `getEntries()` returns a read-only view; the model reads the `entries` field instead.
- `getCurrentField()` without arguments is `GetCurrentField(true)` and has no member of its own.
- The private `returnAndLog` overloads are left out. They only fill in the `DEFAULT` title, the current round or `-1`. `ReturnAndLog` takes all three arguments, and its callers pass them.
- The draw game of the column-drop tests is not played out move by move. `Rules.DrawMeansFullBoard`, `Rules.FullIffMaxRounds` and `Rules.PlacementOutcome` state what a draw is.
- Game.Connect4.Play: the entries a call adds are named by a ghost output, which is how the log's new content is stated. Allocation facts are left out: that these entries are new objects is not stated, except for `ReturnAndLog`'s single entry.
