/**
 * The staged constructor for log entries. Every setter overwrites one
 * field and returns the builder itself for chaining; setting the round
 * number also marks the round valid, so the validity an entry ends up
 * with is whichever of `SetRoundNumber` and `SetValidRound` ran last.
 */
module LogEntryBuilder {
  import opened Text
  import opened LogEntry

  class GameLogEntryBuilder {
    var message: Option<string>
    var roundNumber: int
    var playerNumber: int
    var title: Option<RoundTitle>
    var validRound: bool

    /** Java's field defaults: null, 0, 0, null, false. */
    constructor()
      ensures message.None? && title.None?
      ensures roundNumber == 0 && playerNumber == 0 && !validRound
    {
      message := None;
      roundNumber := 0;
      playerNumber := 0;
      title := None;
      validRound := false;
    }

    method SetMessage(message: Option<string>) returns (b: GameLogEntryBuilder)
      modifies this
      ensures b == this && this.message == message
      ensures roundNumber == old(roundNumber) && playerNumber == old(playerNumber)
      ensures title == old(title) && validRound == old(validRound)
    {
      this.message := message;
      b := this;
    }

    method SetTitle(title: Option<RoundTitle>) returns (b: GameLogEntryBuilder)
      modifies this
      ensures b == this && this.title == title
      ensures message == old(message) && roundNumber == old(roundNumber)
      ensures playerNumber == old(playerNumber) && validRound == old(validRound)
    {
      this.title := title;
      b := this;
    }

    method SetValidRound(valid: bool) returns (b: GameLogEntryBuilder)
      modifies this
      ensures b == this && validRound == valid
      ensures message == old(message) && roundNumber == old(roundNumber)
      ensures playerNumber == old(playerNumber) && title == old(title)
    {
      validRound := valid;
      b := this;
    }

    /** Also forces the round valid. */
    method SetRoundNumber(roundNumber: int) returns (b: GameLogEntryBuilder)
      modifies this
      ensures b == this && this.roundNumber == roundNumber && validRound
      ensures message == old(message) && playerNumber == old(playerNumber)
      ensures title == old(title)
    {
      validRound := true;
      this.roundNumber := roundNumber;
      b := this;
    }

    method SetPlayerNumber(playerNumber: int) returns (b: GameLogEntryBuilder)
      modifies this
      ensures b == this && this.playerNumber == playerNumber
      ensures message == old(message) && roundNumber == old(roundNumber)
      ensures title == old(title) && validRound == old(validRound)
    {
      this.playerNumber := playerNumber;
      b := this;
    }

    /** A new entry holding the builder's current field values. */
    method Build() returns (e: GameLogEntry)
      ensures fresh(e)
      ensures e.message == message && e.roundNumber == roundNumber
      ensures e.playerNumber == playerNumber && e.validRound == validRound
      ensures e.roundTitle == title
    {
      e := new GameLogEntry(message, roundNumber, playerNumber, validRound, title);
    }
  }
}
