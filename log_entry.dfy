/**
 * One entry of the game log. The entry is an object (the log removes
 * entries by identity), and every field is a `const`, so an entry never
 * changes after construction. The title and the message are optional
 * because an entry built from a fresh builder has neither.
 */
module LogEntry {
  import opened Text

  /** The category of an entry: its label pattern and whether a player made it. */
  datatype RoundTitle = Default | Invalid | GameOver | Draw | Unknown
  {
    /** The raw label; only `Default` carries a `%02d` round placeholder. */
    function Title(): string {
      match this
      case Default => "Round %02d"
      case Invalid => "invalid!"
      case GameOver => "GameOver"
      case Draw => "  Draw  "
      case Unknown => " unknown"
    }

    predicate IsFromPlayer() {
      Default? || Invalid?
    }
  }

  /** The label table: exactly the default and the invalid entries are attributed to a player. */
  lemma TitleTable(t: RoundTitle)
    ensures t.IsFromPlayer() <==> t in {Default, Invalid}
    ensures t.Default? <==> '%' in t.Title()
    ensures |t.Title()| == 8 || t.Default?
  {
    assert t.Title()[6] == '%' || !t.Default?;
  }

  /**
   * The bracketed label: the raw title when the round number is -1, the
   * title formatted with the round number otherwise (only `Default` has
   * a placeholder, so the others stay as they are).
   */
  function Label(t: RoundTitle, roundNumber: int): string {
    if roundNumber == -1 then t.Title()
    else if t.Default? then "Round " + Pad2(roundNumber)
    else t.Title()
  }

  /** A default label shows rounds 0..99 as two digits that read back as the round. */
  lemma DefaultLabelRoundTrip(n: int)
    requires 0 <= n < 100
    ensures var s := Label(Default, n);
      |s| == 8 && s[..6] == "Round " && AllDigits(s[6..]) && ParseNat(s[6..]) == n
  {
    var s := Label(Default, n);
    assert s[6..] == Pad2(n);
  }

  /** Every label of an entry the game writes (round -1 or 0..99) is eight characters wide. */
  lemma LabelsAligned(t: RoundTitle, n: int)
    requires n == -1 || 0 <= n < 100
    ensures |Label(t, n)| == 8 || (t.Default? && n == -1)
  {
    TitleTable(t);
  }

  class GameLogEntry {
    const message: Option<string>
    const roundNumber: int
    const playerNumber: int
    const validRound: bool
    const roundTitle: Option<RoundTitle>

    constructor(message: Option<string>, roundNumber: int, playerNumber: int,
                validRound: bool, title: Option<RoundTitle>)
      ensures this.message == message && this.roundNumber == roundNumber
      ensures this.playerNumber == playerNumber && this.validRound == validRound
      ensures this.roundTitle == title
    {
      this.message := message;
      this.roundTitle := title;
      this.validRound := validRound;
      this.roundNumber := roundNumber;
      this.playerNumber := playerNumber;
    }

    /** The player part of the text: present exactly for player-attributed titles. */
    function PlayerInfo(): string
      requires roundTitle.Some?
    {
      if roundTitle.value.IsFromPlayer() then "[Player " + IntToString(playerNumber) + "]: " else ""
    }

    /**
     * `getAsString`: `[label] [Player N]: message` for a player-attributed
     * title, `[label] message` otherwise; no text at all (the Java code
     * dereferences the title) when the title is missing.
     */
    function AsString(): (r: Option<string>)
      ensures r.None? <==> roundTitle.None?
      ensures r.Some? ==>
        var head := "[" + Label(roundTitle.value, roundNumber) + "] ";
        && head <= r.value
        && r.value[|head|..] == PlayerInfo() + MessageText(message)
    {
      match roundTitle
      case None => None
      case Some(t) =>
        var head := "[" + Label(t, roundNumber) + "] ";
        var tail := PlayerInfo() + MessageText(message);
        assert (head + tail)[|head|..] == tail;
        Some(head + tail)
    }

    /** `toString` is `getAsString`. */
    function ToString(): (r: Option<string>)
      ensures r == AsString()
    {
      AsString()
    }
  }

  /** The text of a player-attributed entry is the label, the player number in brackets, then the message. */
  lemma PlayerAttributedText(e: GameLogEntry)
    requires e.roundTitle.Some? && e.roundTitle.value.IsFromPlayer()
    ensures e.AsString() == Some("[" + Label(e.roundTitle.value, e.roundNumber) + "] "
      + ("[Player " + IntToString(e.playerNumber) + "]: " + MessageText(e.message)))
  {
    assert e.PlayerInfo() == "[Player " + IntToString(e.playerNumber) + "]: ";
  }

  /** The text of an entry with no player attribution is the label followed by the message. */
  lemma UnattributedText(e: GameLogEntry)
    requires e.roundTitle.Some? && !e.roundTitle.value.IsFromPlayer()
    ensures e.AsString().value == "[" + Label(e.roundTitle.value, e.roundNumber) + "] " + MessageText(e.message)
  {
  }
}
