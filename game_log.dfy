/**
 * The ordered log of a game session. The list is a `seq` field that the
 * mutating operations reassign; the queries are functions of it.
 */
module Log {
  import opened Text
  import opened LogEntry

  /** Position of the first entry whose round number is `roundNr`, if any. */
  function FindRound(entries: seq<GameLogEntry>, roundNr: int): (k: Option<nat>)
    ensures k.None? <==> forall i | 0 <= i < |entries| :: entries[i].roundNumber != roundNr
    ensures k.Some? ==> k.value < |entries| && entries[k.value].roundNumber == roundNr
    ensures k.Some? ==> forall i | 0 <= i < k.value :: entries[i].roundNumber != roundNr
    decreases |entries|
  {
    if entries == [] then None
    else if entries[0].roundNumber == roundNr then Some(0)
    else
      match FindRound(entries[1..], roundNr)
      case None => None
      case Some(j) => Some(j + 1)
  }

  /** The `addEntry` rule: a default entry is refused when any entry already has its round number. */
  predicate Accepts(entries: seq<GameLogEntry>, e: GameLogEntry) {
    e.roundTitle != Some(Default) || FindRound(entries, e.roundNumber).None?
  }

  /** The log after `addEntry(e)`. */
  function Added(entries: seq<GameLogEntry>, e: GameLogEntry): seq<GameLogEntry> {
    if Accepts(entries, e) then entries + [e] else entries
  }

  /** The log after adding each of `es` in turn. */
  function AddedAll(entries: seq<GameLogEntry>, es: seq<GameLogEntry>): seq<GameLogEntry>
    decreases |es|
  {
    if es == [] then entries else AddedAll(Added(entries, es[0]), es[1..])
  }

  /** Adding a list that starts with `e` adds `e` first, then the rest. */
  lemma AddedAllPrepend(entries: seq<GameLogEntry>, e: GameLogEntry, es: seq<GameLogEntry>)
    ensures AddedAll(entries, [e] + es) == AddedAll(Added(entries, e), es)
  {
    assert ([e] + es)[1..] == es;
  }

  /** Non-default entries are always added; a default one iff its round number is new. */
  lemma AcceptsIff(entries: seq<GameLogEntry>, e: GameLogEntry)
    ensures Accepts(entries, e) <==>
      e.roundTitle != Some(Default) || forall i | 0 <= i < |entries| :: entries[i].roundNumber != e.roundNumber
  {
  }

  /** No default entry of `es` reuses a round number found in `entries` or earlier in `es`. */
  predicate FreshDefaultRounds(entries: seq<GameLogEntry>, es: seq<GameLogEntry>) {
    forall j | 0 <= j < |es| && es[j].roundTitle == Some(Default) ::
      && (forall i | 0 <= i < |entries| :: entries[i].roundNumber != es[j].roundNumber)
      && (forall i | 0 <= i < j :: es[i].roundNumber != es[j].roundNumber)
  }

  /** Entries whose default rounds are all new are all accepted: the log grows by exactly them, in order. */
  lemma {:induction false} AddedAllAppends(entries: seq<GameLogEntry>, es: seq<GameLogEntry>)
    requires FreshDefaultRounds(entries, es)
    ensures AddedAll(entries, es) == entries + es
    decreases |es|
  {
    if es != [] {
      AcceptsIff(entries, es[0]);
      var next := entries + [es[0]];
      var rest := es[1..];
      forall j | 0 <= j < |rest| && rest[j].roundTitle == Some(Default)
        ensures forall i | 0 <= i < |next| :: next[i].roundNumber != rest[j].roundNumber
        ensures forall i | 0 <= i < j :: rest[i].roundNumber != rest[j].roundNumber
      {
        assert rest[j] == es[j + 1];
        assert forall i | 0 <= i < j :: rest[i] == es[i + 1];
      }
      AddedAllAppends(next, rest);
      assert next + rest == entries + es;
    }
  }

  /** After any sequence of additions, no two default entries share a round number, if none did before. */
  predicate DefaultRoundsUnique(entries: seq<GameLogEntry>) {
    forall i, j | 0 <= i < j < |entries| ::
      entries[j].roundTitle == Some(Default) ==> entries[i].roundNumber != entries[j].roundNumber
  }

  lemma {:induction false} AddedAllKeepsRoundsUnique(entries: seq<GameLogEntry>, es: seq<GameLogEntry>)
    requires DefaultRoundsUnique(entries)
    ensures DefaultRoundsUnique(AddedAll(entries, es))
    decreases |es|
  {
    if es != [] {
      AcceptsIff(entries, es[0]);
      AddedAllKeepsRoundsUnique(Added(entries, es[0]), es[1..]);
    }
  }

  /** `List.remove(Object)`: drop the first occurrence of that very entry, if there is one. */
  function RemoveFirst(entries: seq<GameLogEntry>, e: GameLogEntry): (r: seq<GameLogEntry>)
    ensures e !in entries ==> r == entries
    ensures e in entries ==> |r| == |entries| - 1 && multiset(r) == multiset(entries) - multiset{e}
    ensures e in entries ==>
      var k := IndexOf(entries, e);
      r == entries[..k] + entries[k + 1..]
  {
    if e in entries then
      var k := IndexOf(entries, e);
      assert entries == entries[..k] + [e] + entries[k + 1..];
      entries[..k] + entries[k + 1..]
    else entries
  }

  /** The entries whose validity flag equals `valid`, in log order. */
  function Filter(entries: seq<GameLogEntry>, valid: bool): (r: seq<GameLogEntry>)
    ensures |r| <= |entries|
    ensures forall i | 0 <= i < |r| :: r[i].validRound == valid && r[i] in entries
    ensures forall e | e in entries && e.validRound == valid :: e in r
    decreases |entries|
  {
    if entries == [] then []
    else if entries[0].validRound == valid then [entries[0]] + Filter(entries[1..], valid)
    else Filter(entries[1..], valid)
  }

  /** Filtering keeps the order: the filter of a concatenation is the concatenation of the filters. */
  lemma {:induction false} FilterAppend(s: seq<GameLogEntry>, t: seq<GameLogEntry>, valid: bool)
    ensures Filter(s + t, valid) == Filter(s, valid) + Filter(t, valid)
    decreases |s|
  {
    if s != [] {
      assert (s + t)[1..] == s[1..] + t;
      FilterAppend(s[1..], t, valid);
    } else {
      assert s + t == t;
    }
  }

  /** The first entry of a round occurs nowhere earlier, so removing it by identity removes that position. */
  lemma FirstOfRoundIsFirstOccurrence(entries: seq<GameLogEntry>, roundNr: int)
    requires FindRound(entries, roundNr).Some?
    ensures var k := FindRound(entries, roundNr).value;
      entries[k] in entries && IndexOf(entries, entries[k]) == k
  {
    var k := FindRound(entries, roundNr).value;
    var j := IndexOf(entries, entries[k]);
    assert entries[j].roundNumber == roundNr;
  }

  /** The valid and the invalid entries partition the log. */
  lemma {:induction false} FilterPartition(entries: seq<GameLogEntry>)
    ensures |Filter(entries, true)| + |Filter(entries, false)| == |entries|
    ensures multiset(Filter(entries, true)) + multiset(Filter(entries, false)) == multiset(entries)
    decreases |entries|
  {
    if entries != [] {
      FilterPartition(entries[1..]);
      assert entries == [entries[0]] + entries[1..];
    }
  }

  /** Every entry has a text (no entry lacks its title). */
  predicate AllTitled(entries: seq<GameLogEntry>) {
    forall i | 0 <= i < |entries| :: entries[i].roundTitle.Some?
  }

  function Texts(entries: seq<GameLogEntry>): (r: seq<string>)
    requires AllTitled(entries)
    ensures |r| == |entries|
    ensures forall i | 0 <= i < |entries| :: Some(r[i]) == entries[i].AsString()
  {
    seq(|entries|, i requires 0 <= i < |entries| => entries[i].AsString().value)
  }

  /**
   * `getEntriesAsString(list)`: the entries' texts joined by the line
   * separator; no text when some entry has no title (the Java stream
   * would throw on it).
   */
  function Render(entries: seq<GameLogEntry>): (r: Option<string>)
    ensures r.Some? <==> AllTitled(entries)
    ensures entries == [] ==> r == Some("")
  {
    if AllTitled(entries) then Some(Join(Texts(entries), LineSeparator)) else None
  }

  /** Rendering one more entry appends one separator and that entry's text. */
  lemma RenderAppend(entries: seq<GameLogEntry>, e: GameLogEntry)
    requires entries != [] && AllTitled(entries) && e.roundTitle.Some?
    ensures Render(entries + [e]) == Some(Render(entries).value + LineSeparator + e.AsString().value)
  {
    assert Texts(entries + [e]) == Texts(entries) + [e.AsString().value];
    JoinAppend(Texts(entries), e.AsString().value, LineSeparator);
  }

  /** When no text contains a line break, splitting the rendering gives back one line per entry. */
  lemma RenderLines(entries: seq<GameLogEntry>)
    requires entries != [] && AllTitled(entries)
    requires forall i | 0 <= i < |entries| :: '\n' !in entries[i].AsString().value
    ensures Split(Render(entries).value, '\n') == Texts(entries)
  {
    SplitJoin(Texts(entries), '\n');
  }

  class GameLog {
    var entries: seq<GameLogEntry>

    constructor()
      ensures entries == []
    {
      entries := [];
    }

    /** Appends unless it is a default entry whose round number is already logged. */
    method AddEntry(e: GameLogEntry) returns (added: bool)
      modifies this
      ensures added == Accepts(old(entries), e)
      ensures entries == Added(old(entries), e)
    {
      var present := GetEntryFromRound(e.roundNumber);
      if e.roundTitle != Some(Default) || present.None? {
        entries := entries + [e];
        added := true;
      } else {
        added := false;
      }
    }

    /** Removes the first occurrence of that very entry; false, with the log unchanged, when absent. */
    method RemoveEntry(e: GameLogEntry) returns (removed: bool)
      modifies this
      ensures removed == (e in old(entries))
      ensures entries == RemoveFirst(old(entries), e)
    {
      removed := e in entries;
      entries := RemoveFirst(entries, e);
    }

    /** Removes the first entry of round `roundNr`; false, with the log unchanged, when there is none. */
    method RemoveEntryFromRound(roundNr: int) returns (removed: bool)
      modifies this
      ensures removed <==> exists i | 0 <= i < |old(entries)| :: old(entries)[i].roundNumber == roundNr
      ensures !removed ==> entries == old(entries)
      ensures removed ==>
        var k := FindRound(old(entries), roundNr).value;
        entries == old(entries)[..k] + old(entries)[k + 1..]
    {
      var found := GetEntryFromRound(roundNr);
      match found {
        case None =>
          // `remove(null)` finds nothing: the log never holds null
          removed := false;
        case Some(e) =>
          FirstOfRoundIsFirstOccurrence(entries, roundNr);
          removed := RemoveEntry(e);
      }
    }

    /** The entry at `index`, or none when the index is negative or past the end. */
    function GetEntry(index: int): (r: Option<GameLogEntry>)
      reads this
      ensures r.Some? <==> 0 <= index < |entries|
      ensures r.Some? ==> r.value == entries[index]
    {
      if index < 0 || index >= |entries| then None else Some(entries[index])
    }

    /** The first entry, in log order, whose round number is `roundNr`. */
    function GetEntryFromRound(roundNr: int): (r: Option<GameLogEntry>)
      reads this
      ensures r.None? <==> forall i | 0 <= i < |entries| :: entries[i].roundNumber != roundNr
      ensures r.Some? ==> exists k | 0 <= k < |entries| ::
        && entries[k] == r.value && r.value.roundNumber == roundNr
        && forall i | 0 <= i < k :: entries[i].roundNumber != roundNr
    {
      match FindRound(entries, roundNr)
      case None => None
      case Some(k) => Some(entries[k])
    }

    function GetLastEntry(): (r: Option<GameLogEntry>)
      reads this
      ensures r.None? <==> entries == []
      ensures r.Some? ==> r.value == entries[|entries| - 1]
    {
      if entries == [] then None else GetEntry(|entries| - 1)
    }

    /** `getEntries(valid)`: a new list of the entries with that validity, in log order. */
    function GetEntries(valid: bool): (r: seq<GameLogEntry>)
      reads this
      ensures r == Filter(entries, valid)
      ensures |r| + |Filter(entries, !valid)| == |entries|
      ensures forall i | 0 <= i < |r| :: r[i].validRound == valid
      ensures forall e | e in entries && e.validRound == valid :: e in r
    {
      FilterPartition(entries);
      Filter(entries, valid)
    }

    function GetValidEntries(): (r: seq<GameLogEntry>)
      reads this
      ensures r == Filter(entries, true)
    {
      GetEntries(true)
    }

    function GetInvalidEntries(): (r: seq<GameLogEntry>)
      reads this
      ensures r == Filter(entries, false)
    {
      GetEntries(false)
    }

    /** The texts of the valid (or the invalid) entries, one per line. */
    function GetEntriesAsString(valid: bool): (r: Option<string>)
      reads this
      ensures r == Render(Filter(entries, valid))
    {
      Render(GetEntries(valid))
    }

    /** The texts of all entries, one per line. */
    function GetAllEntriesAsString(): (r: Option<string>)
      reads this
      ensures r == Render(entries)
    {
      Render(entries)
    }
  }
}
