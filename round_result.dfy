/**
 * The value one call of `play` returns: who acted (absent for outcomes
 * that belong to no player), a possibly null message, and whether the
 * round was valid. All three are fixed at construction; a datatype value
 * never changes.
 */
module Results {
  import opened Text

  datatype RoundResult = RoundResult(playerName: Option<string>, message: Option<string>, valid: bool)
  {
    /** `toString`: the message (`null` when absent) behind a fixed prefix, so it can be read back. */
    function ToString(): (s: string)
      ensures |s| == |ResultPrefix| + |MessageText(message)|
      ensures s[..|ResultPrefix|] == ResultPrefix && s[|ResultPrefix|..] == MessageText(message)
      ensures message.None? ==> s == "Result of Round: null"
    {
      ResultPrefix + MessageText(message)
    }
  }

  const ResultPrefix: string := "Result of Round: "

  /** The two-argument constructor: a result attributed to no player. */
  function Unattributed(message: Option<string>, valid: bool): (r: RoundResult)
    ensures r.playerName.None?
    ensures r.message == message && r.valid == valid
  {
    RoundResult(None, message, valid)
  }

  /**
   * Two results have the same text exactly when their messages print the
   * same; among present messages that means the same message, and only a
   * missing message collides with the literal text `null`.
   */
  lemma ToStringInjective(a: RoundResult, b: RoundResult)
    ensures a.ToString() == b.ToString() <==> MessageText(a.message) == MessageText(b.message)
    ensures a.message.Some? && b.message.Some? ==> (a.ToString() == b.ToString() <==> a.message == b.message)
    ensures a.message.None? && b.message.Some? ==> (a.ToString() == b.ToString() <==> b.message.value == "null")
  {
    if a.ToString() == b.ToString() {
      assert MessageText(a.message) == a.ToString()[|ResultPrefix|..];
    }
  }
}
