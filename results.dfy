/** One row of a round sheet and the match record analysis.py makes of it:
    the row filter, the `(.+?) won` result parser, the outcome decision and
    the name normalisation (analysis.py:30-53). */
module Results {
  import opened Options
  import opened Text

  /** A row of a round sheet after the columns are renamed to Player_A, vs,
      Player_B, Result. A `None` cell is one pandas reads as NaN; the `vs`
      column is never read and is not kept. */
  datatype Row = Row(playerA: Option<string>, playerB: Option<string>, result: Option<string>)

  /** One entry of `match_data`: normalised names, the normalised winner,
      Outcome (1 when Player_A won, 0 when Player_B won) and the round. */
  datatype Match = Match(playerA: string, playerB: string, winner: string, outcome: int, round: int)

  // ---------------------------------------------------------------------
  // Row filter (analysis.py:31-33)
  // ---------------------------------------------------------------------

  /** `Result` matches `Draw|forfeited|awarded|assigned|bye` with `case=False`. */
  predicate MentionsExcludedResult(result: string) {
    ContainsIgnoreCase(result, "Draw") || ContainsIgnoreCase(result, "forfeited")
    || ContainsIgnoreCase(result, "awarded") || ContainsIgnoreCase(result, "assigned")
    || ContainsIgnoreCase(result, "bye")
  }

  /** A row survives `dropna` on the three columns and the keyword filter. */
  predicate Kept(row: Row) {
    row.playerA.Some? && row.playerB.Some? && row.result.Some?
    && !MentionsExcludedResult(row.result.value)
  }

  // ---------------------------------------------------------------------
  // Result parser: a lazy group followed by " won" (analysis.py:37-39)
  // ---------------------------------------------------------------------

  /** The pattern `(.+?) won` matches at the start of `s` with the group
      ending at `k`: the group is non-empty, holds no newline (`.` does not
      match one), and " won" follows it. */
  predicate WonAt(s: string, k: int) {
    1 <= k && k + 4 <= |s| && s[k..k + 4] == " won" && '\n' !in s[..k]
  }

  /** The lazy group `.+?` tries the group ends k, k+1, ... in turn and stops
      at the first one followed by " won", or when it would swallow a newline. */
  function LazyGroupEnd(s: string, k: nat): (r: Option<nat>)
    requires 1 <= k <= |s| + 1 && '\n' !in s[..k - 1]
    ensures r.Some? ==> k <= r.value && WonAt(s, r.value)
    ensures r.Some? ==> forall j :: k <= j < r.value ==> !WonAt(s, j)
    ensures r.None? ==> forall j :: k <= j ==> !WonAt(s, j)
    decreases |s| - k
  {
    if k + 4 > |s| then None
    else if s[k - 1] == '\n' then
      assert forall j :: k <= j <= |s| ==> s[..j][k - 1] == '\n';
      None
    else
      assert s[..k] == s[..k - 1] + [s[k - 1]];
      if s[k..k + 4] == " won" then Some(k) else LazyGroupEnd(s, k + 1)
  }

  /** `k` ends the shortest group for which `(.+?) won` matches. */
  ghost predicate ShortestWonAt(s: string, k: int) {
    WonAt(s, k) && forall j :: 0 <= j < k ==> !WonAt(s, j)
  }

  /** The winner named in a result (analysis.py:37-39): the text the lazy
      group captured, with surrounding whitespace removed, or `None` when the
      pattern does not match. */
  function ParseWinner(result: string): Option<string> {
    match LazyGroupEnd(result, 1)
    case None => None
    case Some(k) => Some(Strip(result[..k]))
  }

  /** The pattern fails exactly when no group end is followed by " won";
      otherwise the winner is the stripped shortest group. */
  lemma ParseWinnerSpec(result: string)
    ensures ParseWinner(result).None? <==> forall k :: !WonAt(result, k)
    ensures forall k :: ShortestWonAt(result, k) ==> ParseWinner(result) == Some(Strip(result[..k]))
  {
    assert !WonAt(result, 0);
    match LazyGroupEnd(result, 1)
    case None =>
    case Some(r) =>
      forall k | ShortestWonAt(result, k) ensures k == r {
      }
  }

  // ---------------------------------------------------------------------
  // One row to one record (analysis.py:35-53)
  // ---------------------------------------------------------------------

  /** The record one row of round `round` contributes to `match_data`, if
      any. Every record is consistent: its winner is the side its outcome names. */
  function RecordOf(row: Row, round: int): (r: Option<Match>)
    ensures r.Some? ==> r.value.round == round
    ensures r.Some? ==> r.value.outcome == 0 || r.value.outcome == 1
    ensures r.Some? && r.value.outcome == 1 ==> r.value.winner == r.value.playerA
    ensures r.Some? && r.value.outcome == 0 ==> r.value.winner == r.value.playerB
  {
    if !Kept(row) then None
    else
      match ParseWinner(row.result.value)
      case None => None
      case Some(winner) =>
        var playerA := Strip(row.playerA.value);
        var playerB := Strip(row.playerB.value);
        if winner == playerA || winner == playerB then
          var outcome := if winner == playerA then 1 else 0;
          Some(Match(NormaliseName(playerA), NormaliseName(playerB), NormaliseName(winner), outcome, round))
        else None
  }

  /** When a row yields a record: only if it passes the filter and its Result
      matches the pattern, and then exactly when the parsed winner is one of
      the two stripped player names; Outcome is 1 exactly when the winner is
      Player_A and 0 exactly when it is Player_B but not Player_A. */
  lemma RecordOfCases(row: Row, round: int)
    ensures !Kept(row) ==> RecordOf(row, round).None?
    ensures Kept(row) && ParseWinner(row.result.value).None? ==> RecordOf(row, round).None?
    ensures Kept(row) && ParseWinner(row.result.value).Some? ==>
      var w, a, b := ParseWinner(row.result.value).value, Strip(row.playerA.value), Strip(row.playerB.value);
      var r := RecordOf(row, round);
      && (r.Some? <==> (w == a || w == b))
      && (r.Some? ==> (r.value.outcome == 1 <==> w == a))
      && (r.Some? ==> (r.value.outcome == 0 <==> w != a && w == b))
      && (r.Some? ==> r.value.playerA == NormaliseName(a) && r.value.playerB == NormaliseName(b))
  {
  }

  /** The keyword filter searches the whole Result text, names included, so
      a decisive result is dropped when the winner's name happens to contain
      one of the words: "Byeon, Jun won 2-1-0" is treated like a bye. */
  lemma KeywordInsideNameDropsRow()
    ensures var row := Row(Some("Byeon, Jun"), Some("Lee, Min"), Some("Byeon, Jun won 2-1-0"));
      ParseWinner(row.result.value) == Some("Byeon, Jun") && RecordOf(row, 4).None?
  {
    ByeonWins();
    ByeonMentionsBye();
  }

  lemma ByeonMentionsBye()
    ensures MentionsExcludedResult("Byeon, Jun won 2-1-0")
  {
    var s := "Byeon, Jun won 2-1-0";
    assert Lower(s[0]) == 'b' && Lower(s[1]) == 'y' && Lower(s[2]) == 'e';
    assert MatchesAtIgnoreCase(s, "bye", 0);
  }

  /** The result parser reads "Byeon, Jun" as the winner. */
  lemma ByeonWins()
    ensures ParseWinner("Byeon, Jun won 2-1-0") == Some("Byeon, Jun")
  {
    var s := "Byeon, Jun won 2-1-0";
    ByeonGroupEnd();
    forall j | 0 <= j < 10 ensures !WonAt(s, j) {
      if j != 0 { ByeonNoEarlierGroupEnd(j); }
    }
    assert ShortestWonAt(s, 10);
    ByeonStripped();
  }

  lemma ByeonGroupEnd()
    ensures WonAt("Byeon, Jun won 2-1-0", 10) && "Byeon, Jun won 2-1-0"[..10] == "Byeon, Jun"
  {
    var s := "Byeon, Jun won 2-1-0";
    assert s[10..14] == " won";
    assert s[..10] == "Byeon, Jun";
  }

  lemma ByeonNoEarlierGroupEnd(j: int)
    requires 1 <= j < 10
    ensures !WonAt("Byeon, Jun won 2-1-0", j)
  {
    var s := "Byeon, Jun won 2-1-0";
    assert s[j..j + 4][0] == s[j] && s[j..j + 4][1] == s[j + 1];
  }

  lemma ByeonStripped()
    ensures Strip("Byeon, Jun") == "Byeon, Jun"
  {
    assert TrimStart("Byeon, Jun") == "Byeon, Jun";
  }
}
