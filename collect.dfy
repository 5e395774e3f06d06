/** The loop of analysis.py:25-53 that reads the sheets r1 … r16 in turn
    and appends one record per usable row to `match_data`. */
module Collect {
  import opened Options
  import opened Results

  /** `range(1, 17)`: the rounds whose sheets are read. */
  const FirstRound := 1
  const LastRound := 16

  /** The values `f` yields for the entries of `xs`, in order, skipping
      the entries for which it yields nothing: the inner loop's shape. */
  function Gather<X, Y>(xs: seq<X>, f: X -> Option<Y>): seq<Y>
    decreases |xs|
  {
    if xs == [] then [] else Gather(xs[..|xs| - 1], f) + f(xs[|xs| - 1]).ToSeq()
  }

  /** The records one sheet contributes, in row order. */
  function RoundRecords(rows: seq<Row>, round: int): seq<Match> {
    Gather(rows, row => RecordOf(row, round))
  }

  /** `match_data` after the loop, where `sheets[i]` holds the rows of sheet
      r(i+1): the records of round 1, then those of round 2, and so on. */
  function Matches(sheets: seq<seq<Row>>): seq<Match>
    decreases |sheets|
  {
    if sheets == [] then []
    else Matches(sheets[..|sheets| - 1]) + RoundRecords(sheets[|sheets| - 1], |sheets|)
  }

  /** The records of `ms` from round `round`, in their order. */
  function OfRound(ms: seq<Match>, round: int): (r: seq<Match>)
    ensures forall m :: m in r <==> m in ms && m.round == round
  {
    if ms == [] then []
    else OfRound(ms[..|ms| - 1], round) + (if ms[|ms| - 1].round == round then [ms[|ms| - 1]] else [])
  }

  lemma {:induction false} GatherAppend<X, Y>(xs: seq<X>, ys: seq<X>, f: X -> Option<Y>)
    ensures Gather(xs + ys, f) == Gather(xs, f) + Gather(ys, f)
    decreases |ys|
  {
    if ys != [] {
      var n := |ys| - 1;
      assert (xs + ys)[..|xs + ys| - 1] == xs + ys[..n];
      GatherAppend(xs, ys[..n], f);
    } else {
      assert xs + ys == xs;
    }
  }

  lemma {:induction false} GatherMember<X, Y>(xs: seq<X>, f: X -> Option<Y>, y: Y)
    ensures y in Gather(xs, f) <==> exists i :: 0 <= i < |xs| && f(xs[i]) == Some(y)
    decreases |xs|
  {
    if xs != [] {
      var n := |xs| - 1;
      GatherMember(xs[..n], f, y);
      if exists i :: 0 <= i < |xs| && f(xs[i]) == Some(y) {
        var i :| 0 <= i < |xs| && f(xs[i]) == Some(y);
        if i < n { assert xs[..n][i] == xs[i]; }
      }
      if y in Gather(xs[..n], f) {
        var i :| 0 <= i < n && f(xs[..n][i]) == Some(y);
        assert xs[i] == xs[..n][i];
      }
    }
  }

  /** The records of two runs of rows are the records of each, in order. */
  lemma RoundRecordsAppend(xs: seq<Row>, ys: seq<Row>, round: int)
    ensures RoundRecords(xs + ys, round) == RoundRecords(xs, round) + RoundRecords(ys, round)
  {
    GatherAppend(xs, ys, row => RecordOf(row, round));
  }

  /** A record comes from the sheet exactly when some row of it yields that record. */
  lemma RoundRecordsFromRows(rows: seq<Row>, round: int, m: Match)
    ensures m in RoundRecords(rows, round) <==> exists i :: 0 <= i < |rows| && RecordOf(rows[i], round) == Some(m)
  {
    GatherMember(rows, row => RecordOf(row, round), m);
  }

  lemma GatherSkip<X, Y>(xs: seq<X>, x: X, ys: seq<X>, f: X -> Option<Y>)
    requires f(x).None?
    ensures Gather(xs + [x] + ys, f) == Gather(xs + ys, f)
  {
    var front := xs + [x];
    assert front[..|front| - 1] == xs;
    assert Gather(front, f) == Gather(xs, f) + f(x).ToSeq() == Gather(xs, f);
    GatherAppend(front, ys, f);
    GatherAppend(xs, ys, f);
  }

  /** One more row adds that row's record, if any. */
  lemma GatherStep<X, Y>(xs: seq<X>, f: X -> Option<Y>, i: nat)
    requires i < |xs|
    ensures Gather(xs[..i + 1], f) == Gather(xs[..i], f) + f(xs[i]).ToSeq()
  {
    assert xs[..i + 1][..i] == xs[..i];
  }

  /** A row that the filter drops, or whose Result does not match the
      pattern, contributes nothing: removing it leaves the records unchanged. */
  lemma SkippedRowContributesNothing(rows: seq<Row>, i: nat, round: int)
    requires i < |rows|
    requires !Kept(rows[i]) || ParseWinner(rows[i].result.value).None?
    ensures RoundRecords(rows, round) == RoundRecords(rows[..i] + rows[i + 1..], round)
  {
    assert RecordOf(rows[i], round).None?;
    assert rows == rows[..i] + [rows[i]] + rows[i + 1..];
    GatherSkip(rows[..i], rows[i], rows[i + 1..], row => RecordOf(row, round));
  }

  /** Every record of a sheet is consistent: its round, an outcome of 0 or 1,
      and a winner equal to the side the outcome names. */
  predicate WellFormed(m: Match, rounds: int) {
    && 1 <= m.round <= rounds
    && (m.outcome == 0 || m.outcome == 1)
    && (m.outcome == 1 ==> m.winner == m.playerA)
    && (m.outcome == 0 ==> m.winner == m.playerB)
  }

  lemma {:induction false} RoundRecordsWellFormed(rows: seq<Row>, round: int)
    requires 1 <= round
    ensures forall m :: m in RoundRecords(rows, round) ==> WellFormed(m, round) && m.round == round
    decreases |rows|
  {
    if rows != [] {
      RoundRecordsWellFormed(rows[..|rows| - 1], round);
    }
  }

  /** Every record of `match_data` is well formed; with the sixteen sheets,
      every Round lies in 1..16. */
  lemma {:induction false} MatchesWellFormed(sheets: seq<seq<Row>>)
    ensures forall m :: m in Matches(sheets) ==> WellFormed(m, |sheets|)
    decreases |sheets|
  {
    if sheets != [] {
      var n := |sheets| - 1;
      MatchesWellFormed(sheets[..n]);
      RoundRecordsWellFormed(sheets[n], |sheets|);
    }
  }

  /** `match_data` is ordered by round. */
  lemma {:induction false} MatchesOrderedByRound(sheets: seq<seq<Row>>)
    ensures forall i, j :: 0 <= i < j < |Matches(sheets)| ==> Matches(sheets)[i].round <= Matches(sheets)[j].round
    decreases |sheets|
  {
    if sheets != [] {
      var n := |sheets| - 1;
      var prefix: seq<Match>, last: seq<Match> := Matches(sheets[..n]), RoundRecords(sheets[n], |sheets|);
      MatchesOrderedByRound(sheets[..n]);
      MatchesWellFormed(sheets[..n]);
      RoundRecordsWellFormed(sheets[n], |sheets|);
      forall i, j | 0 <= i < j < |prefix + last|
        ensures (prefix + last)[i].round <= (prefix + last)[j].round
      {
        if j < |prefix| {
          assert (prefix + last)[i] == prefix[i] && (prefix + last)[j] == prefix[j];
        } else if i < |prefix| {
          assert prefix[i] in prefix && last[j - |prefix|] in last;
        } else {
          assert last[i - |prefix|] in last && last[j - |prefix|] in last;
        }
      }
    }
  }

  /** Within `match_data`, the records of one round are exactly that round's
      sheet records, in row order. */
  lemma {:induction false} MatchesOfRound(sheets: seq<seq<Row>>, round: int)
    requires 1 <= round <= |sheets|
    ensures OfRound(Matches(sheets), round) == RoundRecords(sheets[round - 1], round)
    decreases |sheets|
  {
    var n := |sheets| - 1;
    var prefix: seq<Match>, last: seq<Match> := Matches(sheets[..n]), RoundRecords(sheets[n], |sheets|);
    MatchesWellFormed(sheets[..n]);
    RoundRecordsWellFormed(sheets[n], |sheets|);
    OfRoundAppend(prefix, last, round);
    if round == |sheets| {
      OfRoundNone(prefix, round);
      OfRoundAll(last, round);
    } else {
      MatchesOfRound(sheets[..n], round);
      OfRoundNone(last, round);
      assert sheets[..n][round - 1] == sheets[round - 1];
    }
  }

  lemma {:induction false} OfRoundAppend(xs: seq<Match>, ys: seq<Match>, round: int)
    ensures OfRound(xs + ys, round) == OfRound(xs, round) + OfRound(ys, round)
    decreases |ys|
  {
    if ys != [] {
      var n := |ys| - 1;
      assert (xs + ys)[..|xs + ys| - 1] == xs + ys[..n];
      OfRoundAppend(xs, ys[..n], round);
    } else {
      assert xs + ys == xs;
    }
  }

  lemma OfRoundNone(ms: seq<Match>, round: int)
    requires forall m :: m in ms ==> m.round != round
    ensures OfRound(ms, round) == []
  {
    if OfRound(ms, round) != [] {
      assert OfRound(ms, round)[0] in OfRound(ms, round);
    }
  }

  lemma {:induction false} OfRoundAll(ms: seq<Match>, round: int)
    requires forall m :: m in ms ==> m.round == round
    ensures OfRound(ms, round) == ms
    decreases |ms|
  {
    if ms != [] {
      var n := |ms| - 1;
      OfRoundAll(ms[..n], round);
      assert ms == ms[..n] + [ms[n]];
    }
  }

  /** Reading later sheets never changes the records already collected:
      the records of the first `r` sheets are a prefix of `match_data`. */
  lemma {:induction false} MatchesPrefix(sheets: seq<seq<Row>>, r: nat)
    requires r <= |sheets|
    ensures Matches(sheets[..r]) <= Matches(sheets)
    decreases |sheets|
  {
    if r == |sheets| {
      assert sheets[..r] == sheets;
    } else {
      var n := |sheets| - 1;
      MatchesPrefix(sheets[..n], r);
      assert sheets[..n][..r] == sheets[..r];
    }
  }

  /** Reading one more sheet appends that round's records. */
  lemma MatchesStep(sheets: seq<seq<Row>>, round: nat)
    requires 1 <= round <= |sheets|
    ensures Matches(sheets[..round]) == Matches(sheets[..round - 1]) + RoundRecords(sheets[round - 1], round)
  {
    assert sheets[..round][..round - 1] == sheets[..round - 1];
  }

  /** The inner loop over the rows of one sheet: it appends to `matchData`
      the record of every row, in order, skipping (`continue`) each row the
      filter, the pattern or the name check rejects. */
  method CollectRound(matchData: seq<Match>, df: seq<Row>, roundNum: int) returns (result: seq<Match>)
    ensures result == matchData + RoundRecords(df, roundNum)
  {
    result := matchData;
    for i := 0 to |df|
      invariant result == matchData + RoundRecords(df[..i], roundNum)
    {
      GatherStep(df, row => RecordOf(row, roundNum), i);
      var row := df[i];
      if !Kept(row) {
        assert RecordOf(row, roundNum).None?;
        continue;
      }
      var winnerMatch := ParseWinner(row.result.value);
      if winnerMatch.None? {
        assert RecordOf(row, roundNum).None?;
        continue;
      }
      var winner := winnerMatch.value;
      var playerA := Text.Strip(row.playerA.value);
      var playerB := Text.Strip(row.playerB.value);
      var outcome;
      if winner == playerA {
        outcome := 1;
      } else if winner == playerB {
        outcome := 0;
      } else {
        assert RecordOf(row, roundNum).None?;
        continue;
      }
      winner := Text.NormaliseName(winner);
      playerA := Text.NormaliseName(playerA);
      playerB := Text.NormaliseName(playerB);
      assert RecordOf(row, roundNum) == Some(Match(playerA, playerB, winner, outcome, roundNum));
      result := result + [Match(playerA, playerB, winner, outcome, roundNum)];
    }
    assert df[..|df|] == df;
  }

  /** The loop over the rounds 1 … 16 (analysis.py:25-53), reading sheet
      r<round> for each. */
  method CollectMatches(sheets: seq<seq<Row>>) returns (matchData: seq<Match>)
    requires |sheets| == LastRound
    ensures matchData == Matches(sheets)
  {
    matchData := [];
    for roundNum := FirstRound to LastRound + 1
      invariant matchData == Matches(sheets[..roundNum - 1])
    {
      var df := sheets[roundNum - 1];
      matchData := CollectRound(matchData, df, roundNum);
      MatchesStep(sheets, roundNum);
    }
    assert sheets[..LastRound] == sheets;
  }
}
