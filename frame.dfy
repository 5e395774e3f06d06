/** `matches_df` (analysis.py:55-81): the table built from `match_data`
    whose columns are then assigned in place — Deck_A and Deck_B from the
    decklist, the DRAFT override for the draft rounds, and the four index
    columns — together with the player and deck label lists. */
module Frame {
  import opened Options
  import opened Results
  import opened Indexing
  import Collect

  /** The label both sides get in a draft round. */
  const Draft := "DRAFT"

  /** The draft rounds (analysis.py:63): rounds 1 to 3 and 9 to 11. */
  const DraftRounds: seq<int> := [1, 2, 3, 9, 10, 11]

  predicate IsDraftRound(round: int) {
    round in DraftRounds
  }

  /** `Series.map(deck_map)` for one cell: the deck of a listed player, and
      nothing (NaN) for a player the decklist does not name. A decklist row
      with an empty Deck cell stores NaN for its player, so the map holds an
      optional deck and the lookup returns what is stored. */
  function DeckOf(deckMap: map<string, Option<string>>, player: string): Option<string> {
    if player in deckMap then deckMap[player] else None
  }

  /** The deck a side of a round-`round` match carries once lines 59-65 ran. */
  function DeckLabel(deckMap: map<string, Option<string>>, round: int, player: string): Option<string> {
    if IsDraftRound(round) then Some(Draft) else DeckOf(deckMap, player)
  }

  /** Row `i` of the decklist is the last one naming `player`. */
  predicate LastEntryFor(decklist: seq<(string, Option<string>)>, player: string, i: int) {
    0 <= i < |decklist| && decklist[i].0 == player
    && forall j :: i < j < |decklist| ==> decklist[j].0 != player
  }

  /** What a side's deck label is, in terms of the decklist rows: DRAFT in a
      draft round; otherwise the Deck cell of the LAST decklist row naming
      the player (nothing when that cell is empty), or nothing when no row
      names the player. */
  lemma DeckLabelFromDecklist(decklist: seq<(string, Option<string>)>, round: int, player: string)
    ensures IsDraftRound(round) ==> DeckLabel(DictOf(decklist), round, player) == Some(Draft)
    ensures !IsDraftRound(round) && (forall i :: 0 <= i < |decklist| ==> decklist[i].0 != player) ==>
      DeckLabel(DictOf(decklist), round, player) == None
    ensures forall i :: !IsDraftRound(round) && LastEntryFor(decklist, player, i) ==>
      DeckLabel(DictOf(decklist), round, player) == decklist[i].1
  {
    DictOfSpec(decklist);
    if player in DictOf(decklist) {
      assert player in set i | 0 <= i < |decklist| :: decklist[i].0;
    } else {
      forall i | 0 <= i < |decklist| ensures decklist[i].0 != player {
        assert decklist[i].0 in set i | 0 <= i < |decklist| :: decklist[i].0;
      }
    }
  }

  /** A later decklist row with an empty Deck cell overrides an earlier
      real deck for the same player, outside the draft rounds. */
  lemma EmptyLaterDeckOverrides()
    ensures DeckLabel(DictOf([("Lee Min", Some("Mono Red")), ("Lee Min", None)]), 4, "Lee Min") == None
    ensures DeckLabel(DictOf([("Lee Min", Some("Mono Red")), ("Lee Min", None)]), 2, "Lee Min") == Some(Draft)
  {
    var decklist: seq<(string, Option<string>)> := [("Lee Min", Some("Mono Red")), ("Lee Min", None)];
    DeckLabelFromDecklist(decklist, 4, "Lee Min");
    DeckLabelFromDecklist(decklist, 2, "Lee Min");
    assert LastEntryFor(decklist, "Lee Min", 1);
  }

  /** The Player_A and Player_B columns. */
  function ColumnA(records: seq<Match>): (c: seq<string>)
    ensures |c| == |records| && forall i :: 0 <= i < |records| ==> c[i] == records[i].playerA
  {
    seq(|records|, i requires 0 <= i < |records| => records[i].playerA)
  }

  function ColumnB(records: seq<Match>): (c: seq<string>)
    ensures |c| == |records| && forall i :: 0 <= i < |records| ==> c[i] == records[i].playerB
  {
    seq(|records|, i requires 0 <= i < |records| => records[i].playerB)
  }

  /** `players`: every name of the Player_A column, then of the Player_B
      column, once each, in order of first appearance. */
  function Players(records: seq<Match>): seq<string> {
    Distinct(ColumnA(records) + ColumnB(records))
  }

  /** `decks`: likewise over Deck_A then Deck_B; a missing deck is one label. */
  function Decks(deckA: seq<Option<string>>, deckB: seq<Option<string>>): seq<Option<string>> {
    Distinct(deckA + deckB)
  }

  /** Every entry of either column is among the distinct labels of both. */
  lemma ColumnsInLabels<T>(colA: seq<T>, colB: seq<T>)
    ensures forall i :: 0 <= i < |colA| ==> colA[i] in Distinct(colA + colB)
    ensures forall i :: 0 <= i < |colB| ==> colB[i] in Distinct(colA + colB)
  {
    forall i | 0 <= i < |colA| ensures colA[i] in Distinct(colA + colB) {
      assert (colA + colB)[i] == colA[i];
    }
    forall i | 0 <= i < |colB| ensures colB[i] in Distinct(colA + colB) {
      assert (colA + colB)[|colA| + i] == colB[i];
    }
  }

  class MatchFrame {
    /** The columns Player_A, Player_B, Winner, Outcome and Round. */
    var records: seq<Match>
    /** Deck_A and Deck_B, empty until assigned. */
    var deckA: seq<Option<string>>
    var deckB: seq<Option<string>>
    /** player_A_idx, player_B_idx, deck_A_idx, deck_B_idx, empty until assigned. */
    var playerAIdx: seq<nat>
    var playerBIdx: seq<nat>
    var deckAIdx: seq<nat>
    var deckBIdx: seq<nat>

    /** The deck columns are present, one cell per match. */
    ghost predicate HasDecks()
      reads this
    {
      |deckA| == |records| && |deckB| == |records|
    }

    /** The table made from the collected records (analysis.py:55). */
    constructor (matchData: seq<Match>)
      ensures records == matchData
      ensures deckA == [] && deckB == []
      ensures playerAIdx == [] && playerBIdx == [] && deckAIdx == [] && deckBIdx == []
    {
      records := matchData;
      deckA, deckB := [], [];
      playerAIdx, playerBIdx, deckAIdx, deckBIdx := [], [], [], [];
    }

    /** Adds the two deck columns by looking up each side's player in the
        deck map (analysis.py:59-60). */
    method MapDecks(deckMap: map<string, Option<string>>)
      modifies this
      ensures HasDecks()
      ensures forall i :: 0 <= i < |records| ==>
        deckA[i] == DeckOf(deckMap, records[i].playerA) && deckB[i] == DeckOf(deckMap, records[i].playerB)
      ensures records == old(records)
      ensures playerAIdx == old(playerAIdx) && playerBIdx == old(playerBIdx)
      ensures deckAIdx == old(deckAIdx) && deckBIdx == old(deckBIdx)
    {
      var rs := records;
      deckA := seq(|rs|, i requires 0 <= i < |rs| => DeckOf(deckMap, rs[i].playerA));
      deckB := seq(|rs|, i requires 0 <= i < |rs| => DeckOf(deckMap, rs[i].playerB));
    }

    /** Overwrites both deck cells with DRAFT on every row whose round is a
        draft round (analysis.py:63-65). */
    method OverrideDraftRounds()
      requires HasDecks()
      modifies this
      ensures records == old(records) && HasDecks()
      ensures forall i :: 0 <= i < |records| ==>
        deckA[i] == (if IsDraftRound(records[i].round) then Some(Draft) else old(deckA[i]))
      ensures forall i :: 0 <= i < |records| ==>
        deckB[i] == (if IsDraftRound(records[i].round) then Some(Draft) else old(deckB[i]))
      ensures playerAIdx == old(playerAIdx) && playerBIdx == old(playerBIdx)
      ensures deckAIdx == old(deckAIdx) && deckBIdx == old(deckBIdx)
    {
      var rs, da, db := records, deckA, deckB;
      deckA := seq(|rs|, i requires 0 <= i < |rs| && |da| == |rs| =>
        if IsDraftRound(rs[i].round) then Some(Draft) else da[i]);
      deckB := seq(|rs|, i requires 0 <= i < |rs| && |db| == |rs| =>
        if IsDraftRound(rs[i].round) then Some(Draft) else db[i]);
    }

    /** The label lists, their index maps and the four index columns
        (analysis.py:72-81). Every index is in range and names its label. */
    method AssignIndices() returns (players: seq<string>, decks: seq<Option<string>>)
      requires HasDecks()
      modifies this
      ensures records == old(records) && deckA == old(deckA) && deckB == old(deckB)
      ensures players == Players(records) && decks == Decks(deckA, deckB)
      ensures |playerAIdx| == |records| && |playerBIdx| == |records|
      ensures |deckAIdx| == |records| && |deckBIdx| == |records|
      ensures forall i :: 0 <= i < |records| ==>
        && playerAIdx[i] < |players| && players[playerAIdx[i]] == records[i].playerA
        && playerBIdx[i] < |players| && players[playerBIdx[i]] == records[i].playerB
        && deckAIdx[i] < |decks| && decks[deckAIdx[i]] == deckA[i]
        && deckBIdx[i] < |decks| && decks[deckBIdx[i]] == deckB[i]
    {
      var rs, da, db := records, deckA, deckB;
      var colA, colB := ColumnA(rs), ColumnB(rs);
      players := Distinct(colA + colB);
      decks := Distinct(da + db);
      var playerToIdx := IndexMap(players);
      var deckToIdx := IndexMap(decks);
      ColumnsInLabels(colA, colB);
      ColumnsInLabels(da, db);
      IndexColumn(players, colA);
      IndexColumn(players, colB);
      IndexColumn(decks, da);
      IndexColumn(decks, db);
      playerAIdx := MapColumn(playerToIdx, colA);
      playerBIdx := MapColumn(playerToIdx, colB);
      deckAIdx := MapColumn(deckToIdx, da);
      deckBIdx := MapColumn(deckToIdx, db);
    }
  }

  /** analysis.py:25-81 end to end: the sheets r1 … r16 and the decklist rows
      give the labelled, indexed match table and the two label lists. */
  method PrepareMatches(sheets: seq<seq<Row>>, decklist: seq<(string, Option<string>)>)
    returns (frame: MatchFrame, players: seq<string>, decks: seq<Option<string>>)
    requires |sheets| == Collect.LastRound
    ensures fresh(frame)
    ensures frame.records == Collect.Matches(sheets)
    ensures frame.HasDecks()
    ensures forall i :: 0 <= i < |frame.records| ==>
      && frame.deckA[i] == DeckLabel(DictOf(decklist), frame.records[i].round, frame.records[i].playerA)
      && frame.deckB[i] == DeckLabel(DictOf(decklist), frame.records[i].round, frame.records[i].playerB)
    ensures players == Players(frame.records) && decks == Decks(frame.deckA, frame.deckB)
    ensures |frame.playerAIdx| == |frame.records| && |frame.playerBIdx| == |frame.records|
    ensures |frame.deckAIdx| == |frame.records| && |frame.deckBIdx| == |frame.records|
    ensures forall i :: 0 <= i < |frame.records| ==>
      && frame.playerAIdx[i] < |players| && players[frame.playerAIdx[i]] == frame.records[i].playerA
      && frame.playerBIdx[i] < |players| && players[frame.playerBIdx[i]] == frame.records[i].playerB
      && frame.deckAIdx[i] < |decks| && decks[frame.deckAIdx[i]] == frame.deckA[i]
      && frame.deckBIdx[i] < |decks| && decks[frame.deckBIdx[i]] == frame.deckB[i]
    ensures NoDuplicates(players) && NoDuplicates(decks)
    ensures forall i :: 0 <= i < |frame.records| && IsDraftRound(frame.records[i].round) ==>
      frame.deckAIdx[i] == frame.deckBIdx[i]
  {
    var matchData := Collect.CollectMatches(sheets);
    frame := new MatchFrame(matchData);
    var deckMap := DictOf(decklist);
    frame.MapDecks(deckMap);
    frame.OverrideDraftRounds();
    players, decks := frame.AssignIndices();
  }
}
