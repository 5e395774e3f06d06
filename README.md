# Match extraction of the Pro Tour analysis script

A Dafny model of the data-preparation core of `analysis.py`. The script
reads the round sheets r1 … r16 of a Pro Tour results workbook and builds
one match record per decisive game. A row is dropped when:

- a name or the result cell is empty;
- the result text contains one of the substrings draw, forfeited, awarded,
  assigned or bye, in any letter case (a result reading "forfeits" is kept);
- the text does not begin "<winner> won";
- the winner is neither player.

For a kept row the script:

- turns "Last, First" names into "First Last";
- attaches each side's deck from the decklist;
- overrides both decks with DRAFT in the draft rounds 1-3 and 9-11;
- numbers players and decks in order of first appearance.

The model also covers the linear predictor of the Bayesian model: player
skill plus deck strength, side A minus side B.

Modules:

- `Options`: the optional value, used for an empty cell, a failed match and
  a player without a deck.
- `Text`: Python's `strip`, `split` and `join`, the case-insensitive
  keyword search, and the name normaliser.
- `Results`: the row and record types, the row filter, the
  `(.+?) won` parser, and the record a row yields.
- `Collect`: the loop over rounds and rows. It is written as two methods
  (`CollectMatches`, `CollectRound`), each proved equal to the functions
  `Matches` and `RoundRecords` that specify it.
- `Indexing`:
  - `dict(zip(...))` and dict comprehensions: the last pair for a key wins.
  - `pd.unique`.
  - The label-to-position maps.
- `Frame`: the `matches_df` table as a class whose columns the methods
  reassign in place, as the script's column assignments do, plus the
  end-to-end `PrepareMatches`.
- `Predictor`: the linear predictor over reals.

The model keeps the script's behaviour where it is surprising:

- The keyword filter looks at the whole result text, player names included.
  `KeywordInsideNameDropsRow` shows that "Byeon, Jun won 2-1-0" is
  discarded, because "Byeon" contains "bye".
- The parsed winner is compared with the stripped raw names before they are
  normalised.
- A player the decklist does not name, or whose last decklist row has an
  empty Deck cell, gets no deck label (NaN) outside the draft rounds.

## Model

| member | source | states |
|---|---|---|
| Text.TrimStartSpec | analysis.py:39-41 | stripping the front removes exactly the leading run of whitespace: the result is a suffix of the input, does not start with whitespace, and everything cut off is whitespace |
| Text.TrimEndSpec | analysis.py:39-41 | the same for the trailing run: a prefix that does not end with whitespace, only whitespace removed |
| Text.StripSpec | analysis.py:39-41 | `strip()` returns the slice of the input left after cutting whitespace at both ends; the slice neither starts nor ends with whitespace and all that was removed is whitespace (Python's `isspace` set) |
| Text.StripIdempotent | analysis.py:39-41 | stripping a stripped string changes nothing |
| Text.FindFrom | analysis.py:49-51 | the search `split` performs: the first index at or after `from` where the separator occurs, or none when it occurs nowhere after `from` |
| Text.SplitJoin | analysis.py:49-51 | `split(sep)` returns at least one piece, no piece contains the separator, and joining the pieces with the separator gives back the string |
| Text.SplitFirstPiece | analysis.py:49-51 | the first piece of `split` is a prefix of the string in which no occurrence of the separator starts, there is a second piece exactly when the separator follows it, and the remaining pieces are the split of the text after that occurrence: the scan is left to right, which fixes every piece |
| Text.Reversed | analysis.py:49-51 | `reversed` puts element `i` at position `len - 1 - i` and keeps the length |
| Text.ContainsIgnoreCaseFrom | analysis.py:32-33 | the case-insensitive search answers true exactly when the word occurs at some index at or after `from` with case ignored |
| Text.NormaliseWithoutSeparator | analysis.py:49-51 | a name without ", " is left unchanged by the reversal and join |
| Text.NormaliseLastFirst | analysis.py:49-51 | "Last, First", with neither part holding ", ", becomes "First Last" |
| Results.LazyGroupEnd | analysis.py:37 | the lazy group `.+?` ends at the first index from `k` on that is followed by " won" with no newline before it, and fails exactly when no such index exists |
| Results.ParseWinnerSpec | analysis.py:37-39 | the pattern fails exactly when no group end is followed by " won"; when it matches, the winner is the stripped text before the shortest such end |
| Results.RecordOf | analysis.py:35-53 | every record a row yields has the sheet's round, an outcome of 0 or 1, and the winner equal to Player_A when the outcome is 1 and to Player_B when it is 0 |
| Results.RecordOfCases | analysis.py:31-53 | a row yields a record only when it passes the filter and the pattern matches, and then exactly when the winner equals one of the stripped names; outcome 1 exactly when it equals Player_A, 0 exactly when it equals Player_B but not Player_A; the stored names are the normalised stripped names |
| Results.KeywordInsideNameDropsRow | analysis.py:32-39 | "Byeon, Jun won 2-1-0" parses with winner "Byeon, Jun", and its row is still dropped because the keyword search finds "bye" in the name |
| Collect.RoundRecordsAppend | analysis.py:35-53 | the records of two runs of rows are the records of the first run followed by those of the second |
| Collect.RoundRecordsFromRows | analysis.py:35-53 | a record belongs to a sheet's records exactly when some row of that sheet yields it |
| Collect.SkippedRowContributesNothing | analysis.py:31-38 | a row the filter drops, or whose result does not match the pattern, can be removed without changing the sheet's records |
| Collect.RoundRecordsWellFormed | analysis.py:42-53 | every record of a sheet is well formed and carries that sheet's round |
| Collect.MatchesWellFormed | analysis.py:25-53 | every record of `match_data` is well formed, with a round between 1 and the number of sheets read |
| Collect.MatchesOrderedByRound | analysis.py:26-53 | `match_data` is ordered by round |
| Collect.MatchesOfRound | analysis.py:26-53 | the records of `match_data` from round r are exactly the records of sheet r, in row order |
| Collect.MatchesPrefix | analysis.py:25-53 | reading later sheets never changes the records already collected: the records of the first r sheets are a prefix of `match_data` |
| Collect.CollectRound | analysis.py:35-53 | the row loop appends to `match_data` exactly the sheet's records, in row order |
| Collect.CollectMatches | analysis.py:25-53 | the loop over rounds 1 … 16 produces `Matches(sheets)`, the records of every sheet in round order |
| Indexing.DictOfSpec | analysis.py:58 | the keys of `dict(pairs)` are exactly the keys of the pairs, and each key holds the value of the last pair naming it |
| Indexing.Distinct | analysis.py:72-73 | `unique()` has no duplicates and contains every value of its input |
| Indexing.DistinctFromInput | analysis.py:72-73 | every value of `unique()` comes from its input |
| Indexing.DistinctFirstAppearanceOrder | analysis.py:72-73 | of two distinct labels, the earlier one first appears earlier in the input |
| Indexing.IndexMapBijection | analysis.py:75-76 | for labels without duplicates, the map from each label to its position sends `labels[i]` to `i`, and every key maps to a position holding that key |
| Indexing.IndexColumn | analysis.py:78-81 | mapping a column of labels through the index map gives, for each entry, a position of the labels holding that entry |
| Frame.DeckLabelFromDecklist | analysis.py:58-65 | a side's deck is DRAFT in a draft round; otherwise it is the Deck cell of the last decklist row naming the player (missing when that cell is empty), or missing when no row names the player |
| Frame.EmptyLaterDeckOverrides | analysis.py:58-60 | a later decklist row with an empty Deck cell overrides an earlier real deck for the same player: outside a draft round that player's deck is missing |
| Frame.ColumnsInLabels | analysis.py:72-73 | every entry of either column is among the distinct labels of both columns |
| Frame.MatchFrame.constructor | analysis.py:55 | the table holds `match_data` and no deck or index column yet |
| Frame.MatchFrame.MapDecks | analysis.py:59-60 | Deck_A and Deck_B hold the mapped deck of Player_A and Player_B, row by row; no other column changes |
| Frame.MatchFrame.OverrideDraftRounds | analysis.py:63-65 | both deck columns become DRAFT on the rows of a draft round and keep their value elsewhere; no other column changes |
| Frame.MatchFrame.AssignIndices | analysis.py:72-81 | the label lists are the distinct players and decks; every index column has one entry per row, in range, naming the row's own player or deck; the other columns are unchanged |
| Frame.PrepareMatches | analysis.py:25-81 | the table holds `Matches(sheets)`, each deck cell is `DeckLabel` of its side, every index names its row's label, the label lists have no duplicates, and both sides of a draft-round match share one deck index |
| Predictor.PredictorOnTable | analysis.py:85-89 | on the table and label lists `PrepareMatches` produces, with one skill per player and one strength per deck, every index is in range and value `i` is the skill of row `i`'s Player_A plus the strength of its Deck_A, minus the same for side B, each read at that label's position in the label list; in a draft round the value is the skill difference alone |
| Predictor.SwapSidesNegates | analysis.py:88-89 | exchanging the two sides of every match negates every predictor value |
| Predictor.ShiftInvariant | analysis.py:88-89 | adding one constant to every skill and another to every deck strength leaves every predictor value unchanged |
| Predictor.SameDeckCancels | analysis.py:88-89 | when both sides carry the same deck label, as in every draft round, the deck strengths cancel and the value is the skill difference |

## Left out

- Reading the workbook: `pd.read_excel`, `skiprows=1` and the renaming of the columns are replaced by the parameter `sheets`. It holds, for each of the rounds 1 … 16, the rows as three optional text cells. The unused `vs` column is dropped.
- Cells that pandas reads as numbers or dates rather than text are not modelled. Every non-empty cell is a string.
- Reading the decklist sheet (analysis.py:17-21) is replaced by the parameter `decklist`: its rows as (player, optional deck) pairs, so an empty Deck cell is kept and stored as a missing deck. A row whose Player cell is empty or not text is not represented. The script would store it under a NaN key, which equals no player name of the match table and so changes no deck label.
- The keyword filter runs on the whole sheet before the row loop in the script. Here it is applied to each row inside the loop. The surviving rows and their order are the same.
- Text.ContainsIgnoreCaseFrom: case is folded for ASCII letters only. Python's regex matching with `case=False` also folds a few non-ASCII characters onto these keywords (such as U+017F onto "s").
- When no record survives, the script's empty `DataFrame` has no columns and the column lookups raise `KeyError`. The model yields an empty table instead.
- A missing deck is `None`. `unique()` and the dict lookups treat it as one label, as pandas treats NaN.
- Frame.MatchFrame.AssignIndices: does not state that the index columns equal the dict lookups of analysis.py:78-81. It states what those lookups mean instead: each index is in range and names the row's own label.
- The Bayesian model itself (analysis.py:84-94) is left out, because it relies on floating point and random sampling. This covers the normal priors, the sigmoid link, the Bernoulli likelihood and the sampler. Skills and strengths enter the predictor as given reals.
- The posterior relabelling, the forest plots and the saved images (analysis.py:96-135) are output only.
