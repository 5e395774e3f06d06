/** The linear predictor of the Bayesian model (analysis.py:88-89): for each
    match, the skill of player A plus the strength of A's deck, minus the
    same for side B. The priors, the sigmoid link and the sampler are not
    part of this model; skills and strengths are given as reals. */
module Predictor {
  import opened Options
  import opened Results
  import opened Indexing
  import opened Frame

  /** `skill[a] + strength[da] - (skill[b] + strength[db])` for one match. */
  function SkillDiff(skill: seq<real>, strength: seq<real>, a: nat, da: nat, b: nat, db: nat): real
    requires a < |skill| && b < |skill| && da < |strength| && db < |strength|
  {
    (skill[a] + strength[da]) - (skill[b] + strength[db])
  }

  /** Every index of the four columns points into the skill or strength vector. */
  predicate IndicesInRange(skill: seq<real>, strength: seq<real>,
                           pA: seq<nat>, dA: seq<nat>, pB: seq<nat>, dB: seq<nat>)
  {
    && |dA| == |pA| && |pB| == |pA| && |dB| == |pA|
    && (forall i :: 0 <= i < |pA| ==> pA[i] < |skill| && pB[i] < |skill|)
    && (forall i :: 0 <= i < |pA| ==> dA[i] < |strength| && dB[i] < |strength|)
  }

  /** `skill_diff` over the index columns: one value per match. */
  function SkillDiffs(skill: seq<real>, strength: seq<real>,
                      pA: seq<nat>, dA: seq<nat>, pB: seq<nat>, dB: seq<nat>): (d: seq<real>)
    requires IndicesInRange(skill, strength, pA, dA, pB, dB)
    ensures |d| == |pA|
    ensures forall i :: 0 <= i < |pA| ==> d[i] == SkillDiff(skill, strength, pA[i], dA[i], pB[i], dB[i])
  {
    seq(|pA|, i requires 0 <= i < |pA| => SkillDiff(skill, strength, pA[i], dA[i], pB[i], dB[i]))
  }

  /** Every value shifted by `c`. */
  function Shift(xs: seq<real>, c: real): (ys: seq<real>)
    ensures |ys| == |xs| && forall i :: 0 <= i < |xs| ==> ys[i] == xs[i] + c
  {
    seq(|xs|, i requires 0 <= i < |xs| => xs[i] + c)
  }

  /** Exchanging the two sides of every match negates every predictor value. */
  lemma SwapSidesNegates(skill: seq<real>, strength: seq<real>,
                         pA: seq<nat>, dA: seq<nat>, pB: seq<nat>, dB: seq<nat>)
    requires IndicesInRange(skill, strength, pA, dA, pB, dB)
    ensures IndicesInRange(skill, strength, pB, dB, pA, dA)
    ensures var d, e := SkillDiffs(skill, strength, pA, dA, pB, dB), SkillDiffs(skill, strength, pB, dB, pA, dA);
      forall i :: 0 <= i < |d| ==> e[i] == -d[i]
  {
  }

  /** The predictor only sees differences: adding one constant to every
      player skill and another to every deck strength changes no value. */
  lemma ShiftInvariant(skill: seq<real>, strength: seq<real>, c: real, k: real,
                       pA: seq<nat>, dA: seq<nat>, pB: seq<nat>, dB: seq<nat>)
    requires IndicesInRange(skill, strength, pA, dA, pB, dB)
    ensures IndicesInRange(Shift(skill, c), Shift(strength, k), pA, dA, pB, dB)
    ensures SkillDiffs(Shift(skill, c), Shift(strength, k), pA, dA, pB, dB) == SkillDiffs(skill, strength, pA, dA, pB, dB)
  {
    var d, e := SkillDiffs(skill, strength, pA, dA, pB, dB), SkillDiffs(Shift(skill, c), Shift(strength, k), pA, dA, pB, dB);
    assert |d| == |e|;
    forall i | 0 <= i < |d| ensures e[i] == d[i] {
      assert Shift(skill, c)[pA[i]] == skill[pA[i]] + c && Shift(skill, c)[pB[i]] == skill[pB[i]] + c;
      assert Shift(strength, k)[dA[i]] == strength[dA[i]] + k && Shift(strength, k)[dB[i]] == strength[dB[i]] + k;
    }
  }

  /** When both sides carry the same deck label — every match of a draft
      round, where both are DRAFT — the two deck indices coincide, because
      the deck labels are distinct, so the predictor is the skill difference
      alone whatever the deck strengths are. */
  lemma SameDeckCancels<D>(skill: seq<real>, strength: seq<real>, decks: seq<D>,
                        a: nat, da: nat, b: nat, db: nat)
    requires a < |skill| && b < |skill| && da < |strength| && db < |strength|
    requires NoDuplicates(decks) && da < |decks| && db < |decks| && decks[da] == decks[db]
    ensures SkillDiff(skill, strength, a, da, b, db) == skill[a] - skill[b]
  {
  }

  /** The predictor over the prepared table (analysis.py:85-89). The facts
      assumed here are those `PrepareMatches` guarantees about its table and
      label lists, and the two vectors have one entry per player and one per
      deck. Then every index is in range, and value `i` reads the skill of
      the players named in row `i` and the strength of the decks that row
      carries, each found at that label's position in the label list. In a
      draft round the deck strengths drop out. */
  lemma PredictorOnTable(records: seq<Match>, deckA: seq<Option<string>>, deckB: seq<Option<string>>,
                         players: seq<string>, decks: seq<Option<string>>,
                         pA: seq<nat>, dA: seq<nat>, pB: seq<nat>, dB: seq<nat>,
                         skill: seq<real>, strength: seq<real>)
    requires |deckA| == |records| && |deckB| == |records|
    requires |pA| == |records| && |pB| == |records| && |dA| == |records| && |dB| == |records|
    requires NoDuplicates(players) && NoDuplicates(decks)
    requires forall i :: 0 <= i < |records| ==>
      && pA[i] < |players| && players[pA[i]] == records[i].playerA
      && pB[i] < |players| && players[pB[i]] == records[i].playerB
      && dA[i] < |decks| && decks[dA[i]] == deckA[i]
      && dB[i] < |decks| && decks[dB[i]] == deckB[i]
    requires forall i :: 0 <= i < |records| && IsDraftRound(records[i].round) ==> dA[i] == dB[i]
    requires |skill| == |players| && |strength| == |decks|
    ensures IndicesInRange(skill, strength, pA, dA, pB, dB)
    ensures forall i :: 0 <= i < |records| ==>
      && records[i].playerA in IndexMap(players) && records[i].playerB in IndexMap(players)
      && deckA[i] in IndexMap(decks) && deckB[i] in IndexMap(decks)
      && IndexMap(players)[records[i].playerA] < |skill| && IndexMap(players)[records[i].playerB] < |skill|
      && IndexMap(decks)[deckA[i]] < |strength| && IndexMap(decks)[deckB[i]] < |strength|
      && SkillDiffs(skill, strength, pA, dA, pB, dB)[i]
         == (skill[IndexMap(players)[records[i].playerA]] + strength[IndexMap(decks)[deckA[i]]])
          - (skill[IndexMap(players)[records[i].playerB]] + strength[IndexMap(decks)[deckB[i]]])
    ensures forall i :: 0 <= i < |records| && IsDraftRound(records[i].round) ==>
      SkillDiffs(skill, strength, pA, dA, pB, dB)[i] == skill[pA[i]] - skill[pB[i]]
  {
    IndexMapBijection(players);
    IndexMapBijection(decks);
    var d := SkillDiffs(skill, strength, pA, dA, pB, dB);
    forall i | 0 <= i < |records|
      ensures && records[i].playerA in IndexMap(players) && records[i].playerB in IndexMap(players)
              && deckA[i] in IndexMap(decks) && deckB[i] in IndexMap(decks)
              && IndexMap(players)[records[i].playerA] == pA[i] && IndexMap(players)[records[i].playerB] == pB[i]
              && IndexMap(decks)[deckA[i]] == dA[i] && IndexMap(decks)[deckB[i]] == dB[i]
    {
    }
  }
}
