/**
 * The shaped rewards of the engine's pick and drop actions, as the
 * expressions over before/after stash scores and distinct-value counts that
 * the engine evaluates, and what they come to for the card picked or dropped.
 */
module Rewards {
  import opened Cards
  import opened Hands

  /** Reward for a pick: 100 on a meld, else 80 if the distinct values did not change, else -3 × score change. */
  function PickReward(melded: bool, before: seq<Card>, after: seq<Card>): int
  {
    if melded then 100
    else if |Values(after)| == |Values(before)| then 80
    else -3 * (Score(after) - Score(before))
  }

  /** Reward for a drop: -80 if the distinct values did not change, else -3 × score change. */
  function DropReward(before: seq<Card>, after: seq<Card>): int
  {
    if |Values(before)| == |Values(after)| then -80
    else -3 * (Score(after) - Score(before))
  }

  /**
   * Picking `c`: without a meld, the reward is 80 when a card of the same
   * value is already held and otherwise -3 times the value of `c`.
   */
  lemma PickRewardValue(melded: bool, s: seq<Card>, c: Card)
    ensures PickReward(melded, s, s + [c]) ==
      if melded then 100 else if c.RankToVal() in Values(s) then 80 else -3 * c.RankToVal()
  {
    DistinctAfterAppend(s, c);
    ScoreAppend(s, [c]);
    assert Score([c]) == c.RankToVal();
  }

  /**
   * Dropping a held card `c`: the reward is -80 when another held card has
   * the same value and otherwise 3 times the value of `c`.
   */
  lemma DropRewardValue(s: seq<Card>, c: Card)
    requires c in s
    ensures DropReward(s, RemoveFirst(s, c)) ==
      if c.RankToVal() in Values(RemoveFirst(s, c)) then -80 else 3 * c.RankToVal()
  {
    DistinctAfterRemove(s, c);
    ScoreRemove(s, c);
  }

  /** With dealt cards (values 1 to 7) a pick earns 100, 80, or between -21 and -3. */
  lemma PickRewardRange(melded: bool, s: seq<Card>, c: Card)
    requires c.rank in Ranks
    ensures var r := PickReward(melded, s, s + [c]);
      r == 100 || r == 80 || -21 <= r <= -3
  {
    PickRewardValue(melded, s, c);
  }

  /** With dealt cards a drop earns -80, or between 3 and 21. */
  lemma DropRewardRange(s: seq<Card>, c: Card)
    requires c in s && c.rank in Ranks
    ensures var r := DropReward(s, RemoveFirst(s, c));
      r == -80 || 3 <= r <= 21
  {
    DropRewardValue(s, c);
  }
}
