/**
 * The action choice of the tabular learner: epsilon-greedy over a row of the
 * action-value table. The table is indexed by the values (1 to 7) of the
 * first four cards held, then by a pick action (0 or 1) and a drop action
 * (0 to 3). A pick reads the row over the pick axis with drop action 0; a
 * drop reads the row over the drop axis with pick action 0.
 */
module Learner {

  /** Table entries are reals: floating-point rounding is not modelled. */
  type QTable = (nat, nat, nat, nat, nat, nat) -> real

  datatype ActionKind = Pick | Drop

  /** The number of actions of a kind: two for a pick, four for a drop. */
  function ActionCount(kind: ActionKind): nat
  {
    match kind
    case Pick => 2
    case Drop => 4
  }

  /** A state the table can index: four card values from 1 to 7. */
  predicate IsState(s: seq<nat>)
  {
    |s| == 4 && forall i :: 0 <= i < 4 ==> 1 <= s[i] <= 7
  }

  /** The row of the table that the greedy choice scans for a state and an action kind. */
  function Row(q: QTable, s: seq<nat>, kind: ActionKind): (row: seq<real>)
    requires IsState(s)
    ensures |row| == ActionCount(kind)
  {
    var i0, i1, i2, i3 := s[0] - 1, s[1] - 1, s[2] - 1, s[3] - 1;
    match kind
    case Pick => [q(i0, i1, i2, i3, 0, 0), q(i0, i1, i2, i3, 1, 0)]
    case Drop => [q(i0, i1, i2, i3, 0, 0), q(i0, i1, i2, i3, 0, 1), q(i0, i1, i2, i3, 0, 2), q(i0, i1, i2, i3, 0, 3)]
  }

  /** `k` holds the row's maximum, and no earlier position does. */
  predicate IsFirstMax(row: seq<real>, k: nat)
  {
    && k < |row|
    && (forall j :: 0 <= j < |row| ==> row[j] <= row[k])
    && (forall j :: 0 <= j < k ==> row[j] < row[k])
  }

  /** The first position that attains the row's maximum. */
  function FirstArgMax(row: seq<real>): (k: nat)
    requires row != []
    ensures IsFirstMax(row, k)
  {
    if |row| == 1 then 0
    else
      var n := |row| - 1;
      var k := FirstArgMax(row[..n]);
      assert forall j :: 0 <= j < n ==> row[..n][j] == row[j];
      if row[n] > row[k] then n else k
  }

  /** There is only one first maximum, so the greedy choice is the only one. */
  lemma FirstMaxUnique(row: seq<real>, k: nat, m: nat)
    requires IsFirstMax(row, k) && IsFirstMax(row, m)
    ensures k == m
  {
    assert row[k] <= row[m] && row[m] <= row[k];
  }

  /**
   * The choice for state `s`: when the uniform sample `u` falls below
   * `epsilon`, the random action `randomIndex`; otherwise the first action
   * with the largest table value.
   */
  function EpsilonGreed(q: QTable, epsilon: real, s: seq<nat>, kind: ActionKind, u: real, randomIndex: nat): (index: nat)
    requires IsState(s)
    requires u < epsilon ==> randomIndex < ActionCount(kind)
    ensures index < ActionCount(kind)
    ensures u < epsilon ==> index == randomIndex
    ensures u >= epsilon ==> IsFirstMax(Row(q, s, kind), index)
  {
    if u < epsilon then randomIndex else FirstArgMax(Row(q, s, kind))
  }

  /**
   * With epsilon 0 and samples from [0, 1) the choice is greedy and does not
   * depend on the random draws at all.
   */
  lemma GreedyWhenEpsilonZero(q: QTable, s: seq<nat>, kind: ActionKind, u1: real, r1: nat, u2: real, r2: nat)
    requires IsState(s) && 0.0 <= u1 && 0.0 <= u2
    ensures EpsilonGreed(q, 0.0, s, kind, u1, r1) == EpsilonGreed(q, 0.0, s, kind, u2, r2)
    ensures IsFirstMax(Row(q, s, kind), EpsilonGreed(q, 0.0, s, kind, u1, r1))
  {
    FirstMaxUnique(Row(q, s, kind), EpsilonGreed(q, 0.0, s, kind, u1, r1), EpsilonGreed(q, 0.0, s, kind, u2, r2));
  }
}
