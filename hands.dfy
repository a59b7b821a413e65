/**
 * Pure facts about a stash, the ordered list of cards a player holds:
 * its score, the set of rank values in it, and Python's `list.remove`.
 */
module Hands {
  import opened Cards

  /** The stash score: the sum of the values of the cards held. */
  function Score(s: seq<Card>): int
  {
    if s == [] then 0 else s[0].RankToVal() + Score(s[1..])
  }

  lemma {:induction false} ScoreAppend(s: seq<Card>, t: seq<Card>)
    ensures Score(s + t) == Score(s) + Score(t)
  {
    if s == [] {
      assert s + t == t;
    } else {
      assert (s + t)[1..] == s[1..] + t;
      ScoreAppend(s[1..], t);
    }
  }

  /** Every card held adds at least 1 and at most 10. */
  lemma {:induction false} ScoreBounds(s: seq<Card>)
    ensures |s| <= Score(s) <= 10 * |s|
  {
    if s != [] {
      ScoreBounds(s[1..]);
    }
  }

  /** The distinct rank values in a stash (`set(card.rank_to_val for card in stash)`). */
  function Values(s: seq<Card>): set<nat>
  {
    set c | c in s :: c.RankToVal()
  }

  lemma ValuesConcat(s: seq<Card>, t: seq<Card>)
    ensures Values(s + t) == Values(s) + Values(t)
  {
    assert forall d :: d in s + t <==> d in s || d in t;
  }

  lemma ValuesAppend(s: seq<Card>, c: Card)
    ensures Values(s + [c]) == Values(s) + {c.RankToVal()}
  {
    ValuesConcat(s, [c]);
    assert Values([c]) == {c.RankToVal()};
  }

  /**
   * Picking a card leaves the number of distinct values unchanged exactly
   * when its value is already held.
   */
  lemma DistinctAfterAppend(s: seq<Card>, c: Card)
    ensures |Values(s + [c])| == |Values(s)| <==> c.RankToVal() in Values(s)
  {
    ValuesAppend(s, c);
    if c.RankToVal() !in Values(s) {
      assert |Values(s) + {c.RankToVal()}| == |Values(s)| + 1;
    } else {
      assert Values(s) + {c.RankToVal()} == Values(s);
    }
  }

  /**
   * `list.remove(c)` on a list holding `c`: drop the first card equal to `c`.
   * Removing a card not held is an error, outside what this function
   * describes; every member that removes a card requires it to be held.
   */
  function RemoveFirst(s: seq<Card>, c: Card): seq<Card>
  {
    if s == [] then []
    else if s[0] == c then s[1..]
    else [s[0]] + RemoveFirst(s[1..], c)
  }

  /** The index of the first card equal to `c`. */
  function FirstIndex(s: seq<Card>, c: Card): (k: nat)
    requires c in s
    ensures k < |s| && s[k] == c
    ensures forall j :: 0 <= j < k ==> s[j] != c
  {
    if s[0] == c then 0 else 1 + FirstIndex(s[1..], c)
  }

  /** Removal cuts the first occurrence out and keeps every other card in order. */
  lemma {:induction false} RemoveFirstCuts(s: seq<Card>, c: Card)
    requires c in s
    ensures RemoveFirst(s, c) == s[..FirstIndex(s, c)] + s[FirstIndex(s, c) + 1..]
  {
    if s[0] != c {
      RemoveFirstCuts(s[1..], c);
      var k := FirstIndex(s[1..], c);
      assert s[1..][..k] + s[1..][k + 1..] == s[1..k + 1] + s[k + 2..];
      assert [s[0]] + s[1..k + 1] == s[..k + 1];
    }
  }

  lemma {:induction false} RemoveFirstMultiset(s: seq<Card>, c: Card)
    requires c in s
    ensures |RemoveFirst(s, c)| == |s| - 1
    ensures multiset(RemoveFirst(s, c)) + multiset{c} == multiset(s)
  {
    if s[0] == c {
      assert s == [s[0]] + s[1..];
    } else {
      RemoveFirstMultiset(s[1..], c);
      assert s == [s[0]] + s[1..];
    }
  }

  /**
   * Removing, card by card, a group that is part of the list: the first
   * card is held, and the rest of the group is part of what remains.
   */
  lemma RemoveFirstWithin(g: seq<Card>, s: seq<Card>)
    requires g != [] && multiset(g) <= multiset(s)
    ensures g[0] in s && multiset(g[1..]) <= multiset(RemoveFirst(s, g[0]))
  {
    assert g == [g[0]] + g[1..];
    assert multiset(g) == multiset{g[0]} + multiset(g[1..]);
    assert g[0] in multiset(s);
    RemoveFirstMultiset(s, g[0]);
    forall c ensures multiset(g[1..])[c] <= multiset(RemoveFirst(s, g[0]))[c] {
      assert multiset(g)[c] <= multiset(s)[c];
    }
  }

  /** Dropping a held card lowers the stash score by the card's value. */
  lemma ScoreRemove(s: seq<Card>, c: Card)
    requires c in s
    ensures Score(RemoveFirst(s, c)) == Score(s) - c.RankToVal()
  {
    var k := FirstIndex(s, c);
    RemoveFirstCuts(s, c);
    assert s == s[..k] + ([s[k]] + s[k + 1..]);
    ScoreAppend(s[..k], [s[k]] + s[k + 1..]);
    ScoreAppend(s[..k], s[k + 1..]);
  }

  /** The values of a stash after a drop, with the dropped card's value put back, are the values before. */
  lemma ValuesRemove(s: seq<Card>, c: Card)
    requires c in s
    ensures Values(s) == Values(RemoveFirst(s, c)) + {c.RankToVal()}
  {
    var k := FirstIndex(s, c);
    RemoveFirstCuts(s, c);
    var pre, post := s[..k], s[k + 1..];
    assert s == (pre + [c]) + post;
    ValuesConcat(pre + [c], post);
    ValuesAppend(pre, c);
    ValuesConcat(pre, post);
    assert Values(s) == Values(pre) + {c.RankToVal()} + Values(post);
    assert Values(RemoveFirst(s, c)) == Values(pre) + Values(post);
  }

  /**
   * Dropping a held card leaves the number of distinct values unchanged
   * exactly when another held card has the same value.
   */
  lemma DistinctAfterRemove(s: seq<Card>, c: Card)
    requires c in s
    ensures |Values(RemoveFirst(s, c))| == |Values(s)| <==> c.RankToVal() in Values(RemoveFirst(s, c))
  {
    ValuesRemove(s, c);
    var rest := Values(RemoveFirst(s, c));
    if c.RankToVal() !in rest {
      assert |rest + {c.RankToVal()}| == |rest| + 1;
    } else {
      assert rest + {c.RankToVal()} == rest;
    }
  }

  /** The cards of a list of groups (stashes, melds), one group after the other. */
  function Flatten(ss: seq<seq<Card>>): seq<Card>
  {
    if ss == [] then [] else Flatten(ss[..|ss| - 1]) + ss[|ss| - 1]
  }

  lemma {:induction false} FlattenConcat(a: seq<seq<Card>>, b: seq<seq<Card>>)
    ensures Flatten(a + b) == Flatten(a) + Flatten(b)
    decreases |b|
  {
    if b == [] {
      assert a + b == a;
    } else {
      var init := b[..|b| - 1];
      assert (a + b)[..|a + b| - 1] == a + init;
      FlattenConcat(a, init);
    }
  }

  /** Replacing one group changes the cards of all groups by exactly that group's change. */
  lemma FlattenUpdate(ss: seq<seq<Card>>, k: nat, x: seq<Card>)
    requires k < |ss|
    ensures multiset(Flatten(ss[k := x])) + multiset(ss[k]) == multiset(Flatten(ss)) + multiset(x)
  {
    var pre, post := ss[..k], ss[k + 1..];
    assert ss == (pre + [ss[k]]) + post;
    assert ss[k := x] == (pre + [x]) + post;
    FlattenConcat(pre + [ss[k]], post);
    FlattenConcat(pre, [ss[k]]);
    FlattenConcat(pre + [x], post);
    FlattenConcat(pre, [x]);
    assert Flatten([ss[k]]) == ss[k] && Flatten([x]) == x by {
      assert [ss[k]][..0] == [] && [x][..0] == [];
    }
    var a, b := multiset(Flatten(pre)), multiset(Flatten(post));
    assert multiset(Flatten(ss)) == a + multiset(ss[k]) + b;
    assert multiset(Flatten(ss[k := x])) == a + multiset(x) + b;
  }
}
