/**
 * What `Player.meld` does to a stash, as pure functions: the stash is grouped
 * by rank in the order ranks first appear, every group of three or more
 * cards is melded, and the cards of the other ranks stay, in order.
 */
module Melds {
  import opened Cards
  import opened Hands

  /** The cards of rank `r`, in stash order (one bucket of the rank dictionary). */
  function WithRank(s: seq<Card>, r: Rank): (g: seq<Card>)
    ensures |g| <= |s|
  {
    if s == [] then []
    else (if s[0].rank == r then [s[0]] else []) + WithRank(s[1..], r)
  }

  /** A bucket holds only cards of the stash, all of its rank. */
  lemma {:induction false} WithRankMembers(s: seq<Card>, r: Rank)
    ensures forall c :: c in WithRank(s, r) ==> c in s && c.rank == r
  {
    if s != [] {
      WithRankMembers(s[1..], r);
    }
  }

  /** How many cards of rank `r` the stash holds. */
  function RankCount(s: seq<Card>, r: Rank): nat
  {
    |WithRank(s, r)|
  }

  /** The stash without the cards whose rank is listed in `rs`, in stash order. */
  function WithoutRanks(s: seq<Card>, rs: seq<Rank>): seq<Card>
  {
    if s == [] then []
    else (if s[0].rank in rs then [] else [s[0]]) + WithoutRanks(s[1..], rs)
  }

  /** The ranks of a stash in order of first appearance: the keys of the rank dictionary. */
  function RanksInOrder(s: seq<Card>): seq<Rank>
  {
    if s == [] then []
    else
      var earlier := RanksInOrder(s[..|s| - 1]);
      if s[|s| - 1].rank in earlier then earlier else earlier + [s[|s| - 1].rank]
  }

  /** The ranks among `rs`, in order, that the stash holds three or more times. */
  function HeavyRanks(s: seq<Card>, rs: seq<Rank>): seq<Rank>
  {
    if rs == [] then []
    else
      var r := rs[|rs| - 1];
      HeavyRanks(s, rs[..|rs| - 1]) + (if RankCount(s, r) >= 3 then [r] else [])
  }

  /** The groups melded while walking the ranks `rs` in order. */
  function MeldsOf(s: seq<Card>, rs: seq<Rank>): seq<seq<Card>>
  {
    if rs == [] then []
    else
      var r := rs[|rs| - 1];
      MeldsOf(s, rs[..|rs| - 1]) + (if RankCount(s, r) >= 3 then [WithRank(s, r)] else [])
  }

  /** The ranks melded, in the order they are appended to the game's meld list. */
  function MeldedRanks(s: seq<Card>): seq<Rank>
  {
    HeavyRanks(s, RanksInOrder(s))
  }

  /** The groups appended to the game's meld list. */
  function MeldGroups(s: seq<Card>): seq<seq<Card>>
  {
    MeldsOf(s, RanksInOrder(s))
  }

  /** The stash left after melding. */
  function Kept(s: seq<Card>): seq<Card>
  {
    WithoutRanks(s, MeldedRanks(s))
  }

  /** Removes the cards of `xs` one after the other, each with `list.remove`. */
  function RemoveAll(s: seq<Card>, xs: seq<Card>): seq<Card>
    decreases |xs|
  {
    if xs == [] then s else RemoveAll(RemoveFirst(s, xs[0]), xs[1..])
  }

  /** `a` is `b` with some cards left out and the others in their order. */
  predicate Subsequence(a: seq<Card>, b: seq<Card>)
  {
    if a == [] then true
    else if b == [] then false
    else (a[0] == b[0] && Subsequence(a[1..], b[1..])) || Subsequence(a, b[1..])
  }

  // ---------------------------------------------------------------------------
  // Lemmas about the building blocks

  /** A sequence that is not empty has a member. */
  lemma NonEmptyHasMember(m: seq<Rank>)
    ensures m != [] ==> m[0] in m
  {
  }

  lemma {:induction false} WithRankConcat(a: seq<Card>, b: seq<Card>, r: Rank)
    ensures WithRank(a + b, r) == WithRank(a, r) + WithRank(b, r)
  {
    if a == [] {
      assert a + b == b;
    } else {
      var head := if a[0].rank == r then [a[0]] else [];
      calc {
        WithRank(a + b, r);
        == { assert (a + b)[0] == a[0] && (a + b)[1..] == a[1..] + b; }
        head + WithRank(a[1..] + b, r);
        == { WithRankConcat(a[1..], b, r); }
        head + (WithRank(a[1..], r) + WithRank(b, r));
      }
    }
  }

  /** The rank dictionary has a key for every rank held and for no other, each once. */
  lemma {:induction false} RanksInOrderSpec(s: seq<Card>)
    ensures forall r :: r in RanksInOrder(s) <==> WithRank(s, r) != []
    ensures Distinct(RanksInOrder(s))
  {
    if s != [] {
      var init, last := s[..|s| - 1], s[|s| - 1];
      assert s == init + [last];
      RanksInOrderSpec(init);
      forall r ensures WithRank(s, r) == WithRank(init, r) + WithRank([last], r) {
        WithRankConcat(init, [last], r);
      }
    }
  }

  lemma {:induction false} WithRankWithout(s: seq<Card>, m: seq<Rank>, r: Rank)
    requires r !in m
    ensures WithRank(WithoutRanks(s, m), r) == WithRank(s, r)
  {
    if s != [] {
      WithRankWithout(s[1..], m, r);
      var head := if s[0].rank in m then [] else [s[0]];
      WithRankConcat(head, WithoutRanks(s[1..], m), r);
    }
  }

  lemma {:induction false} WithoutRanksSnoc(s: seq<Card>, m: seq<Rank>, r: Rank)
    ensures WithoutRanks(WithoutRanks(s, m), [r]) == WithoutRanks(s, m + [r])
  {
    if s != [] {
      WithoutRanksSnoc(s[1..], m, r);
      var head := if s[0].rank in m then [] else [s[0]];
      WithoutRanksConcat(head, WithoutRanks(s[1..], m), [r]);
    }
  }

  lemma {:induction false} WithoutRanksConcat(a: seq<Card>, b: seq<Card>, m: seq<Rank>)
    ensures WithoutRanks(a + b, m) == WithoutRanks(a, m) + WithoutRanks(b, m)
  {
    if a == [] {
      assert a + b == b;
    } else {
      assert (a + b)[1..] == a[1..] + b;
      WithoutRanksConcat(a[1..], b, m);
    }
  }

  lemma {:induction false} WithoutNothing(s: seq<Card>)
    ensures WithoutRanks(s, []) == s
  {
    if s != [] {
      WithoutNothing(s[1..]);
    }
  }

  /** Taking out rank `r` and keeping only rank `r` split the stash in two. */
  lemma {:induction false} SplitRank(t: seq<Card>, r: Rank)
    ensures multiset(WithoutRanks(t, [r])) + multiset(WithRank(t, r)) == multiset(t)
  {
    forall c ensures (multiset(WithoutRanks(t, [r])) + multiset(WithRank(t, r)))[c] == multiset(t)[c] {
      WithoutRanksCount(t, [r], c);
      WithRankCount(t, r, c);
    }
  }

  lemma {:induction false} WithRankCount(s: seq<Card>, r: Rank, c: Card)
    ensures multiset(WithRank(s, r))[c] == if c.rank == r then multiset(s)[c] else 0
  {
    if s != [] {
      WithRankCount(s[1..], r, c);
      var head := if s[0].rank == r then [s[0]] else [];
      assert s == [s[0]] + s[1..];
      assert multiset(WithRank(s, r)) == multiset(head) + multiset(WithRank(s[1..], r));
    }
  }

  /** A rank's group is part of the cards it was taken from. */
  lemma WithRankWithin(s: seq<Card>, r: Rank)
    ensures multiset(WithRank(s, r)) <= multiset(s)
  {
    forall c ensures multiset(WithRank(s, r))[c] <= multiset(s)[c] {
      WithRankCount(s, r, c);
    }
  }

  lemma {:induction false} WithoutRanksCount(s: seq<Card>, m: seq<Rank>, c: Card)
    ensures multiset(WithoutRanks(s, m))[c] == if c.rank in m then 0 else multiset(s)[c]
  {
    if s != [] {
      WithoutRanksCount(s[1..], m, c);
      var head := if s[0].rank in m then [] else [s[0]];
      assert s == [s[0]] + s[1..];
      assert multiset(WithoutRanks(s, m)) == multiset(head) + multiset(WithoutRanks(s[1..], m));
    }
  }

  lemma {:induction false} RankCountWithout(s: seq<Card>, m: seq<Rank>, r: Rank)
    ensures RankCount(WithoutRanks(s, m), r) == if r in m then 0 else RankCount(s, r)
  {
    if s != [] {
      var w := WithoutRanks(s[1..], m);
      RankCountWithout(s[1..], m, r);
      assert RankCount(s, r) == (if s[0].rank == r then 1 else 0) + RankCount(s[1..], r);
      if s[0].rank in m {
        assert WithoutRanks(s, m) == w;
      } else {
        assert WithoutRanks(s, m) == [s[0]] + w;
        WithRankConcat([s[0]], w, r);
        assert WithRank([s[0]], r) == (if s[0].rank == r then [s[0]] else []) by { assert [s[0]][1..] == []; }
      }
    }
  }

  lemma {:induction false} WithoutRanksSubsequence(s: seq<Card>, m: seq<Rank>)
    ensures Subsequence(WithoutRanks(s, m), s)
  {
    if s != [] {
      WithoutRanksSubsequence(s[1..], m);
      var w, rest := WithoutRanks(s, m), WithoutRanks(s[1..], m);
      if s[0].rank !in m {
        assert w == [s[0]] + rest;
        assert w != [] && w[0] == s[0] && w[1..] == rest;
      } else {
        assert w == rest;
        assert w == [] || Subsequence(w, s[1..]);
      }
    }
  }

  lemma {:induction false} RemoveAllCons(x: Card, u: seq<Card>, xs: seq<Card>)
    requires x !in xs
    ensures RemoveAll([x] + u, xs) == [x] + RemoveAll(u, xs)
    decreases |xs|
  {
    if xs != [] {
      assert ([x] + u)[1..] == u;
      RemoveAllCons(x, RemoveFirst(u, xs[0]), xs[1..]);
    }
  }

  /** Removing the cards of one rank's bucket, one by one, takes out exactly that rank. */
  lemma {:induction false} RemoveAllGroup(t: seq<Card>, r: Rank)
    ensures RemoveAll(t, WithRank(t, r)) == WithoutRanks(t, [r])
  {
    if t != [] {
      var rest := t[1..];
      var g := WithRank(rest, r);
      RemoveAllGroup(rest, r);
      if t[0].rank == r {
        assert WithRank(t, r) == [t[0]] + g;
        assert RemoveFirst(t, t[0]) == rest;
        assert RemoveAll(t, [t[0]] + g) == RemoveAll(rest, g) by {
          assert ([t[0]] + g)[0] == t[0] && ([t[0]] + g)[1..] == g;
        }
        assert WithoutRanks(t, [r]) == WithoutRanks(rest, [r]);
      } else {
        assert WithRank(t, r) == g;
        assert t == [t[0]] + rest;
        WithRankMembers(rest, r);
        assert t[0] !in g;
        RemoveAllCons(t[0], rest, g);
        assert WithoutRanks(t, [r]) == [t[0]] + WithoutRanks(rest, [r]);
      }
    }
  }

  lemma {:induction false} HeavyRanksSpec(s: seq<Card>, rs: seq<Rank>)
    ensures forall r :: r in HeavyRanks(s, rs) <==> r in rs && RankCount(s, r) >= 3
    ensures Distinct(rs) ==> Distinct(HeavyRanks(s, rs))
  {
    if rs != [] {
      var init := rs[..|rs| - 1];
      assert rs == init + [rs[|rs| - 1]];
      HeavyRanksSpec(s, init);
    }
  }

  lemma {:induction false} MeldsOfSpec(s: seq<Card>, rs: seq<Rank>)
    ensures |MeldsOf(s, rs)| == |HeavyRanks(s, rs)|
    ensures forall i :: 0 <= i < |MeldsOf(s, rs)| ==> MeldsOf(s, rs)[i] == WithRank(s, HeavyRanks(s, rs)[i])
  {
    if rs != [] {
      MeldsOfSpec(s, rs[..|rs| - 1]);
    }
  }

  /** Melding one more rank moves its bucket from the stash to the meld list. */
  lemma ConserveStep(s: seq<Card>, h: seq<Rank>, r: Rank, ms: seq<seq<Card>>)
    requires r !in h
    requires multiset(WithoutRanks(s, h)) + multiset(Flatten(ms)) == multiset(s)
    ensures multiset(WithoutRanks(s, h + [r])) + multiset(Flatten(ms + [WithRank(s, r)])) == multiset(s)
  {
    assert (ms + [WithRank(s, r)])[..|ms|] == ms;
    WithoutRanksSnoc(s, h, r);
    SplitRank(WithoutRanks(s, h), r);
    WithRankWithout(s, h, r);
  }

  /** The cards left and the cards melded while walking `rs` together are the stash. */
  lemma {:induction false} MeldsOfConserve(s: seq<Card>, rs: seq<Rank>)
    requires Distinct(rs)
    ensures multiset(WithoutRanks(s, HeavyRanks(s, rs))) + multiset(Flatten(MeldsOf(s, rs))) == multiset(s)
  {
    if rs == [] {
      WithoutNothing(s);
    } else {
      var init, r := rs[..|rs| - 1], rs[|rs| - 1];
      assert Distinct(init) by {
        forall i, j | 0 <= i < j < |init| ensures init[i] != init[j] {
          assert init[i] == rs[i] && init[j] == rs[j];
        }
      }
      MeldsOfConserve(s, init);
      if RankCount(s, r) >= 3 {
        assert HeavyRanks(s, rs) == HeavyRanks(s, init) + [r];
        assert MeldsOf(s, rs) == MeldsOf(s, init) + [WithRank(s, r)];
        HeavyRanksSpec(s, init);
        assert r !in init by {
          forall i | 0 <= i < |init| ensures init[i] != r {
            assert init[i] == rs[i] && r == rs[|rs| - 1];
          }
        }
        ConserveStep(s, HeavyRanks(s, init), r, MeldsOf(s, init));
      } else {
        assert HeavyRanks(s, rs) == HeavyRanks(s, init);
        assert MeldsOf(s, rs) == MeldsOf(s, init);
      }
    }
  }

  // ---------------------------------------------------------------------------
  // What one meld does

  /** A rank is melded exactly when the stash holds it three or more times; each rank once. */
  lemma MeldedRanksSpec(s: seq<Card>)
    ensures forall r :: r in MeldedRanks(s) <==> RankCount(s, r) >= 3
    ensures Distinct(MeldedRanks(s))
  {
    RanksInOrderSpec(s);
    HeavyRanksSpec(s, RanksInOrder(s));
  }

  /** One group per melded rank, holding every card of that rank, three or more of them. */
  lemma MeldGroupsSpec(s: seq<Card>)
    ensures |MeldGroups(s)| == |MeldedRanks(s)|
    ensures forall i :: 0 <= i < |MeldGroups(s)| ==>
      MeldGroups(s)[i] == WithRank(s, MeldedRanks(s)[i]) && |MeldGroups(s)[i]| >= 3
  {
    MeldsOfSpec(s, RanksInOrder(s));
    MeldedRanksSpec(s);
    forall i | 0 <= i < |MeldGroups(s)|
      ensures RankCount(s, MeldedRanks(s)[i]) >= 3
    {
      assert MeldedRanks(s)[i] in MeldedRanks(s);
    }
  }

  /** Melding happens exactly when some rank is held three or more times. */
  lemma MeldedIff(s: seq<Card>)
    ensures MeldGroups(s) != [] <==> exists r :: RankCount(s, r) >= 3
  {
    MeldGroupsSpec(s);
    MeldedRanksSpec(s);
    var m := MeldedRanks(s);
    assert |m| > 0 ==> m[0] in m;
    if r :| RankCount(s, r) >= 3 {
      assert r in m;
    }
  }

  /** Melding takes out exactly the cards whose rank is held three or more times. */
  lemma KeptExactly(s: seq<Card>)
    ensures forall c :: multiset(Kept(s))[c] == if RankCount(s, c.rank) >= 3 then 0 else multiset(s)[c]
  {
    MeldedRanksSpec(s);
    forall c ensures multiset(Kept(s))[c] == if RankCount(s, c.rank) >= 3 then 0 else multiset(s)[c] {
      WithoutRanksCount(s, MeldedRanks(s), c);
    }
  }

  /** The cards that stay keep their relative order. */
  lemma KeptInOrder(s: seq<Card>)
    ensures Subsequence(Kept(s), s)
  {
    WithoutRanksSubsequence(s, MeldedRanks(s));
  }

  /** No card is lost or made: the stash is the cards kept plus the cards melded. */
  lemma MeldConservation(s: seq<Card>)
    ensures multiset(Kept(s)) + multiset(Flatten(MeldGroups(s))) == multiset(s)
  {
    RanksInOrderSpec(s);
    MeldsOfConserve(s, RanksInOrder(s));
  }

  /** After a meld no rank is held three or more times. */
  lemma KeptHasNoMeld(s: seq<Card>)
    ensures forall r :: RankCount(Kept(s), r) < 3
  {
    MeldedRanksSpec(s);
    forall r ensures RankCount(Kept(s), r) < 3 {
      RankCountWithout(s, MeldedRanks(s), r);
    }
  }

  /** Without a rank held three times, melding changes nothing and melds nothing. */
  lemma NoMeldNoChange(s: seq<Card>)
    requires forall r :: RankCount(s, r) < 3
    ensures MeldGroups(s) == [] && MeldedRanks(s) == [] && Kept(s) == s
  {
    MeldGroupsSpec(s);
    MeldedRanksSpec(s);
    NonEmptyHasMember(MeldedRanks(s));
    WithoutNothing(s);
  }

  /** A second meld right after a first one is a no-op. */
  lemma MeldIdempotent(s: seq<Card>)
    ensures MeldGroups(Kept(s)) == [] && Kept(Kept(s)) == Kept(s)
  {
    KeptHasNoMeld(s);
    NoMeldNoChange(Kept(s));
  }

  // ---------------------------------------------------------------------------
  // Steps of the imperative meld

  /** Removing the bucket of one more rank, found in the original stash, from the partly melded stash. */
  lemma MeldStep(s: seq<Card>, stash: seq<Card>, h: seq<Rank>, r: Rank)
    requires stash == WithoutRanks(s, h) && r !in h
    ensures RemoveAll(stash, WithRank(s, r)) == WithoutRanks(s, h + [r])
  {
    WithRankWithout(s, h, r);
    RemoveAllGroup(stash, r);
    WithoutRanksSnoc(s, h, r);
  }
}
