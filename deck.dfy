/**
 * The deck: every (suit, rank) combination once per pack, in pack, suit,
 * rank order; shuffled in place and drawn from the front.
 */
module Decks {
  import opened Cards

  /** One suit's run of cards, one per rank of `rs`, in order. */
  function SuitRow(suit: Suit, rs: seq<Rank>): seq<Card>
  {
    if rs == [] then [] else SuitRow(suit, rs[..|rs| - 1]) + [Card(rs[|rs| - 1], suit)]
  }

  /** One pack: for each suit of `ss` in turn, a run over the ranks `rs`. */
  function PackOf(ss: seq<Suit>, rs: seq<Rank>): seq<Card>
  {
    if ss == [] then [] else PackOf(ss[..|ss| - 1], rs) + SuitRow(ss[|ss| - 1], rs)
  }

  /** `packs` packs over the suits `ss` and ranks `rs`, one after the other. */
  function PacksOf(packs: nat, ss: seq<Suit>, rs: seq<Rank>): seq<Card>
  {
    if packs == 0 then [] else PacksOf(packs - 1, ss, rs) + PackOf(ss, rs)
  }

  /** The cards of a freshly built deck of `packs` packs, in the order they are appended. */
  function FullDeck(packs: nat): seq<Card>
  {
    PacksOf(packs, Suits, Ranks)
  }

  /** The dealt ranks are all different: their values are 1, 2, ..., 7. */
  lemma RanksDistinct()
    ensures Distinct(Ranks)
  {
    forall i | 0 <= i < |Ranks|
      ensures RankValue(Ranks[i]) == i + 1
    {
    }
  }

  lemma SuitRowSnoc(suit: Suit, rs: seq<Rank>, k: nat)
    requires k < |rs|
    ensures SuitRow(suit, rs[..k + 1]) == SuitRow(suit, rs[..k]) + [Card(rs[k], suit)]
  {
    assert rs[..k + 1][..k] == rs[..k];
  }

  lemma PackOfSnoc(ss: seq<Suit>, rs: seq<Rank>, k: nat)
    requires k < |ss|
    ensures PackOf(ss[..k + 1], rs) == PackOf(ss[..k], rs) + SuitRow(ss[k], rs)
  {
    assert ss[..k + 1][..k] == ss[..k];
  }

  lemma {:induction false} SuitRowSize(suit: Suit, rs: seq<Rank>)
    ensures |SuitRow(suit, rs)| == |rs|
  {
    if rs != [] {
      SuitRowSize(suit, rs[..|rs| - 1]);
    }
  }

  lemma {:induction false} SuitRowCount(suit: Suit, rs: seq<Rank>, c: Card)
    requires Distinct(rs)
    ensures multiset(SuitRow(suit, rs))[c] == if c.suit == suit && c.rank in rs then 1 else 0
  {
    if rs != [] {
      var init := rs[..|rs| - 1];
      SuitRowCount(suit, init, c);
      assert rs == init + [rs[|rs| - 1]];
    }
  }

  lemma {:induction false} PackOfSize(ss: seq<Suit>, rs: seq<Rank>)
    requires |rs| == 7
    ensures |PackOf(ss, rs)| == 7 * |ss|
  {
    if ss != [] {
      PackOfSize(ss[..|ss| - 1], rs);
      SuitRowSize(ss[|ss| - 1], rs);
    }
  }

  lemma {:induction false} PackOfCount(ss: seq<Suit>, rs: seq<Rank>, c: Card)
    requires Distinct(rs)
    ensures multiset(PackOf(ss, rs))[c] == if c.rank in rs then multiset(ss)[c.suit] else 0
  {
    if ss != [] {
      var init, last := ss[..|ss| - 1], ss[|ss| - 1];
      assert multiset(ss)[c.suit] == multiset(init)[c.suit] + (if last == c.suit then 1 else 0) by {
        assert ss == init + [last];
      }
      PackOfCount(init, rs, c);
      SuitRowCount(last, rs, c);
      var a, b := PackOf(init, rs), SuitRow(last, rs);
      assert multiset(PackOf(ss, rs))[c] == multiset(a)[c] + multiset(b)[c] by {
        assert PackOf(ss, rs) == a + b;
      }
    }
  }

  lemma {:induction false} PacksOfSize(packs: nat, ss: seq<Suit>, rs: seq<Rank>)
    requires |ss| == 4 && |rs| == 7
    ensures |PacksOf(packs, ss, rs)| == 28 * packs
  {
    if packs > 0 {
      PacksOfSize(packs - 1, ss, rs);
      PackOfSize(ss, rs);
    }
  }

  lemma {:induction false} PacksOfCount(packs: nat, ss: seq<Suit>, rs: seq<Rank>, c: Card)
    requires Distinct(rs) && multiset(ss)[c.suit] == 1
    ensures multiset(PacksOf(packs, ss, rs))[c] == if c.rank in rs then packs else 0
  {
    if packs > 0 {
      PacksOfCount(packs - 1, ss, rs, c);
      PackOfCount(ss, rs, c);
      var a, b := PacksOf(packs - 1, ss, rs), PackOf(ss, rs);
      assert multiset(PacksOf(packs, ss, rs))[c] == multiset(a)[c] + multiset(b)[c] by {
        assert PacksOf(packs, ss, rs) == a + b;
      }
    }
  }

  /** Each suit appears once in the suit list. */
  lemma SuitsOnce(s: Suit)
    ensures multiset(Suits)[s] == 1
  {
    assert Suits == [Hearts] + [Spades] + [Diamonds] + [Clubs];
    assert multiset(Suits) == multiset([Hearts]) + multiset([Spades]) + multiset([Diamonds]) + multiset([Clubs]);
  }

  /** `ms` holds every (suit, dealt rank) card exactly `n` times, and no other card. */
  ghost predicate EachCardTimes(ms: multiset<Card>, n: nat)
  {
    forall c :: ms[c] == if c.rank in Ranks then n else 0
  }

  /**
   * A deck of `packs` packs holds `packs` × 4 × 7 cards; every (suit, dealt
   * rank) pair occurs exactly `packs` times, and no other card occurs.
   */
  lemma FullDeckContents(packs: nat)
    ensures |FullDeck(packs)| == 28 * packs
    ensures forall c :: multiset(FullDeck(packs))[c] == if c.rank in Ranks then packs else 0
  {
    RanksDistinct();
    forall c ensures multiset(FullDeck(packs))[c] == if c.rank in Ranks then packs else 0 {
      SuitsOnce(c.suit);
      PacksOfCount(packs, Suits, Ranks, c);
    }
    PacksOfSize(packs, Suits, Ranks);
  }

  // ---------------------------------------------------------------------------
  // Shuffling: the in-place swap loop of `random.shuffle`, with its random
  // choices supplied by the caller.

  /**
   * Choices for shuffling a list of `n` cards: the step for position `k`
   * swaps it with a position `js[k]` at or below it.
   */
  predicate ShuffleChoices(js: seq<nat>, n: nat)
  {
    n <= |js| && forall k :: 0 <= k < |js| ==> js[k] <= k
  }

  function Swap(s: seq<Card>, i: nat, j: nat): (t: seq<Card>)
    requires i < |s| && j < |s|
    ensures |t| == |s|
  {
    s[i := s[j]][j := s[i]]
  }

  /** The list after the swap steps for positions `i`, `i - 1`, ..., 1. */
  function ShuffleFrom(s: seq<Card>, js: seq<nat>, i: int): seq<Card>
    requires i < |s| && ShuffleChoices(js, |s|)
    decreases i
  {
    if i <= 0 then s else ShuffleFrom(Swap(s, i, js[i]), js, i - 1)
  }

  /** The list `random.shuffle` leaves when its draws are `js`. */
  function Shuffled(s: seq<Card>, js: seq<nat>): seq<Card>
    requires ShuffleChoices(js, |s|)
  {
    ShuffleFrom(s, js, |s| - 1)
  }

  lemma SwapPermutes(s: seq<Card>, i: nat, j: nat)
    requires i < |s| && j < |s|
    ensures multiset(Swap(s, i, j)) == multiset(s)
  {
  }

  lemma {:induction false} ShuffleFromPermutes(s: seq<Card>, js: seq<nat>, i: int)
    requires i < |s| && ShuffleChoices(js, |s|)
    ensures |ShuffleFrom(s, js, i)| == |s|
    ensures multiset(ShuffleFrom(s, js, i)) == multiset(s)
    decreases i
  {
    if i > 0 {
      SwapPermutes(s, i, js[i]);
      ShuffleFromPermutes(Swap(s, i, js[i]), js, i - 1);
    }
  }

  /** Shuffling only reorders: the same cards, as many of each. */
  lemma ShufflePermutes(s: seq<Card>, js: seq<nat>)
    requires ShuffleChoices(js, |s|)
    ensures |Shuffled(s, js)| == |s|
    ensures multiset(Shuffled(s, js)) == multiset(s)
  {
    ShuffleFromPermutes(s, js, |s| - 1);
  }

  class Deck {
    var packs: nat
    var cards: seq<Card>

    /** Builds the deck: `packs` packs of every (suit, dealt rank) combination. */
    constructor (packs: nat)
      ensures this.packs == packs
      ensures cards == FullDeck(packs)
      ensures |cards| == 28 * packs && EachCardTimes(multiset(cards), packs)
    {
      this.packs := packs;
      cards := [];
      new;
      AppendPacks(packs, Suits, Ranks);
      FullDeckContents(packs);
    }

    /** The constructor's nested loops: appends, pack by pack, suit by suit, rank by rank. */
    method AppendPacks(packs: nat, suits: seq<Suit>, ranks: seq<Rank>)
      modifies this`cards
      ensures cards == old(cards) + PacksOf(packs, suits, ranks)
    {
      ghost var start := cards;
      for pack := 0 to packs
        invariant cards == start + PacksOf(pack, suits, ranks)
      {
        AppendPack(suits, ranks);
      }
    }

    /** One pass of the outer loop: every rank of every suit, suit by suit. */
    method AppendPack(suits: seq<Suit>, ranks: seq<Rank>)
      modifies this`cards
      ensures cards == old(cards) + PackOf(suits, ranks)
    {
      ghost var start := cards;
      for si := 0 to |suits|
        invariant cards == start + PackOf(suits[..si], ranks)
      {
        ghost var rowStart := cards;
        for ri := 0 to |ranks|
          invariant cards == rowStart + SuitRow(suits[si], ranks[..ri])
        {
          SuitRowSnoc(suits[si], ranks, ri);
          cards := cards + [Card(ranks[ri], suits[si])];
        }
        assert ranks[..|ranks|] == ranks;
        PackOfSnoc(suits, ranks, si);
      }
      assert suits[..|suits|] == suits;
    }

    method Shuffle(js: seq<nat>)
      requires ShuffleChoices(js, |cards|)
      modifies this`cards
      ensures cards == Shuffled(old(cards), js)
      ensures multiset(cards) == multiset(old(cards))
    {
      var i := |cards| - 1;
      while i > 0
        invariant i < |cards| == |old(cards)|
        invariant ShuffleFrom(cards, js, i) == Shuffled(old(cards), js)
      {
        cards := Swap(cards, i, js[i]);
        i := i - 1;
      }
      ShufflePermutes(old(cards), js);
    }

    /** Pops the front card; an empty deck is an error in the source, so callers must not draw from one. */
    method DrawCard() returns (card: Card)
      requires cards != []
      modifies this`cards
      ensures card == old(cards[0])
      ensures cards == old(cards[1..])
    {
      card := cards[0];
      cards := cards[1..];
    }
  }
}
