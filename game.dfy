/**
 * The Simple Rummy engine: players holding stashes, and the game that owns
 * the deck, the discard pile, the melds, the players and the turn budget.
 * Random draws (shuffles, the bot's coin and card choice) are parameters.
 */
module Game {
  import opened Wrappers
  import opened Cards
  import opened Hands
  import opened Melds
  import opened Decks
  import opened Rewards

  /**
   * The deck and pile after `card` is put on the pile: an empty deck is first
   * refilled with the whole pile, shuffled, and the pile emptied.
   */
  function AddedToPile(deck: seq<Card>, pile: seq<Card>, card: Card, js: seq<nat>): (seq<Card>, seq<Card>)
    requires deck == [] ==> ShuffleChoices(js, |pile|)
  {
    if deck == [] then (Shuffled(deck + pile, js), [card]) else (deck, pile + [card])
  }

  /** Putting a card on the pile adds exactly that card to deck and pile together. */
  lemma AddedToPileConserves(deck: seq<Card>, pile: seq<Card>, card: Card, js: seq<nat>)
    requires deck == [] ==> ShuffleChoices(js, |pile|)
    ensures var (d, p) := AddedToPile(deck, pile, card, js);
      multiset(d) + multiset(p) == multiset(deck) + multiset(pile) + multiset{card}
      && |d| + |p| == |deck| + |pile| + 1
      && p != [] && p[|p| - 1] == card
  {
    if deck == [] {
      assert deck + pile == pile;
      ShufflePermutes(pile, js);
    }
  }

  /** The stashes of `ps`, in order. */
  function StashesOf(ps: seq<Player>): (ss: seq<seq<Card>>)
    reads set p | p in ps
    ensures |ss| == |ps|
    ensures forall i :: 0 <= i < |ps| ==> ss[i] == ps[i].stash
  {
    if ps == [] then [] else StashesOf(ps[..|ps| - 1]) + [ps[|ps| - 1].stash]
  }

  /** The positions of `ps` holding a player called `name`. */
  ghost function NameIndices(ps: seq<Player>, name: string): set<nat>
    reads set p | p in ps
  {
    set i: nat | i < |ps| && ps[i].name == name
  }

  /** The players of `ps` whose name is `name`, in order: one entry per position with that name. */
  function PlayersNamed(ps: seq<Player>, name: string): (r: seq<Player>)
    reads set p | p in ps
    ensures forall q :: q in r ==> q in ps && q.name == name
    ensures forall q :: q in ps && q.name == name ==> q in r
  {
    if ps == [] then []
    else PlayersNamed(ps[..|ps| - 1], name) + (if ps[|ps| - 1].name == name then [ps[|ps| - 1]] else [])
  }

  /** The filter keeps one entry per position whose player has the name. */
  lemma {:induction false} PlayersNamedCount(ps: seq<Player>, name: string)
    ensures |PlayersNamed(ps, name)| == |NameIndices(ps, name)|
  {
    if ps != [] {
      var n := |ps| - 1;
      PlayersNamedCount(ps[..n], name);
      NameIndicesSnoc(ps, name);
      var earlier: set<nat> := NameIndices(ps[..n], name);
      var last: set<nat> := if ps[n].name == name then {n} else {};
      assert |earlier + last| == |earlier| + |last|;
    }
  }

  /** The indices of the last player's name are the earlier ones, plus the last index if it matches. */
  lemma NameIndicesSnoc(ps: seq<Player>, name: string)
    requires ps != []
    ensures var n := |ps| - 1;
      && n !in NameIndices(ps[..n], name)
      && NameIndices(ps, name) == NameIndices(ps[..n], name) + (if ps[n].name == name then {n} else {})
  {
    var n := |ps| - 1;
    var earlier := NameIndices(ps[..n], name);
    var last: set<nat> := if ps[n].name == name then {n} else {};
    forall i: nat ensures i in NameIndices(ps, name) <==> i in earlier + last {
      assert i in NameIndices(ps, name) <==> i < |ps| && ps[i].name == name;
      if i < n {
        assert ps[..n][i] == ps[i];
        assert i in earlier <==> ps[i].name == name;
      } else {
        assert i !in earlier;
      }
    }
  }

  /**
   * The meld's rank dictionary after reading the cards `t`: its keys in
   * insertion order, and for each key the cards of that rank in order.
   */
  ghost predicate Grouped(t: seq<Card>, order: seq<Rank>, buckets: map<Rank, seq<Card>>)
  {
    && order == RanksInOrder(t)
    && (forall r :: r in buckets <==> r in order)
    && (forall r :: r in buckets ==> buckets[r] == WithRank(t, r))
  }

  /** Reading one more card appends its rank to the keys if new, and the card to its rank's bucket. */
  lemma GroupedSnoc(t: seq<Card>, c: Card, order: seq<Rank>, buckets: map<Rank, seq<Card>>)
    requires Grouped(t, order, buckets)
    ensures var order' := if c.rank in buckets then order else order + [c.rank];
      var b := if c.rank in buckets then buckets else buckets[c.rank := []];
      Grouped(t + [c], order', b[c.rank := b[c.rank] + [c]])
  {
    var u := t + [c];
    assert u[..|t|] == t && u[|t|] == c;
    forall r ensures WithRank(u, r) == WithRank(t, r) + (if c.rank == r then [c] else []) {
      WithRankConcat(t, [c], r);
      assert WithRank([c], r) == (if c.rank == r then [c] else []) by { assert [c][1..] == []; }
    }
    RanksInOrderSpec(t);
  }

  /** The bucket of the `j`-th key holds the stash's cards of that rank. */
  lemma GroupedBucket(s: seq<Card>, order: seq<Rank>, buckets: map<Rank, seq<Card>>, j: nat)
    requires Grouped(s, order, buckets) && j < |order|
    ensures order[j] in buckets && buckets[order[j]] == WithRank(s, order[j])
  {
  }

  /**
   * One step of walking the keys in order, for a rank with three cards or
   * more: its whole bucket is melded, which takes exactly that rank out of
   * the stash.
   */
  lemma WalkHeavy(s: seq<Card>, order: seq<Rank>, j: nat, stash: seq<Card>)
    requires Distinct(order) && j < |order| && RankCount(s, order[j]) >= 3
    requires stash == WithoutRanks(s, HeavyRanks(s, order[..j]))
    ensures var r, h := order[j], HeavyRanks(s, order[..j]);
      && HeavyRanks(s, order[..j + 1]) == h + [r]
      && MeldsOf(s, order[..j + 1]) == MeldsOf(s, order[..j]) + [WithRank(s, r)]
      && RemoveAll(stash, WithRank(s, r)) == WithoutRanks(s, h + [r])
      && multiset(WithRank(s, r)) <= multiset(stash)
  {
    assert order[..j + 1][..j] == order[..j];
    HeavyRanksSpec(s, order[..j]);
    assert forall a :: 0 <= a < j ==> order[a] != order[j];
    MeldStep(s, stash, HeavyRanks(s, order[..j]), order[j]);
    WithRankWithout(s, HeavyRanks(s, order[..j]), order[j]);
    WithRankWithin(stash, order[j]);
  }

  /** One step of walking the keys in order, for a rank with fewer than three cards: nothing changes. */
  lemma WalkLight(s: seq<Card>, order: seq<Rank>, j: nat)
    requires j < |order| && RankCount(s, order[j]) < 3
    ensures HeavyRanks(s, order[..j + 1]) == HeavyRanks(s, order[..j])
    ensures MeldsOf(s, order[..j + 1]) == MeldsOf(s, order[..j])
  {
    assert order[..j + 1][..j] == order[..j];
  }

  class Player {
    var name: string
    var stash: seq<Card>
    var game: RummyAgent?
    var isBot: bool
    var points: int

    /** A player starts outside any game; its stash is a value of its own. */
    constructor (name: string, stash: seq<Card>, isBot: bool, points: int)
      ensures this.name == name && this.stash == stash && this.isBot == isBot && this.points == points
      ensures game == null
    {
      this.name := name;
      this.stash := stash;
      this.game := null;
      this.isBot := isBot;
      this.points := points;
    }

    method DealCard(card: Card)
      modifies this`stash
      ensures stash == old(stash) + [card]
    {
      stash := stash + [card];
    }

    /** Removes the first card equal to `card` and puts it on the game's pile. */
    method DropCard(card: Card, js: seq<nat>) returns (r: int)
      requires game != null && card in stash
      requires game.deck.cards == [] ==> ShuffleChoices(js, |game.pile|)
      modifies this`stash, game`pile, game.deck`cards
      ensures r == -1
      ensures stash == RemoveFirst(old(stash), card)
      ensures (game.deck.cards, game.pile) == AddedToPile(old(game.deck.cards), old(game.pile), card, js)
    {
      stash := RemoveFirst(stash, card);
      game.AddPile(card, js);
      r := -1;
    }

    /**
     * Groups the stash by rank; moves every group of three or more cards to
     * the game's meld list and tells whether any group was moved.
     */
    method Meld() returns (melded: bool)
      requires game != null
      modifies this`stash, game`meld
      ensures stash == Kept(old(stash))
      ensures game.meld == old(game.meld) + MeldGroups(old(stash))
      ensures melded <==> MeldGroups(old(stash)) != []
    {
      ghost var s := stash;
      var order, buckets := GroupByRank();
      assert Distinct(order) by { RanksInOrderSpec(s); }
      var meldedRanks := MoveHeavyGroups(order, buckets);
      melded := |meldedRanks| > 0;
      MeldsOfSpec(s, order);
    }

    /**
     * The meld's second loop: walks the dictionary's keys in order and moves
     * each group of three or more cards from the stash to the game's melds.
     */
    method MoveHeavyGroups(order: seq<Rank>, buckets: map<Rank, seq<Card>>) returns (meldedRanks: seq<Rank>)
      requires game != null && Grouped(stash, order, buckets) && Distinct(order)
      modifies this`stash, game`meld
      ensures meldedRanks == HeavyRanks(old(stash), order)
      ensures stash == WithoutRanks(old(stash), meldedRanks)
      ensures game.meld == old(game.meld) + MeldsOf(old(stash), order)
    {
      ghost var s, m0 := stash, game.meld;
      assert stash == WithoutRanks(s, []) by { WithoutNothing(s); }
      meldedRanks := [];
      for j := 0 to |order|
        invariant meldedRanks == HeavyRanks(s, order[..j])
        invariant stash == WithoutRanks(s, meldedRanks)
        invariant game.meld == m0 + MeldsOf(s, order[..j])
      {
        var rank := order[j];
        var group := buckets[rank];
        GroupedBucket(s, order, buckets, j);
        if |group| >= 3 {
          WalkHeavy(s, order, j, stash);
          MoveGroup(group);
          meldedRanks := meldedRanks + [rank];
        } else {
          WalkLight(s, order, j);
        }
      }
      assert order[..|order|] == order;
    }

    /** A group of the walk with three cards or more goes to the game's melds and leaves the stash. */
    method MoveGroup(group: seq<Card>)
      requires game != null && multiset(group) <= multiset(stash)
      modifies this`stash, game`meld
      ensures stash == RemoveAll(old(stash), group) && game.meld == old(game.meld) + [group]
    {
      game.meld := game.meld + [group];
      RemoveCards(group);
    }

    /**
     * The meld's first loop: the rank dictionary of the stash, as its keys
     * in insertion order and a bucket of cards per key.
     */
    method GroupByRank() returns (order: seq<Rank>, buckets: map<Rank, seq<Card>>)
      ensures Grouped(stash, order, buckets)
    {
      order, buckets := [], map[];
      for i := 0 to |stash|
        invariant Grouped(stash[..i], order, buckets)
      {
        var card := stash[i];
        assert stash[..i + 1] == stash[..i] + [card];
        GroupedSnoc(stash[..i], card, order, buckets);
        if card.rank !in buckets {
          order := order + [card.rank];
          buckets := buckets[card.rank := []];
        }
        buckets := buckets[card.rank := buckets[card.rank] + [card]];
      }
      assert stash[..|stash|] == stash;
    }

    /** The meld's removal loop: takes out, for each card of `group` in turn, the first equal card. */
    method RemoveCards(group: seq<Card>)
      requires multiset(group) <= multiset(stash)
      modifies this`stash
      ensures stash == RemoveAll(old(stash), group)
    {
      for k := 0 to |group|
        invariant RemoveAll(stash, group[k..]) == RemoveAll(old(stash), group)
        invariant multiset(group[k..]) <= multiset(stash)
      {
        assert group[k..][1..] == group[k + 1..];
        RemoveFirstWithin(group[k..], stash);
        stash := RemoveFirst(stash, group[k]);
      }
    }

    /** Adds up the values of the cards held. */
    method StashScore() returns (score: int)
      ensures score == Score(stash)
    {
      score := 0;
      for i := 0 to |stash|
        invariant score == Score(stash[..i])
      {
        assert stash[..i + 1] == stash[..i] + [stash[i]];
        ScoreAppend(stash[..i], [stash[i]]);
        score := score + stash[i].RankToVal();
      }
      assert stash[..|stash|] == stash;
    }
  }

  /** The deck and pile after a pick: the pile's top card or the deck's front card is taken. */
  function Picked(fromPile: bool, deck: seq<Card>, pile: seq<Card>): (seq<Card>, seq<Card>)
    requires if fromPile then pile != [] else deck != []
  {
    if fromPile then (deck, pile[..|pile| - 1]) else (deck[1..], pile)
  }

  /** The card a pick takes. */
  function PickedCard(fromPile: bool, deck: seq<Card>, pile: seq<Card>): Card
    requires if fromPile then pile != [] else deck != []
  {
    if fromPile then pile[|pile| - 1] else deck[0]
  }

  /** A pick moves exactly the picked card out of deck and pile. */
  lemma PickedConserves(fromPile: bool, deck: seq<Card>, pile: seq<Card>)
    requires if fromPile then pile != [] else deck != []
    ensures var (d, p) := Picked(fromPile, deck, pile);
      multiset(d) + multiset(p) + multiset{PickedCard(fromPile, deck, pile)} == multiset(deck) + multiset(pile)
      && |d| + |p| + 1 == |deck| + |pile|
  {
    if fromPile {
      assert pile == pile[..|pile| - 1] + [pile[|pile| - 1]];
    } else {
      assert deck == [deck[0]] + deck[1..];
    }
  }

  /** Dealing the next hand of `m` cards moves them from the deck's front to the end of the hands. */
  lemma DealStep(hands: seq<seq<Card>>, deck: seq<Card>, m: nat, d: seq<Card>)
    requires Flatten(hands) + deck == d && m <= |deck|
    ensures Flatten(hands + [deck[..m]]) + deck[m..] == d
  {
    FlattenConcat(hands, [deck[..m]]);
    assert Flatten([deck[..m]]) == deck[..m];
    assert deck[..m] + deck[m..] == deck;
  }

  /** The number of cards `n` hands of `m` cards take, counted hand by hand. */
  function Dealt(n: nat, m: nat): nat
  {
    if n == 0 then 0 else Dealt(n - 1, m) + m
  }

  lemma {:induction false} DealtIsProduct(n: nat, m: nat)
    ensures Dealt(n, m) == n * m
  {
    if n > 0 {
      DealtIsProduct(n - 1, m);
      assert (n - 1) * m + m == n * m;
    }
  }

  /** Hands of `m` cards each hold `|hands| * m` cards together. */
  lemma {:induction false} FlattenLength(hands: seq<seq<Card>>, m: nat)
    requires forall i :: 0 <= i < |hands| ==> |hands[i]| == m
    ensures |Flatten(hands)| == |hands| * m
  {
    if hands != [] {
      var n := |hands| - 1;
      FlattenLength(hands[..n], m);
      assert hands[..n] + [hands[n]] == hands;
      FlattenConcat(hands[..n], [hands[n]]);
      assert Flatten([hands[n]]) == hands[n];
      assert n * m + m == |hands| * m;
    }
  }

  /**
   * Where the cards of a game are, as values: the deck, the pile, each
   * player's stash in seat order, and the melds laid down so far.
   */
  datatype Table = Table(deck: seq<Card>, pile: seq<Card>, stashes: seq<seq<Card>>, melds: seq<seq<Card>>)

  /** Every card on the table, counted together. */
  ghost function CardsOnTable(t: Table): multiset<Card>
  {
    multiset(t.deck) + multiset(t.pile) + multiset(Flatten(t.stashes)) + multiset(Flatten(t.melds))
  }

  /**
   * Dealing `m` cards to each hand and one to the pile from a shuffled pack
   * leaves `27 - |hands| * m` in the deck, and every card of the pack in
   * play exactly once.
   */
  lemma DealtGame(d: seq<Card>, hands: seq<seq<Card>>, pile: seq<Card>, deck: seq<Card>, n: nat, m: nat)
    requires Flatten(hands) + pile + deck == d && |d| == 28 && |pile| == 1
    requires |hands| == n && forall a :: 0 <= a < n ==> |hands[a]| == m
    requires EachCardTimes(multiset(d), 1)
    ensures |deck| == 27 - n * m
    ensures EachCardTimes(CardsOnTable(Table(deck, pile, hands, [])), 1)
  {
    FlattenLength(hands, m);
    assert CardsOnTable(Table(deck, pile, hands, [])) == multiset(d);
  }

  /** Multiset sums cancel. */
  lemma MultisetCancel(a: multiset<Card>, b: multiset<Card>, x: multiset<Card>)
    requires a + x == b + x
    ensures a == b
  {
    forall c ensures a[c] == b[c] {
      assert (a + x)[c] == (b + x)[c];
    }
  }

  /** When every stash but the `k`-th is as recorded in `ss`, the stashes are `ss` with entry `k` replaced. */
  lemma StashesReplaced(ps: seq<Player>, ss: seq<seq<Card>>, k: nat)
    requires |ss| == |ps| && k < |ps|
    requires forall i :: 0 <= i < |ps| && i != k ==> ps[i].stash == ss[i]
    ensures StashesOf(ps) == ss[k := ps[k].stash]
  {
  }

  /** Player `k` picks: the pile's top card or the deck's front card goes to the end of its stash. */
  function PickTable(t: Table, k: nat, fromPile: bool): Table
    requires k < |t.stashes| && if fromPile then t.pile != [] else t.deck != []
  {
    var (d, p) := Picked(fromPile, t.deck, t.pile);
    Table(d, p, t.stashes[k := t.stashes[k] + [PickedCard(fromPile, t.deck, t.pile)]], t.melds)
  }

  /** Player `k` melds: the heavy groups of its stash go to the end of the melds. */
  function MeldTable(t: Table, k: nat): Table
    requires k < |t.stashes|
  {
    Table(t.deck, t.pile, t.stashes[k := Kept(t.stashes[k])], t.melds + MeldGroups(t.stashes[k]))
  }

  /** Player `k` drops `card` from its stash onto the pile. */
  function DropTable(t: Table, k: nat, card: Card, js: seq<nat>): Table
    requires k < |t.stashes| && card in t.stashes[k]
    requires t.deck == [] ==> ShuffleChoices(js, |t.pile|)
  {
    var (d, p) := AddedToPile(t.deck, t.pile, card, js);
    Table(d, p, t.stashes[k := RemoveFirst(t.stashes[k], card)], t.melds)
  }

  /** A pick keeps every card in play. */
  lemma PickMoves(t: Table, k: nat, fromPile: bool)
    requires k < |t.stashes| && if fromPile then t.pile != [] else t.deck != []
    ensures CardsOnTable(PickTable(t, k, fromPile)) == CardsOnTable(t)
  {
    var u := PickTable(t, k, fromPile);
    var c := PickedCard(fromPile, t.deck, t.pile);
    var s := t.stashes[k];
    PickedConserves(fromPile, t.deck, t.pile);
    FlattenUpdate(t.stashes, k, s + [c]);
    assert multiset(s + [c]) == multiset(s) + multiset{c};
    calc {
      CardsOnTable(u) + multiset(s);
      multiset(u.deck) + multiset(u.pile) + (multiset(Flatten(u.stashes)) + multiset(s)) + multiset(Flatten(t.melds));
      (multiset(u.deck) + multiset(u.pile) + multiset{c}) + multiset(Flatten(t.stashes)) + multiset(Flatten(t.melds)) + multiset(s);
      CardsOnTable(t) + multiset(s);
    }
    MultisetCancel(CardsOnTable(u), CardsOnTable(t), multiset(s));
  }

  /** A meld keeps every card in play. */
  lemma MeldMoves(t: Table, k: nat)
    requires k < |t.stashes|
    ensures CardsOnTable(MeldTable(t, k)) == CardsOnTable(t)
  {
    var u := MeldTable(t, k);
    var s := t.stashes[k];
    var groups := MeldGroups(s);
    FlattenUpdate(t.stashes, k, Kept(s));
    MeldConservation(s);
    FlattenConcat(t.melds, groups);
    calc {
      CardsOnTable(u) + multiset(s);
      multiset(t.deck) + multiset(t.pile) + (multiset(Flatten(u.stashes)) + multiset(s)) + multiset(Flatten(t.melds)) + multiset(Flatten(groups));
      multiset(t.deck) + multiset(t.pile) + multiset(Flatten(t.stashes)) + multiset(Flatten(t.melds)) + (multiset(Kept(s)) + multiset(Flatten(groups)));
      CardsOnTable(t) + multiset(s);
    }
    MultisetCancel(CardsOnTable(u), CardsOnTable(t), multiset(s));
  }

  /** A drop keeps every card in play. */
  lemma DropMoves(t: Table, k: nat, card: Card, js: seq<nat>)
    requires k < |t.stashes| && card in t.stashes[k]
    requires t.deck == [] ==> ShuffleChoices(js, |t.pile|)
    ensures CardsOnTable(DropTable(t, k, card, js)) == CardsOnTable(t)
  {
    var u := DropTable(t, k, card, js);
    var s := t.stashes[k];
    var rest := RemoveFirst(s, card);
    AddedToPileConserves(t.deck, t.pile, card, js);
    RemoveFirstMultiset(s, card);
    FlattenUpdate(t.stashes, k, rest);
    assert multiset(u.deck) + multiset(u.pile) == multiset(t.deck) + multiset(t.pile) + multiset{card};
    calc {
      CardsOnTable(u) + multiset(s);
      multiset(u.deck) + multiset(u.pile) + (multiset(Flatten(u.stashes)) + multiset(s)) + multiset(Flatten(t.melds));
      multiset(t.deck) + multiset(t.pile) + multiset(Flatten(t.stashes)) + multiset(Flatten(t.melds)) + (multiset(rest) + multiset{card});
      CardsOnTable(t) + multiset(s);
    }
    MultisetCancel(CardsOnTable(u), CardsOnTable(t), multiset(s));
  }

  /** Whether the computer's turn can be taken by player `k` with a pick from the pile (or deck) and a drop at `pos`. */
  predicate CanTakeTurn(t: Table, k: nat, fromPile: bool, pos: nat, js: seq<nat>)
  {
    && k < |t.stashes| && (if fromPile then t.pile != [] else t.deck != [])
    && var u := MeldTable(PickTable(t, k, fromPile), k);
       u.stashes[k] != [] ==> pos < |u.stashes[k]| && (u.deck == [] ==> ShuffleChoices(js, |u.pile|))
  }

  /** The computer's turn for player `k`: a pick, a meld, then a drop at `pos` if anything is still held. */
  function ComputerTurn(t: Table, k: nat, fromPile: bool, pos: nat, js: seq<nat>): Table
    requires CanTakeTurn(t, k, fromPile, pos, js)
  {
    var u := MeldTable(PickTable(t, k, fromPile), k);
    if u.stashes[k] == [] then u else DropTable(u, k, u.stashes[k][pos], js)
  }

  /** A pick and a meld, then a drop at `pos` of what is still held, make up the computer's turn. */
  lemma TurnComposes(t0: Table, t2: Table, t3: Table, k: nat, fromPile: bool, pos: nat, js: seq<nat>)
    requires k < |t0.stashes| && (if fromPile then t0.pile != [] else t0.deck != [])
    requires t2 == MeldTable(PickTable(t0, k, fromPile), k)
    requires t2.stashes[k] != [] ==> pos < |t2.stashes[k]| && (t2.deck == [] ==> ShuffleChoices(js, |t2.pile|))
    requires t3 == if t2.stashes[k] == [] then t2 else DropTable(t2, k, t2.stashes[k][pos], js)
    ensures CanTakeTurn(t0, k, fromPile, pos, js) && t3 == ComputerTurn(t0, k, fromPile, pos, js)
  {
  }

  /** A whole turn of the computer keeps every card in play. */
  lemma ComputerTurnConserves(t: Table, k: nat, fromPile: bool, pos: nat, js: seq<nat>)
    requires CanTakeTurn(t, k, fromPile, pos, js)
    ensures CardsOnTable(ComputerTurn(t, k, fromPile, pos, js)) == CardsOnTable(t)
  {
    var p := PickTable(t, k, fromPile);
    PickMoves(t, k, fromPile);
    MeldMoves(p, k);
    var u := MeldTable(p, k);
    if u.stashes[k] != [] {
      DropMoves(u, k, u.stashes[k][pos], js);
    }
  }

  /** The game is over once some stash is empty or no turns are left. */
  predicate IsOver(stashes: seq<seq<Card>>, turns: int)
  {
    (exists i :: 0 <= i < |stashes| && stashes[i] == []) || turns <= 0
  }

  class RummyAgent {
    var maxCardLength: nat
    var maxTurns: int
    var players: seq<Player>
    var deck: Deck
    var pile: seq<Card>
    var meld: seq<seq<Card>>

    /** The players are distinct objects, and each one's game is this one. */
    ghost predicate Valid()
      reads this, set p | p in players
    {
      && (forall i, j :: 0 <= i < j < |players| ==> players[i] != players[j])
      && (forall i :: 0 <= i < |players| ==> players[i].game == this)
    }

    /** Where the game's cards are, as a value. */
    function TableOf(): Table
      reads this, deck, set p | p in players
    {
      Table(deck.cards, pile, StashesOf(players), meld)
    }

    /**
     * A new game over one shuffled pack. The `maxTurns` argument is
     * overwritten by the reset, which always starts the game with 20 turns.
     */
    constructor (ps: seq<Player>, js: seq<nat>, maxCardLength: nat, maxTurns: int)
      requires |ps| * maxCardLength < 28 && ShuffleChoices(js, 28)
      ensures this.maxCardLength == maxCardLength && this.maxTurns == 20
      ensures Valid() && meld == [] && NewlySeated(ps, players)
      ensures fresh(deck) && forall p :: p in players ==> fresh(p)
      ensures |pile| == 1 && |deck.cards| == 27 - |ps| * maxCardLength
      ensures EachCardTimes(CardsOnTable(TableOf()), 1)
    {
      this.maxCardLength := maxCardLength;
      this.maxTurns := maxTurns;
      players := [];
      deck := new Deck(0);
      pile := [];
      meld := [];
      new;
      Reset(ps, js, 20);
    }

    /**
     * Starts over: a fresh shuffled pack, no melds, and new players dealt
     * `maxCardLength` cards each; every dealt card is then in play once.
     */
    method Reset(ps: seq<Player>, js: seq<nat>, maxTurns: int)
      requires |ps| * maxCardLength < 28 && ShuffleChoices(js, 28)
      modifies this
      ensures this.maxTurns == maxTurns && maxCardLength == old(maxCardLength)
      ensures Valid() && meld == [] && NewlySeated(ps, players)
      ensures fresh(deck) && forall p :: p in players ==> fresh(p)
      ensures |pile| == 1 && |deck.cards| == 27 - |ps| * maxCardLength
      ensures EachCardTimes(CardsOnTable(TableOf()), 1)
    {
      players := [];
      deck := FreshDeck(1, js);
      meld := [];
      pile := [];
      this.maxTurns := maxTurns;
      Deal(ps);
    }

    /** The reset's deal: new players, then the pile, from a full pack onto an empty table. */
    method Deal(ps: seq<Player>)
      requires players == [] && meld == [] && |ps| * maxCardLength < 28
      requires |deck.cards| == 28 && EachCardTimes(multiset(deck.cards), 1)
      modifies this`players, this`pile, deck`cards
      ensures Valid() && NewlySeated(ps, players) && forall p :: p in players ==> fresh(p)
      ensures |pile| == 1 && |deck.cards| == 27 - |ps| * maxCardLength
      ensures EachCardTimes(CardsOnTable(TableOf()), 1)
      ensures Flatten(StashesOf(players)) + pile + deck.cards == old(deck.cards)
    {
      ghost var d := deck.cards;
      ghost var seated, hands := UpdatePlayerCards(ps);
      assert players == [] + seated == seated;
      assert Valid() && NewlySeated(ps, players);
      assert StashesOf(players) == hands;
      DealtGame(d, hands, pile, deck.cards, |ps|, maxCardLength);
      assert TableOf() == Table(deck.cards, pile, hands, []);
      assert Flatten(StashesOf(players)) + pile + deck.cards == d;
    }

    /** The reset's new deck: `packs` packs, shuffled, so every card `packs` times. */
    method FreshDeck(packs: nat, js: seq<nat>) returns (d: Deck)
      requires ShuffleChoices(js, 28 * packs)
      ensures fresh(d) && d.packs == packs
      ensures |d.cards| == 28 * packs && EachCardTimes(multiset(d.cards), packs)
    {
      d := new Deck(packs);
      d.Shuffle(js);
    }

    /**
     * Seats a new player per entry of `ps` (same name, bot flag and points,
     * an empty stash of its own), deals each `maxCardLength` cards from the
     * front of the deck, and turns one more card up as the whole pile. The
     * ghost results name the seated players and their hands.
     */
    method UpdatePlayerCards(ps: seq<Player>) returns (ghost seated: seq<Player>, ghost hands: seq<seq<Card>>)
      requires |ps| * maxCardLength < |deck.cards|
      modifies this`players, this`pile, deck`cards
      ensures players == old(players) + seated
      ensures NewlySeated(ps, seated) && forall p :: p in seated ==> fresh(p)
      ensures |hands| == |seated| && forall a :: 0 <= a < |seated| ==> seated[a].stash == hands[a]
      ensures forall a :: 0 <= a < |hands| ==> |hands[a]| == maxCardLength
      ensures Flatten(hands) + pile + deck.cards == old(deck.cards)
      ensures |pile| == 1
    {
      seated, hands := SeatPlayers(ps);
      var top := deck.DrawCard();
      pile := [top];
      assert Flatten(hands) + pile + deck.cards == Flatten(hands) + ([top] + deck.cards);
    }

    /** The dealing loop: one new player per entry of `ps`, each dealt `maxCardLength` cards. */
    method SeatPlayers(ps: seq<Player>) returns (ghost seated: seq<Player>, ghost hands: seq<seq<Card>>)
      requires |ps| * maxCardLength < |deck.cards|
      modifies this`players, deck`cards
      ensures players == old(players) + seated
      ensures NewlySeated(ps, seated) && forall p :: p in seated ==> fresh(p)
      ensures |hands| == |seated| && forall a :: 0 <= a < |seated| ==> seated[a].stash == hands[a]
      ensures forall a :: 0 <= a < |hands| ==> |hands[a]| == maxCardLength
      ensures Flatten(hands) + deck.cards == old(deck.cards) && deck.cards != []
    {
      ghost var m, d := maxCardLength, deck.cards;
      seated, hands := [], [];
      DealtIsProduct(|ps|, m);
      for i := 0 to |ps|
        invariant players == old(players) + seated && |seated| == i && |hands| == i
        invariant |deck.cards| > Dealt(|ps| - i, m)
        invariant Flatten(hands) + deck.cards == d
        invariant forall a :: 0 <= a < i ==> fresh(seated[a]) && SeatedAs(seated[a], ps[a], m) && seated[a].stash == hands[a]
        invariant forall a, b :: 0 <= a < b < i ==> seated[a] != seated[b]
      {
        ghost var rest := deck.cards;
        var player := SeatPlayer(ps[i]);
        players := players + [player];
        DealStep(hands, rest, m, d);
        seated := seated + [player];
        hands := hands + [player.stash];
      }
    }

    /** `seated` holds one distinct player per entry of `ps`, in this game, dealt `maxCardLength` cards. */
    ghost predicate NewlySeated(ps: seq<Player>, seated: seq<Player>)
      reads this, set p | p in ps, set p | p in seated
    {
      && |seated| == |ps|
      && (forall a :: 0 <= a < |ps| ==> SeatedAs(seated[a], ps[a], maxCardLength))
      && (forall a, b :: 0 <= a < b < |seated| ==> seated[a] != seated[b])
    }

    /** `player` sits in this game in place of `p`: same name, kind and points, holding `m` cards. */
    ghost predicate SeatedAs(player: Player, p: Player, m: nat)
      reads player, p
    {
      && player.name == p.name && player.isBot == p.isBot && player.points == p.points
      && player.game == this && |player.stash| == m
    }

    /**
     * One iteration of the dealing loop: a new player like `p`, with a stash
     * of its own holding the next `maxCardLength` cards of the deck.
     */
    method SeatPlayer(p: Player) returns (player: Player)
      requires maxCardLength <= |deck.cards|
      modifies deck`cards
      ensures fresh(player)
      ensures player.name == p.name && player.isBot == p.isBot && player.points == p.points
      ensures player.game == this && player.stash == old(deck.cards[..maxCardLength])
      ensures deck.cards == old(deck.cards[maxCardLength..])
    {
      player := new Player(p.name, [], p.isBot, p.points);
      for k := 0 to maxCardLength
        modifies deck`cards, player`stash
        invariant deck.cards == old(deck.cards[k..])
        invariant player.stash == old(deck.cards[..k])
      {
        var card := deck.DrawCard();
        assert old(deck.cards[..k + 1]) == old(deck.cards[..k]) + [card];
        player.stash := player.stash + [card];
      }
      player.game := this;
    }

    /** Puts `card` on the pile; an empty deck is first refilled with the old pile, shuffled. */
    method AddPile(card: Card, js: seq<nat>)
      requires deck.cards == [] ==> ShuffleChoices(js, |pile|)
      modifies this`pile, deck`cards
      ensures (deck.cards, pile) == AddedToPile(old(deck.cards), old(pile), card, js)
    {
      if |deck.cards| == 0 {
        deck.cards := deck.cards + pile;
        deck.Shuffle(js);
        pile := [];
        assert deck.cards == Shuffled(old(deck.cards) + old(pile), js);
      }
      pile := pile + [card];
      assert AddedToPile(old(deck.cards), old(pile), card, js).1 == pile;
      assert AddedToPile(old(deck.cards), old(pile), card, js).0 == deck.cards;
    }

    /** The top of the pile moves to the end of the player's stash; every card stays in play. */
    method PickFromPile(player: Player)
      requires Valid()
      requires pile != []
      modifies this`pile, player`stash
      ensures player.stash == old(player.stash) + [old(PickedCard(true, deck.cards, pile))]
      ensures (deck.cards, pile) == old(Picked(true, deck.cards, pile))
      ensures Valid()
      ensures forall k :: 0 <= k < |players| && players[k] == player ==> TableOf() == PickTable(old(TableOf()), k, true)
    {
      ghost var ss := StashesOf(players);
      var card := pile[|pile| - 1];
      pile := pile[..|pile| - 1];
      player.stash := player.stash + [card];
      forall k | 0 <= k < |players| && players[k] == player {
        StashesReplaced(players, ss, k);
      }
    }

    /** The front of the deck moves to the end of the player's stash; every card stays in play. */
    method PickFromDeck(player: Player)
      requires Valid()
      requires deck.cards != []
      modifies deck`cards, player`stash
      ensures player.stash == old(player.stash) + [old(PickedCard(false, deck.cards, pile))]
      ensures (deck.cards, pile) == old(Picked(false, deck.cards, pile))
      ensures Valid()
      ensures forall k :: 0 <= k < |players| && players[k] == player ==> TableOf() == PickTable(old(TableOf()), k, false)
    {
      ghost var ss := StashesOf(players);
      var card := deck.DrawCard();
      player.stash := player.stash + [card];
      forall k | 0 <= k < |players| && players[k] == player {
        StashesReplaced(players, ss, k);
      }
    }

    /** A pick from the pile or from the deck. */
    method Pick(player: Player, fromPile: bool)
      requires Valid()
      requires if fromPile then pile != [] else deck.cards != []
      modifies this`pile, deck`cards, player`stash
      ensures player.stash == old(player.stash) + [old(PickedCard(fromPile, deck.cards, pile))]
      ensures (deck.cards, pile) == old(Picked(fromPile, deck.cards, pile))
      ensures Valid()
      ensures forall k :: 0 <= k < |players| && players[k] == player ==> TableOf() == PickTable(old(TableOf()), k, fromPile)
    {
      if fromPile {
        PickFromPile(player);
      } else {
        PickFromDeck(player);
      }
    }

    /** The player's meld, seen from its game: the heavy groups move from the stash to the melds. */
    method MeldHand(player: Player) returns (melded: bool)
      requires Valid()
      requires player.game == this
      modifies this`meld, player`stash
      ensures player.stash == Kept(old(player.stash))
      ensures meld == old(meld) + MeldGroups(old(player.stash))
      ensures melded <==> MeldGroups(old(player.stash)) != []
      ensures Valid()
      ensures forall k :: 0 <= k < |players| && players[k] == player ==> TableOf() == MeldTable(old(TableOf()), k)
    {
      ghost var ss := StashesOf(players);
      melded := player.Meld();
      forall k | 0 <= k < |players| && players[k] == player {
        StashesReplaced(players, ss, k);
      }
    }

    /**
     * The pick inside `PickCard`, with the number of distinct values and the
     * score of the stash taken before and after it.
     */
    method PickAndScore(player: Player, fromPile: bool) returns (beforeUnique: nat, before: int, afterUnique: nat, after: int)
      requires Valid()
      requires if fromPile then pile != [] else deck.cards != []
      modifies this`pile, deck`cards, player`stash
      ensures player.stash == old(player.stash) + [old(PickedCard(fromPile, deck.cards, pile))]
      ensures (deck.cards, pile) == old(Picked(fromPile, deck.cards, pile))
      ensures beforeUnique == |Values(old(player.stash))| && before == Score(old(player.stash))
      ensures afterUnique == |Values(player.stash)| && after == Score(player.stash)
      ensures Valid()
      ensures forall k :: 0 <= k < |players| && players[k] == player ==> TableOf() == PickTable(old(TableOf()), k, fromPile)
    {
      ghost var t0 := TableOf();
      beforeUnique := |Values(player.stash)|;
      before := player.StashScore();
      assert TableOf() == t0;
      Pick(player, fromPile);
      ghost var t1 := TableOf();
      afterUnique := |Values(player.stash)|;
      after := player.StashScore();
      assert TableOf() == t1;
    }

    /**
     * One pick by `player`: from the pile when `action` is 0 and from the
     * deck otherwise, then a meld. The state is the values of the first four
     * cards held after the pick; the reward is 100 on a meld, else 80 when
     * the picked card's value was already held, else -3 times that value.
     */
    method PickCard(player: Player, action: int) returns (reward: int, state: seq<nat>)
      requires Valid()
      requires player.game == this && |player.stash| >= 3
      requires if action == 0 then pile != [] else deck.cards != []
      modifies this`pile, this`meld, deck`cards, player`stash
      ensures var c := old(PickedCard(action == 0, deck.cards, pile));
        var s1 := old(player.stash) + [c];
        && (deck.cards, pile) == old(Picked(action == 0, deck.cards, pile))
        && player.stash == Kept(s1)
        && meld == old(meld) + MeldGroups(s1)
        && state == [s1[0].RankToVal(), s1[1].RankToVal(), s1[2].RankToVal(), s1[3].RankToVal()]
        && reward == if MeldGroups(s1) != [] then 100
                     else if c.RankToVal() in Values(old(player.stash)) then 80
                     else -3 * c.RankToVal()
      ensures Valid()
      ensures forall k :: 0 <= k < |players| && players[k] == player ==>
        TableOf() == MeldTable(PickTable(old(TableOf()), k, action == 0), k)
    {
      ghost var s0, d0, p0 := player.stash, deck.cards, pile;
      var beforeUnique, before, afterUnique, after := PickAndScore(player, action == 0);
      ghost var t1 := TableOf();
      state := [player.stash[0].RankToVal(), player.stash[1].RankToVal(), player.stash[2].RankToVal(), player.stash[3].RankToVal()];
      var melded := MeldHand(player);
      if melded {
        reward := 100;
      } else if afterUnique == beforeUnique {
        reward := 80;
      } else {
        reward := -3 * (after - before);
      }
      PickRewardValue(melded, s0, PickedCard(action == 0, d0, p0));
      forall k | 0 <= k < |players| && players[k] == player
        ensures TableOf() == MeldTable(PickTable(old(TableOf()), k, action == 0), k)
      {
        assert t1 == PickTable(old(TableOf()), k, action == 0);
      }
    }

    /**
     * `player` drops `card` onto its game's pile. The reward is -80 when
     * another held card has the dropped card's value, else 3 times that value.
     */
    method DropCard(player: Player, card: Card, js: seq<nat>) returns (reward: int)
      requires player.game != null && card in player.stash
      requires player.game.deck.cards == [] ==> ShuffleChoices(js, |player.game.pile|)
      modifies player`stash, player.game`pile, player.game.deck`cards
      ensures player.stash == RemoveFirst(old(player.stash), card)
      ensures (player.game.deck.cards, player.game.pile) == AddedToPile(old(player.game.deck.cards), old(player.game.pile), card, js)
      ensures reward == if card.RankToVal() in Values(player.stash) then -80 else 3 * card.RankToVal()
      ensures player.game == this && Valid() ==>
        forall k :: 0 <= k < |players| && players[k] == player ==> TableOf() == DropTable(old(TableOf()), k, card, js)
    {
      ghost var s0, t0 := player.stash, TableOf();
      var beforeUnique := |Values(player.stash)|;
      var before := player.StashScore();
      assert TableOf() == t0;
      Discard(player, card, js);
      ghost var t1 := TableOf();
      var afterUnique := |Values(player.stash)|;
      var after := player.StashScore();
      assert TableOf() == t1;
      if beforeUnique == afterUnique {
        reward := -80;
      } else {
        reward := -3 * (after - before);
      }
      DropRewardValue(s0, card);
    }

    /** The drop inside `DropCard`: the player's own drop, seen from this game. */
    method Discard(player: Player, card: Card, js: seq<nat>)
      requires player.game != null && card in player.stash
      requires player.game.deck.cards == [] ==> ShuffleChoices(js, |player.game.pile|)
      modifies player`stash, player.game`pile, player.game.deck`cards
      ensures player.stash == RemoveFirst(old(player.stash), card)
      ensures (player.game.deck.cards, player.game.pile) == AddedToPile(old(player.game.deck.cards), old(player.game.pile), card, js)
      ensures player.game == this && Valid() ==>
        forall k :: 0 <= k < |players| && players[k] == player ==> TableOf() == DropTable(old(TableOf()), k, card, js)
    {
      ghost var ss := StashesOf(players);
      var _ := player.DropCard(card, js);
      if player.game == this && Valid() {
        forall k | 0 <= k < |players| && players[k] == player {
          StashesReplaced(players, ss, k);
        }
      }
    }

    /**
     * The computer's turn: picks from the pile when `coin` is 1 and from the
     * deck otherwise, melds, and drops the card at position `pos` of what
     * it still holds, if anything.
     */
    method ComputerPlay(player: Player, coin: int, pos: nat, js: seq<nat>)
      requires Valid()
      requires player.game == this
      requires if coin == 1 then pile != [] else deck.cards != []
      requires var c := PickedCard(coin == 1, deck.cards, pile);
        var kept := Kept(player.stash + [c]);
        var (d, p) := Picked(coin == 1, deck.cards, pile);
        kept != [] ==> pos < |kept| && (d == [] ==> ShuffleChoices(js, |p|))
      modifies this`pile, this`meld, deck`cards, player`stash
      ensures var c := old(PickedCard(coin == 1, deck.cards, pile));
        var s1 := old(player.stash) + [c];
        var (d, p) := old(Picked(coin == 1, deck.cards, pile));
        && meld == old(meld) + MeldGroups(s1)
        && if Kept(s1) == [] then player.stash == [] && deck.cards == d && pile == p
           else
             var card := Kept(s1)[pos];
             && player.stash == RemoveFirst(Kept(s1), card)
             && (deck.cards, pile) == AddedToPile(d, p, card, js)
      ensures Valid()
      ensures forall k :: 0 <= k < |players| && players[k] == player ==>
        CanTakeTurn(old(TableOf()), k, coin == 1, pos, js) && TableOf() == ComputerTurn(old(TableOf()), k, coin == 1, pos, js)
    {
      ghost var t0 := TableOf();
      ghost var m0 := meld;
      ghost var s1 := player.stash + [PickedCard(coin == 1, deck.cards, pile)];
      ghost var (d, p) := Picked(coin == 1, deck.cards, pile);
      PickThenMeld(player, coin == 1);
      ghost var t2, s2 := TableOf(), player.stash;
      assert s2 == Kept(s1) && deck.cards == d && pile == p;
      DropAt(player, pos, js);
      ghost var t3 := TableOf();
      assert meld == m0 + MeldGroups(s1);
      forall k | 0 <= k < |players| && players[k] == player
        ensures CanTakeTurn(t0, k, coin == 1, pos, js) && t3 == ComputerTurn(t0, k, coin == 1, pos, js)
      {
        assert t2 == MeldTable(PickTable(t0, k, coin == 1), k) && t2.stashes[k] == s2;
        assert t3 == if s2 == [] then t2 else DropTable(t2, k, s2[pos], js);
        TurnComposes(t0, t2, t3, k, coin == 1, pos, js);
      }
    }

    /** The computer's pick followed by its meld. */
    method PickThenMeld(player: Player, fromPile: bool)
      requires Valid()
      requires player.game == this
      requires if fromPile then pile != [] else deck.cards != []
      modifies this`pile, this`meld, deck`cards, player`stash
      ensures var s1 := old(player.stash) + [old(PickedCard(fromPile, deck.cards, pile))];
        && (deck.cards, pile) == old(Picked(fromPile, deck.cards, pile))
        && player.stash == Kept(s1)
        && meld == old(meld) + MeldGroups(s1)
      ensures Valid()
      ensures forall k :: 0 <= k < |players| && players[k] == player ==>
        TableOf() == MeldTable(PickTable(old(TableOf()), k, fromPile), k)
    {
      Pick(player, fromPile);
      ghost var t1 := TableOf();
      var _ := MeldHand(player);
      forall k | 0 <= k < |players| && players[k] == player
        ensures TableOf() == MeldTable(PickTable(old(TableOf()), k, fromPile), k)
      {
        assert t1 == PickTable(old(TableOf()), k, fromPile);
      }
    }

    /** The end of the computer's turn: the card at `pos` of a stash that is not empty goes to the pile. */
    method DropAt(player: Player, pos: nat, js: seq<nat>)
      requires Valid()
      requires player.game == this
      requires player.stash != [] ==> pos < |player.stash| && (deck.cards == [] ==> ShuffleChoices(js, |pile|))
      modifies this`pile, deck`cards, player`stash
      ensures old(player.stash) == [] ==> player.stash == [] && deck.cards == old(deck.cards) && pile == old(pile)
      ensures old(player.stash) != [] ==>
        var card := old(player.stash[pos]);
        && player.stash == RemoveFirst(old(player.stash), card)
        && (deck.cards, pile) == AddedToPile(old(deck.cards), old(pile), card, js)
      ensures Valid()
      ensures forall k :: 0 <= k < |players| && players[k] == player ==>
        TableOf() == if old(player.stash) == [] then old(TableOf()) else DropTable(old(TableOf()), k, old(player.stash[pos]), js)
    {
      ghost var ss := StashesOf(players);
      if |player.stash| != 0 {
        var card := player.stash[pos];
        var _ := player.DropCard(card, js);
        forall k | 0 <= k < |players| && players[k] == player {
          StashesReplaced(players, ss, k);
        }
      }
    }

    /** Whether the game is over: some player holds no card, or no turns are left. */
    method Play() returns (over: bool)
      ensures over == IsOver(StashesOf(players), maxTurns)
    {
      ghost var ss := StashesOf(players);
      for i := 0 to |players|
        invariant forall j :: 0 <= j < i ==> ss[j] != []
      {
        if |players[i].stash| == 0 {
          return true;
        }
      }
      return maxTurns <= 0;
    }

    /** Uses up one turn. */
    method UpdateTurn()
      modifies this`maxTurns
      ensures maxTurns == old(maxTurns) - 1
    {
      maxTurns := maxTurns - 1;
    }

    /**
     * The training loop's turn counter with the players' moves left out:
     * while the game is not over, use up a turn. It stops at once when some
     * stash is already empty or no turns are left. Otherwise it uses up
     * exactly the turns that were left.
     */
    method PlayOutTurns() returns (turns: nat)
      modifies this`maxTurns
      ensures IsOver(StashesOf(players), maxTurns)
      ensures turns == old(maxTurns) - maxTurns
      ensures maxTurns == if IsOver(StashesOf(players), old(maxTurns)) then old(maxTurns) else 0
    {
      turns := 0;
      var over := Play();
      while !over
        invariant maxTurns == old(maxTurns) - turns
        invariant over == IsOver(StashesOf(players), maxTurns)
        invariant turns == 0 || (!IsOver(StashesOf(players), old(maxTurns)) && maxTurns >= 0)
        decreases maxTurns
      {
        UpdateTurn();
        turns := turns + 1;
        over := Play();
      }
    }

    /** The one player called `name`, or `None` when no player or several are. */
    function GetPlayer(name: string): (r: Option<Player>)
      reads this, set p | p in players
      ensures r.Some? <==> |NameIndices(players, name)| == 1
      ensures r.Some? ==> r.value in players && r.value.name == name
      ensures r.Some? ==> forall i :: 0 <= i < |players| && players[i].name == name ==> players[i] == r.value
    {
      var named := PlayersNamed(players, name);
      PlayersNamedCount(players, name);
      if |named| != 1 then None else Some(named[0])
    }
  }
}
