/**
 * Cards of Simple Rummy: a rank from the rank-value table, a suit from the
 * four-symbol alphabet, and the numeric value the table gives the rank.
 */
module Cards {
  import opened Wrappers

  /** The keys of the rank-value table (there is no jack in it). */
  datatype Rank = Ace | Two | Three | Four | Five | Six | Seven | Eight | Nine | Ten | Queen | King

  datatype Suit = Hearts | Spades | Diamonds | Clubs

  /** Two cards are equal exactly when rank and suit are: structural equality. */
  datatype Card = Card(rank: Rank, suit: Suit)
  {
    /** The value the card carries from construction on. */
    function RankToVal(): (v: nat)
      ensures 1 <= v <= 10
      ensures rank in Ranks ==> v <= 7
    {
      RankValue(rank)
    }
  }

  /** The ranks the game deals, in deck order. */
  const Ranks: seq<Rank> := [Ace, Two, Three, Four, Five, Six, Seven]

  /** No rank occurs twice in `rs`. */
  predicate Distinct(rs: seq<Rank>)
  {
    forall i, j :: 0 <= i < j < |rs| ==> rs[i] != rs[j]
  }

  /** The suits, in deck order. */
  const Suits: seq<Suit> := [Hearts, Spades, Diamonds, Clubs]

  /** The rank-value table. */
  function RankValue(r: Rank): nat
  {
    match r
    case Ace => 1
    case Two => 2
    case Three => 3
    case Four => 4
    case Five => 5
    case Six => 6
    case Seven => 7
    case Eight => 8
    case Nine => 9
    case Ten => 10
    case Queen => 10
    case King => 10
  }

  /** The one-character key of a rank in the rank-value table. */
  function RankSymbol(r: Rank): char
  {
    match r
    case Ace => 'A'
    case Two => '2'
    case Three => '3'
    case Four => '4'
    case Five => '5'
    case Six => '6'
    case Seven => '7'
    case Eight => '8'
    case Nine => '9'
    case Ten => 'T'
    case Queen => 'Q'
    case King => 'K'
  }

  /** Looks a rank symbol up in the rank-value table; a missing key is `None`. */
  function ParseRank(c: char): (r: Option<Rank>)
    ensures r.Some? <==> c in "A23456789TQK"
    ensures r.Some? ==> RankSymbol(r.value) == c
  {
    match c
    case 'A' => Some(Ace)
    case '2' => Some(Two)
    case '3' => Some(Three)
    case '4' => Some(Four)
    case '5' => Some(Five)
    case '6' => Some(Six)
    case '7' => Some(Seven)
    case '8' => Some(Eight)
    case '9' => Some(Nine)
    case 'T' => Some(Ten)
    case 'Q' => Some(Queen)
    case 'K' => Some(King)
    case _ => None
  }

  /** Building a card looks its rank up; an unknown rank symbol fails. */
  function NewCard(rankSymbol: char, suit: Suit): (r: Option<Card>)
    ensures r.Some? <==> ParseRank(rankSymbol).Some?
    ensures r.Some? ==> RankSymbol(r.value.rank) == rankSymbol && r.value.suit == suit
  {
    match ParseRank(rankSymbol)
    case Some(rank) => Some(Card(rank, suit))
    case None => None
  }

  lemma ParseRankSymbol(r: Rank)
    ensures ParseRank(RankSymbol(r)) == Some(r)
  {
  }
}
