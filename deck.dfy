/** The 52-card deck of app.js: a card is the two-character string of a rank
    followed by a suit, and `buildDeck` lists every (rank, suit) pair, rank-major. */
module Deck {
  import opened Seqs

  type Card = string

  /** Suits in app.js order: spades, hearts, diamonds, clubs. */
  const Suits: seq<char> := ['s', 'h', 'd', 'c']

  /** Ranks in app.js order, from ace down to deuce. */
  const Ranks: seq<char> := ['A', 'K', 'Q', 'J', 'T', '9', '8', '7', '6', '5', '4', '3', '2']

  const DeckSize: nat := 52

  /** Every rank followed by every one of four suits, rank-major: position
      4 * r + s holds the string rank r + suit s. */
  function Pairings(ranks: seq<char>, suits: seq<char>): (cards: seq<Card>)
    requires |suits| == 4
    ensures |cards| == 4 * |ranks|
  {
    seq(4 * |ranks|, k requires 0 <= k < 4 * |ranks| => [ranks[k / 4]] + [suits[k % 4]])
  }

  /** Position k = 4 * r + s splits back into r = k / 4 and s = k % 4. */
  lemma SplitPosition(k: nat, r: nat, s: nat)
    requires s < 4 && k == 4 * r + s
    ensures k / 4 == r && k % 4 == s
  {
    var q, m := k / 4, k % 4;
    assert k == 4 * q + m && 0 <= m < 4;
    assert 4 * (q - r) == s - m;
  }

  /** Rank r and suit s sit at position 4 * r + s. */
  lemma PairingAt(ranks: seq<char>, suits: seq<char>, r: nat, s: nat)
    requires |suits| == 4 && r < |ranks| && s < 4
    ensures 4 * r + s < 4 * |ranks|
    ensures Pairings(ranks, suits)[4 * r + s] == [ranks[r]] + [suits[s]]
  {
    SplitPosition(4 * r + s, r, s);
  }

  /** Pushing rank r and suit s extends the built prefix by one card. */
  lemma PairingsPrefix(ranks: seq<char>, suits: seq<char>, r: nat, s: nat)
    requires |suits| == 4 && r < |ranks| && s < 4
    ensures 4 * r + s < 4 * |ranks|
    ensures Pairings(ranks, suits)[..4 * r + s + 1] ==
            Pairings(ranks, suits)[..4 * r + s] + [[ranks[r]] + [suits[s]]]
  {
    var p, k := Pairings(ranks, suits), 4 * r + s;
    PairingAt(ranks, suits, r, s);
    assert p[..k + 1] == p[..k] + [p[k]];
  }

  /** With no repeated rank and no repeated suit, no card occurs twice. */
  lemma PairingsDistinct(ranks: seq<char>, suits: seq<char>)
    requires |suits| == 4 && Distinct(ranks) && Distinct(suits)
    ensures Distinct(Pairings(ranks, suits))
  {
    var p := Pairings(ranks, suits);
    forall i, j | 0 <= i < j < |p| ensures p[i] != p[j] {
      SplitPosition(i, i / 4, i % 4);
      SplitPosition(j, j / 4, j % 4);
      assert p[i][0] == ranks[i / 4] && p[i][1] == suits[i % 4];
      assert p[j][0] == ranks[j / 4] && p[j][1] == suits[j % 4];
      if i / 4 == j / 4 {
        assert i % 4 != j % 4;
      }
    }
  }

  /** Exactly the strings of one rank character followed by one suit
      character are in the pairings. */
  lemma PairingsMembers(ranks: seq<char>, suits: seq<char>, c: Card)
    requires |suits| == 4
    ensures c in Pairings(ranks, suits) <==> |c| == 2 && c[0] in ranks && c[1] in suits
  {
    var p := Pairings(ranks, suits);
    if |c| == 2 && c[0] in ranks && c[1] in suits {
      var r :| 0 <= r < |ranks| && ranks[r] == c[0];
      var s :| 0 <= s < |suits| && suits[s] == c[1];
      PairingAt(ranks, suits, r, s);
      assert p[4 * r + s] == c;
    }
    if c in p {
      var k :| 0 <= k < |p| && p[k] == c;
      assert c == [ranks[k / 4]] + [suits[k % 4]];
    }
  }

  /** The deck that `buildDeck` produces, as a value. */
  function FullDeck(): seq<Card> {
    Pairings(Ranks, Suits)
  }

  /** A well-formed card: one rank character followed by one suit character. */
  predicate IsCard(c: Card) {
    |c| == 2 && c[0] in Ranks && c[1] in Suits
  }

  /** `buildDeck`: for each rank, for each suit, push rank + suit. */
  method BuildDeck() returns (deck: seq<Card>)
    ensures deck == FullDeck()
  {
    deck := [];
    for r := 0 to |Ranks|
      invariant deck == FullDeck()[..4 * r]
    {
      for s := 0 to |Suits|
        invariant deck == FullDeck()[..4 * r + s]
      {
        PairingsPrefix(Ranks, Suits, r, s);
        deck := deck + [[Ranks[r]] + [Suits[s]]];
      }
    }
    assert FullDeck()[..4 * |Ranks|] == FullDeck();
  }

  /** The 13 ranks are all different, and so are the 4 suits. */
  lemma RanksAndSuitsDistinct()
    ensures |Ranks| == 13 && Distinct(Ranks)
    ensures |Suits| == 4 && Distinct(Suits)
  {
  }

  /** The deck has 52 cards and no card occurs twice. */
  lemma FullDeckDistinct()
    ensures |FullDeck()| == DeckSize
    ensures Distinct(FullDeck())
  {
    RanksAndSuitsDistinct();
    PairingsDistinct(Ranks, Suits);
  }

  /** Exactly the well-formed cards are in the deck: one per (rank, suit) pair. */
  lemma FullDeckMembers(c: Card)
    ensures c in FullDeck() <==> IsCard(c)
  {
    PairingsMembers(Ranks, Suits, c);
  }

  /** The deck holds exactly the well-formed cards. */
  lemma FullDeckHoldsCards()
    ensures forall c :: c in FullDeck() <==> IsCard(c)
  {
    forall c: Card ensures c in FullDeck() <==> IsCard(c) {
      FullDeckMembers(c);
    }
  }
}
