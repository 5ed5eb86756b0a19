/** `dealTwoHands` of app.js: shuffle a fresh deck, then pop two 2-card hands
    and a 5-card preview board off its end. */
module Deal {
  import opened Seqs
  import opened Deck
  import opened Shuffle

  /** `Array.prototype.pop` on a non-empty array: the last element comes off. */
  method Pop(deck: seq<Card>) returns (top: Card, rest: seq<Card>)
    requires |deck| > 0
    ensures top == deck[|deck| - 1] && rest == deck[..|deck| - 1]
    ensures deck == rest + [top]
  {
    top, rest := deck[|deck| - 1], deck[..|deck| - 1];
  }

  /** The cards that n successive pops return, in the order they come off. */
  function Popped(deck: seq<Card>, n: nat): (cards: seq<Card>)
    requires n <= |deck|
    ensures |cards| == n
  {
    if n == 0 then [] else Popped(deck, n - 1) + [deck[|deck| - n]]
  }

  /** Popping loses no card: what came off plus what is left is the deck, as a multiset. */
  lemma {:induction false} PoppedKeepsCards(deck: seq<Card>, n: nat)
    requires n <= |deck|
    ensures multiset(Popped(deck, n) + deck[..|deck| - n]) == multiset(deck)
  {
    if n > 0 {
      PoppedKeepsCards(deck, n - 1);
      var m, earlier := |deck| - n, Popped(deck, n - 1);
      assert deck[..m + 1] == deck[..m] + [deck[m]];
      calc {
        multiset(Popped(deck, n) + deck[..m]);
        multiset(earlier + [deck[m]]) + multiset(deck[..m]);
        multiset(earlier) + multiset{deck[m]} + multiset(deck[..m]);
        multiset(earlier) + multiset(deck[..m] + [deck[m]]);
        multiset(earlier + deck[..m + 1]);
        { assert |deck| - (n - 1) == m + 1; }
        multiset(deck);
      }
    } else {
      assert deck[..|deck|] == deck;
    }
  }

  /** m pops followed by n more pops return the same cards as m + n pops. */
  lemma {:induction false} PoppedSplit(deck: seq<Card>, m: nat, n: nat)
    requires m + n <= |deck|
    ensures Popped(deck, m + n) == Popped(deck, m) + Popped(deck[..|deck| - m], n)
  {
    if n > 0 {
      PoppedSplit(deck, m, n - 1);
      var d := deck[..|deck| - m];
      assert d[|d| - n] == deck[|deck| - (m + n)];
    }
  }

  /** Cards popped off a permutation of a duplicate-free deck are deck cards,
      all different, and none of them is still in what is left. */
  lemma DealtFromDeck(shuffled: seq<Card>, deck: seq<Card>, n: nat)
    requires multiset(shuffled) == multiset(deck) && Distinct(deck) && n <= |shuffled|
    ensures Distinct(Popped(shuffled, n))
    ensures forall c :: c in Popped(shuffled, n) ==> c in deck && c !in shuffled[..|shuffled| - n]
  {
    var dealt, rest := Popped(shuffled, n), shuffled[..|shuffled| - n];
    PoppedKeepsCards(shuffled, n);
    PermutationKeepsDistinct(dealt + rest, deck);
    var all := dealt + rest;
    forall i, j | 0 <= i < j < |dealt| ensures dealt[i] != dealt[j] {
      assert all[i] == dealt[i] && all[j] == dealt[j];
    }
    forall c | c in dealt ensures c in deck && c !in rest {
      var i :| 0 <= i < |dealt| && dealt[i] == c;
      assert all[i] == c;
      forall j | 0 <= j < |rest| ensures rest[j] != c {
        assert all[|dealt| + j] == rest[j];
      }
    }
  }

  /** A two-card hand (app.js:51-52): two pops, the first card popped first. */
  method PopTwo(deck: seq<Card>) returns (cards: seq<Card>, rest: seq<Card>)
    requires |deck| >= 2
    ensures cards == Popped(deck, 2) && |cards| == 2
    ensures rest == deck[..|deck| - 2]
  {
    var c0, c1;
    c0, rest := Pop(deck);
    assert [c0] == Popped(deck, 1);
    c1, rest := Pop(rest);
    cards := [c0, c1];
  }

  /** The preview board (app.js:54): five pops, in the order they are made. */
  method PopFive(deck: seq<Card>) returns (cards: seq<Card>, rest: seq<Card>)
    requires |deck| >= 5
    ensures cards == Popped(deck, 5) && |cards| == 5
    ensures rest == deck[..|deck| - 5]
  {
    var c0, c1, c2, c3, c4;
    c0, rest := Pop(deck);
    assert [c0] == Popped(deck, 1);
    c1, rest := Pop(rest);
    assert [c0, c1] == Popped(deck, 2);
    c2, rest := Pop(rest);
    assert [c0, c1, c2] == Popped(deck, 3);
    c3, rest := Pop(rest);
    assert [c0, c1, c2, c3] == Popped(deck, 4);
    c4, rest := Pop(rest);
    cards := [c0, c1, c2, c3, c4];
  }

  /** Deals from one shuffled deck; `shuffled` (ghost) is the deck right after
      the shuffle. The nine cards dealt are the last nine of it, last first;
      they are real cards, no card is dealt twice, and with the 43 cards left
      they are the whole deck again. */
  method DealTwoHands() returns (handA: seq<Card>, handB: seq<Card>, previewBoard: seq<Card>,
                                 ghost shuffled: seq<Card>)
    ensures |shuffled| == DeckSize && multiset(shuffled) == multiset(FullDeck())
    ensures handA + handB + previewBoard == Popped(shuffled, 9)
    ensures |handA| == 2 && |handB| == 2 && |previewBoard| == 5
    ensures Distinct(handA + handB + previewBoard)
    ensures forall c :: c in handA + handB + previewBoard ==> IsCard(c) && c !in shuffled[..43]
    ensures multiset(handA + handB + previewBoard + shuffled[..43]) == multiset(FullDeck())
  {
    var built := BuildDeck();
    var a := new Card[|built|](k requires 0 <= k < |built| => built[k]);
    assert a[..] == built;
    ghost var draws := ShuffleInPlace(a);
    var deck := a[..];
    shuffled := deck;
    handA, deck := PopTwo(deck);
    handB, deck := PopTwo(deck);
    previewBoard, deck := PopFive(deck);
    FullDeckDistinct();
    DealtHands(shuffled, FullDeck(), handA, handB, previewBoard);
    forall c | c in handA + handB + previewBoard ensures IsCard(c) {
      FullDeckMembers(c);
    }
  }

  /** What the three pop expressions of `dealTwoHands` return, taken together. */
  lemma DealtHands(shuffled: seq<Card>, deck: seq<Card>,
                   handA: seq<Card>, handB: seq<Card>, previewBoard: seq<Card>)
    requires |shuffled| == DeckSize && multiset(shuffled) == multiset(deck) && Distinct(deck)
    requires handA == Popped(shuffled, 2)
    requires handB == Popped(shuffled[..50], 2)
    requires previewBoard == Popped(shuffled[..50][..48], 5)
    ensures handA + handB + previewBoard == Popped(shuffled, 9)
    ensures |handA| == 2 && |handB| == 2 && |previewBoard| == 5
    ensures Distinct(handA + handB + previewBoard)
    ensures forall c :: c in handA + handB + previewBoard ==> c in deck && c !in shuffled[..43]
    ensures multiset(handA + handB + previewBoard + shuffled[..43]) == multiset(deck)
  {
    DealtInOrder(shuffled, handA, handB, previewBoard);
    PoppedKeepsCards(shuffled, 9);
    DealtFromDeck(shuffled, deck, 9);
  }

  /** The three pop expressions together pop the last nine cards, last first. */
  lemma DealtInOrder(shuffled: seq<Card>, handA: seq<Card>, handB: seq<Card>, previewBoard: seq<Card>)
    requires |shuffled| == DeckSize
    requires handA == Popped(shuffled, 2)
    requires handB == Popped(shuffled[..50], 2)
    requires previewBoard == Popped(shuffled[..50][..48], 5)
    ensures handA + handB + previewBoard == Popped(shuffled, 9)
  {
    PoppedSplit(shuffled, 2, 2);
    assert shuffled[..50][..48] == shuffled[..48];
    PoppedSplit(shuffled, 4, 5);
  }
}
