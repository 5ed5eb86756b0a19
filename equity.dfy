/** `simulateEquity` of app.js: Monte Carlo estimate of the two hands' equities.

    The base deck is the full deck without the hole cards. Each trial shuffles
    a fresh copy of it, takes its first five cards as the board, asks the hand
    evaluator which of the two 7-card hands win, and bumps one counter. The
    counters become equities, a tie counting half for each side.

    The evaluator (`solve7` and `Hand.winners` of the pokersolver library) is a
    parameter: it takes the two 7-card hands and answers with the positions, in
    the list `[solvedA, solvedB]`, of the hands `Hand.winners` returns. */
module Equity {
  import opened Seqs
  import opened Deck
  import opened Shuffle
  import opened Counters

  /** `MONTE_CARLO_ITERS`, the default number of trials. */
  const MonteCarloIters: nat := 2000

  /** A position in the list `[solvedA, solvedB]` given to `Hand.winners`. */
  datatype Seat = SeatA | SeatB

  /** The library's choice of winners among the two solved 7-card hands
      (app.js:77-80), as seats. */
  type Evaluator = (seq<Card>, seq<Card>) -> seq<Seat>

  /** The branch of the trial loop: two winners is a tie; otherwise the first
      winner decides. An empty answer reads `winners[0]` as undefined, which
      is not `solvedA`, so it counts for B. */
  function Classify(winners: seq<Seat>): (o: Outcome)
    ensures o == Tie <==> |winners| == 2
    ensures o == WinA <==> |winners| != 2 && |winners| > 0 && winners[0] == SeatA
    ensures o == WinB <==> |winners| != 2 && (|winners| == 0 || winners[0] != SeatA)
  {
    if |winners| == 2 then Tie
    else if |winners| > 0 && winners[0] == SeatA then WinA
    else WinB
  }

  /** What an evaluator that ranks hands by a strength returns: the hands of
      greatest strength, in input order. */
  function RankedWinners(strengthA: int, strengthB: int): seq<Seat> {
    (if strengthA >= strengthB then [SeatA] else []) + (if strengthB >= strengthA then [SeatB] else [])
  }

  /** The evaluator that ranks each 7-card hand by `strength`. */
  function RankEvaluator(strength: seq<Card> -> int): Evaluator {
    (hand7A, hand7B) => RankedWinners(strength(hand7A), strength(hand7B))
  }

  /** Against an evaluator that ranks hands, the branch counts a win for the
      stronger hand and a tie for equal strength. */
  lemma ClassifyRanked(strengthA: int, strengthB: int)
    ensures Classify(RankedWinners(strengthA, strengthB)) ==
      if strengthA > strengthB then WinA else if strengthB > strengthA then WinB else Tie
  {
  }

  /** The outcome of one trial with the given board. */
  function TrialOutcome(evaluate: Evaluator, holeA: seq<Card>, holeB: seq<Card>, board: seq<Card>): Outcome {
    Classify(evaluate(holeA + board, holeB + board))
  }

  /** With an evaluator that ranks hands, a trial is won by the hole pair that
      is stronger once the board is appended to it, and tied at equal strength. */
  lemma TrialOutcomeRanked(strength: seq<Card> -> int, holeA: seq<Card>, holeB: seq<Card>, board: seq<Card>)
    ensures var a, b := strength(holeA + board), strength(holeB + board);
            TrialOutcome(RankEvaluator(strength), holeA, holeB, board) ==
              if a > b then WinA else if b > a then WinB else Tie
  {
    ClassifyRanked(strength(holeA + board), strength(holeB + board));
  }

  /** The outcomes of the trials with the given boards, in order: one per board. */
  function Outcomes(evaluate: Evaluator, holeA: seq<Card>, holeB: seq<Card>, boards: seq<seq<Card>>): (os: seq<Outcome>)
    ensures |os| == |boards|
  {
    seq(|boards|, k requires 0 <= k < |boards| => TrialOutcome(evaluate, holeA, holeB, boards[k]))
  }

  /** A further trial appends its outcome to the outcomes of the earlier ones. */
  lemma OutcomesAppend(evaluate: Evaluator, holeA: seq<Card>, holeB: seq<Card>,
                       boards: seq<seq<Card>>, board: seq<Card>)
    ensures Outcomes(evaluate, holeA, holeB, boards + [board]) ==
            Outcomes(evaluate, holeA, holeB, boards) + [TrialOutcome(evaluate, holeA, holeB, board)]
  {
  }

  /** r is a subsequence of s: its elements occur in s, in the same order. */
  predicate IsSubsequence(r: seq<Card>, s: seq<Card>)
    decreases |s|
  {
    r == [] ||
    (s != [] && (IsSubsequence(r, s[1..]) || (r[0] == s[0] && IsSubsequence(r[1..], s[1..]))))
  }

  /** The filter at app.js:67: exactly the cards of the deck that neither
      hand holds, in deck order. */
  function Without(deck: seq<Card>, holeA: seq<Card>, holeB: seq<Card>): (r: seq<Card>)
    ensures forall c :: c in r <==> c in deck && c !in holeA && c !in holeB
    ensures IsSubsequence(r, deck)
    ensures Distinct(deck) ==> Distinct(r)
  {
    if deck == [] then []
    else
      var rest := Without(deck[1..], holeA, holeB);
      assert forall c :: c in deck <==> c == deck[0] || c in deck[1..];
      if deck[0] !in holeA && deck[0] !in holeB then
        assert Distinct(deck) ==> deck[0] !in deck[1..];
        [deck[0]] + rest
      else rest
  }

  /** The deck cards that one of the hands holds. */
  function Known(deck: seq<Card>, holeA: seq<Card>, holeB: seq<Card>): set<Card> {
    set c | c in deck && (c in holeA || c in holeB)
  }

  /** Filtering a duplicate-free deck drops exactly the deck cards the hands hold. */
  lemma {:induction false} WithoutSize(deck: seq<Card>, holeA: seq<Card>, holeB: seq<Card>)
    requires Distinct(deck)
    ensures |Without(deck, holeA, holeB)| == |deck| - |Known(deck, holeA, holeB)|
  {
    if deck != [] {
      var tail := deck[1..];
      assert Distinct(tail) by {
        forall i, j | 0 <= i < j < |tail| ensures tail[i] != tail[j] {
          assert tail[i] == deck[i + 1] && tail[j] == deck[j + 1];
        }
      }
      WithoutSize(tail, holeA, holeB);
      assert deck[0] !in tail by {
        forall k | 0 <= k < |tail| ensures tail[k] != deck[0] {
          assert tail[k] == deck[k + 1];
        }
      }
      if deck[0] in holeA || deck[0] in holeB {
        assert Known(deck, holeA, holeB) == Known(tail, holeA, holeB) + {deck[0]};
      } else {
        assert Known(deck, holeA, holeB) == Known(tail, holeA, holeB);
      }
    }
  }

  /** The base deck: the full deck without the hole cards. It holds exactly
      the well-formed cards neither hand holds, each once, in deck order. */
  function BaseDeck(holeA: seq<Card>, holeB: seq<Card>): (r: seq<Card>)
    ensures forall c :: c in r <==> IsCard(c) && c !in holeA && c !in holeB
    ensures IsSubsequence(r, FullDeck()) && Distinct(r)
  {
    FullDeckDistinct();
    FullDeckHoldsCards();
    Without(FullDeck(), holeA, holeB)
  }

  /** The base deck has no duplicate, has at least 52 - |holeA| - |holeB| cards,
      and exactly that many (48 for two 2-card hands) when the hole cards are
      distinct deck cards. */
  lemma BaseDeckSize(holeA: seq<Card>, holeB: seq<Card>)
    ensures Distinct(BaseDeck(holeA, holeB))
    ensures |BaseDeck(holeA, holeB)| >= DeckSize - |holeA| - |holeB|
    ensures Distinct(holeA + holeB) && (forall c :: c in holeA + holeB ==> IsCard(c)) ==>
              |BaseDeck(holeA, holeB)| == DeckSize - |holeA| - |holeB|
  {
    var deck, holes := FullDeck(), holeA + holeB;
    FullDeckDistinct();
    WithoutSize(deck, holeA, holeB);
    var known := Known(deck, holeA, holeB);
    assert known <= Elems(holes);
    SubsetSize(known, Elems(holes));
    ElemsSize(holes);
    if Distinct(holes) && (forall c :: c in holes ==> IsCard(c)) {
      forall c | c in holes ensures c in known {
        FullDeckMembers(c);
      }
      assert known == Elems(holes);
    }
  }

  /** A subset is no larger than its superset. */
  lemma {:induction false} SubsetSize(a: set<Card>, b: set<Card>)
    requires a <= b
    ensures |a| <= |b|
  {
    if a != {} {
      var x :| x in a;
      SubsetSize(a - {x}, b - {x});
    }
  }

  /** A trial's board: five different cards, all taken from the base deck. */
  predicate IsBoard(board: seq<Card>, baseDeck: seq<Card>) {
    |board| == 5 && Distinct(board) && forall c :: c in board ==> c in baseDeck
  }

  /** The first five cards of a shuffled copy of a duplicate-free deck form a board. */
  lemma FirstFiveFormBoard(baseDeck: seq<Card>, shuffled: seq<Card>)
    requires Distinct(baseDeck) && multiset(shuffled) == multiset(baseDeck) && |shuffled| >= 5
    ensures IsBoard(shuffled[..5], baseDeck)
  {
    PermutationKeepsDistinct(shuffled, baseDeck);
    var board := shuffled[..5];
    forall c | c in board ensures c in baseDeck {
      assert c in shuffled;
    }
  }

  /** Each board avoids both hands' hole cards, so each 7-card hand is its two
      hole cards followed by five cards it does not already hold. */
  lemma BoardAvoidsHoleCards(holeA: seq<Card>, holeB: seq<Card>, board: seq<Card>)
    requires IsBoard(board, BaseDeck(holeA, holeB))
    ensures forall c :: c in board ==> IsCard(c) && c !in holeA && c !in holeB
    ensures Distinct(holeA) ==> |holeA + board| == |holeA| + 5 && Distinct(holeA + board)
    ensures Distinct(holeB) ==> |holeB + board| == |holeB| + 5 && Distinct(holeB + board)
  {
    forall c | c in board ensures IsCard(c) {
      FullDeckMembers(c);
    }
    HoleThenBoard(holeA, board);
    HoleThenBoard(holeB, board);
  }

  /** Two duplicate-free lists with no common card concatenate without duplicates. */
  lemma HoleThenBoard(hole: seq<Card>, board: seq<Card>)
    requires Distinct(board) && forall c :: c in board ==> c !in hole
    ensures Distinct(hole) ==> Distinct(hole + board)
  {
    if Distinct(hole) {
      var all := hole + board;
      forall i, j | 0 <= i < j < |all| ensures all[i] != all[j] {
        if j < |hole| {
          assert all[i] == hole[i] && all[j] == hole[j];
        } else if i < |hole| {
          assert all[i] == hole[i] && all[j] == board[j - |hole|];
          assert all[j] in board;
        } else {
          assert all[i] == board[i - |hole|] && all[j] == board[j - |hole|];
        }
      }
    }
  }

  /** The pair of equities `simulateEquity` returns (app.js:93). */
  datatype Equities = Equities(eqA: real, eqB: real)

  /** The two equities of app.js:90-92, in exact arithmetic: each side's wins
      plus half the ties, over the number of trials.
      When the counters account for every trial, both are probabilities and
      they add up to exactly 1. */
  function Finalize(t: Tally, total: nat): (e: Equities)
    requires total > 0
    ensures e.eqA * total as real == t.winsA as real + t.ties as real * 0.5
    ensures e.eqB * total as real == t.winsB as real + t.ties as real * 0.5
    ensures t.Trials() == total ==>
              0.0 <= e.eqA <= 1.0 && 0.0 <= e.eqB <= 1.0 && e.eqA + e.eqB == 1.0
  {
    ShareTimesWhole(t.winsA, t.ties, total);
    ShareTimesWhole(t.winsB, t.ties, total);
    SharesOfWhole(t.winsA as real + t.ties as real * 0.5, t.winsB as real + t.ties as real * 0.5, total as real);
    Equities((t.winsA as real + t.ties as real * 0.5) / total as real,
             (t.winsB as real + t.ties as real * 0.5) / total as real)
  }

  /** One side's share, wins plus half the ties, over the total, times the
      total is that share again. */
  lemma ShareTimesWhole(wins: nat, ties: nat, total: nat)
    requires total > 0
    ensures ((wins as real + ties as real * 0.5) / total as real) * total as real ==
            wins as real + ties as real * 0.5
  {
    var x, n := wins as real + ties as real * 0.5, total as real;
    SharesOfWhole(x, x, n);
  }

  /** Each part of a positive whole, as a fraction of it, times the whole is the
      part; two non-negative parts that make up the whole give fractions in
      [0, 1] that add up to 1. */
  lemma SharesOfWhole(x: real, y: real, n: real)
    requires n > 0.0
    ensures (x / n) * n == x && (y / n) * n == y
    ensures 0.0 <= x && 0.0 <= y && x + y == n ==>
              0.0 <= x / n <= 1.0 && 0.0 <= y / n <= 1.0 && x / n + y / n == 1.0
  {
    var p, q := x / n, y / n;
    assert p * n == x && q * n == y;
    if 0.0 <= x && 0.0 <= y && x + y == n {
      assert (p + q) * n == p * n + q * n;
      assert (p + q - 1.0) * n == (p + q) * n - n;
      assert (1.0 - p) * n == n - p * n;
      assert (1.0 - q) * n == n - q * n;
    }
  }

  /** Fractions of the same positive whole compare as their parts do. */
  lemma CompareShares(x: real, y: real, n: real)
    requires n > 0.0
    ensures x / n > y / n <==> x > y
    ensures x / n == y / n <==> x == y
  {
    var p, q := x / n, y / n;
    assert p * n == x && q * n == y;
    assert (p - q) * n == p * n - q * n;
  }

  /** The side with more wins has the larger equity, and equal wins give equal equities. */
  lemma EquitiesOrder(t: Tally, total: nat)
    requires total > 0
    ensures Finalize(t, total).eqA > Finalize(t, total).eqB <==> t.winsA > t.winsB
    ensures Finalize(t, total).eqA == Finalize(t, total).eqB <==> t.winsA == t.winsB
  {
    CompareShares(t.winsA as real + t.ties as real * 0.5, t.winsB as real + t.ties as real * 0.5, total as real);
  }

  /** With a single trial each equity is 0, 1/2 or 1: all to the winner, or half each on a tie. */
  lemma SingleTrialEquities(o: Outcome)
    ensures Finalize(Count([o]), 1) ==
      match o
      case WinA => Equities(1.0, 0.0)
      case WinB => Equities(0.0, 1.0)
      case Tie => Equities(0.5, 0.5)
  {
    CountOne(o);
  }

  /** Seen from the other seat, the equities swap places. */
  lemma FinalizeSwap(t: Tally, total: nat)
    requires total > 0
    ensures Finalize(t.Swap(), total) == Equities(Finalize(t, total).eqB, Finalize(t, total).eqA)
  {
    var n, half := total as real, t.ties as real * 0.5;
    assert Finalize(t, total) == Equities((t.winsA as real + half) / n, (t.winsB as real + half) / n);
    assert Finalize(t.Swap(), total) == Equities((t.winsB as real + half) / n, (t.winsA as real + half) / n);
  }

  /** With the same boards and an evaluator that ranks hands, exchanging the
      two hands exchanges the win counters. */
  lemma SwappedHandsSwapCounts(strength: seq<Card> -> int, holeA: seq<Card>, holeB: seq<Card>,
                               boards: seq<seq<Card>>)
    ensures Count(Outcomes(RankEvaluator(strength), holeB, holeA, boards)) ==
            Count(Outcomes(RankEvaluator(strength), holeA, holeB, boards)).Swap()
  {
    var evaluate := RankEvaluator(strength);
    var os := Outcomes(evaluate, holeA, holeB, boards);
    forall k | 0 <= k < |boards|
      ensures Outcomes(evaluate, holeB, holeA, boards)[k] == SwapAll(os)[k]
    {
      var b := boards[k];
      ClassifyRanked(strength(holeA + b), strength(holeB + b));
      ClassifyRanked(strength(holeB + b), strength(holeA + b));
    }
    assert Outcomes(evaluate, holeB, holeA, boards) == SwapAll(os);
    CountSwapAll(os);
  }

  /** Symmetry: with the same boards (the same random draws) and an evaluator
      that ranks hands, exchanging the two hands exchanges their equities. */
  lemma SwappedHandsSwapEquities(strength: seq<Card> -> int, holeA: seq<Card>, holeB: seq<Card>,
                                 boards: seq<seq<Card>>)
    requires |boards| > 0
    ensures var e := Finalize(Count(Outcomes(RankEvaluator(strength), holeA, holeB, boards)), |boards|);
            Finalize(Count(Outcomes(RankEvaluator(strength), holeB, holeA, boards)), |boards|) == Equities(e.eqB, e.eqA)
  {
    SwappedHandsSwapCounts(strength, holeA, holeB, boards);
    FinalizeSwap(Count(Outcomes(RankEvaluator(strength), holeA, holeB, boards)), |boards|);
  }

  /** One trial's draw (app.js:71-72): shuffle a copy of the base deck, then
      take the first five cards of the copy. `shuffled` (ghost) is that copy. */
  method DrawBoard(baseDeck: seq<Card>) returns (board: seq<Card>, ghost shuffled: seq<Card>)
    requires Distinct(baseDeck) && |baseDeck| >= 5
    ensures multiset(shuffled) == multiset(baseDeck) && |shuffled| == |baseDeck|
    ensures board == shuffled[..5]
    ensures IsBoard(board, baseDeck)
  {
    var deck := new Card[|baseDeck|](k requires 0 <= k < |baseDeck| => baseDeck[k]);
    assert deck[..] == baseDeck;
    ghost var draws := ShuffleInPlace(deck);
    board := [deck[0], deck[1], deck[2], deck[3], deck[4]];
    shuffled := deck[..];
    assert board == shuffled[..5];
    FirstFiveFormBoard(baseDeck, shuffled);
  }

  /** The trial loop of `simulateEquity`: `iterations` trials, each drawing a
      board from a fresh shuffle of `baseDeck` and bumping one counter.
      `boards` (ghost) records the board each trial drew. Every board is five
      different base-deck cards, and the counters count the outcomes the
      evaluator gives on those boards. */
  method RunTrials(evaluate: Evaluator, holeA: seq<Card>, holeB: seq<Card>,
                   baseDeck: seq<Card>, iterations: nat)
    returns (winsA: nat, winsB: nat, ties: nat, ghost boards: seq<seq<Card>>)
    requires Distinct(baseDeck) && |baseDeck| >= 5
    ensures |boards| == iterations
    ensures forall b :: b in boards ==> IsBoard(b, baseDeck)
    ensures Tally(winsA, winsB, ties) == Count(Outcomes(evaluate, holeA, holeB, boards))
    ensures winsA + winsB + ties == iterations
  {
    winsA, winsB, ties := 0, 0, 0;
    boards := [];
    ghost var outcomes: seq<Outcome> := [];
    for i := 0 to iterations
      invariant |boards| == i
      invariant forall b :: b in boards ==> IsBoard(b, baseDeck)
      invariant outcomes == Outcomes(evaluate, holeA, holeB, boards)
      invariant winsA == Count(outcomes).winsA && winsB == Count(outcomes).winsB && ties == Count(outcomes).ties
    {
      ghost var shuffled;
      var board;
      board, shuffled := DrawBoard(baseDeck);

      var hand7A := holeA + board;
      var hand7B := holeB + board;
      var winners := evaluate(hand7A, hand7B);
      ghost var before, outcome := Tally(winsA, winsB, ties), Classify(winners);
      if |winners| == 2 {
        ties := ties + 1;
      } else if |winners| > 0 && winners[0] == SeatA {
        winsA := winsA + 1;
      } else {
        winsB := winsB + 1;
      }
      assert Tally(winsA, winsB, ties) == before.Record(outcome);

      CountAppend(outcomes, outcome);
      OutcomesAppend(evaluate, holeA, holeB, boards, board);
      outcomes := outcomes + [outcome];
      boards := boards + [board];
    }
  }

  /** `simulateEquity(holeA, holeB, iterations)`. `boards` (ghost) records the
      board each trial drew. Every board is five different base-deck cards, the
      result is the equities of the outcomes the evaluator gives on those
      boards, and the two equities are probabilities adding up to 1. */
  method SimulateEquity(evaluate: Evaluator, holeA: seq<Card>, holeB: seq<Card>,
                        iterations: nat := MonteCarloIters)
    returns (equities: Equities, ghost boards: seq<seq<Card>>)
    requires |BaseDeck(holeA, holeB)| >= 5
    requires iterations > 0
    ensures |boards| == iterations
    ensures forall b :: b in boards ==> IsBoard(b, BaseDeck(holeA, holeB))
    ensures equities == Finalize(Count(Outcomes(evaluate, holeA, holeB, boards)), iterations)
    ensures 0.0 <= equities.eqA <= 1.0 && 0.0 <= equities.eqB <= 1.0
    ensures equities.eqA + equities.eqB == 1.0
  {
    var built := BuildDeck();
    var baseDeck := Without(built, holeA, holeB);
    BaseDeckSize(holeA, holeB);

    var winsA, winsB, ties;
    winsA, winsB, ties, boards := RunTrials(evaluate, holeA, holeB, baseDeck, iterations);

    equities := Finalize(Tally(winsA, winsB, ties), iterations);
  }
}
