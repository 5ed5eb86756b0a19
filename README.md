# Heads-up equity engine of app.js, modelled in Dafny

app.js is a small page that deals two Texas hold'em hands from one shuffled
deck and estimates each hand's equity by Monte Carlo simulation. This project
models its engine:

- `RANKS`, `SUITS` and `buildDeck`: the 52 two-character cards, rank-major.
- `shuffleInPlace`: the descending Fisher–Yates shuffle of an array, in place.
- `dealTwoHands`: shuffle a fresh deck, then pop two 2-card hands and a
  5-card preview board off its end.
- `simulateEquity`: filter the hole cards out of a fresh deck, then run the
  trials. Each trial shuffles a copy of that base deck, takes its first five
  cards as the board and asks the hand evaluator which hands win. It bumps
  exactly one of `winsA`, `winsB` and `ties`. The counters become the two
  equities, with a tie counting half for each side.

Modules, one per file:

| file | module | models |
|---|---|---|
| seqs.dfy | `Seqs` | distinctness and permutations of sequences |
| deck.dfy | `Deck` | cards, `RANKS`, `SUITS`, `buildDeck` |
| shuffle.dfy | `Shuffle` | `Math.random()` scaled to an index, `shuffleInPlace` |
| deal.dfy | `Deal` | `Array.prototype.pop`, `dealTwoHands` |
| tally.dfy | `Counters` | the three counters of the trial loop |
| equity.dfy | `Equity` | the base deck, the trials and the equities of `simulateEquity` |

Modelling choices:

- **Cards.** A card is a `string`, as in app.js.
- **Randomness.** `Math.random()` is an arbitrary real `u` with `0 <= u < 1`.
  The shuffle returns the indices it drew as a ghost sequence. The array it
  leaves is then `FisherYates(input, draws)`, a function of the input and the
  draws.
- **Arrays.** The shuffle works on an `array`, in place. `simulateEquity`
  shuffles a copy of the base deck, as app.js:71 does. `DealTwoHands` puts
  the built deck into a new array; app.js:50 shuffles the array `buildDeck`
  returns directly, and since that array is also new, the behaviour is the
  same.
- **Evaluator.** The evaluator (`solve7` with `Hand.winners` of the
  pokersolver library) is a function parameter. It answers with the seats,
  in the list `[solvedA, solvedB]`, of the hands that `Hand.winners` returns.
- **Equities.** They are exact reals.

## Model

| member | source | states |
|---|---|---|
| Deck.Pairings | app.js:19-23 | the nested loop's output has four cards per rank |
| Deck.PairingAt | app.js:21 | the card pushed for rank r and suit s sits at position 4r+s and is rank r followed by suit s |
| Deck.PairingsPrefix | app.js:21 | each push extends the deck built so far by exactly the next card |
| Deck.PairingsDistinct | app.js:19-23 | distinct ranks and distinct suits give a deck without a repeated card |
| Deck.PairingsMembers | app.js:19-23 | a string is in the deck iff it is one rank character followed by one suit character |
| Deck.RanksAndSuitsDistinct | app.js:4-5 | there are 13 different ranks and 4 different suits |
| Deck.BuildDeck | app.js:19-23 | the loop returns the full rank-major deck |
| Deck.FullDeckDistinct | app.js:19-23 | the deck has 52 cards, none repeated |
| Deck.FullDeckHoldsCards | app.js:19-23 | every string is in the deck exactly when it is a well-formed card |
| Deck.FullDeckMembers | app.js:19-23 | the deck holds exactly the well-formed cards, one per (rank, suit) |
| Shuffle.RandomIndex | app.js:27 | `(u * (i + 1)) \| 0` lands in [0, i] for every `u` in [0, 1) |
| Shuffle.RandomUpTo | app.js:27 | every index drawn lies in [0, i] |
| Shuffle.Swap | app.js:28 | the swap exchanges positions i and j and leaves every other position alone |
| Shuffle.SwapPermutes | app.js:28 | a swap keeps the multiset of elements |
| Shuffle.FisherYates | app.js:25-31 | the shuffle keeps the array's length |
| Shuffle.FisherYatesPermutes | app.js:25-31 | whatever indices are drawn, the result is a permutation of the input |
| Shuffle.FisherYatesStep | app.js:26-29 | one more iteration swaps position n-1-k with the k-th drawn index |
| Shuffle.ValidDrawsStep | app.js:26-27 | each iteration's draw keeps every draw within [0, i] for its own i |
| Shuffle.SwapAt | app.js:28 | the destructuring assignment swaps the two array cells |
| Shuffle.ShuffleInPlace | app.js:25-31 | the array ends as `FisherYates` of its old contents under the recorded draws; one draw per i from n-1 down to 1, each within [0, i]; the result is a permutation |
| Deal.Pop | app.js:51 | `pop` returns the last card and shortens the deck by it |
| Deal.Popped | app.js:51-54 | n pops return n cards |
| Deal.PoppedKeepsCards | app.js:50-54 | the popped cards plus what is left are the whole deck, as a multiset |
| Deal.PoppedSplit | app.js:51-54 | m pops then n pops return the same cards, in order, as m + n pops |
| Deal.DealtFromDeck | app.js:49-56 | cards popped from a shuffled duplicate-free deck are distinct deck cards, none of them left behind |
| Deal.PopTwo | app.js:51-52 | `[deck.pop(), deck.pop()]` returns the last two cards, last first, and leaves the rest |
| Deal.PopFive | app.js:54 | five pops return the last five cards, last first, and leave the rest |
| Deal.DealTwoHands | app.js:49-56 | the hands have 2, 2 and 5 cards, all distinct valid cards, the last nine of the shuffled deck; with the 43 left they are the whole deck |
| Deal.DealtHands | app.js:50-55 | the three pop expressions together deal nine distinct cards that, with the 43 left, make up the deck |
| Deal.DealtInOrder | app.js:51-54 | the three pop expressions pop the last nine cards, last first |
| Counters.Tally.Record | app.js:81-87 | a trial raises exactly one counter, by one: the one its outcome names |
| Counters.Count | app.js:64-88 | after the loop the three counters add up to the number of trials |
| Counters.CountOccurrences | app.js:81-87 | each counter is the number of trials of its kind |
| Counters.RecordCounts | app.js:81-87 | recording a trial keeps each counter equal to its number of outcomes |
| Counters.CountAppend | app.js:69-88 | one more trial records its outcome on the counters so far |
| Counters.CountOne | app.js:64-87 | one trial starts from zeroed counters |
| Counters.CountSwapAll | app.js:81-87 | seen from the other seat, the two win counters exchange and ties stay |
| Counters.RecordSwap | app.js:81-87 | recording then changing seats equals changing seats then recording the swapped outcome |
| Equity.Classify | app.js:81-87 | two winners is a tie; otherwise the first winner decides, and an empty answer counts for B; each outcome in both directions |
| Equity.TrialOutcomeRanked | app.js:74-87 | the evaluator sees each hole pair followed by the board: with a ranking evaluator the stronger 7-card hand wins and equal strength ties |
| Equity.Outcomes | app.js:69-88 | the loop yields one outcome per trial (with OutcomesAppend: in trial order) |
| Equity.ClassifyRanked | app.js:80-87 | against an evaluator that ranks hands, the stronger hand wins and equal strength ties |
| Equity.OutcomesAppend | app.js:69-88 | a further trial appends its outcome to the earlier ones |
| Equity.Without | app.js:67 | the filter keeps exactly the deck cards in neither hand, in deck order, without repeats |
| Equity.WithoutSize | app.js:67 | filtering drops exactly as many cards as the hands hold in the deck |
| Equity.BaseDeck | app.js:67 | the base deck holds exactly the well-formed cards in neither hand, each once, in deck order |
| Equity.BaseDeckSize | app.js:67 | the base deck has no repeats and at least 52 - \|holeA\| - \|holeB\| cards, exactly that many when the hole cards are distinct valid cards |
| Equity.FirstFiveFormBoard | app.js:71-72 | the first five cards of a shuffled copy are five distinct base-deck cards |
| Equity.BoardAvoidsHoleCards | app.js:71-75 | a board is valid cards in neither hand, so each 7-card hand repeats no card |
| Equity.HoleThenBoard | app.js:74-75 | `concat` of two disjoint duplicate-free lists has no duplicate |
| Equity.Finalize | app.js:90-93 | each equity is its side's wins plus half the ties, over the total; with the counters summing to the total, both lie in [0, 1] and they add up to 1 |
| Equity.EquitiesOrder | app.js:90-93 | the side with more wins has the larger equity; equal wins give equal equities |
| Equity.SingleTrialEquities | app.js:81-93 | after one trial the equities are (1, 0), (0, 1) or (1/2, 1/2) |
| Equity.FinalizeSwap | app.js:91-92 | exchanging the counters exchanges the equities |
| Equity.SwappedHandsSwapCounts | app.js:69-88 | with the same boards and a ranking evaluator, exchanging the hands exchanges the win counters |
| Equity.SwappedHandsSwapEquities | app.js:63-94 | with the same boards and a ranking evaluator, exchanging the hands exchanges the equities |
| Equity.DrawBoard | app.js:71-72 | the shuffled copy is a permutation of the base deck and the board is its first five cards, five distinct base-deck cards |
| Equity.RunTrials | app.js:69-88 | one board per trial, each five distinct base-deck cards; the counters are the counts of the outcomes the evaluator gives on those boards and add up to the number of trials |
| Equity.SimulateEquity | app.js:63-94 | one board per trial, each five distinct base-deck cards; the result is the equities of the outcomes the evaluator gives on those boards; both lie in [0, 1] and add up to 1 |

## Left out

- DOM and UI code (`prettyCard`, `renderCards`, `updateUI`, the button handler and the labels) is not part of this model.
- The pokersolver library (`Hand.solve`, `Hand.winners`) is not part of this model. It is a function parameter; the symmetry lemmas assume only that it ranks hands by a strength.
- `Math.random()` is modelled as an arbitrary real in [0, 1). Nothing is stated about its distribution, so uniformity of the shuffle and convergence of the estimate are not modelled.
- Floating point and `toFixed` formatting are not modelled. Equities are exact reals, so `eqA + eqB == 1` holds exactly here, while in doubles it holds up to rounding.
- Shuffle.RandomIndex: the `| 0` truncation is modelled as the floor. That is equal only for products in [0, 2^31), which always holds here because i + 1 <= 52.
- Shuffle.FisherYates: it is total. A draw outside the array leaves the array alone; `ValidDraws` excludes such draws and `ShuffleInPlace` never makes one.
- Equity.SimulateEquity: requires `iterations > 0`. With 0 iterations app.js divides by zero and returns `NaN` equities, which reals cannot express.
- Equity.SimulateEquity: requires a base deck of at least five cards. With more hole cards app.js reads `undefined` board cards, which a `seq<Card>` cannot hold.
- The code does not validate its inputs: it does not check that the hole cards are valid, distinct or disjoint, nor reject evaluator answers of more than two winners. The model follows the code and makes none of those checks. `BaseDeckSize` states when the base deck has exactly 52 - |holeA| - |holeB| cards.
- When the evaluator returns no winner at all, `winners[0]` is `undefined`, which is not `solvedA`, so the code counts the trial for B. `Classify` does the same.
- Reference identity: `winners[0] === solvedA` becomes a comparison of seats.
