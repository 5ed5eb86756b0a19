/** The three counters of the trial loop of `simulateEquity` in app.js, and
    what they count: every trial bumps exactly one of them, so after a run
    each counter is the number of trials of its kind. */
module Counters {
  /** Which counter one trial increments. */
  datatype Outcome = WinA | WinB | Tie

  /** The counters `winsA`, `winsB`, `ties`. */
  datatype Tally = Tally(winsA: nat, winsB: nat, ties: nat) {
    function Trials(): nat {
      winsA + winsB + ties
    }

    /** One trial: exactly one counter goes up by one, the one the outcome names. */
    function Record(o: Outcome): (t: Tally)
      ensures t.Trials() == Trials() + 1
      ensures winsA <= t.winsA && winsB <= t.winsB && ties <= t.ties
      ensures t.winsA > winsA <==> o == WinA
      ensures t.winsB > winsB <==> o == WinB
      ensures t.ties > ties <==> o == Tie
    {
      match o
      case WinA => Tally(winsA + 1, winsB, ties)
      case WinB => Tally(winsA, winsB + 1, ties)
      case Tie => Tally(winsA, winsB, ties + 1)
    }

    /** The same counts seen from the other seat. */
    function Swap(): Tally {
      Tally(winsB, winsA, ties)
    }
  }

  /** The counters after recording the outcomes in order. Each counter is the
      number of outcomes of its kind, and together they count every trial. */
  function Count(outcomes: seq<Outcome>): (t: Tally)
    ensures t.Trials() == |outcomes|
  {
    if outcomes == [] then Tally(0, 0, 0)
    else
      var last := |outcomes| - 1;
      Count(outcomes[..last]).Record(outcomes[last])
  }

  /** The counters of a multiset of outcomes: each is the number of outcomes of its kind. */
  function Tallied(seen: multiset<Outcome>): Tally {
    Tally(seen[WinA], seen[WinB], seen[Tie])
  }

  /** Each counter is the number of outcomes of its kind. */
  lemma {:induction false} CountOccurrences(outcomes: seq<Outcome>)
    ensures Count(outcomes) == Tallied(multiset(outcomes))
  {
    if outcomes != [] {
      var last := |outcomes| - 1;
      var prev, o := outcomes[..last], outcomes[last];
      CountOccurrences(prev);
      assert outcomes == prev + [o];
      RecordCounts(multiset(prev), o);
    }
  }

  /** Recording an outcome keeps each counter equal to the number of outcomes of its kind. */
  lemma RecordCounts(seen: multiset<Outcome>, o: Outcome)
    ensures Tallied(seen).Record(o) == Tallied(seen + multiset{o})
  {
    var after := seen + multiset{o};
    match o {
      case WinA =>
        assert after[WinA] == seen[WinA] + 1 && after[WinB] == seen[WinB] && after[Tie] == seen[Tie];
      case WinB =>
        assert after[WinA] == seen[WinA] && after[WinB] == seen[WinB] + 1 && after[Tie] == seen[Tie];
      case Tie =>
        assert after[WinA] == seen[WinA] && after[WinB] == seen[WinB] && after[Tie] == seen[Tie] + 1;
    }
  }

  /** Counting one more outcome records it on the counters so far. */
  lemma CountAppend(outcomes: seq<Outcome>, o: Outcome)
    ensures Count(outcomes + [o]) == Count(outcomes).Record(o)
  {
    assert (outcomes + [o])[..|outcomes|] == outcomes;
  }

  /** A single trial records its outcome on zeroed counters. */
  lemma CountOne(o: Outcome)
    ensures Count([o]) == Tally(0, 0, 0).Record(o)
  {
    assert [o][..0] == [];
  }

  /** The outcome seen from the other seat. */
  function Swapped(o: Outcome): Outcome {
    match o
    case WinA => WinB
    case WinB => WinA
    case Tie => Tie
  }

  /** Outcomes seen from the other seat, in the same order. */
  function SwapAll(outcomes: seq<Outcome>): seq<Outcome> {
    seq(|outcomes|, k requires 0 <= k < |outcomes| => Swapped(outcomes[k]))
  }

  /** Counting outcomes from the other seat swaps the two win counters. */
  lemma {:induction false} CountSwapAll(outcomes: seq<Outcome>)
    ensures Count(SwapAll(outcomes)) == Count(outcomes).Swap()
  {
    if outcomes != [] {
      var prev, o := outcomes[..|outcomes| - 1], outcomes[|outcomes| - 1];
      CountSwapAll(prev);
      assert outcomes == prev + [o];
      assert SwapAll(outcomes) == SwapAll(prev) + [Swapped(o)];
      CountAppend(prev, o);
      CountAppend(SwapAll(prev), Swapped(o));
      RecordSwap(Count(prev), o);
    }
  }

  /** Recording an outcome and then changing seats is changing seats and then
      recording the swapped outcome. */
  lemma RecordSwap(t: Tally, o: Outcome)
    ensures t.Record(o).Swap() == t.Swap().Record(Swapped(o))
  {
  }

}
