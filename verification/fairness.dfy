/** Properties of repeated selection on a fixed pool: the round-robin visiting
    order and the fair share it gives every loop, and the balance the
    least-connection strategy keeps. */
module Fairness {
  import Arith
  import opened LoadBalance
  import opened Server

  /** How many times loop `i` occurs in a sequence of picks. */
  function Occurrences(picks: seq<nat>, i: nat): nat
  {
    if |picks| == 0 then 0
    else Occurrences(picks[..|picks| - 1], i) + (if picks[|picks| - 1] == i then 1 else 0)
  }

  /** Every accepted connection is counted on the loop it went to and nowhere
      else: a final count is the starting count plus the loop's picks. */
  lemma {:induction false} ServeCountsPicks(counts: seq<nat>, s: Strategy, m: nat)
    requires |counts| > 0 && Valid(s, |counts|)
    ensures forall i :: 0 <= i < |counts| ==>
      Serve(counts, s, m).counts[i] == counts[i] + Occurrences(Serve(counts, s, m).picks, i)
  {
    if m > 0 {
      ServeCountsPicks(counts, s, m - 1);
      var prev := Serve(counts, s, m - 1);
      var r := Serve(counts, s, m);
      assert r.picks[..|r.picks| - 1] == prev.picks;
    }
  }

  /** Starting from cursor `c`, the `j`-th of `m` round-robin calls picks loop
      `(c + j) mod K`, and afterwards the cursor is `(c + m) mod K`: the loops are
      visited in cyclic index order. */
  lemma {:induction false} RoundRobinCyclicOrder(counts: seq<nat>, c: nat, m: nat)
    requires c < |counts|
    ensures forall j :: 0 <= j < m ==> Serve(counts, RoundRobin(c), m).picks[j] == (c + j) % |counts|
    ensures Serve(counts, RoundRobin(c), m).strategy == RoundRobin((c + m) % |counts|)
  {
    var k := |counts|;
    if m == 0 {
      Arith.DivModUnique(c, k, 0, c);
    } else {
      RoundRobinCyclicOrder(counts, c, m - 1);
      var prev := Serve(counts, RoundRobin(c), m - 1);
      assert prev.strategy.nextLoopIndex == (c + m - 1) % k;
      Arith.ModSucc(c + m - 1, k);
    }
  }

  /** A sequence that lists `0, 1, …, K-1, 0, …` holds loop `i` once per full
      cycle, plus once more if `i` is in the unfinished last cycle. */
  lemma {:induction false} OccurrencesInCycle(picks: seq<nat>, k: nat, i: nat)
    requires k > 0 && i < k
    requires forall j :: 0 <= j < |picks| ==> picks[j] == j % k
    ensures Occurrences(picks, i) == |picks| / k + (if i < |picks| % k then 1 else 0)
  {
    var m := |picks|;
    if m == 0 {
      Arith.DivModUnique(0, k, 0, 0);
    } else {
      OccurrencesInCycle(picks[..m - 1], k, i);
      Arith.DivModStep(m, k);
    }
  }

  /** Over `m` calls of a fresh round-robin strategy on a pool of `K` loops, loop
      `i` is chosen `m / K` times, plus one if `i < m mod K`; in particular
      every loop is chosen either the floor or the ceiling of `m / K` times. */
  lemma RoundRobinFairShare(counts: seq<nat>, m: nat)
    requires |counts| > 0
    ensures forall i :: 0 <= i < |counts| ==>
      Occurrences(Serve(counts, NewRoundRobin, m).picks, i)
        == m / |counts| + (if i < m % |counts| then 1 else 0)
    ensures forall i :: 0 <= i < |counts| ==>
      m / |counts| <= Occurrences(Serve(counts, NewRoundRobin, m).picks, i) <= (m + |counts| - 1) / |counts|
  {
    var k := |counts|;
    var picks := Serve(counts, NewRoundRobin, m).picks;
    RoundRobinCyclicOrder(counts, 0, m);
    Arith.CeilDiv(m, k);
    forall i | 0 <= i < k
      ensures Occurrences(picks, i) == m / k + (if i < m % k then 1 else 0)
    {
      OccurrencesInCycle(picks, k, i);
    }
  }

  /** Starting from idle loops and a fresh round-robin strategy, after `m`
      accepts the connection counts of any two loops differ by at most one. */
  lemma RoundRobinEvenLoad(counts: seq<nat>, m: nat)
    requires |counts| > 0
    requires forall i :: 0 <= i < |counts| ==> counts[i] == 0
    ensures forall i :: 0 <= i < |counts| ==>
      Serve(counts, NewRoundRobin, m).counts[i] == m / |counts| + (if i < m % |counts| then 1 else 0)
    ensures Balanced(Serve(counts, NewRoundRobin, m).counts)
  {
    ServeCountsPicks(counts, NewRoundRobin, m);
    RoundRobinFairShare(counts, m);
  }

  /** No loop carries more than one connection above any other loop. */
  ghost predicate Balanced(counts: seq<nat>)
  {
    forall i, j :: 0 <= i < |counts| && 0 <= j < |counts| ==> counts[i] <= counts[j] + 1
  }

  /** One least-connection accept keeps a balanced pool balanced. */
  lemma LeastConnectionKeepsBalance(counts: seq<nat>)
    requires |counts| > 0 && Balanced(counts)
    ensures Balanced(Accept(counts, LeastConnection).counts)
  {
  }

  /** Any number of least-connection accepts keeps a balanced pool balanced,
      provided each accept's registration has landed on its loop before the
      next accept selects (accepts spaced far enough apart). */
  lemma {:induction false} LeastConnectionServeBalanced(counts: seq<nat>, m: nat)
    requires |counts| > 0 && Balanced(counts)
    ensures Balanced(Serve(counts, LeastConnection, m).counts)
  {
    if m > 0 {
      LeastConnectionServeBalanced(counts, m - 1);
      LeastConnectionKeepsBalance(Serve(counts, LeastConnection, m - 1).counts);
    }
  }

  /** Each least-connection accept sends the connection to the first of the
      least-loaded loops, counting every earlier accept as already registered. */
  lemma LeastConnectionPicksLeast(counts: seq<nat>, m: nat)
    requires |counts| > 0 && m > 0
    ensures IsLeast(Serve(counts, LeastConnection, m - 1).counts, Serve(counts, LeastConnection, m).picks[m - 1])
  {
  }

  /** `m` selections made while every registration is still queued on its
      worker loop: each selection reads the same, unchanged counts. */
  function Burst(counts: seq<nat>, s: Strategy, m: nat): (picks: seq<nat>)
    requires |counts| > 0 && Valid(s, |counts|)
    ensures |picks| == m
    ensures forall j :: 0 <= j < m ==> picks[j] < |counts|
    decreases m
  {
    if m == 0 then []
    else
      var prev := Burst(counts, s, m - 1);
      var st := BurstState(counts, s, m - 1);
      prev + [Select(st, counts).loop]
  }

  /** The strategy state after `m` selections of a burst. */
  function BurstState(counts: seq<nat>, s: Strategy, m: nat): (st: Strategy)
    requires |counts| > 0 && Valid(s, |counts|)
    ensures Valid(st, |counts|)
    ensures s.LeastConnection? ==> st == s
    decreases m
  {
    if m == 0 then s else Select(BurstState(counts, s, m - 1), counts).next
  }

  /** During a burst, least connection sends every connection to the same loop,
      the one least loaded before the burst. */
  lemma {:induction false} LeastConnectionBurstRepeats(counts: seq<nat>, m: nat)
    requires |counts| > 0
    ensures forall j :: 0 <= j < m ==> Burst(counts, LeastConnection, m)[j] == LeastConnectionSelect(counts)
  {
    if m > 0 {
      LeastConnectionBurstRepeats(counts, m - 1);
    }
  }

  /** Hence a burst can unbalance the pool: on two idle loops, three accepts
      made before any registration lands all go to the first loop, which ends
      with three connections against none. */
  lemma LeastConnectionBurstUnbalances()
    ensures Burst([0, 0], LeastConnection, 3) == [0, 0, 0]
    ensures !Balanced([3, 0])
  {
    LeastConnectionBurstRepeats([0, 0], 3);
    var unbalanced := [3, 0];
    assert unbalanced[0] > unbalanced[1] + 1;
  }

  /** Round robin never reads the counts, so a burst picks exactly the loops the
      spaced-out accepts of `Serve` pick, and the round-robin fairness results
      hold whatever the registration timing. */
  lemma {:induction false} RoundRobinBurstMatchesServe(counts: seq<nat>, c: nat, m: nat)
    requires c < |counts|
    ensures Burst(counts, RoundRobin(c), m) == Serve(counts, RoundRobin(c), m).picks
    ensures BurstState(counts, RoundRobin(c), m) == Serve(counts, RoundRobin(c), m).strategy
  {
    if m > 0 {
      RoundRobinBurstMatchesServe(counts, c, m - 1);
    }
  }
}
