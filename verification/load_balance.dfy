/** The two worker-loop selection strategies of the server's acceptor.

    A pool of worker event loops is abstracted as a non-empty sequence of
    connection-count snapshots, one per loop: `loops[i]` is what loop `i`'s
    connection counter reads at the moment of the call. A strategy answers with
    the index of the chosen loop. The round-robin strategy's captured cursor
    becomes an explicit part of the strategy value, handed back after each call. */
module LoadBalance {

  /** A load-balancing strategy together with the state it carries between calls.
      `RoundRobin` holds the cursor its closure captures; `LeastConnection` is
      stateless. */
  datatype Strategy = RoundRobin(nextLoopIndex: nat) | LeastConnection

  /** The answer of one selection: the index of the chosen loop and the strategy
      state to use for the next call. */
  datatype Choice = Choice(loop: nat, next: Strategy)

  /** A freshly built round-robin strategy starts its cursor at the first loop. */
  const NewRoundRobin: Strategy := RoundRobin(0)

  /** The strategy's state can serve a pool of `n` loops: a round-robin cursor
      indexes an existing loop. */
  predicate Valid(s: Strategy, n: nat)
  {
    s.RoundRobin? ==> s.nextLoopIndex < n
  }

  /** `best` is the first loop of the prefix `loops[..n]` whose count is minimal
      there: no loop of the prefix has fewer connections, and every loop before
      `best` has strictly more. */
  ghost predicate IsLeastUpTo(loops: seq<nat>, n: nat, best: nat)
  {
    && best < n <= |loops|
    && (forall j :: 0 <= j < n ==> loops[best] <= loops[j])
    && (forall j :: 0 <= j < best ==> loops[best] < loops[j])
  }

  /** `best` is the lowest-index loop among those with the fewest connections. */
  ghost predicate IsLeast(loops: seq<nat>, best: nat)
  {
    IsLeastUpTo(loops, |loops|, best)
  }

  /** One round-robin call: the loop under the cursor is chosen and the cursor
      moves to the next loop, wrapping to the first after the last. The counts
      are not consulted. */
  function RoundRobinSelect(cursor: nat, loops: seq<nat>): (c: Choice)
    requires cursor < |loops|
    ensures c.loop == cursor
    ensures c.next.RoundRobin? && c.next.nextLoopIndex < |loops|
    ensures cursor + 1 < |loops| ==> c.next.nextLoopIndex == cursor + 1
    ensures cursor + 1 == |loops| ==> c.next.nextLoopIndex == 0
  {
    Choice(cursor, RoundRobin((cursor + 1) % |loops|))
  }

  /** Round robin ignores the load: two pools of the same size with different
      counts get the same answer from the same cursor. */
  lemma RoundRobinIgnoresLoad(cursor: nat, a: seq<nat>, b: seq<nat>)
    requires cursor < |a| && |a| == |b|
    ensures RoundRobinSelect(cursor, a) == RoundRobinSelect(cursor, b)
  {
  }

  /** The linear scan of the least-connection strategy, from position `i` on,
      with `best` the candidate kept so far. A later loop replaces the candidate
      only when its count is strictly smaller. */
  function ScanFrom(loops: seq<nat>, i: nat, best: nat): (r: nat)
    requires IsLeastUpTo(loops, i, best)
    ensures IsLeast(loops, r)
    decreases |loops| - i
  {
    if i == |loops| then best
    else ScanFrom(loops, i + 1, if loops[i] < loops[best] then i else best)
  }

  /** The least-connection strategy: the scan starts with the first loop as the
      candidate and visits the others in index order. */
  function LeastConnectionSelect(loops: seq<nat>): (r: nat)
    requires |loops| > 0
    ensures r < |loops|
    ensures forall j :: 0 <= j < |loops| ==> loops[r] <= loops[j]
    ensures forall j :: 0 <= j < r ==> loops[r] < loops[j]
  {
    ScanFrom(loops, 1, 0)
  }

  /** The selection contract shared by both strategies. */
  function Select(s: Strategy, loops: seq<nat>): (c: Choice)
    requires |loops| > 0 && Valid(s, |loops|)
    ensures c.loop < |loops| && Valid(c.next, |loops|)
    ensures s.LeastConnection? ==> c.next == s && IsLeast(loops, c.loop)
    ensures s.RoundRobin? ==> c.loop == s.nextLoopIndex
    ensures s.RoundRobin? ==> c.next == RoundRobin((s.nextLoopIndex + 1) % |loops|)
  {
    match s
    case RoundRobin(cursor) => RoundRobinSelect(cursor, loops)
    case LeastConnection => Choice(LeastConnectionSelect(loops), s)
  }

  /** The least count of the pool, defined independently of the scan: the
      smaller of the last count and the least of the others. */
  function MinCount(loops: seq<nat>): nat
    requires |loops| > 0
  {
    if |loops| == 1 then loops[0]
    else
      var rest := MinCount(loops[..|loops| - 1]);
      if loops[|loops| - 1] < rest then loops[|loops| - 1] else rest
  }

  /** `MinCount` is a count of the pool and no count is below it. */
  lemma {:induction false} MinCountIsMinimum(loops: seq<nat>)
    requires |loops| > 0
    ensures exists j :: 0 <= j < |loops| && loops[j] == MinCount(loops)
    ensures forall j :: 0 <= j < |loops| ==> MinCount(loops) <= loops[j]
  {
    if |loops| == 1 {
      assert loops[0] == MinCount(loops);
    } else {
      var init := loops[..|loops| - 1];
      MinCountIsMinimum(init);
      var w :| 0 <= w < |init| && init[w] == MinCount(init);
      assert loops[w] == init[w];
      if loops[|loops| - 1] < MinCount(init) {
        assert loops[|loops| - 1] == MinCount(loops);
      } else {
        assert loops[w] == MinCount(loops);
      }
      forall j | 0 <= j < |loops| - 1
        ensures MinCount(loops) <= loops[j]
      {
        assert loops[j] == init[j];
      }
    }
  }

  /** The least-connection choice carries exactly the pool's least count. */
  lemma LeastConnectionHasMinCount(loops: seq<nat>)
    requires |loops| > 0
    ensures loops[LeastConnectionSelect(loops)] == MinCount(loops)
  {
    MinCountIsMinimum(loops);
  }

  /** The least-connection choice is the only loop that is least-loaded with
      nothing equally loaded before it: a loop has that property exactly when
      it is the one the scan returns. */
  lemma LeastConnectionUnique(loops: seq<nat>, k: nat)
    requires |loops| > 0
    ensures IsLeast(loops, k) <==> k == LeastConnectionSelect(loops)
  {
  }

  /** When every loop carries the same count, the least-connection strategy
      picks the first loop. */
  lemma LeastConnectionTieGoesToFirst(loops: seq<nat>)
    requires |loops| > 0
    requires forall j :: 0 <= j < |loops| ==> loops[j] == loops[0]
    ensures LeastConnectionSelect(loops) == 0
  {
  }
}
