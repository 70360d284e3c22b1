/** How the server's acceptor uses the load balancer: the size of the worker
    pool, and the hand-off of each accepted connection to the chosen loop.

    Connection counts are snapshots; registration of the new connection on the
    chosen loop is assumed to succeed and to raise that loop's count by one, and
    no connection closes between two accepts. */
module Server {
  import opened LoadBalance

  /** The number of worker loops: the configured number, or the number of CPUs
      when the configured number is zero or negative. */
  function WorkerCount(numLoops: int, numCPU: nat): (n: nat)
    requires numCPU > 0
    ensures n > 0
    ensures numLoops > 0 ==> n == numLoops
    ensures numLoops <= 0 ==> n == numCPU
  {
    if numLoops <= 0 then numCPU else numLoops
  }

  /** A pool of `WorkerCount` loops can be served by either strategy, a fresh
      round-robin one included. */
  lemma WorkerPoolServes(numLoops: int, numCPU: nat, counts: seq<nat>)
    requires numCPU > 0 && |counts| == WorkerCount(numLoops, numCPU)
    ensures |counts| > 0 && Valid(NewRoundRobin, |counts|) && Valid(LeastConnection, |counts|)
    ensures |Serve(counts, NewRoundRobin, 1).picks| == 1
  {
  }

  /** The state after one accepted connection: the loop that received it, the
      updated counts and the strategy's next state. */
  datatype Step = Step(loop: nat, counts: seq<nat>, strategy: Strategy)

  /** One accepted connection: the strategy picks a worker loop and the new
      connection is registered there, so that loop's count grows by one and no
      other count changes. */
  function Accept(counts: seq<nat>, s: Strategy): (r: Step)
    requires |counts| > 0 && Valid(s, |counts|)
    ensures r.loop < |counts| && |r.counts| == |counts| && Valid(r.strategy, |counts|)
    ensures r.counts[r.loop] == counts[r.loop] + 1
    ensures forall i :: 0 <= i < |counts| && i != r.loop ==> r.counts[i] == counts[i]
    ensures r.loop == Select(s, counts).loop && r.strategy == Select(s, counts).next
  {
    var c := Select(s, counts);
    Step(c.loop, counts[c.loop := counts[c.loop] + 1], c.next)
  }

  /** The history of `m` accepted connections on a fixed pool: the loop each one
      went to, in order, and the final counts and strategy state. */
  datatype Run = Run(picks: seq<nat>, counts: seq<nat>, strategy: Strategy)

  /** `m` successive accepts, each one seeing the counts and strategy state the
      previous one left behind. */
  function Serve(counts: seq<nat>, s: Strategy, m: nat): (r: Run)
    requires |counts| > 0 && Valid(s, |counts|)
    ensures |r.picks| == m && |r.counts| == |counts| && Valid(r.strategy, |counts|)
    ensures forall j :: 0 <= j < m ==> r.picks[j] < |counts|
    ensures s.LeastConnection? ==> r.strategy == s
    ensures s.RoundRobin? ==> r.strategy.RoundRobin?
    decreases m
  {
    if m == 0 then Run([], counts, s)
    else
      var prev := Serve(counts, s, m - 1);
      var step := Accept(prev.counts, prev.strategy);
      Run(prev.picks + [step.loop], step.counts, step.strategy)
  }
}
