# Worker-loop load balancing of the gev network engine

gev is a multi-reactor network engine: one acceptor event loop accepts
connections and hands each one to a worker event loop chosen by a load-balance
strategy. This project models the two strategies of `load_balance.go` and the
way the acceptor applies them, and proves their selection properties.

- A pool of worker loops is a non-empty `seq<nat>`: entry `i` is the value
  loop `i`'s `ConnectionCount()` reads at the moment of the call. A strategy
  returns the index of the chosen loop instead of a loop pointer.
- `LoadBalance.Strategy` is `RoundRobin(nextLoopIndex)` or `LeastConnection`.
  The round-robin closure's captured cursor becomes the `nextLoopIndex` field,
  returned updated after each call in a `Choice`. A fresh round-robin strategy
  is `NewRoundRobin`, with the cursor at 0.
- `LoadBalance.Select` is the shared selection contract.
  `RoundRobinSelect` takes the loop under the cursor and advances the cursor
  modulo the pool size. `LeastConnectionSelect` scans the pool from loop 0 and
  keeps a later loop only when its count is strictly smaller (`ScanFrom`).
- `Server.Accept` is one accepted connection: the strategy picks a loop and the
  connection is registered there, raising that loop's count by one.
  `Server.Serve` is `m` accepts in a row on a fixed pool.
- `Fairness` holds the lemmas over repeated calls. Round robin visits the loops
  in cyclic order and gives each the floor or the ceiling of `m / K` of `m`
  connections, whatever the registration timing. Least connection keeps a
  balanced pool balanced when accepts are spaced far enough apart for each
  registration to land before the next selection. `Burst` models the other
  case, selections made while registrations are still queued on the workers,
  and shows that least connection can then send every connection to one loop.

Both strategies index `loops[0]` or `loops[cursor]` and take `% len(loops)`, so
they fail on an empty pool. The model therefore requires a non-empty pool, and
for round robin a cursor below the pool size. `Server.WorkerCount` shows why the
server's pool is never empty, and `Server.WorkerPoolServes` connects that
size to the preconditions of the strategies. The cursor is a Go `int`, but it never leaves
`[0, len(loops))`, so overflow does not arise. Both operands of `%` are
non-negative, so Go's truncating remainder equals Dafny's Euclidean one.

## Model

| member | source | states |
|---|---|---|
| LoadBalance.Select | load_balance.go:3-26 | every strategy returns an index of an existing loop and a state that can still serve the same pool; least connection returns a least-loaded, lowest-index loop and keeps no state; round robin returns the loop at the pre-call cursor and advances the cursor by one modulo the pool size |
| LoadBalance.RoundRobinSelect | load_balance.go:7-11 | the chosen loop is the one under the cursor held before the call; the new cursor is the next index, wrapping to 0 after the last loop, so it stays in bounds |
| LoadBalance.RoundRobinIgnoresLoad | load_balance.go:7-11 | the round-robin answer depends only on the cursor and the pool size, never on the connection counts |
| LoadBalance.ScanFrom | load_balance.go:18-22 | continuing the scan from any position with the first least candidate of the prefix yields the first least loop of the whole pool |
| LoadBalance.LeastConnectionSelect | load_balance.go:14-25 | the result indexes a loop of the pool whose count is at most every loop's count, and every loop before it has strictly more connections |
| LoadBalance.LeastConnectionHasMinCount | load_balance.go:15-24 | the chosen loop's count equals the pool's minimum count, defined independently of the scan |
| LoadBalance.MinCountIsMinimum | load_balance.go:15-24 | the reference minimum is one of the pool's counts and is below or equal to all of them |
| LoadBalance.LeastConnectionUnique | load_balance.go:16-21 | a loop is least-loaded with no equally loaded loop before it if and only if it is the loop the scan returns |
| LoadBalance.LeastConnectionTieGoesToFirst | load_balance.go:16-19 | when all loops carry the same count, the first loop is chosen |
| Server.WorkerCount | server.go:56-61 | the worker pool is never empty: it has the configured size when that is positive and the CPU count otherwise |
| Server.WorkerPoolServes | server.go:56-71 | a pool of that many loops meets the non-empty-pool precondition of both strategies, so a fresh round-robin strategy and least connection can both serve it |
| Server.Accept | server.go:86-97 | one accepted connection goes to the loop the strategy selects; that loop's count grows by one and every other count is unchanged |
| Server.Serve | server.go:86-97 | after `m` accepts on a fixed pool there are `m` picks, each an index of the pool; least connection's state is never changed and round robin's stays a valid cursor |
| Fairness.ServeCountsPicks | server.go:86-97 | each loop's final count is its starting count plus the number of accepted connections sent to it |
| Fairness.RoundRobinCyclicOrder | load_balance.go:5-11 | from cursor `c`, the `j`-th of `m` calls picks loop `(c + j) mod K` and the cursor ends at `(c + m) mod K` |
| Fairness.OccurrencesInCycle | load_balance.go:8-9 | in a cyclic listing `0, 1, …, K-1, 0, …` of length `m`, loop `i` occurs `m / K` times plus one when `i < m mod K` |
| Fairness.RoundRobinFairShare | load_balance.go:5-11 | over `m` calls of a fresh round-robin strategy, loop `i` is chosen `m / K` times plus one when `i < m mod K`, which lies between the floor and the ceiling of `m / K` |
| Fairness.RoundRobinEvenLoad | load_balance.go:5-11 | from idle loops and a fresh cursor, after `m` accepts each loop holds its fair share and no two counts differ by more than one |
| Fairness.LeastConnectionKeepsBalance | load_balance.go:14-25 | if no loop holds more than one connection above another, the same is true after one least-connection accept |
| Fairness.LeastConnectionServeBalanced | load_balance.go:14-25 | the balance of the previous row survives any number of least-connection accepts |
| Fairness.LeastConnectionPicksLeast | load_balance.go:14-25 | every least-connection accept goes to the first least-loaded loop as the counts stand when it is accepted |
| Fairness.Burst | server.go:86-96 | selections made while every registration is still queued: each one reads the same counts, and each pick indexes the pool |
| Fairness.LeastConnectionBurstRepeats | server.go:86-96 | during such a burst, least connection sends every connection to the loop that was least loaded before it |
| Fairness.LeastConnectionBurstUnbalances | server.go:86-96 | on two idle loops, three accepts before any registration lands all go to loop 0, and the resulting counts three and zero are not balanced |
| Fairness.RoundRobinBurstMatchesServe | load_balance.go:5-11 | round robin picks the same loops and ends at the same cursor whether or not registrations land between accepts |

## Left out

- `server.go` beyond the strategy call and the pool size: `NewServer`'s loop and listener creation, `Start` and `Stop`, and `RunAfter` and `RunEvery`. These are threads, operating-system resources and an external timer wheel.
- The cross-thread hand-off in `handleNewConnection` through `queueInLoop`, and `OnConnect`. Only its two extremes are modelled: `Server.Serve`, where each registration lands before the next accept, and `Fairness.Burst`, where none has landed yet. Interleavings in between are not. Registration is assumed to succeed and to raise the chosen loop's count by one; the counter lives in event-loop code that is not part of this model.
- Connections closing between accepts. `Server.Serve` only ever adds connections.
- Fairness.LeastConnectionServeBalanced: assumes every queued registration completes before the next accept, which `queueInLoop` does not guarantee. A burst of accepts can unbalance the pool (`Fairness.LeastConnectionBurstUnbalances`).
- Fairness.LeastConnectionPicksLeast: assumes every queued registration completes before the next accept, which `queueInLoop` does not guarantee. In a burst, each selection reads counts that leave out registrations still queued (`Fairness.Burst`).
- A pool whose size changes between round-robin calls. There a stale cursor can index past the end and the Go code panics. The model requires a cursor below the current pool size instead.
- Concurrent reads of the counters: each count is a snapshot taken at the moment of the call.
