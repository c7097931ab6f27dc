# Load balancer comparison: a verified model of the balancing core

The repository holds two HTTP load balancers and a test backend.

- **Go balancer.** A backend record with a boolean circuit breaker. Three selection algorithms: round-robin, smooth weighted round-robin and least-connections. A server pool that filters backends by availability. A proxy handler that classifies response codes, retries failed transports up to `MaxRetries` and answers 503 when it gives up.
- **C balancer.** An epoll reactor over a fixed table of connection slots. It admits clients against `max_connections`, accumulates request bytes until the blank line that ends the head, answers `/health` and `/stats` itself, and starts a non-blocking connect to a selected backend. It also has the command-line parser of `main`.
- **Test backend.** A Go server with fault injection. Its handlers define a `HandleControl` that switches faults on and off, but `main` never registers it on the mux, so as written a request to `/control` reaches the root handler instead (see Findings). It has a health verdict, a per-request fail decision, a response delay, defaults chosen by backend type, and a response writer that records status and size.

Each component is modelled as immutable Dafny datatypes and pure transition functions. Clock readings (`now`, in nanoseconds), random draws, syscall results and collaborators whose source is not part of this model are passed in as parameters:

- `http_parse_request`;
- `lb_select_backend`;
- `stats_to_json`;
- `config_load`;
- the health probe's HTTP client.

A Go `*Backend` pointer is modelled by an `id: nat` field.

Where the source is faulty (see Findings), the model keeps the code as written and adds a corrected reading beside it, selected by a `Variant` or `Mode` parameter. For the weighted algorithm the reading is the `MaxRule` its state carries: `CreateAlgorithm` builds the source's `SentinelMinusOne` rule, so the pool and the proxy run the weighted step as written unless a pool is given the corrected `FirstCandidate` rule. The corrected reading is the one the invariant lemmas are proved for.

Modules:

| module | file | models |
|---|---|---|
| `Options`, `Seqs`, `Text` | options.dfy, seqs.dfy, text.dfy | shared: `Option`, filtering and counting, substring search, decimal numerals |
| `CircuitBreaker` | circuit_breaker.dfy | Go-LoadBalancer/backend.go |
| `Algorithms` | algorithms.dfy | Go-LoadBalancer/algorithms.go |
| `ServerPool` | server_pool.dfy | Go-LoadBalancer/serverpool.go |
| `Proxy` | proxy.dfy | Go-LoadBalancer/loadbalancer.go |
| `Responses` | responses.dfy | C-LoadBalancer/src/server.c replies |
| `ConnectionTable` | connection_table.dfy | C-LoadBalancer/src/server.c slot table, accept, cleanup, init and shutdown |
| `RequestIntake` | request_intake.dfy | C-LoadBalancer/src/server.c read path, dispatch and backend connect |
| `EventLoop` | event_loop.dfy | C-LoadBalancer/src/server.c `server_run` |
| `CommandLine` | command_line.dfy | C-LoadBalancer/src/main.c |
| `FaultInjection` | fault_injection.dfy | TestBackend/backend.go, TestBackend/handlers.go |
| `BackendFlags` | backend_flags.dfy | TestBackend/main.go |
| `StatusWriter` | status_writer.dfy | TestBackend/utils.go |

### Behaviour worth knowing

These points of the code are easy to misread; the model follows the code in each:

- **Malformed or oversized requests.** These get no error reply. `handle_client_read` returns -1 and the connection is closed.
- **Backend connect failures.** The C reactor does not report them to any circuit breaker; it only answers 502.
- **Retries.** The Go balancer retries a failed transport on another pick, up to `MaxRetries`.
- **Circuit breaker.** There is no half-open state. The circuit is a single flag that an expired query closes lazily.
- **Timeouts and relay.** There are no idle or connect timeouts. The backend write-readiness branch is a stub, so no request or response is relayed.
- **Admission rejections.** They are not counted anywhere.

## Model

| member | source | states |
|---|---|---|
| CircuitBreaker.NewBackend | Go-LoadBalancer/backend.go:110-128 | a backend exists iff the URL parses; it starts alive, closed, with no errors and no connections, threshold 10 and cool-down 30 s |
| CircuitBreaker.NewBackendWithCircuitConfig | Go-LoadBalancer/backend.go:131-141 | the same backend as `NewBackend` with only the threshold and cool-down replaced; fails exactly when `NewBackend` fails |
| CircuitBreaker.SetAlive | Go-LoadBalancer/backend.go:32-36 | only the alive flag changes |
| CircuitBreaker.IsCircuitOpen | Go-LoadBalancer/backend.go:47-61 | reports open iff open and not more than the cool-down has passed since the last error; an expired circuit is closed with its count zeroed; nothing outside the breaker fields changes |
| CircuitBreaker.IsAvailable | Go-LoadBalancer/backend.go:64-66 | true iff alive and not held open; a dead backend's circuit is not queried, so not reset |
| CircuitBreaker.RecordSuccess | Go-LoadBalancer/backend.go:69-74 | count 0 and circuit closed; the last error time is kept |
| CircuitBreaker.RecordError | Go-LoadBalancer/backend.go:77-87 | count up by exactly one, last error time = now, the circuit opens when the count reaches the threshold and is never closed here |
| CircuitBreaker.AddConnection | Go-LoadBalancer/backend.go:95-97 | the connection count goes up by one and nothing else changes |
| CircuitBreaker.RemoveConnection | Go-LoadBalancer/backend.go:100-102 | the connection count goes down by one and nothing else changes |
| CircuitBreaker.ConnectionBracket | Go-LoadBalancer/backend.go:95-102 | add then remove, or remove then add, restores the backend |
| CircuitBreaker.ErrorsAccumulate | Go-LoadBalancer/backend.go:77-87 | from a closed circuit, k errors add k, stamp the last time, and leave the circuit open iff the count reached the threshold |
| CircuitBreaker.OpenStaysOpen | Go-LoadBalancer/backend.go:83-85 | further errors never close an open circuit and keep counting |
| CircuitBreaker.TenErrorsOpenCircuit | Go-LoadBalancer/backend.go:125 | from a new backend the tenth consecutive error opens the circuit and the ninth does not |
| CircuitBreaker.ErrorPostponesReset | Go-LoadBalancer/backend.go:53-58 | an error while open restarts the cool-down: queries within it report open and reset nothing |
| CircuitBreaker.SettleIdempotent | Go-LoadBalancer/backend.go:52-58 | a second query at the same instant gives the same answer and changes nothing |
| CircuitBreaker.ClosedStaysClosed | Go-LoadBalancer/backend.go:52-60 | a closed circuit stays closed as time advances without errors |
| Algorithms.AliveBackends | Go-LoadBalancer/algorithms.go:118-126 | a backend is in the result iff it is an alive input backend; the result is never longer than the input |
| Algorithms.RoundRobinNext | Go-LoadBalancer/algorithms.go:23-31 | with no alive backend, nil and the counter kept; otherwise the pick is `alive[counter mod len]` and the counter advances by one with uint64 wrap-around |
| Algorithms.RoundRobinRun | Go-LoadBalancer/algorithms.go:23-31 | `k` consecutive calls: call `j` returns `alive[((counter + j) mod 2^64) mod len]` and the counter ends `k` further on with wrap-around; with no alive backend every call returns nil and the counter stays |
| Algorithms.RoundRobinVisitsEachOnce | Go-LoadBalancer/algorithms.go:23-31 | `len(alive)` consecutive calls without counter wrap return every alive backend exactly once, as a rotation |
| Algorithms.WeightedNextAsWritten | Go-LoadBalancer/algorithms.go:49-89 | the source's weighted step with the `-1` sentinel: any pick is an alive input backend |
| Algorithms.WeightedSelection | Go-LoadBalancer/algorithms.go:65-82 | nil iff nothing is alive or (with the `-1` sentinel) every raised weight is at most -1; otherwise the pick is the first alive backend of maximal raised weight |
| Algorithms.WeightedUpdate | Go-LoadBalancer/algorithms.go:70-86 | every alive backend's weight is raised by its effective weight and the pick's is lowered by the total; backends not alive keep theirs |
| Algorithms.PickSelection | Go-LoadBalancer/algorithms.go:65-82 | the pick is the first position whose raised weight is strictly greatest; under the sentinel there is none iff every raised weight is at most -1 |
| Algorithms.PickUpdate | Go-LoadBalancer/algorithms.go:70-86 | every alive weight is raised by its effective weight (non-positive weights count 1), the total is taken from the pick only, other entries unchanged |
| Algorithms.WeightedConservesSum | Go-LoadBalancer/algorithms.go:75-86 | a step that selects leaves the sum of current weights over the alive set unchanged |
| Algorithms.WeightedBalancedRunAlwaysSelects | Go-LoadBalancer/algorithms.go:65-88 | on a fixed alive set starting from a zero-sum (e.g. empty) map, every call of the source's step selects |
| Algorithms.WeightedSentinelStarves | Go-LoadBalancer/algorithms.go:67-80 | three weight-1 backends, one call, then two go down: the source returns nil with one backend alive, the corrected step returns it |
| Algorithms.WeightedNextTotal | Go-LoadBalancer/algorithms.go:65-82 | the step seeded with the first candidate selects whenever a backend is alive |
| Algorithms.LeastConnectionsNext | Go-LoadBalancer/algorithms.go:98-115 | any pick is an alive input backend; with none alive there is no pick |
| Algorithms.LeastConnectionsPicksMinimum | Go-LoadBalancer/algorithms.go:98-115 | with non-negative counts: nil iff nothing is alive, otherwise the earliest alive backend with the fewest connections |
| Algorithms.CreateAlgorithm | Go-LoadBalancer/algorithms.go:129-138 | "weighted" and "least-connections" name their algorithms; every other name gives round-robin; the weighted one starts empty with the source's `-1` sentinel rule |
| Algorithms.NextBackend | Go-LoadBalancer/algorithms.go:9-12 | any pick is an alive element of the input; no alive input gives no pick; the algorithm keeps its kind and, when weighted, its rule |
| Algorithms.NextBackendPicks | Go-LoadBalancer/algorithms.go:23-115 | a pick iff some backend is alive and the weighted `-1` sentinel is not starved; round-robin picks `alive[counter mod len]`, weighted the first maximal raised weight, least-connections the first alive backend with the fewest connections |
| Algorithms.CorrectedNextBackendPicks | Go-LoadBalancer/algorithms.go:65-88 | the weighted step with the corrected rule picks iff some backend is alive |
| ServerPool.NewServerPool | Go-LoadBalancer/serverpool.go:20-25 | an empty pool holding the given algorithm |
| ServerPool.AddBackend | Go-LoadBalancer/serverpool.go:28-33 | the backend is appended; existing backends and their order are kept |
| ServerPool.AddBackendKeepsWellFormed | Go-LoadBalancer/serverpool.go:28-33 | a fresh identity with a non-negative count keeps identities distinct and counts non-negative |
| ServerPool.GetAvailableBackends | Go-LoadBalancer/serverpool.go:123-134 | the loop returns exactly the available backends in pool order; probing only settles circuits |
| ServerPool.NextAvailablePeer | Go-LoadBalancer/serverpool.go:63-120 | every circuit is queried; only available backends reach the algorithm; with none available the algorithm is not consulted and nil is returned |
| ServerPool.NextAvailablePeerPicks | Go-LoadBalancer/serverpool.go:73-119 | in a well-formed pool a peer is returned iff some backend is available and the weighted sentinel is not starved on the available ones |
| ServerPool.CorrectedNextAvailablePeerPicks | Go-LoadBalancer/serverpool.go:73-119 | without the source's weighted rule, a peer is returned iff some backend is available |
| ServerPool.ClosedWeightedPoolPicks | Go-LoadBalancer/serverpool.go:73-107 | with every circuit closed, a weighted pool returns what its step picks on the whole backend list |
| ServerPool.StarvedPoolHasNoPeer | Go-LoadBalancer/serverpool.go:101-119 | a well-formed weighted pool with an available backend returns nil: three weight-1 backends, one call, then two go down |
| ServerPool.FindAlternative | Go-LoadBalancer/serverpool.go:167-177 | the first available backend other than the excluded one, in order; nil iff there is none |
| ServerPool.NextPeer | Go-LoadBalancer/serverpool.go:36-60 | an available pick of the algorithm is returned (its circuit settled); no pick gives nil with the pool unchanged; in a well-formed pool a pick held out by its circuit gives `findAlternativeBackend`'s result and pool; the algorithm's state advances as `NextBackend` says |
| ServerPool.NextPeerReturnsAvailable | Go-LoadBalancer/serverpool.go:42-59 | the "chosen backend is DOWN" branch is unreachable; whatever is returned is available; in a well-formed pool nil is returned iff there is no pick, or the pick is held out and no backend with another identity is available |
| ServerPool.GetPoolSummary | Go-LoadBalancer/serverpool.go:137-164 | total, alive, available and closed-circuit counts equal the counts over the pool |
| ServerPool.PoolSummaryBounds | Go-LoadBalancer/serverpool.go:141-156 | available <= alive <= total and available <= circuits_closed <= total |
| ServerPool.StatusString | Go-LoadBalancer/serverpool.go:291-297 | begins with "u" (up) iff the backend is alive, and is longer than "down" iff the circuit is open |
| ServerPool.StatusRoundTrip | Go-LoadBalancer/serverpool.go:291-297 | the status string determines both the alive and the circuit flag |
| ServerPool.GetStats | Go-LoadBalancer/serverpool.go:267-320 | one entry per backend in order, the alive and available counts, and the total |
| ServerPool.Info | Go-LoadBalancer/serverpool.go:300-311 | a backend's entry shows its alive flag, its availability and circuit state at that instant and the settled error count; "healthy" iff alive, "open" iff the circuit is held open |
| ServerPool.IsBackendAlive | Go-LoadBalancer/serverpool.go:323-342 | alive iff the probe that counts (health path, root only when that request fails) gave a status in 200..299 |
| ServerPool.JoinStrings | Go-LoadBalancer/serverpool.go:345-355 | the loop's result equals the reference join |
| ServerPool.JoinLength | Go-LoadBalancer/serverpool.go:345-355 | the join holds every element's characters and one separator between each neighbouring pair |
| ServerPool.JoinAppend | Go-LoadBalancer/serverpool.go:345-355 | joining two non-empty lists is joining their joins |
| Proxy.RetryFromContext | Go-LoadBalancer/loadbalancer.go:110-115 | the stored int, or 0 when absent or not an int |
| Proxy.ClassifyError | Go-LoadBalancer/loadbalancer.go:51-56 | "timeout" wins over "refused"; anything else is a connection error |
| Proxy.RecordStatus | Go-LoadBalancer/loadbalancer.go:129-163 | 5xx records an error, 2xx/3xx a success, anything else leaves the backend |
| Proxy.WriteHeader | Go-LoadBalancer/loadbalancer.go:125-166 | the code is stored and its effect applied to the recorder's backend only |
| Proxy.LoadBalance | Go-LoadBalancer/loadbalancer.go:168-244 | at most the retry budget plus one proxy attempts; no attempt iff no peer is found, and then 503; an answered attempt ends the request with the backend's status after one attempt; only circuit-breaker fields change, connection counts are restored |
| Proxy.ServeRequest | Go-LoadBalancer/loadbalancer.go:168-170 | from the mux with no retry stored, at most `MaxRetries + 1` attempts |
| Proxy.ServeRequestNoPeer | Go-LoadBalancer/loadbalancer.go:168-178 | a request from the mux is proxied at least once iff the pool offers a peer |
| Proxy.BeforeRetryEffect | Go-LoadBalancer/loadbalancer.go:44-96 | before re-entering, the failing backend holds the attempt's connection and has exactly one more error, stamped now; every other backend only has its circuit queried |
| Proxy.RetryOnFailure | Go-LoadBalancer/loadbalancer.go:70-96 | a transport failure with `retries < MaxRetries` re-enters with `retries + 1` inside the failing backend's recorder, and the request gets the nested answer one attempt later |
| Proxy.FailuresSpendBudget | Go-LoadBalancer/loadbalancer.go:70-100 | when every attempt fails and a peer is found each time, exactly budget + 1 attempts are made and the answer is 503 |
| Proxy.ServeRequestSpendsBudget | Go-LoadBalancer/loadbalancer.go:168-170 | from the mux, such a request is tried exactly `MaxRetries + 1` times before the 503 |
| Proxy.WriteThroughEffect | Go-LoadBalancer/loadbalancer.go:125-166 | a status written through nested recorders touches only their backends, and a 2xx/3xx zeroes each of their counts |
| Proxy.GaveUpErrors | Go-LoadBalancer/loadbalancer.go:98-100 | giving up adds two errors to the failing backend as written, one when only the error handler records; nothing else changes then |
| Proxy.LastAttemptFailure | Go-LoadBalancer/loadbalancer.go:70-100 | the last allowed attempt failing at the transport answers 503 after one attempt, with the backend's count up by two as written |
| Proxy.AnsweredRecords | Go-LoadBalancer/loadbalancer.go:151-153 | a 2xx/3xx zeroes the producing backend's count and, as written, that of every backend whose recorder encloses the attempt |
| Proxy.NoPeerServes503 | Go-LoadBalancer/loadbalancer.go:237-243 | with nothing available the answer is 503 with no attempt |
| Proxy.StarvedPoolServes503 | Go-LoadBalancer/loadbalancer.go:173-178 | a well-formed weighted pool whose sentinel is starved is answered 503 with no proxy attempt |
| Proxy.WeightedPoolRefuses | Go-LoadBalancer/loadbalancer.go:173-178 | the starved weighted pool answers 503 with no attempt while its first backend is available |
| Proxy.CircuitBreakerStatus | Go-LoadBalancer/loadbalancer.go:291-334 | available and open counts over the backends; closed is total minus open |
| Proxy.CircuitSummaryBounds | Go-LoadBalancer/loadbalancer.go:297-330 | the closed figure is the closed-circuit count, and available + open <= total |
| Responses.Render | C-LoadBalancer/src/server.c:286-293 | the length is the sum of the parts and the body is the suffix |
| Responses.ErrorResponse | C-LoadBalancer/src/server.c:286-293 | status line `HTTP/1.1 <code> <text>`, the three headers, body `text\n`, and the declared length equals the body length |
| Responses.FormatInto | C-LoadBalancer/src/server.c:286-295 | snprintf: the returned count is the full length and the buffer keeps a prefix of at most size-1 characters; the send stays inside the array iff the text has at most `size` characters, and sends exactly the text iff it has fewer |
| Responses.FormatExactFit | C-LoadBalancer/src/server.c:286-295 | a text of exactly `size` characters stays inside the array but is sent with its last character replaced by the NUL |
| Responses.SendErrorResponse | C-LoadBalancer/src/server.c:284-297 | returns -1; a reply shorter than 1024 is sent exactly; the send stays inside the 1024-byte array iff the reply has at most 1024 characters |
| Responses.ErrorReplyFits | C-LoadBalancer/src/server.c:285-295 | a three-digit code with a text of at most 469 characters is sent whole and exactly as rendered |
| Responses.HealthReply | C-LoadBalancer/src/server.c:300-310 | the /health reply with a length header that matches its body |
| Responses.HealthLengthMismatch | C-LoadBalancer/src/server.c:301-306 | the source's /health reply declares 25 bytes for a 21-byte body |
| Responses.StatsResponse | C-LoadBalancer/src/server.c:320-326 | the stats reply declares its body's length |
| Responses.StatsAsWritten | C-LoadBalancer/src/server.c:313-332 | no JSON gives the 500 reply; otherwise the full formatted length is sent: inside the 4096-byte array iff at most 4096 characters, exactly the reply iff shorter |
| Responses.StatsOverRead | C-LoadBalancer/src/server.c:319-328 | JSON of 4096 characters or more makes the send read past the buffer |
| Responses.StatsReply | C-LoadBalancer/src/server.c:313-332 | corrected: the whole reply is sent, exactly as rendered |
| ConnectionTable.ServerInit | C-LoadBalancer/src/server.c:357-409 | a server iff every setup step succeeds; then every slot is free, nothing is active and the table is consistent |
| ConnectionTable.FirstFree | C-LoadBalancer/src/server.c:112-118 | the lowest free slot; none iff every slot is in use |
| ConnectionTable.AcceptOne | C-LoadBalancer/src/server.c:98-158 | admitted iff under the limit with every step succeeding, into the first free slot, counter up one; at the limit rejected; each failure keeps the counter; as written an allocation failure leaves the descriptor in the slot |
| ConnectionTable.RoomMeansFreeSlot | C-LoadBalancer/src/server.c:99-124 | a consistent table under the limit has a free slot |
| ConnectionTable.AcceptKeepsConsistent | C-LoadBalancer/src/server.c:126-158 | corrected, accepting keeps the slot count equal to the counter |
| ConnectionTable.AcceptVariantsAgree | C-LoadBalancer/src/server.c:136-142 | both readings agree unless a buffer allocation fails |
| ConnectionTable.AcceptLeaksSlot | C-LoadBalancer/src/server.c:127-141 | as written, a failed allocation leaves one more slot in use than the counter says |
| ConnectionTable.HandleAccept | C-LoadBalancer/src/server.c:84-165 | one result per pending client; the limit and the number of slots are kept |
| ConnectionTable.HandleAcceptKeepsConsistent | C-LoadBalancer/src/server.c:88-164 | corrected, a whole burst keeps the table consistent, so the counter never passes the limit |
| ConnectionTable.ActiveBounded | C-LoadBalancer/src/server.c:99-103 | in a consistent table the counter stays between 0 and the number of slots |
| ConnectionTable.Cleanup | C-LoadBalancer/src/server.c:335-354 | the slot is released (descriptors -1, buffers freed and nulled), other slots untouched; as written the counter always drops by one |
| ConnectionTable.CleanupKeepsConsistent | C-LoadBalancer/src/server.c:335-354 | corrected, releasing a slot keeps the table consistent with no double free |
| ConnectionTable.CleanupTwiceDrifts | C-LoadBalancer/src/server.c:353 | as written, cleaning a slot twice drops the counter by two |
| ConnectionTable.CleanupIdempotent | C-LoadBalancer/src/server.c:336-353 | corrected, cleaning twice equals cleaning once |
| ConnectionTable.ShutdownClean | C-LoadBalancer/src/server.c:463-474 | shutting down a consistent table frees each block once and ends at counter 0 |
| ConnectionTable.Shutdown | C-LoadBalancer/src/server.c:463-474 | afterwards no slot is in use and the table keeps its size |
| ConnectionTable.LeakedSlotFreedTwice | C-LoadBalancer/src/server.c:136-141 | after the as-written failure of one allocation, shutdown frees the other buffer a second time |
| RequestIntake.CString | C-LoadBalancer/src/server.c:182-185 | the prefix before the first NUL, which holds no NUL |
| RequestIntake.Accumulate | C-LoadBalancer/src/server.c:172-183 | no more chunks are taken than were read, and a buffer below 8192 stays below 8192 |
| RequestIntake.AccumulateAppends | C-LoadBalancer/src/server.c:180-182 | the buffer is the old one followed by every chunk taken, in order |
| RequestIntake.AccumulateOverflow | C-LoadBalancer/src/server.c:174-178 | an oversized stop is at the chunk that would reach 8192, which is not kept |
| RequestIntake.AccumulateCompleteIff | C-LoadBalancer/src/server.c:185 | the loop stops for a complete head iff the bytes it kept hold one |
| RequestIntake.NulHidesTerminator | C-LoadBalancer/src/server.c:182-185 | bytes after a NUL never complete a head |
| RequestIntake.Connect | C-LoadBalancer/src/server.c:231-281 | every failing step answers 502; a failed registration also resets the backend descriptor; success keeps the connection with the new descriptor |
| RequestIntake.RouteOf | C-LoadBalancer/src/server.c:195-199 | answered locally as health iff the path is exactly "/health", as statistics iff exactly "/stats" |
| RequestIntake.Dispatch | C-LoadBalancer/src/server.c:185-214 | unparsable iff the parser fails, leaving the slot unchanged; every reply is one the balancer knows; /health, /stats and 503 change only the parsed request; connecting records the selected backend and descriptor |
| RequestIntake.ClientRead | C-LoadBalancer/src/server.c:168-228 | client descriptor and buffers kept, the request grows as accumulated, a closed descriptor fails without change; dispatch iff a head completed (corrected: and no backend connect is under way); without a dispatch only the request changes |
| RequestIntake.DispatchIffComplete | C-LoadBalancer/src/server.c:172-215 | dispatched iff the bytes kept complete a head (corrected: on a slot not already connecting) |
| RequestIntake.HeadStaysComplete | C-LoadBalancer/src/server.c:180-185 | once the buffer holds a blank line, appended bytes keep it |
| RequestIntake.RedispatchOverwrites | C-LoadBalancer/src/server.c:185-212 | as written, more client bytes on a connecting slot dispatch again and replace its live backend descriptor with a new one, keeping the connection |
| RequestIntake.ConnectingKeepsBackend | C-LoadBalancer/src/server.c:185-212 | corrected, reads on a connecting slot never dispatch and keep its backend descriptor and state |
| RequestIntake.DispatchRoutes | C-LoadBalancer/src/server.c:187-213 | returns 0 iff parsed, not local, a backend chosen and every connect step succeeds |
| RequestIntake.DispatchAnswers | C-LoadBalancer/src/server.c:195-207 | /health gets the health reply, /stats the stats reply, no backend the 503 reply; each returns -1, changes only the parsed request, and is the same whatever a connect would return |
| RequestIntake.RepliesInBounds | C-LoadBalancer/src/server.c:284-332 | corrected, every reply the balancer produces is sent whole and within its buffer |
| EventLoop.HandleEvent | C-LoadBalancer/src/server.c:428-454 | error or hang-up cleans up without reading; readable reads and cleans up on -1; other slots untouched |
| EventLoop.HandleBatch | C-LoadBalancer/src/server.c:428-455 | a batch keeps the limit and the number of slots |
| EventLoop.HangupSkipsRead | C-LoadBalancer/src/server.c:436-440 | an error event's outcome does not depend on the socket's data |
| EventLoop.ReadEventEffect | C-LoadBalancer/src/server.c:442-447 | a read returning 0 keeps the counter and descriptors; one returning -1 releases the slot |
| EventLoop.HandleEventKeepsConsistent | C-LoadBalancer/src/server.c:428-454 | corrected, every event keeps the table consistent |
| EventLoop.HandleBatchKeepsConsistent | C-LoadBalancer/src/server.c:428-455 | corrected, a whole batch keeps the table consistent |
| EventLoop.RedispatchDropsBackend | C-LoadBalancer/src/server.c:444-446 | as written, a readable event on a connecting slot can leave it open with a different backend descriptor, so the old one is neither kept nor closed |
| EventLoop.HandleEventKeepsBackends | C-LoadBalancer/src/server.c:428-454 | corrected, every event keeps each slot's backend descriptor until the slot is released, and a slot holds one only while connecting |
| EventLoop.HandleBatchKeepsBackends | C-LoadBalancer/src/server.c:428-455 | corrected, a whole batch keeps every backend descriptor tied to the connecting state |
| EventLoop.ErrorThenReadCleansTwice | C-LoadBalancer/src/server.c:436-447 | an error and a read on the same slot in one batch clean the slot twice |
| EventLoop.ErrorThenReadDrifts | C-LoadBalancer/src/server.c:436-446 | as written, that batch drops the counter by two for one connection |
| EventLoop.ErrorThenReadOnce | C-LoadBalancer/src/server.c:436-446 | corrected, the batch releases the connection once and keeps the table consistent |
| EventLoop.Run | C-LoadBalancer/src/server.c:412-460 | -1 iff some wait fails for a reason other than a signal, else 0 |
| EventLoop.RunKeepsConsistent | C-LoadBalancer/src/server.c:417-456 | corrected, the loop keeps the table consistent |
| EventLoop.Lifetime | C-LoadBalancer/src/server.c:357-486 | init, run and shutdown end with nothing counted and no double free |
| CommandLine.AtoiNumeral | C-LoadBalancer/src/main.c:157 | a digit string is read as its value, saturated to 64 bits and truncated to 32 |
| CommandLine.Atoi | C-LoadBalancer/src/main.c:157 | the value read is always within the 32-bit range |
| CommandLine.AtoiDecimal | C-LoadBalancer/src/main.c:157 | a rendered number below 2^63 reads back as itself truncated to 32 bits |
| CommandLine.FlagOf | C-LoadBalancer/src/main.c:148-176 | each option is recognised exactly by its short or long spelling; help is `-h`/`--help`, version only `--version` |
| CommandLine.AtoiPortRoundTrip | C-LoadBalancer/src/main.c:157 | every port number renders and reads back as itself |
| CommandLine.Step | C-LoadBalancer/src/main.c:148-180 | one option: a stop is an exit with 0 iff help or version; the rest of the arguments is a proper suffix; ports stay in range |
| CommandLine.ParseFrom | C-LoadBalancer/src/main.c:147-181 | exit codes are 0 or 1; help and version exit 0 and unknown options 1 whatever follows; `-c`/`-p` without a value exit 1 |
| CommandLine.ParseArgs | C-LoadBalancer/src/main.c:140-181 | no arguments gives the defaults; a proceeding port is -1 or in 1..65535 |
| CommandLine.ParseAppend | C-LoadBalancer/src/main.c:147-181 | a prefix that parses hands its settings to the rest: options are taken strictly left to right |
| CommandLine.LastConfigWins | C-LoadBalancer/src/main.c:148-154 | a trailing `-c f` replaces the configuration file and nothing else |
| CommandLine.LastPortWins | C-LoadBalancer/src/main.c:155-165 | a trailing `-p v` replaces the port iff `atoi(v)` is in 1..65535, and exits 1 otherwise |
| CommandLine.HelpStops | C-LoadBalancer/src/main.c:170-175 | help or version after any valid prefix exits 0 whatever follows |
| CommandLine.PortWraps | C-LoadBalancer/src/main.c:157-158 | the range check sees the 32-bit truncation: 4294975376 is accepted as port 8080 |
| CommandLine.Override | C-LoadBalancer/src/main.c:199-205 | a port > 0 replaces the configured one; verbose forces debug logging |
| CommandLine.DefaultsKeepConfig | C-LoadBalancer/src/main.c:199-205 | without port or verbose options the loaded configuration is used unchanged |
| CommandLine.Start | C-LoadBalancer/src/main.c:139-205 | exits iff parsing exits, signal setup fails or the configuration does not load; a given port reaches the configuration |
| FaultInjection.NewBackend | TestBackend/backend.go:27-41 | healthy, no failure mode, nothing served, every setting as given |
| FaultInjection.LogRequest | TestBackend/backend.go:43-47 | the count goes up by exactly one and nothing else changes |
| FaultInjection.ErrorRateExtremes | TestBackend/backend.go:49-51 | for a draw in [0,1) a rate <= 0 never fails and a rate >= 1 always fails |
| FaultInjection.ShouldFailRequest | TestBackend/backend.go:70-83 | no mode or no request fault defers to the error rate; with the fault, a positive partial rate decides, otherwise always fail |
| FaultInjection.GetDelayAsWritten | TestBackend/backend.go:53-60 | base when no maximum; otherwise a panic iff max <= base, else a delay in [base, max) |
| FaultInjection.GetDelay | TestBackend/backend.go:53-60 | corrected: never panics, base when max <= base, otherwise in [base, max), equal to the source's whenever that does not panic |
| FaultInjection.HealthVerdict | TestBackend/handlers.go:72-88 | 503 iff health checks are set to fail or the backend is unhealthy, else 200 |
| FaultInjection.HealthPause | TestBackend/handlers.go:67-69 | a pause iff a failure mode with a positive health delay exists |
| FaultInjection.HandleHealth | TestBackend/handlers.go:63-96 | answers the verdict and counts the request either way |
| FaultInjection.HandleRoot | TestBackend/handlers.go:22-61 | 500 iff the fail decision says so; as written a panic iff the delay panics; a reply carries the new request count and at least 2 s of sleep in slow mode |
| FaultInjection.ControlStatus | TestBackend/handlers.go:129-178 | 200 iff applied; 400 for invalid JSON and unknown actions |
| FaultInjection.HandleControl | TestBackend/handlers.go:128-187 | non-POST is 405 and invalid JSON 400, both with no change; otherwise a failure mode is allocated; only the failure mode and health flag ever change |
| FaultInjection.UnknownActionAllocates | TestBackend/handlers.go:145-178 | an unknown action answers 400 and leaves the failure mode allocated, nothing else changed |
| FaultInjection.FailHealthEffect | TestBackend/handlers.go:150-153 | sets the health fault and unhealthy, nothing else; the verdict becomes 503 |
| FaultInjection.FailRequestsEffect | TestBackend/handlers.go:155-162 | sets the request fault with the given rate or 1.0; requests then fail with exactly that rate; the verdict is unchanged |
| FaultInjection.SlowEffect | TestBackend/handlers.go:164-169 | sets slow responses; the health delay changes only for a positive value; nothing else in the mode changes |
| FaultInjection.RecoverEffect | TestBackend/handlers.go:171-174 | zero failure mode and healthy: verdict 200, requests fail at the configured rate, no health pause |
| FaultInjection.ControlIdempotent | TestBackend/handlers.go:149-179 | repeating any control request changes nothing more |
| FaultInjection.FaultsCommute | TestBackend/handlers.go:150-162 | health and request faults switched on in either order give the same backend |
| BackendFlags.TypeDefaults | TestBackend/main.go:29-58 | per type, each default is filled only where the setting is zero; "balanced" and unknown types change nothing |
| BackendFlags.DefaultsKeepGiven | TestBackend/main.go:29-58 | a non-zero setting survives every type |
| BackendFlags.DefaultsOnlyFillZeros | TestBackend/main.go:29-58 | a setting that changes was zero and becomes positive |
| BackendFlags.DefaultsIdempotent | TestBackend/main.go:29-58 | filling twice is filling once |
| BackendFlags.StartBackend | TestBackend/main.go:23-60 | the backend is built from the filled settings, starts healthy and unused, and is named "localhost" when the system reports no host name |
| BackendFlags.SlowBackendPanics | TestBackend/main.go:37-43 | a "slow" backend with base >= 500 ms panics on every unfailed `/` request as written; corrected it waits the base |
| BackendFlags.CorrectedDelayBounded | TestBackend/main.go:29-60 | with the corrected delay every built backend waits at least its base and below its maximum when it has a spread |
| BackendFlags.HandlerFor | TestBackend/main.go:63-70 | a path is served by the registration whose pattern equals it, and by the root handler when none does |
| BackendFlags.HandlerForAppend | TestBackend/main.go:63-70 | a registration added last serves only paths no earlier pattern matches |
| BackendFlags.ControlUnrouted | TestBackend/main.go:63-70 | as written no path reaches `HandleControl`; `/control` is served by the root handler |
| BackendFlags.ControlRouted | TestBackend/main.go:63-70 | with `/control` registered it reaches `HandleControl` and every other path is served as before |
| StatusWriter.NewRecorder | TestBackend/utils.go:27-29 | status 0 and size 0 |
| StatusWriter.WriteHeader | TestBackend/utils.go:13-16 | records the code, size kept |
| StatusWriter.Write | TestBackend/utils.go:18-25 | status becomes 200 only if it was 0; size grows by the reported count |
| StatusWriter.ReplaySize | TestBackend/utils.go:22-23 | after any calls the size is the sum of the counts reported by the writes |
| StatusWriter.ReplayStatus | TestBackend/utils.go:13-25 | the final status is the last header's code, or 200 once a write follows a 0 status |
| StatusWriter.WritesKeepStatus | TestBackend/utils.go:19-21 | once a status is set, writes never change it |
| StatusWriter.ImplicitOk | TestBackend/utils.go:18-25 | a handler that only writes is recorded as 200 with the bytes it wrote |

## Left out

- **Syscalls.** Sockets, `accept`, `read`, `send`, `connect`, `epoll_*`, `calloc`/`malloc`/`free` and `set_nonblocking` are not modelled as I/O. Their outcomes are inputs (`InitOutcomes`, `Client`, `ReadStep`, `ConnectOutcomes`), and a freed pointer is a `Dangling` buffer.
- **Event dispatch.** `server_run` tests `events[i].data.fd == listen_fd` on a union that holds a pointer for connection events. The model uses a tagged `Event` instead, so a connection pointer whose low bits equal the listening descriptor is not modelled.
- **Backend write-readiness.** The branch only prints, so no relay, forwarding states or backend reads are modelled.
- **Uninterpreted collaborators.** `http_parse_request`, `lb_select_backend`, `stats_to_json`, `config_load`, `loadbalancer_init`, the C health checker, signal setup and `daemonize` are parameters or left out. The source of each is not part of this model.
- **Go HTTP machinery.** `httputil.ReverseProxy`, `ServeMux`, `ListenAndServe`, JSON encoding and decoding, and the probe's `http.Client` are left out. The proxy attempt's outcome, the decoded control body and the probe's results are inputs.
- **Go health checking.** `ServerPool.HealthCheck`, `healthChecking` and their goroutine fan-out, ticker and logging are left out; only their state effect, `SetAlive`, is modelled. Mutexes and atomics are dropped too: everything is sequential, and the unsynchronised handler state of the test backend is read as sequential.
- **Floating point.** `pool_health_percentage`, `health_percentage` and `uptime_seconds` are left out. Error rates and draws are `real`, which is exact where Go's `float64` rounds.
- **Logging and side code.** Log and printf output, emoji status strings, the usage and version banners of main.c, sleeps (only their length is modelled) and `time.Now` are left out. The test backend's other handlers (`/info`, `/fast`, `/slow`, `/heavy`, `/fail`, `/cpu`) are left out too.
- **Data-only files.** Go-LoadBalancer/main.go and config.go hold only hard-coded configuration and structs.
- Algorithms.WeightedNextAsWritten: `Weight`, the current weights and `totalWeight` are Go `int`s; their wrap-around is not modelled, so weights are unbounded integers.
- CircuitBreaker.AddConnection: `connections` is an `int64`; its wrap-around is not modelled.
- CircuitBreaker.RecordError: `consecutiveErrors` is an `int64`; its wrap-around after 2^63 errors is not modelled.
- FaultInjection.LogRequest: `RequestCount` is an `int64`; its wrap-around is not modelled.
- FaultInjection.HandleControl: `health_delay * time.Millisecond` overflows `int64` for delays above about 9.2·10^12 ms; the model multiplies without wrap-around.
- FaultInjection.GetDelayAsWritten: `rand.Int63n(n)` is modelled as `pick % n`, which covers every value in range but not the distribution.
- Algorithms.RoundRobinVisitsEachOnce: fairness is stated only for windows in which the uint64 counter does not wrap.
- StatusWriter.Write: the count is taken as the underlying writer reports it; overflow of the `int` size field is not modelled.

## Findings

| source | as written | input that shows it | evidently intended | confidence | as-written member | corrected member |
|---|---|---|---|---|---|---|
| C-LoadBalancer/src/server.c:304 | `/health` declares `Content-Length: 25` | any `GET /health`: the body `{"status":"healthy"}\n` is 21 bytes | a length equal to the body, 21 | high, not executed | Responses.HealthLengthMismatch | Responses.HealthReply |
| C-LoadBalancer/src/server.c:136-141 | a failed buffer allocation closes the descriptor but leaves it in `client_fd` and leaves both freed pointers in the slot | a client accepted into a consistent table where the request buffer is allocated and the response buffer is not | the slot released (`client_fd = -1`, pointers nulled) as on the epoll failure path | high, not executed | ConnectionTable.AcceptLeaksSlot | ConnectionTable.AcceptKeepsConsistent |
| Go-LoadBalancer/loadbalancer.go:98-100 | after `RecordError`, the 503 is written through the failing backend's own recorder, whose `WriteHeader` records a second error | `MaxRetries` 0 and a backend whose connection is refused: one request raises its count by 2 | one error per failed attempt | medium, not executed | Proxy.LastAttemptFailure | Proxy.GaveUpErrors |
| Go-LoadBalancer/algorithms.go:67 | selection needs a raised weight above the `-1` sentinel | three weight-1 backends all alive, one call, then the second and third go down: the next call returns nil with the first alive | any alive backend can be selected | high, not executed | Algorithms.WeightedSentinelStarves | Algorithms.WeightedNextTotal |
| C-LoadBalancer/src/server.c:436-446 | `cleanup_connection` decrements `active_connections` whatever the slot holds | one batch with an error on a connection's backend descriptor and its client descriptor readable: the second event reads descriptor -1 and cleans up again | one decrement per connection | medium, not executed | EventLoop.ErrorThenReadDrifts | EventLoop.ErrorThenReadOnce |
| C-LoadBalancer/src/server.c:328 | `send` is given `snprintf`'s return value, the untruncated length | statistics JSON of 4096 characters or more | send only what was formatted, or format into a buffer of the needed size | medium, not executed | Responses.StatsOverRead | Responses.StatsReply |
| C-LoadBalancer/src/server.c:185 | the completed head stays in `request_buffer`, so every later read that appends bytes finds the blank line again and dispatches again | a client that sends more bytes after a complete head while the backend connect is still pending: a second backend socket replaces `backend_fd`, and the first is never closed | dispatch once per request; a connection already connecting only queues further bytes | medium, not executed | RequestIntake.RedispatchOverwrites | EventLoop.HandleEventKeepsBackends |
| TestBackend/main.go:41-43 | "slow" fills a 500 ms maximum delay whatever the base | `-type slow -delay 500ms`: `rand.Int63n(0)` panics on every request to `/` that is not failed on purpose | a maximum at or below the base means no spread | high, not executed | BackendFlags.SlowBackendPanics | FaultInjection.GetDelay |
| TestBackend/main.go:63-70 | `HandleControl` is defined but never registered | `POST /control` with `{"action":"recover"}`: the `/` pattern serves it with `HandleRoot`, which counts it as an ordinary request and changes no fault | `/control` routed to `HandleControl` | medium, not executed | BackendFlags.ControlUnrouted | BackendFlags.ControlRouted |
