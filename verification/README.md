# Kalshi trading engine: a verified model

This project models the concurrent and stateful machinery of the Kalshi trading engine in
Dafny and proves what it promises over every run. `dafny verify dfyconfig.toml` checks all
of it.

- **Ring** (`Ring.dfy`): the lock-free MPMC queue as a transition system, one step per
  atomic load, compare-and-swap or store, any number of threads, every interleaving.
  **Pipeline** and **Recorder** put its two users on top of that same transition system:
  the order path of `tradingd` (one hot thread, any number of submit workers) and the
  durable recorder (a producer, a writer thread, and `stop`).
- **Shadow engine**: `Orders.dfy`, `Ledger.dfy` and `Engine.dfy` are its operations as
  functions on values, `Shadow.dfy` its classes with the fields and loops of the source,
  each method proved equal to its function. `Lifecycle.dfy` says what an order's life is
  without any of the machinery: no slots, no work lists, no index. `Refinement.dfy` and
  `ShadowRuns.dfy` prove that the machinery always agrees with it; `ShadowTheorems.dfy`,
  `Requests.dfy`, `Accounts.dfy`, `Tracks.dfy`, `FillLog.dfy`, `Exposure.dfy`, `Gate.dfy`,
  `Recovery.dfy` and `ShadowLimits.dfy` draw the consequences.
- **Token bucket** (`Bucket.dfy`): the integer bucket against an ideal one that has only a
  level, and the bound on what any time window can be granted.
- **Order books** (`Books.dfy`, `BookManager.dfy`, `Subscriptions.dfy`, `Replication.dfy`):
  the books and the per-subscription sequence streams, against an exchange that has only a
  size for every market, side and price, and whose messages arrive in order over a channel
  that may lose any of them.
- **Request executor** (`Executor.dfy`): the retry loop under every behaviour of signer,
  transport and server, drawing on the bucket above.
- **Byte formats**: RESP2 (`Resp.dfy`, with `Decimal.dfy`) against a grammar
  (`RespGrammar.dfy`), and the raw log with its JSON and base64 (`Json.dfy`, `Base64.dfy`,
  `Records.dfy`, `Writer.dfy`, `Reader.dfy`, `RawLog.dfy`), read by a parser that refuses
  ill-formed UTF-8 (`Utf8.dfy`, section 4 of RFC 3629; `Utf8Forms.dfy`).

Where the code falls short of what its comments say, the model keeps the code and the
proofs say exactly when the promise holds:

- A settlement leaves live exactly those of the market's live orders that were placed
  before an earlier settlement of it (`SettlementExact`). An order still waiting for
  activation at the first settlement is missed by the second, with any positive latency and
  any table (`SecondSettlementMisses`).
- Orders the Queue track refuses keep their slot for good (`TablesExact`). As many of them
  as the table has slots fill it (`RefusedOrdersFillTable`), and then nothing is ever
  placed again (`RefusedOrdersExhaustTable`). A full table can be freed again if and only if
  refused orders and waiting orders that will be refused hold fewer than all its slots
  (`TableRecovers`); the refused ones alone do not decide it (`WaitingOrdersDoom`).
- A print is not shared among the orders it reaches: each gets what it would get alone
  (`PrintFillsExact`), so together they can be filled beyond the print's size
  (`PrintIsNotShared`). Off the Queue track that happens exactly when at least two orders
  take from it and together want more than it is (`OverfillExact`).
- "Strict and Queue never fill more than Optimistic" holds for every order the Optimistic
  engine accepted (`PessimisticTracks`); on a table of any size a run exists in which only
  Optimistic drops an order (`FullTableReversesTracks`). Strict and Queue themselves are
  not ordered (`QueueAndStrictUnordered`).
- A snapshot that is the first to reveal a loss leaves the other books of its sid
  tradeable though stale. It is harmless if none of them is tradeable, which is all that
  `TradeableMeansCurrent` asks of it; in general it keeps them current exactly when the lost
  messages did not move them (`SnapshotGapExact`). A change on a sid other than the one of the book's
  snapshot keeps the book current only if it is a no-op or takes the book down
  (`ForeignChangeExact`). A reused sid ignores the new connection's deltas until they
  catch up with the number the old one left the stream at (`ReusedSidExact`). Each comes
  with a concrete run.
- Forgetting a market removes it from the sid it is routed to only: it stays a member of a
  sid it had been bound to before, and a loss there makes a book for it again
  (`ForgetExact`, `ForgottenComesBack`).
- The raw log promises to keep every payload byte for byte. The writer's own UTF-8 test
  lets overlong forms and surrogates through as text, and the other text fields are not
  tested at all, while the reader's parser refuses ill-formed UTF-8
  (src/storage.cpp:71-87 and 237, third_party/simdjson/simdjson.h:64898). The writer takes
  every form of every number, the reader the shortest forms of scalar values (`LaxExact`,
  `StrictExact`). A written line is
  read back exactly when its texts are well-formed (`LineRoundTrip`); otherwise the record
  is lost as a skipped line (`LaxPayloadLost`, `CrashTolerant`).
- A log reopened after a crash is appended to without ending the cut line, so the first new
  record shares a line with the remnant (`ReopenedLog`). A reader that insists on
  well-formed JSON loses exactly that record (`FirstNewRecordLost`).
- The backoff delay is documented as always positive; that holds exactly when the capped
  exponential is at least 2 ms (`DelayPositive`).
- After `configure` the bucket's level can exceed a full bucket by the pending carry, until
  the next refill (`ConfigureKeepsCarry`).
- The two bytes after a RESP bulk string are skipped without being looked at
  (`BulkTerminatorUnchecked`).

Modelling conventions. Integers are unbounded except where width matters (the base64
accumulator, RESP integers, record fields, the epoch truncation). `pos & mask` is the
remainder by a power-of-two capacity. Clocks, random draws, wake-ups, signing, sending and
receiving are parameters or arbitrary choices. Vectors and hash maps the source mutates are
`seq` and `map` fields that methods reassign. Ring threads, the pipeline and the recorder
are transition systems because their subject is the interleaving. Callers of the shadow
engine name only markets they registered; an event naming another one changes nothing.

## Model

| member | source | states |
|---|---|---|
| `Ring.RunInv` | include/kalshi/ring.hpp:26-84 | every reachable state of every interleaving satisfies the invariant on cell sequence numbers, tickets, thread positions and history |
| `Ring.NoSharedCell` | include/kalshi/ring.hpp:40-84 | no two threads ever own the same cell, so the plain moves of a value never race |
| `Ring.PopsReturnPushes` | include/kalshi/ring.hpp:57-83 | the pop of ticket k returns the value pushed with ticket k, a completed call reports its ticket's value, and at most capacity tickets are open |
| `Ring.StepRefinesQueue` | include/kalshi/ring.hpp:40-84 | every atomic step is, on the queue a client sees, nothing, one append or one removal of the head |
| `Ring.PushFailsIffFull` | include/kalshi/ring.hpp:42-56 | looking at the cell's sequence number, a push gives up exactly when its ticket is still the next one and the ticket capacity places earlier has not been popped and published |
| `Ring.PushGivesUpOnlyWhenFull` | include/kalshi/ring.hpp:40-61 | from whatever point of the push, lost compare-and-swaps included, a step that makes it answer no finds its ticket the next one and the ring full at it |
| `Ring.PushAloneExact` | include/kalshi/ring.hpp:40-61 | in every reachable state an undisturbed push, with no pop in the middle of its cell, succeeds exactly when fewer values than the capacity are queued, then appends its value and publishes its cell, and otherwise changes nothing |
| `Ring.PopFailsIffEmpty` | include/kalshi/ring.hpp:65-80 | looking at the cell's sequence number, a pop gives up exactly when its ticket is still the next one and its push has not claimed or not published |
| `Ring.PopGivesUpOnlyWhenEmpty` | include/kalshi/ring.hpp:63-84 | from whatever point of the pop, a step that makes it answer nothing finds its ticket the next one and not pushed and published |
| `Ring.PopAloneExact` | include/kalshi/ring.hpp:63-84 | in every reachable state an undisturbed pop, with no push in the middle of its cell, returns the oldest queued value and frees its cell for the ticket a round later, or, if nothing is queued, changes nothing |
| `Ring.NothingLost` | include/kalshi/ring.hpp:40-92 | when no thread is inside an operation, what came out is exactly the first tickets in order and everything else sits in its own cell |
| `Ring.OneCellOverwrites` | include/kalshi/ring.hpp:28-29 | with a single cell two pushes both succeed and the second overwrites the first value although nothing was popped: the constructor's refusal is needed |
| `Pipeline.EverySubmissionAccounted` | apps/tradingd.cpp:217-254 | at every moment of every interleaving submissions equal rejected + dropped + entering + queued + in flight + counted outcomes |
| `Pipeline.ShutdownBalance` | apps/tradingd.cpp:632-639 | after the join nothing is in flight and what is missing from the counters is exactly the undrained ring |
| `Pipeline.NothingUndrained` | apps/tradingd.cpp:365-378 | nothing is left undrained if, once the last push of the hot thread has returned, some worker has yet to see a pop fail; then the counters account for every submission |
| `Pipeline.StopsWhenTold` | apps/tradingd.cpp:371-376 | a worker has stopped only if the stop flag was set by then |
| `Pipeline.MayStop` | apps/tradingd.cpp:371-376 | and once it was set, a worker whose pop found nothing may stop |
| `Pipeline.SubmissionsExact` | apps/tradingd.cpp:217-254 | every order in the ring comes from one submission of a valid payload and has its strategy and time to live, the clock at that moment as its decision time and the next number of its strategy; the invalid payloads are exactly those counted as rejected |
| `Pipeline.OutcomeExact` | apps/tradingd.cpp:265-349 | every order's outcome is the one determined by the clock its worker read, the limits on its age, the rate limiter's answer, the order-entry switch and what signing and sending did, tested in that order; it was transmitted exactly if the outcome is submitted or transport error |
| `Pipeline.OnlyAllowedOrdersSentOnce` | apps/tradingd.cpp:265-305 | whatever is sent is the order pushed with its ticket, with order entry enabled and its age, from its decision to the clock its worker read, within its own and the general limit; no ticket and no order id is sent twice |
| `Pipeline.CountersExact` | apps/tradingd.cpp:265-349 | at every moment each counter is the number of tickets with that outcome, and after the join the orders sent are exactly those counted as submitted or as transport errors |
| `Recorder.EveryFrameAccounted` | include/kalshi/ws_recorder.hpp:50-105 | at every moment each recorded frame is pushed, on its way, pending as a loss, being written as a loss or in a loss marker, and what is written is a prefix of what was pushed |
| `Recorder.StopLosesNothing` | include/kalshi/ws_recorder.hpp:42-47 | with the producer finished, stop leaves every pushed record in order and frames written plus losses reported equal the record calls |
| `Recorder.CountersExact` | include/kalshi/ws_recorder.hpp:50-73 | between calls recorded_ is the number of frames that entered the ring and dropped_ the number of calls of either kind that did not; after a quiet stop recorded_ is the number of frames in the log |
| `Recorder.WriterStays` | include/kalshi/ws_recorder.hpp:76-87 | the writer leaves its loop only once stop has been called |
| `Recorder.RunningPolls` | include/kalshi/ws_recorder.hpp:76-87 | a writer that checks its flag goes on to the ring exactly if stop has not been called |
| `Recorder.EmptyPollReports` | include/kalshi/ws_recorder.hpp:79-105 | a drainer that found the ring empty writes the losses pending by then as one marker, if there are any, and nothing else, before it goes on |
| `Orders.TransitionGauge` | include/trading/shadow/order_registry.hpp:163-177 | every legal transition keeps the gauge equal to the live orders' exposure, in total and in each of the 4096 slots |
| `Orders.FillGauge` | include/trading/shadow/order_registry.hpp:180-189 | so does a fill of any quantity |
| `Ledger.OnFillExact` | include/trading/shadow/ledger.hpp:79-96 | crediting a fill keeps every book equal to the fold of its fills |
| `Ledger.RiskIsWorstLoss` | include/trading/shadow/order_registry.hpp:116-120 | the risk of a fill is exactly what it loses in the worse of the two settlements |
| `Ledger.PnlBoundedByRisk` | include/trading/shadow/ledger.hpp:126-129 | a book's settlement profit is the sum of its fills' payoffs and at least minus their risk |
| `Refinement.AdvanceRefines` | include/trading/shadow/engine.hpp:108-151 | both swap-with-back loops, stale entries included, do to every order what activation and cancel do to its life |
| `Refinement.RetireRefines` | include/trading/shadow/engine.hpp:95-99 | taking an order out of the simulator and recycling its slot ends exactly that life |
| `Refinement.HitRefines` | include/trading/shadow/fill_sim.hpp:94-135 | one open order against one print changes exactly that order's life by the print |
| `ShadowRuns.TradeRefines` | include/trading/shadow/engine.hpp:73-84 | a print, with its in-place loop and the delivery of its fills, hits every order once and no order twice |
| `ShadowRuns.SettleRefines` | include/trading/shadow/engine.hpp:86-105 | a settlement ends exactly the live orders on the market's list |
| `ShadowRuns.PlaceRefines` | include/trading/shadow/engine.hpp:39-56 | an accepted placement begins one new life |
| `ShadowRuns.CancelRefines` | include/trading/shadow/engine.hpp:60-70 | a cancel affects the named order if it is known and still open or waiting, and nothing else |
| `ShadowRuns.RunAgrees` | include/trading/shadow/engine.hpp:39-151 | after every sequence of operations all tables agree with each other and with the orders' lives |
| `ShadowTheorems.TablesExact` | include/trading/shadow/order_registry.hpp:143-196 | in every run no illegal transition is attempted; free, pending and open lists hold exactly the slots of their states, each once; the id index is a bijection; the gauge is exact; and free + pending + open + refused slots make the table |
| `ShadowTheorems.RefusedOrdersExhaustTable` | include/trading/shadow/engine.hpp:116-118 | once refused orders fill the table, no continuation ever finds a free slot |
| `Recovery.TableRecovers` | include/trading/shadow/engine.hpp:108-151 | after every run some continuation finds a free slot if and only if refused orders and waiting orders of unknown depth on the Queue track hold fewer than all slots |
| `ShadowLimits.WaitingOrdersDoom` | include/trading/shadow/engine.hpp:115-118 | for every table size a run that has refused nothing yet and after which no continuation finds a free slot |
| `ShadowLimits.RefusedOrdersFillTable` | include/trading/shadow/engine.hpp:116-118 | for every table size, that many placements of unknown depth on the Queue track and a clock tick reach that point |
| `Gate.WithinMeans` | include/trading/shadow/order_registry.hpp:100-107 | over every run with prices in cents and sizes not negative, when the gauge says within, the market's live orders and all live orders can lose no more than the limits; and exactly then, unless live orders of a market with the same remainder by 4096 share the slot |
| `Exposure.RiskConserved` | include/trading/shadow/order_registry.hpp:81-98 | in every run the gauge total is the sum of the live orders' remaining risk, the log's risk is the sum of the orders' filled risk, and the whole risk of all orders ever activated is these two plus what canceled, expired and settled orders had left |
| `Accounts.MarksExact` | include/trading/shadow/ledger.hpp:98-124 | over every run a book is settled exactly if its market was settled by some event, for the side that won the last of them, and its last trade is the price of the last print of it, -1 before any |
| `Accounts.PnlBacked` | include/trading/shadow/ledger.hpp:126-129 | over every run a market's profit is the sum of what its fills pay for the side that won its last settlement, and at least minus their risk |
| `Accounts.SettlementPays` | include/trading/shadow/ledger.hpp:119-129 | after every run that ends in a settlement the market's book is settled and its profit is what its fills pay for the side that won |
| `Requests.OrdersAsAsked` | include/trading/shadow/engine.hpp:39-70 | over every run the order in a slot has the market, price, size, side and time of the placement request with its number, is active one placement latency later, and its cancel takes effect one cancel latency after some request to cancel it |
| `Requests.RequestsCounted` | include/trading/shadow/engine.hpp:45-50 | over every run orders ever accepted plus droppedFull equal the placement requests |
| `ShadowTheorems.AdvanceMissesNothing` | include/trading/shadow/engine.hpp:108-151 | after advancing to a time no activation and no cancel due by then is still waiting |
| `ShadowTheorems.ListedMeans` | include/trading/shadow/engine.hpp:53-54 | over every run an order is on its market's list if and only if no settlement of the market came after its placement |
| `ShadowTheorems.SettlementExact` | include/trading/shadow/engine.hpp:86-105 | after every run, an order live in a market once the clock has reached its settlement stays live if and only if it was placed before an earlier settlement of that market |
| `ShadowTheorems.FirstSettlementClears` | include/trading/shadow/engine.hpp:86-105 | the first settlement of a market leaves no live order in it |
| `ShadowLimits.SecondSettlementMisses` | include/trading/shadow/engine.hpp:94-102 | on every track, with any positive latency and any table, a run whose second settlement leaves a live order in the market |
| `Tracks.PessimisticTracks` | include/trading/shadow/fill_sim.hpp:94-135 | at every point of every run an order accepted by the Optimistic engine has at most its Optimistic fills, and at most its size, on every track |
| `Tracks.FillsExact` | include/trading/shadow/fill_sim.hpp:94-135 | in every run on each track an order's fills are exactly the smaller of its size and the volume the track leaves it: on Queue the volume at its price beyond the displayed depth plus what went through its price once that depth was used up, on Strict what went through its price, on Optimistic both kinds |
| `Tracks.FillsExactInWindow` | include/trading/shadow/fill_sim.hpp:94-135 | under a clock that never goes back, in an unsettled market, that volume is what was printed inside [active, cancel-effective) |
| `Tracks.StrictFillsExact` | include/trading/shadow/fill_sim.hpp:115-131 | so Strict fills exactly the smaller of the order's size and the volume printed strictly through its price inside its window |
| `Tracks.WorkingIsWindow` | include/trading/shadow/fill_sim.hpp:101-107 | under such a clock an order the track accepts is working at a print if and only if the print falls in [active, cancel-effective) |
| `FillLog.FillsComeFromPrints` | include/trading/shadow/fill_sim.hpp:94-135 | every fill in the log of every run comes from one print of the tape, at whose time its order was working, in the print's market, inside its window and crossed by it, and carries that order's id, market, price and side and the quantity the track allows |
| `FillLog.FillsWithinPrint` | include/trading/shadow/fill_sim.hpp:119-131 | no fill exceeds its print |
| `Exposure.PrintFillsExact` | include/trading/shadow/fill_sim.hpp:94-135 | in every run the contracts one print adds to the log are the sum of what it gives each working order on its own |
| `Exposure.OverfillExact` | include/trading/shadow/fill_sim.hpp:108-131 | off the Queue track that is more than the print's size if and only if at least two working orders take from it and together want more than its size |
| `ShadowLimits.PrintIsNotShared` | include/trading/shadow/fill_sim.hpp:108-131 | on every track and for any number k of orders the table holds, a run in which one print of one contract fills k contracts |
| `Tracks.RunsBounded` | include/trading/shadow/fill_sim.hpp:119-131 | filled quantities stay between 0 and the order's size, reaching it exactly when the order is Filled |
| `ShadowLimits.FullTableReversesTracks` | include/trading/shadow/engine.hpp:46-49 | for every table size a run in which Strict fills an order Optimistic had to drop |
| `ShadowLimits.QueueAndStrictUnordered` | include/trading/shadow/fill_sim.hpp:110-123 | a run in which Queue fills what Strict does not, and one the other way round |
| `Shadow.OrderRegistry.Place` | include/trading/shadow/order_registry.hpp:143-161 | takes the slot at the back of the free list and enters the id in the index unless it is already there, or answers -1 and changes nothing when no slot is free |
| `Shadow.OrderRegistry.Transition` | include/trading/shadow/order_registry.hpp:163-177 | new state and gauge for exactly the seven legal pairs of states, listed, and only the illegal counter for all others |
| `Shadow.OrderRegistry.ApplyFill` | include/trading/shadow/order_registry.hpp:180-189 | quantity, gauge and the Filled state when nothing remains |
| `Shadow.OrderRegistry.Release` | include/trading/shadow/order_registry.hpp:191-196 | the slot goes back to the free list and the id out of the index |
| `Shadow.FillSim.Activate` | include/trading/shadow/fill_sim.hpp:71-80 | refuses and counts exactly unknown depth on the Queue track, else queues the order with its depth |
| `Shadow.FillSim.Remove` | include/trading/shadow/fill_sim.hpp:82-89 | swaps out the first occurrence only |
| `Shadow.FillSim.OnTrade` | include/trading/shadow/fill_sim.hpp:94-135 | the in-place loop equals the recursive one over all open orders |
| `Shadow.ShadowEngine.Market` | include/trading/shadow/engine.hpp:32-34 | the next index, with an empty book, and nothing else changed |
| `Shadow.ShadowEngine.Place` | include/trading/shadow/engine.hpp:39-56 | new state of all modelled fields; 0 exactly when the table is full |
| `Shadow.ShadowEngine.Cancel` | include/trading/shadow/engine.hpp:60-70 | new state of all fields |
| `Shadow.ShadowEngine.OnTrade` | include/trading/shadow/engine.hpp:73-84 | advance, hit, deliver, mark, in that order |
| `Shadow.ShadowEngine.OnSettle` | include/trading/shadow/engine.hpp:86-105 | the loop is the settlement step: advance, end the live orders of the market's list, clear it, settle the book for the side that won; over runs that step is what SettlementExact, MarksExact and SettlementPays speak about |
| `Shadow.ShadowEngine.Advance` | include/trading/shadow/engine.hpp:108-151 | both loops equal their recursive forms |
| `Bucket.RefillExact` | include/kalshi/token_bucket.hpp:100-114 | a refill brings the level to min(full, level + rate * dt), keeps the carry in range and never loses or invents a unit |
| `Bucket.ClampNeverFires` | include/kalshi/token_bucket.hpp:109-113 | short of saturation the carry step stays within capacity |
| `Bucket.RefillIntermediates` | include/kalshi/token_bucket.hpp:105-109 | every intermediate value is bounded by the distance to a full bucket |
| `Bucket.PollingChangesNothing` | include/kalshi/token_bucket.hpp:88-114 | any number of refills in between leaves a later refill's result unchanged |
| `Bucket.ReserveExact` | include/kalshi/token_bucket.hpp:62-85 | granted exactly when the wait ends by the deadline; the whole cost comes off the level; the wait is the least that ends the debt; a refusal changes nothing |
| `Bucket.TryExact` | include/kalshi/token_bucket.hpp:50-56 | granted exactly when the level covers the cost |
| `Bucket.EffectiveInOrder` | include/kalshi/token_bucket.hpp:62-85 | a grant is usable no earlier than the grant before it |
| `Bucket.WindowBound` | include/kalshi/token_bucket.hpp:50-85 | over every run the grants usable within [s, t] cost at most capacity + rate * (t - s + 1), debt included, and become usable in order |
| `Bucket.NewExact` | include/kalshi/token_bucket.hpp:38-39 | a new bucket is full, and full is 10^9 units per token of capacity |
| `Bucket.TokensInWindow` | include/kalshi/token_bucket.hpp:38-85 | so over every run of a new bucket, with requests of at most its capacity, what is granted for use within [s, t] is at most capacity tokens and what the rate yields in that time, and every grant is one a request asked for |
| `Bucket.ConfiguredExact` | include/kalshi/token_bucket.hpp:42-47 | new rate and capacity; the whole milli-tokens are cut to the new capacity if above it, clock and carry stay |
| `Bucket.ConfigureKeepsCarry` | include/kalshi/token_bucket.hpp:42-47 | when a reconfigured bucket's level can exceed its capacity, and that the next refill ends it |
| `Bucket.TokenBucketI64.constructor` | include/kalshi/token_bucket.hpp:38-39 | starts full |
| `Bucket.TokenBucketI64.Configure` | include/kalshi/token_bucket.hpp:42-47 | new rate and capacity, tokens clamped, carry kept |
| `Bucket.TokenBucketI64.Fill` | include/kalshi/token_bucket.hpp:100-114 | the branches and the shortcut reach the ideal bucket's level |
| `Bucket.TokenBucketI64.TryToReserve` | include/kalshi/token_bucket.hpp:50-56 | new state and answer |
| `Bucket.TokenBucketI64.ReserveOrElseWait` | include/kalshi/token_bucket.hpp:62-85 | new state and reservation |
| `Books.DownUntilSnapshot` | include/kalshi/orderbook.hpp:227-265 | after a gap seen by a delta or control message no member of the sid is tradeable until its own next snapshot, over every sequence of events |
| `Books.RunPositive` | include/kalshi/orderbook.hpp:63-96 | in every run books only ever hold positive sizes |
| `Books.LoadedExact` | include/kalshi/orderbook.hpp:66-67 | a loaded side rests at every price the last positive size listed for it, and nothing elsewhere |
| `Books.ApplyExact` | include/kalshi/orderbook.hpp:76-96 | a change moves the size at its price by its delta and no other price, side or book; refused while invalid; takes the book down exactly when the size would go negative |
| `Subscriptions.StreamsExact` | include/kalshi/sid_stream.hpp:39-62 | after every run each sid expects one more than the highest number seen on it, and its members and each market's route are what the bindings, snapshots and forgets so far say |
| `Subscriptions.DeltaExact` | include/kalshi/orderbook.hpp:227-253 | after every run, what a delta does to books, counters, requests and its answer, from the numbers seen on its sid: a number beyond the expected one takes down exactly the members and asks for exactly those, one below is counted and ignored, any other waits for a snapshot or is applied, asking for its one market if that takes the book down |
| `Subscriptions.ControlExact` | include/kalshi/orderbook.hpp:257-265 | the same for a control message, which otherwise changes nothing |
| `Subscriptions.DownIsRequested` | include/kalshi/orderbook.hpp:227-265 | between any two points of any run, a book that was tradeable and no longer is, its market not forgotten, has been asked for in between |
| `Subscriptions.ForgetExact` | include/kalshi/orderbook.hpp:274-282 | forgetting a market removes it from every sid exactly when the sid it is routed to is the only one it is a member of |
| `Subscriptions.ForgottenComesBack` | include/kalshi/orderbook.hpp:274-282 | a run in which a forgotten market is still told of a loss on its old sid, and gets an invalid book and a request |
| `Replication.RunInv` | include/kalshi/orderbook.hpp:208-282 | the streams count what arrived and every tradeable book is current, in every allowed run |
| `Replication.TradeableMeansCurrent` | include/kalshi/orderbook.hpp:215-253 | whatever is lost, a tradeable book rests at every price exactly the exchange's initial size and all its changes there up to expected_next - 1 on the sid of its snapshot, and holds no other level, unless a snapshot revealed a loss while another book of its sid was tradeable, or a change came on another sid |
| `Replication.SnapshotGapExact` | include/kalshi/orderbook.hpp:220-223 | after every allowed run a snapshot keeps the other books current exactly when the messages it skips left them unmoved |
| `Replication.ForeignChangeExact` | include/kalshi/orderbook.hpp:229-253 | after every allowed run a change on another sid keeps the books current exactly when it is zero or drives the level negative |
| `Replication.ReusedSidFreezes` | include/kalshi/orderbook.hpp:295-299 | on a reused sid every message numbered below the old stream is ignored and the books stay as they are |
| `Replication.ReusedSidExact` | include/kalshi/orderbook.hpp:227-253 | after the new connection's first messages the next delta reaches a tradeable book if and only if its number is at least what the old stream expected |
| `Replication.SnapshotGapLeavesStaleBook` | include/kalshi/orderbook.hpp:215-224 | a run in which a snapshot reveals a loss and another book stays tradeable and stale |
| `Replication.ForeignChangeLeavesWrongBook` | include/kalshi/orderbook.hpp:227-253 | a run in which a lost snapshot on a new sid leaves a book that matches neither sid |
| `Replication.ReusedSidLeavesStaleBook` | include/kalshi/orderbook.hpp:295-299 | a run on a reused sid that loses nothing and still ignores a change |
| `BookManager.OrderBook.LoadSnapshot` | include/kalshi/orderbook.hpp:63-70 | valid, and at every price of each side the last positive size listed for it |
| `BookManager.OrderBook.Apply` | include/kalshi/orderbook.hpp:76-96 | the size at the price moved by the delta and nothing else; refused while invalid; down exactly when the size would go negative |
| `BookManager.OrderBook.Invalidate` | include/kalshi/orderbook.hpp:116 | no longer tradeable, levels and sequence kept |
| `BookManager.OrderBookManager.BindMarket` | include/kalshi/orderbook.hpp:208-211 | membership and routing; the epoch matters only for a new stream |
| `BookManager.OrderBookManager.OnSnapshot` | include/kalshi/orderbook.hpp:215-224 | membership, sequence and book, whatever the sequence result |
| `BookManager.OrderBookManager.OnDelta` | include/kalshi/orderbook.hpp:227-253 | gap, stale, dropped, corrupt and applied cases, with their counters and requests |
| `BookManager.OrderBookManager.OnControlSeq` | include/kalshi/orderbook.hpp:257-265 | a gap takes all members down, anything else only advances the stream |
| `BookManager.OrderBookManager.InvalidateAll` | include/kalshi/orderbook.hpp:300-308 | every member invalid, others untouched, one request for exactly the members |
| `BookManager.OrderBookManager.Forget` | include/kalshi/orderbook.hpp:274-282 | book, routing and membership of the routed sid removed |
| `BookManager.LoadSide` | include/kalshi/orderbook.hpp:66-67 | the loop equals the fold |
| `Executor.AtMostOnce` | src/request_executor.cpp:111-171 | for create, amend, order-group and quote requests every attempt but the last was answered 429, so at most one attempt may have been processed, under every outcome script |
| `Executor.ReconcileExact` | include/kalshi/backoff.hpp:71-105 | over every script the caller is told to reconcile exactly if the request is one of those four and its last attempt ended in a transport failure or 502, 503 or 504, which is so whenever any attempt did |
| `Executor.RetriedExactly` | include/kalshi/backoff.hpp:78-105 | an attempt, with another left, is repeated exactly if it was answered 429, or is a read or cancel that met 502, 503, 504 or one of seven libcurl codes |
| `Executor.VerdictExact` | src/request_executor.cpp:111-171 | otherwise the caller gets the signing failure, the transport failure, or the answer, as an error if it is 429, 502, 503 or 504 |
| `Executor.DriftExact` | include/kalshi/backoff.hpp:87-92 | accounting drift is flagged exactly on 429 |
| `Executor.RequestExecutor.Send` | src/request_executor.cpp:73-176 | one reservation, from the write or the read bucket, however many attempts; a refusal means nothing is signed or sent; the attempts are exactly those up to the first that may not be repeated or the limit; the reply is the verdict on the last |
| `Executor.StopsUnique` | src/request_executor.cpp:112-171 | the number of attempts is determined by the outcomes |
| `Executor.ExpDoubles` | include/kalshi/backoff.hpp:38-43 | the exponential is the base at attempt 0, doubles with every attempt up to the thirtieth until it meets the cap, and is the cap beyond |
| `Executor.DelayBounds` | include/kalshi/backoff.hpp:38-49 | the delay lies in [exp/2, exp], never above the cap, and every value there is reachable |
| `Executor.DelayPositive` | include/kalshi/backoff.hpp:36-49 | positive for every draw if and only if the capped exponential is at least 2 |
| `Decimal.ParseToString` | src/resp.cpp:32-35 | reading back a written integer, over the whole range of a long long |
| `Resp.ReplyRoundTrip` | src/resp.cpp:166-243 | every reply within the limits, however nested and whatever follows, is read back as itself and leaves exactly what follows |
| `Resp.RepliesRoundTrip` | src/resp.cpp:219-237 | a concatenation of replies is read back in order by as many reads |
| `Resp.CommandRoundTrip` | src/resp.cpp:115-133 | the bytes of a command are read as the array of exactly its arguments |
| `RespGrammar.ParseExact` | src/resp.cpp:166-243 | the parser returns a reply and a remainder exactly if the bytes are a spelling of that reply in the grammar, followed by that remainder: both null forms, any decimal spelling of a count, nesting, and the limits of 64 MiB and a million elements |
| `RespGrammar.BadExact` | src/resp.cpp:166-243 | it reports a protocol error exactly if the bytes start with an empty line, an unknown tag, a count that is no 64-bit number or is above the limit, or an array in which that follows some good elements |
| `Resp.StableReply` | src/resp.cpp:166-243 | once the bytes hold a whole reply or a protocol error, further bytes change neither, and are left over unread |
| `Resp.CutReplyAsksForMore` | src/resp.cpp:135-164 | every proper prefix of a reply's bytes is neither a reply nor an error |
| `Resp.BulkTerminatorUnchecked` | src/resp.cpp:210-217 | the two bytes after a bulk string do not matter |
| `Resp.Command` | src/resp.cpp:115-133 | the loop writes the command encoding |
| `Resp.RespClient.Fill` | src/resp.cpp:135-150 | succeeds exactly when the stream has enough bytes, and loses none |
| `Resp.RespClient.ReadLine` | src/resp.cpp:152-164 | the bytes before the first CRLF of the stream, wherever the chunks fall |
| `Resp.RespClient.ReadReply` | src/resp.cpp:166-243 | result, error and remainder depend only on the bytes, not on the chunks |
| `Resp.RespClient.ReadArray` | src/resp.cpp:219-238 | the element loop reads exactly the elements |
| `Resp.RespClient.NextReply` | src/resp.cpp:245-258 | dropping the parsed prefix keeps everything unread |
| `Base64.RoundTrip` | src/storage.cpp:15-68 | decoding undoes encoding for every byte string although the accumulator wraps |
| `Base64.EncodeExact` | src/storage.cpp:11-42 | four characters for every started three bytes; character k is the alphabet's for bits 6k to 6k + 5 of the input, or padding once those lie past its end |
| `Base64.DecodeExact` | src/storage.cpp:44-68 | for every text, well-formed or not, decoding yields the bits of the alphabet's characters before the first padding, eight at a time, whatever the accumulator wraps to |
| `Base64.Plain` | src/storage.cpp:11-13 | base64 output needs no escaping and breaks no line |
| `Base64.EncodeLoop` | src/storage.cpp:15-42 | the loop and both paddings equal the recursive encoder |
| `Base64.DecodeLoop` | src/storage.cpp:53-68 | the loop with its running accumulator equals the recursive decoder |
| `Json.EscapeRoundTrip` | src/storage.cpp:89-112 | a section 7 of RFC 8259 string reader undoes escaping for every byte string and stops right after it |
| `Json.EscapedExact` | src/storage.cpp:89-112 | quote, backslash and five control characters get their short escape, other control characters \u00 and two lower-case hexadecimal digits, all other bytes none |
| `Json.EscapeIsPrintable` | src/storage.cpp:89-112 | escaped text holds no control character |
| `Json.EscapeStrict` | src/storage.cpp:89-112 | escaping neither makes nor breaks well-formed UTF-8 |
| `Json.EscapeLoop` | src/storage.cpp:89-112 | the loop appends the escaped string |
| `Utf8.StrictSplit` | src/storage.cpp:233-237 | text cut before a byte that is not a continuation is well-formed exactly when both parts are |
| `Utf8Forms.LaxExact` | src/storage.cpp:71-87 | the writer's test accepts exactly the sequences of one- to four-byte forms, whatever numbers they spell |
| `Utf8Forms.StrictExact` | src/storage.cpp:233-237 | the reader's parser accepts exactly the sequences of shortest forms of numbers up to 10FFFF that are no surrogates |
| `Utf8Forms.StrictIsText` | src/storage.cpp:185-193 | so a well-formed payload is never stored in base64 |
| `Records.CheckUtf8` | src/storage.cpp:71-87 | the nested loops decide well-formedness by lead and continuation bytes |
| `Records.LaxCheckPasses` | src/storage.cpp:71-87 | that test passes an overlong form and a surrogate, which are not well-formed |
| `Records.LineRoundTrip` | src/storage.cpp:151-193 | for every record in range, reading its written line gives back every field and the payload byte for byte if and only if channel, ticker, marker and a payload stored as text are well-formed UTF-8; otherwise the line is refused |
| `Records.LineIsOneLine` | src/storage.cpp:151-193 | the only line break of a written line is its last byte |
| `Records.SpoiledLine` | src/storage.cpp:233-241 | a written line with any bytes in front of it is refused |
| `Reader.FieldsDecoded` | src/storage.cpp:242-263 | any object in compact form is read as the record of its first members of the right names, kinds and ranges; absent ones are absent, zero or empty, text comes before base64, and the epoch is cut to 32 bits |
| `Records.Base64NeedsNoEscape` | src/storage.cpp:188-192 | writing base64 between plain quotes is writing it escaped |
| `Records.SourceRoundTrip` | src/storage.cpp:116-125 | source names are read back |
| `Writer.BuildLine` | src/storage.cpp:151-193 | the texts the writer appends, in its order and under its conditions, make the line the reader is measured against |
| `RawLog.CrashTolerant` | src/storage.cpp:214-268 | any byte prefix of the file written for any records reads back, in order, as exactly the readable records whose newline survived; each unreadable one and the cut line are counted as skipped |
| `RawLog.AnyFileRead` | src/storage.cpp:214-268 | whatever is in a file, its ended lines are read in order, refused ones counted as skipped, blank ones passed over uncounted, and an unended last line skipped and counted |
| `RawLog.LaxPayloadLost` | src/storage.cpp:233-241 | a record with an overlong or surrogate payload is written whole and skipped on reading |
| `RawLog.ReopenedLog` | src/storage.cpp:141-145 | for every parser that agrees with the reader on whole lines, a log cut anywhere and appended to reads back as the survivors, whatever the parser makes of the remnant joined to the first new line, and the other new records; without a remnant nothing is lost |
| `RawLog.ReopenedCut` | src/storage.cpp:141-145 | and so it does after a second cut at any byte: the merged line is one line among the others |
| `RawLog.FirstNewRecordLost` | src/storage.cpp:141-145 | with the reference reader exactly the first new record is lost, counted as one skipped line, if part of a cut line was left |
| `RawLog.SurvivorsExact` | src/storage.cpp:217-231 | the survivors are the largest number of whole lines that fit the prefix |
| `RawLog.RotationExact` | src/storage.cpp:144-199 | the segments in order hold exactly the lines written, a segment exceeds the limit only with a single line, and rotation happens only when the next line would not fit |
| `RawLog.RawLogReader.Collect` | src/storage.cpp:218-223 | the bytes up to the next newline or the end |
| `RawLog.RawLogReader.ReadNext` | src/storage.cpp:214-268 | blank, cut and undecodable lines are passed over and counted as the source counts them |
| `RawLog.RawLogWriter.Write` | src/storage.cpp:151-199 | one line appended, to a new segment when it would not fit |

## Left out

- Weak memory ordering in the ring and the gauge: steps are sequentially consistent; wrap-around of the ring's size_t tickets is not modelled.
- libcurl, OpenSSL, simdjson, sockets and files: signing, sending, receiving and JSON parsing are arbitrary outcomes or a reference reader; errors of fopen and fwrite and of the socket other than its end are not modelled.
- The floating-point token bucket and the doorbell of apps/tradingd.cpp: their answers and wake-ups are arbitrary.
- Latency probes, telemetry records and logging of apps/tradingd.cpp and src/request_executor.cpp.
- Shadow.ShadowEngine.Place: does not model the ledger's counters of orders placed and contracts quoted, because only the fill rate reads them.
- Shadow.ShadowEngine.OnTrade: does not model fees and markouts, which no other state depends on.
- Ledger family reports and fill rate.
- SimpleQuoter and the replay driver.
- Overflow of 32- and 64-bit prices, sizes, gauge sums and times; the audit callback of the registry.
- Shadow.ShadowEngine.Market: does not model tickers and families, by which the source finds a market registered before; a market is its index, and registering one is an event.
- Order-book checksum, depth views, best and implied prices; book_ref, which hands out a mutable book.
- The resync handler is always present; what it asks for is recorded in order.
- The exchange model has no unsubscribe-and-resubscribe of a market within one sid.
- Request classification, endpoint costs, path handling, error texts and the sleeping itself in the executor.
- The generator behind the backoff jitter: the draw is a parameter.
- RESP commands built on the reply reader (lists, publish, subscribe), partial socket writes, and reconnecting.
- Marker handling and decoding in replay, and the normalized-event writer.
- RawLog.RotationExact: does not model the bytes a reopened segment already holds, which the source does not count towards the limit.
- RawLog.ReopenedLog: does not say what the JSON library makes of a merged line, because an on-demand parser need not look at all of it; its answer is a parameter, and RawLog.FirstNewRecordLost takes the reference reader's.
- configuration, REST endpoints, gateway decoding, fixed-point and wire formats, probes, dashboards and Python tools.
