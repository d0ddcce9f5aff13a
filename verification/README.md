# Verified model of the Japannext feed handler

The repository holds two implementations of one market-data pipeline. A Python
prototype (`jnxfeed`, with the viewer `jnxweb`) decodes ITCH messages carried by
SoupBinTCP, builds order books, keeps a trade tape, and serves GLIMPSE snapshots.
A C++ pipeline splits the same work over two processes: a feed handler that
publishes one UPDATE record a message, and a database that folds those records
into tables and gives them back to a handler that restarts.

The project models both and proves, for all inputs and all runs:

- **Replication.** Handler, link and database are one step system with crashes,
  partial writes, lost connections, recovery, reconnects and resynchronisation.
  In every run the database is inside an open bracket, empty, or equal to the
  fold of the exchange stream up to its own sequence number, and each row shows
  its ticker's book at that position; a handler rebuilt from it is the handler
  that never crashed; and the exact streams on which this fails, for orders and
  for trade totals, are characterised.
- **Books.** Incrementally kept levels equal the sums over live orders, with the
  exact condition on messages, for the Python and the C++ store.
- **Snapshots.** A market filled from a snapshot matches the one that replayed
  everything, message by message, with the exact condition, and what it fills a
  C++ handler with is the GLIMPSE start the replication runs allow.
- **Sessions and framing.** Over bytes split anywhere and connections lost
  anywhere, a SoupBinTCP client delivers each message exactly once, and every
  framer's output depends only on the bytes.
- **Closed forms.** What the folds come to, said of the input alone: the trade
  statistics of each ticker and of each database row as sums over its fills, the
  rows and rings of the database and of the viewer's cache over any records and
  events, the executions and trades of the prototype, and both sets of reference
  data.
- **Codecs, reassembly, viewer.** Round trips of ITCH messages, sequence fields,
  database dumps and WebSocket frames; TCP reassembly over 32-bit wrap-around;
  snapshot merging and gap accounting in the viewer's cache; conservation of
  quantity and the closed form of the short-sell uptick flag.

`dafny verify dfyconfig.toml` verifies everything. Nothing in the project runs the
original program.

## How the model is laid out

| file | models |
|---|---|
| Orders, BookModel, OrderBook | ITCH messages, the live-order table, the Python book builder as functions and as a class |
| CppBook, BookRows | the C++ book store, and what a row's book section must show |
| Records, Database, Tables | database records, tables as functions and as classes, the dump |
| TapeRing | rows, rings, position and counters of the database in closed form |
| Feed, FeedHandler, Recovery | the C++ market, its UPDATE records and sync dump, restart from a dump |
| Replication, Regularity, ReplicationProof, ReplicationExact | the step system, its invariant, safety, and the exact conditions |
| Fills | trade statistics as sums over the fills of the stream |
| SnapshotBoot | the prototype's snapshot as the start of a C++ handler |
| Tape, MarketModel, Prototype | the Python tape, market, snapshot and tick tables, as functions and as classes |
| Executions, RefData | executions, trades and reference data in closed form |
| Framing, Decimal, Soup, SoupSession | framers, sequence fields, SoupBinTCP packets, client session and its runs |
| Tcp, ItchCodec, WebState, WebCache, WebSocket | reassembly, ITCH codec, viewer cache and its closed form, WebSocket frames |
| Sorting | walking a dictionary in key order |

Sockets, clocks, timers and random mask keys are parameters or nondeterministic
steps: a read delivers any prefix of what was sent, a write may be cut anywhere, a
connection may be lost at any moment. Integers are unbounded except where width
matters, and there it is written out: sequence fields modulo 2^64, TCP numbers
modulo 2^32, level quantities and trade counts of UPDATE rows modulo 2^32.

## Where the code does not keep a promise

Each of these is modelled as the code does it, with the exact condition proved.

- *Order number 0.* An F message with it is ignored by the C++ store but still
  goes out as an add (`cpp/market/market.cpp:22-169`), so the database stores an
  order the handler does not have; a live order with it is missing from a GLIMPSE
  snapshot (`jnxfeed/sim/exchange.py:363-368` sends it as a reference price).
  `ReplicationExact.ConsistentExact`: the database is consistent in every
  reachable state if and only if no such F occurs where order 0 is not already
  that very order and, when handlers start from snapshots, no order ever has
  number 0. `ReplicationExact.PhantomAdd` and `ReplicationExact.ZeroInSnapshot` give
  an input each.
- *Trade totals* are lost by a resync for a ticker whose group no instrument and
  no live order tells (`cpp/fh/publish.cpp:284-307`), and by a handler that starts
  from a snapshot. `ReplicationExact.TotalsExact`: every market rebuilt from every
  reachable database has the uninterrupted totals if and only if, at every
  position, the group of each traded ticker can be told and nothing has traded
  where handlers start from snapshots. `ReplicationExact.UnknownTicker` and
  `ReplicationExact.ForgottenTrade` give an input each.
- *An order number used again in another book* takes the first book's order away,
  but only the second book's row is published (`cpp/fh/publish.cpp:43-194`).
  `ReplicationExact.SectionsExact`: every row of every reachable database shows its
  book if and only if no message inserts over a number live in another book.
  `ReplicationExact.CrossedBooks` gives an input.
- *A zero quantity* can make `_SideLevels.remove` raise although its documentation
  says levels never go negative. `BookModel.ApplyExact` and `BookModel.RunExact`
  give the condition, `BookModel.ZeroQuantityRaises` an input.
- *A replacement that takes order number 0* is legal for the Python store, but the
  snapshot re-emits the order as a reference price. `Snapshot.SnapshotSame`: the
  joiner equals the replaying market if and only if no live order has number 0.
- *A WebSocket frame that starts closing* (a fragment, a CLOSE, an opcode that is
  not served) leaves later frames buffered or handled depending on the reads and
  on when the reply was flushed. `WebSocket.ChunkingExact`: the frames taken are
  independent of reads and flushes if and only if no such frame is followed by
  anything.
  `WebSocket.CloseThenText` gives an input.
- *A 20-digit sequence field* above 2^64 wraps. `Decimal.ParseSeqField`: the value
  returned is the field's own if and only if it fits 64 bits.
  `Decimal.WrappedField` gives an input.
- *A restarted or late market* does not know the uptick flag, and a restart takes a
  reference price of 0 for none (`cpp/fh/recover.cpp:93-98`).
  `ReplicationProof.RecoveredFlag`, `Uptick.JoinAgrees` and
  `Snapshot.JoinerUptick` say exactly when it agrees again;
  `ReplicationExact.ZeroReference` gives an input.
- The Python reference data keep the first group they see; the C++ ones also
  replace a blank group. Each model follows its own code.

## Model

| member | source | states |
|---|---|---|
| ReplicationProof.StepInv | cpp/fh/jnxfh_main.cpp:152-301 | every step of handler, link and database keeps the replication invariant |
| ReplicationProof.RunInv | cpp/fh/jnxfh_main.cpp:72-106 | the invariant holds in every state of every run |
| ReplicationProof.Safety | cpp/db/ingest.cpp:99-287 | on sound streams, in every run, the database is in an open bracket, empty, or the fold of the stream up to its own sequence; a bracket is open only on a live connection; no update is dropped as a duplicate; the handler's market is the uninterrupted one |
| ReplicationProof.Converges | cpp/fh/jnxfh_main.cpp:89-106 | once a connected handler's records are read, the tables are the fold of everything the handler applied, in its epoch |
| ReplicationProof.CrashRecovery | cpp/fh/recover.cpp:136-159 | a handler killed anywhere and rebuilt from the tables has the orders, level quantities and level counts of the uninterrupted one; its instruments, where no state is '?', less what no record can carry; and its trade totals on exactly the streams TotalsExact names |
| ReplicationProof.RowsShown | cpp/fh/publish.cpp:117-146 | on the streams SectionsExact names, in every run, GLIMPSE starts included, every row outside a bracket shows its ticker's ten best levels with quantities and counts and the side totals at the database's position, under the ticker's group; every live order's ticker has a row; and where no state is '?' each row tells its instrument's states and reference price, and no ticker whose group can be told lacks one |
| ReplicationProof.RowsStep | cpp/db/tables.cpp:52-134 | one update keeps keys, instruments, book sections and trade totals of all rows equal to the fold's |
| ReplicationProof.RecoveredFlag | cpp/market/market.cpp:171-221 | a handler rebuilt anywhere in a run, then fed any messages, agrees on any ticker's uptick flag if and only if a print moved from the print before it, or the first print left both markets the same flag, or, with no print, the flag was down |
| ReplicationProof.ReloadedFlag | cpp/fh/recover.cpp:73-115 | where totals survive, the recovered flag is that of the uninterrupted market with its flags down and its zero reference prices gone |
| ReplicationProof.TradedFlag | cpp/market/tape.cpp:44-62 | for a ticker that had traded, the flag agrees if and only if it was down at the crash or the ticker has since printed at a new price |
| ReplicationProof.UntradedFlag | cpp/fh/recover.cpp:83-98 | for a ticker that had not, the flag agrees if and only if a later print moved, or the first print's base price was not a lost 0, or the print was at 0 |
| ReplicationProof.UpdateSafe | cpp/db/tables.cpp:52-134 | an update read by a caught-up database moves it to the next position of the stream |
| ReplicationProof.FullSyncSafe | cpp/fh/jnxfh_main.cpp:71-86 | RESET and a bracketed dump, cut at any record, never leave wrong tables visible, and whole leave the handler's own |
| ReplicationProof.DumpTables | cpp/fh/publish.cpp:198-336 | tables read from a dump are the dumping handler's market |
| ReplicationProof.SentSafe | cpp/fh/publish.cpp:400-420 | a write cut anywhere leaves a safe queue and a closed link |
| ReplicationProof.ReconnectStep | cpp/fh/jnxfh_main.cpp:89-106 | a reconnect resumes on an exact match of position and otherwise rebases, keeping the invariant |
| ReplicationProof.BootRecoverStep | cpp/fh/jnxfh_main.cpp:164-215 | a restart from a dump resumes at the tables' position with the invariant |
| ReplicationProof.BootColdStep | cpp/fh/jnxfh_main.cpp:164-215 | a cold start that resynchronises the database keeps the invariant |
| ReplicationProof.DeliverStep | cpp/fh/jnxfh_main.cpp:247-289 | applying and publishing one payload keeps the invariant |
| ReplicationExact.ConsistentExact | cpp/market/market.cpp:22-169 | every reachable database is consistent if and only if no harmful F with number 0 occurs and, where handlers start from snapshots, no order ever has number 0 |
| ReplicationExact.PhantomAdd | cpp/market/market.cpp:22-169 | one F message with number 0 on which the database stores an order the handler does not have |
| ReplicationExact.ZeroInSnapshot | cpp/fh/jnxfh_main.cpp:188-215 | an input with a replacement to number 0 on which a snapshot start leaves a wrong database |
| ReplicationExact.SectionsExact | cpp/market/orders.cpp:17-162 | every row of every reachable database shows its book if and only if no message inserts over a number that is live in another book |
| ReplicationExact.CrossedBooks | cpp/market/orders.cpp:17-162 | an input of two adds with one number after which the first book's row is stale |
| ReplicationExact.TotalsExact | cpp/fh/publish.cpp:261-309 | trade totals survive every crash, resync and restart if and only if at every position the group of each traded ticker can be told, and nothing has traded where handlers start from snapshots |
| ReplicationExact.UnknownTicker | cpp/fh/publish.cpp:284-307 | an input of one filled order and no directory message whose totals a resync loses |
| ReplicationExact.ForgottenTrade | cpp/fh/jnxfh_main.cpp:188-215 | an input with every group known whose totals a snapshot start loses |
| ReplicationExact.ZeroReference | cpp/fh/recover.cpp:93-98 | a reference price of 0, an order, a crash and a fill: the uninterrupted flag is up, the recovered one down |
| ReplicationExact.GlimpseRun | cpp/fh/jnxfh_main.cpp:188-215 | every cut has a run in which a handler starts from its snapshot and the database ends with exactly that market |
| SnapshotBoot.SnapshotBoots | jnxfeed/sim/exchange.py:313-369 | a C++ market fed the prototype's snapshot of any positive prefix holds every order but number 0, the same instruments with the same states and reference prices but for that order's, and no trades: the start the step system assumes |
| ReplicationExact.Progress | cpp/fh/jnxfh_main.cpp:247-289 | for every position some run brings the database there, so the safety results are not empty |
| Feed.DeltaExact | cpp/db/tables.cpp:136-188 | applying a record's delta equals the handler's own order step except exactly for a phantom |
| Feed.StepMirrors | cpp/market/orders.cpp:17-162 | two order tables that mirror each other still do after any message |
| Feed.MirrorsLevels | cpp/market/levels.cpp:6-33 | mirrored tables have equal level quantities and counts |
| Feed.ApplyMovesOrders | cpp/market/market.cpp:22-169 | the market moves its orders by the plain order step |
| Regularity.FoldGrouped | cpp/market/market.cpp:22-169 | with one non-blank group a ticker, every order and instrument of every fold belongs to its ticker's group |
| Regularity.InstsStep | cpp/market/market.cpp:22-169 | a recovered market that has the same instruments, but for states and a zero reference price no record can carry, still does after any message |
| Regularity.TotalsStep | cpp/market/market.cpp:22-169 | a recovered market with mirrored orders keeps the uninterrupted trade totals under any message |
| Regularity.KeyedUpdate | cpp/db/tables.cpp:69-109 | after a delivered update every row tells its instrument's directory flag, states and reference price |
| Regularity.ShowUpdate | cpp/db/tables.cpp:69-109 | after a delivered update every row, not only its own, shows the fold's book section |
| Regularity.TradeUpdate | cpp/db/tables.cpp:69-109 | after a delivered update every row has the fold's trade totals |
| Regularity.ShowDump | cpp/fh/publish.cpp:245-309 | rows of a resync dump show the fold's book sections, for any positive stream |
| Regularity.TradeDump | cpp/fh/publish.cpp:245-309 | rows of a resync dump have the fold's trade totals |
| Regularity.RecoveredInsts | cpp/market/market.cpp:171-221 | a handler rebuilt from the rows has exactly the uninterrupted instruments, with the states '?' and 0 as defaults and a reference price of 0 as none |
| Regularity.RecoveredTotals | cpp/market/market.cpp:171-221 | a handler rebuilt from the rows has the uninterrupted trade totals where every traded ticker's group can be told |
| Fills.StatsClosed | cpp/market/tape.cpp:6-42 | for every stream, position and ticker, statistics exist exactly where an E message met a live order of the ticker, and are the number of those fills, the sums of the clamped quantities and of price times quantity, and the last fill's price, quantity and match number |
| Fills.RowsTotal | cpp/fh/publish.cpp:148-164 | in every run, on the streams TotalsExact names, each row outside a bracket carries exactly those sums over its ticker's fills up to the database's position |
| CppBook.ApplyAgrees | cpp/market/orders.cpp:17-162 | a positive message keeps level quantities, order counts and side totals equal to the sums over live orders |
| CppBook.RunAgrees | cpp/market/levels.cpp:6-33 | so does every run, whatever collisions, clamps and orphans it has |
| CppBook.RestoreAgrees | cpp/market/orders.cpp:72-87 | so does a recovery that inserts each order once |
| CppBook.TopShows | cpp/fh/publish.cpp:117-146 | the first ten levels taken are exactly the ten best, with their quantities and counts |
| CppBook.ListTop | cpp/fh/publish.cpp:117-146 | the level loop lists the best-first prefix |
| CppBook.MakeSection | cpp/fh/publish.cpp:117-146 | the book section shows top levels, counts and whole-side totals of the live orders |
| FeedHandler.Market.Apply | cpp/market/market.cpp:22-169 | one message moves the market by its fold step, whose trade statistics, instruments and orders Fills.StatsClosed, RefData.CppInstrument and Feed.ApplyMovesOrders give in closed form, and reports the ticker, group and delta of the order before it changed |
| FeedHandler.Market.OnMessage | cpp/fh/publish.cpp:43-194 | the record built for any message is one the step system allows, with the publish number and time given and trigger E exactly for executions, and the clock alone builds none |
| FeedHandler.Market.MakeUpdate | cpp/fh/publish.cpp:43-194 | directory flag, states, reference price, last system event, book section, trade totals and remaining quantity of one record |
| FeedHandler.Market.RowFor | cpp/fh/publish.cpp:263-309 | a ticker has a dump row exactly when its group can be told from its instrument or, if blank there, from its smallest-numbered live order, and the row tells its market |
| FeedHandler.Market.DumpRows | cpp/fh/publish.cpp:245-309 | every ticker whose group can be told gets a row, and each row tells its ticker's market |
| FeedHandler.Market.EventRows | cpp/fh/publish.cpp:319-329 | one row of the blank ticker for each group with a system event, carrying that event |
| FeedHandler.Market.BuildSyncDump | cpp/fh/publish.cpp:198-336 | the dump is one the step system allows, each of its rows stamped with the handler's session, position and epoch, publish number 0 and no trigger, with the system-event rows |
| FeedHandler.Market.Recover | cpp/fh/recover.cpp:31-159 | the restart loop rebuilds a market the step system allows, with levels that agree |
| Recovery.RestoreDump | cpp/fh/recover.cpp:31-134 | restoring a dump of any tables gives their orders, instruments, groups, states, reference prices other than 0, and trade totals |
| Recovery.DumpedOrders | cpp/db/tables.cpp:281-315 | a dump lists each live order once, with its row |
| Database.TableStore.ApplyUpdate | cpp/db/tables.cpp:52-134 | duplicate rule, row replacement, tape push and delta, as the table function whose rows, ring and counters TapeRing.RowsHold and TapeRing.MetaHolds give over any records |
| TapeRing.RowsHold | cpp/db/tables.cpp:52-134 | over any records and resets, a key has a row exactly when an update of it was taken since the last reset; the row is the last one taken, field by field; and its tape is the last 50 taken updates of the key that an execution triggered, each with its time, price, quantity and match number |
| TapeRing.TicksHold | cpp/db/ingest.cpp:216-280 | over any records, each tick row is the size last sent for its table and start price since the last reset, and there are no others |
| TapeRing.MetaHolds | cpp/db/ingest.cpp:216-280 | over any records, the position is that of the last update taken outside a bracket or the last bracket closed, whichever is later, and the counters count updates taken and dropped, order and tick rows since the last reset, and brackets closed |
| TapeRing.GuardExact | cpp/db/tables.cpp:52-134 | after any records, an update is dropped if and only if it comes outside a bracket, one was taken since the last reset, and it is of the database's epoch and not beyond its sequence; a dropped one changes a counter and nothing else |
| TapeRing.LostBracket | cpp/db/ingest.cpp:120-142 | a connection lost inside a bracket leaves no row, order, tick row or position, and counts one discarded bracket; outside one it leaves everything |
| Database.TableStore.ResetAll | cpp/db/tables.cpp:206-217 | reset clears the rows and the position but not the sync counters |
| Database.TableStore.DumpState | cpp/db/tables.cpp:281-315 | the dump loops emit every row in key order inside a bracket |
| Database.IngestServer.HandleRecord | cpp/db/ingest.cpp:179-287 | each record kind has its effect on tables and bracket |
| Database.IngestServer.LoseConnection | cpp/db/ingest.cpp:120-142 | a lost connection inside a bracket wipes the half-written tables |
| Database.IngestServer.OnListenReady | cpp/db/ingest.cpp:99-118 | a new connection first drops the old one |
| TableDump.DumpRestores | cpp/db/tables.cpp:228-315 | a dump read into empty tables restores orders, ticks, position and every row but its tape |
| TableDump.DumpStable | cpp/db/tables.cpp:228-315 | dumping the restored tables gives the same records |
| TableModel.FinalOrders | cpp/db/ingest.cpp:216-280 | order rows install exactly the orders they name |
| Sorting.Walk | cpp/db/tables.cpp:281-315 | a dictionary walk visits every key, each once, in ascending order |
| Sorting.StringLessExact | cpp/db/tables.cpp:281-315 | tickers are in dictionary order: the first difference decides, and a prefix comes first |
| BookModel.ApplyExact | jnxfeed/book/orderbook.py:209-302 | one message raises nothing and keeps levels equal to the sums if and only if it is admissible |
| BookModel.RunExact | jnxfeed/book/orderbook.py:77-123 | over a run, levels equal the sums and nothing raises if and only if every message was admissible where it occurred |
| BookModel.PositiveRun | jnxfeed/book/orderbook.py:209-302 | positive quantities suffice, whatever collisions, clamps, orphans and self-replacements occur |
| BookModel.ZeroQuantityRaises | jnxfeed/book/orderbook.py:99-110 | an input with a zero quantity on which the level removal raises |
| BookModel.ApplyOrders | jnxfeed/book/orderbook.py:232-302 | a call that raises nothing moves the orders by the plain step |
| OrderBook.SideLevels.Add | jnxfeed/book/orderbook.py:91-97 | the price list stays ascending and in step with the dictionary, which gains the quantity |
| OrderBook.SideLevels.Remove | jnxfeed/book/orderbook.py:99-110 | the two raising cases, and the level dropped at exactly zero |
| OrderBook.OrderBookStore.Apply | jnxfeed/book/orderbook.py:209-302 | orders, levels, execution and every counter after each message type |
| OrderBook.OrderBookStore.Fill | jnxfeed/book/orderbook.py:254-284 | clamped execution, with its order of effects when the level removal raises; over runs Executions.RunTrades gives its result from the messages |
| Executions.RunTrades | jnxfeed/book/orderbook.py:254-284 | over every positive run, a message is answered with an execution exactly when it executes a live order, with that order's book, group, side and price, the smaller of the two quantities and the message's match number; and the trades are those executions in order, with clock and base price |
| OrderBook.OrderBookStore.Amend | jnxfeed/book/orderbook.py:293-302 | removal of the original, then insertion, either of which may raise |
| Bisect.Left | jnxfeed/book/refdata.py:79-79 | binary search returns the first index not below the key |
| Bisect.Right | jnxfeed/book/refdata.py:89-89 | binary search returns the first index above the key |
| Snapshot.SnapshotSame | jnxfeed/sim/exchange.py:313-369 | a fresh market fed the snapshot of any positive prefix raises nothing, trades nothing, and has the same orders, levels, instruments, tick rows and clock if and only if no live order has number 0 |
| Snapshot.JoinerMatches | jnxfeed/book/market.py:54-102 | after the cut the joiner matches the full replay in state and faults, and the full replay's trades are those before the cut followed by the joiner's |
| Snapshot.JoinerTape | jnxfeed/book/market.py:79-99 | the joiner's tape records exactly the trades after the cut |
| Snapshot.RunSame | jnxfeed/book/market.py:54-102 | markets that agree stay in agreement and answer every later message with the same execution |
| Snapshot.JoinerUptick | jnxfeed/book/tape.py:112-130 | when the joiner's uptick flag agrees with the full replay's, exactly |
| Snapshot.NumberZeroIsReachable | jnxfeed/book/orderbook.py:293-302 | a positive input that leaves a live order with number 0 |
| Snapshot.BlockBack | jnxfeed/sim/exchange.py:337-362 | an instrument's messages rebuild it, from nothing or over itself |
| Prototype.MarketState.Apply | jnxfeed/book/market.py:54-102 | routing of every message to reference data, store and tape |
| RefData.PyInstrument | jnxfeed/book/refdata.py:174-218 | over any messages, a book is known exactly when one creates it; its directory is the last R, its group that of the last R or else of its first mention, its states and reference price the last sent |
| RefData.PyRest | jnxfeed/book/refdata.py:174-218 | over any messages, clock, snapshot position, each tick row and the list of session events are the last or all of those sent |
| RefData.CppInstrument | cpp/market/refdata.cpp:36-92 | over any messages, an instrument exists exactly when one creates it and is described exactly when an R did; its group is the first that is not blank from the last R on, its states and reference price the last sent |
| Prototype.MarketState.BuildSnapshot | jnxfeed/sim/exchange.py:325-369 | the snapshot loops emit clock, tick rows, instruments and live orders |
| Prototype.TradeTape.Record | jnxfeed/book/tape.py:84-130 | one trade's effect on the bounded list, the totals and the book's statistics |
| MarketModel.Conservation | jnxfeed/book/orderbook.py:232-302 | inserted = live + executed + removed over every positive run, and executed = tape volume = sum of the books' volumes |
| MarketModel.RunTape | jnxfeed/book/market.py:79-99 | the tape is the record of the run's executions |
| MarketModel.RunParts | jnxfeed/book/market.py:54-102 | on positive quantities nothing raises, and store and reference data evolve as their own folds |
| TapeModel.TapeClosed | jnxfeed/book/tape.py:75-130 | each traded book's statistics are those of its own trades, and the list is the latest trades up to the bound |
| TapeModel.VolumesAddUp | jnxfeed/book/tape.py:100-110 | the books' volumes sum to the tape's |
| TapeModel.BookNotional | jnxfeed/book/tape.py:100-110 | every book's notional lies between the extreme prices of its own trades times its volume |
| TapeModel.LateTape | jnxfeed/book/tape.py:112-130 | a tape that missed earlier trades agrees on the flag exactly when a later trade moved or both agreed after the first |
| Uptick.UptickClosed | jnxfeed/book/tape.py:112-130 | the flag is up if and only if the last price change, in base price then trades, was a rise |
| Uptick.PricesAgree | jnxfeed/book/tape.py:112-130 | when two markets with different pasts and base prices that see the same prices agree on the flag, exactly |
| Uptick.JoinAgrees | jnxfeed/book/tape.py:112-130 | the same for the very same prints |
| Uptick.RecoveryAgrees | cpp/market/tape.cpp:44-62 | a recovered book agrees exactly when the flag was down or a price has moved since |
| TickTables.TickTable.Add | jnxfeed/book/refdata.py:78-84 | the lists stay aligned and ascending, and the row is written |
| TickTables.TickTable.TickSize | jnxfeed/book/refdata.py:86-92 | the size of the greatest start not above the price, or none |
| TickTables.Build | jnxfeed/book/refdata.py:78-84 | rows in any order with repeats leave the last size written for each start |
| TickTables.WrittenLast | jnxfeed/book/refdata.py:78-84 | that is, a start is present exactly when written, with its latest size |
| Framing.ChunkIndependent | cpp/wire/record.cpp:534-564 | a framer whose verdicts are final gives the same records, rest, bad count and corrupt flag however the bytes are split |
| Framing.DrainPrefix | cpp/wire/record.cpp:534-564 | any prefix of a stream of whole records yields a prefix of the records and keeps the start of the next |
| Framers.RecordChunks | cpp/wire/record.cpp:534-564 | records and corrupt flag depend only on the bytes, malformed ones included |
| Framers.TornRecords | cpp/wire/record.cpp:534-564 | a connection cut anywhere has delivered a prefix of the records and never looks corrupt |
| Framers.RecordFramed | cpp/wire/record.cpp:346-373 | a record is recognised whole whatever follows and waited for while incomplete |
| Framers.RecordsExact | cpp/wire/record.cpp:346-373 | whatever the bytes: they are the records taken, header and body one after the other, and then an incomplete record or, if the stream is dead, a header of wrong magic, version, kind or length |
| Framers.RecordFramer.Next | cpp/wire/record.cpp:541-564 | one record, or waiting, or the corrupt state with an emptied buffer |
| Framers.RecordFramer.FeedAndDrain | cpp/db/ingest.cpp:144-177 | the read loop takes exactly the records of the buffered bytes |
| Framers.SoupChunks | cpp/soup/soup.cpp:159-184 | packets and bad-frame count depend only on the bytes |
| Framers.SoupFramed | cpp/soup/soup.cpp:149-157 | a built packet is recognised whole whatever follows and waited for while incomplete |
| Framers.PacketsExact | cpp/soup/soup.cpp:159-184 | whatever the bytes: they are the packets taken, in order, with as many zero lengths between them as counted, and then an incomplete packet |
| Framers.SoupFramer.Next | cpp/soup/soup.cpp:163-184 | malformed prefixes are skipped and counted until a packet is whole |
| Decimal.ParseSeqField | cpp/soup/soup.cpp:51-68 | accepts exactly leading spaces then digits, and returns the value modulo 2^64, which is the value if and only if it fits |
| Decimal.SeqFieldRoundTrip | cpp/soup/soup.cpp:51-77 | every 64-bit number survives the 20-byte field, and no partial sum of the parser reaches 2^64 |
| Decimal.WrappedField | cpp/soup/soup.cpp:51-68 | the well-formed field of 2^64, whose parsed value is 0 |
| SoupWire.PacketRoundTrip | jnxfeed/soup/packets.py:146-328 | every packet the encoder accepts decodes to its canonical form, hence to itself if and only if its text has no blank edge |
| SoupWire.PacketFramed | jnxfeed/soup/packets.py:130-132 | every packet the encoder accepts is recognised whole, in canonical form, whatever follows and waited for while incomplete |
| SoupWire.DecodedFits | jnxfeed/soup/packets.py:224-328 | any packet the decoder accepts is one the encoder accepts, and it encodes to a frame that decodes to it again |
| SoupWire.LoginWire | jnxfeed/soup/packets.py:176-184 | where a login request has its fields: length, type, name and password at the left of theirs, session and number at the right |
| SoupWire.AcceptedWire | jnxfeed/soup/packets.py:146-151 | where a login acceptance has its fields: length, type, session and number at the right of theirs |
| SoupWire.FrameBuffer.Feed | jnxfeed/soup/packets.py:345-359 | every complete packet in order, or a raise if one does not decode |
| SoupClient.SoupSession.Restart | jnxfeed/soup/session.py:91-99 | reset keeps the resume point and clears framing and output |
| SoupClient.SoupSession.Begin | jnxfeed/soup/session.py:101-124 | start queues a login with the resume point or the caller's own, or raises and keeps the caller's |
| SoupClient.SoupSession.HandlePacket | jnxfeed/soup/session.py:140-163 | effect of each packet, sequence numbers counted by the client |
| SoupClient.HandleClosed | jnxfeed/soup/session.py:140-163 | over any packets, the phase is that of the last acceptance, rejection or end, the session the last accepted, and the next number that acceptance's plus the data packets since |
| SoupClient.SoupSession.Receive | jnxfeed/soup/session.py:134-138 | the receive loop handles every packet of the bytes |
| SoupRun.StepKeeps | jnxfeed/sim/exchange.py:215-255 | connects, logins, sends, reads of any size, early closes and losses keep the session invariant |
| SoupRun.ExactlyOnce | jnxfeed/soup/session.py:91-163 | in every run the delivered numbers are consecutive from the requested one, each with the stream's own message |
| SoupRun.EndMeansComplete | jnxfeed/soup/session.py:156-158 | end of session is reached only when everything was delivered |
| SoupRun.NeverRaises | jnxfeed/soup/session.py:101-138 | no read raises and no re-login overflows its fields |
| SoupRun.SessionAdopted | jnxfeed/soup/session.py:140-163 | in every run a live client has the server's session id, and its next login asks for that session at its next number |
| SoupRun.CanComplete | jnxfeed/sim/exchange.py:215-255 | from every state of every run the rest can still be delivered |
| Tcp.Reassemble | jnxfeed/pcapio.py:351-391 | the segment loop computes the segment fold, or raises where it does |
| Tcp.ReassemblyExact | jnxfeed/pcapio.py:351-391 | it returns exactly when no true segment skips ahead, and then each direction holds a contiguous slice of its stream, across wraps, SYN and FIN taking one number each |
| Tcp.WindowTight | jnxfeed/pcapio.py:374-391 | one position beyond the 2^31 window the verdict is wrong, on both sides |
| ItchCodec.MessageRoundTrip | jnxfeed/itch/codec.py:159-193 | for any schema, decoding an encoding drops trailing spaces and nothing else |
| ItchCodec.BufferRoundTrip | jnxfeed/itch/codec.py:101-156 | for any schema, encoding a decoding returns the very bytes |
| ItchCodec.DecodeExact | jnxfeed/itch/codec.py:101-156 | a buffer is accepted if and only if its type is known, its length exact and its text ASCII |
| BigEndian.PutOctet | jnxfeed/itch/codec.py:55-76 | each octet written is the number's digit of that weight in base 256, the most significant first |
| BigEndian.GetOctet | jnxfeed/itch/codec.py:55-76 | each octet read is that digit of the number returned |
| ItchCodec.LayoutLengths | jnxfeed/itch/schema.py:44-142 | each of the twelve layouts adds up to its listed length |
| WebModel.SameEpochMerge | jnxweb/state.py:95-150 | each ticker ends at the greatest position of its cached row and the snapshot's, none is lowered, nothing else appears, and a repeat merges nothing |
| WebModel.GapsAddUp | jnxweb/state.py:62-150 | for every feed of updates and snapshots, gaps plus updates are the numbers covered, last - first + 1 summed over the runs, a run ending at an epoch change, a number that does not grow or a newer snapshot |
| WebModel.CutRuns | jnxweb/state.py:62-93 | the runs are the live updates cut up, each of one epoch with growing numbers |
| WebState.State.Update | jnxweb/state.py:62-93 | restart, gap, row, trade ring and counters after one update, as the function whose rows, rings and counters WebCache.CacheHolds, WebCache.EpochHolds and WebModel.GapsAddUp give over any events |
| WebCache.CacheHolds | jnxweb/state.py:62-172 | for every list of updates and snapshots and every ticker: it is cached exactly when an event since the epoch last changed brought it; its row is the last live update's, unless a later snapshot row has a greater position, and then the first of the greatest; and its ring is the last 50 prints, live and seeded |
| WebCache.EpochHolds | jnxweb/state.py:62-113 | over any events, the epoch is that of the last event not discarded as stale, and restarts count its changes |
| WebState.State.MergeSnapshot | jnxweb/state.py:95-172 | epoch reconciliation and the row loop, with the number of rows merged |
| WebCache.MergedNewer | jnxweb/state.py:95-150 | the number a merge reports is that of the rows newer than the cache and all rows before them |
| WebCache.SnapshotCounts | jnxweb/state.py:95-150 | over any events, the snapshot counters count those looked at and the rows they brought |
| WebSocket.FrameRoundTrip | jnxweb/wsock.py:85-126 | a masked frame in any length encoding is read back whole whatever follows, and each proper prefix is waited for; FrameOctets says what is read without the encoder |
| WebSocket.FrameOctets | jnxweb/wsock.py:85-126 | of any bytes a frame is read from: final and opcode are the first octet's, its reserved bits are clear, the length is the one announced in 7, 16 or 64 bits, and every payload bit is the raw bit, flipped exactly where octet i modulo 4 of the key has it set |
| WebSocket.NoFrame | jnxweb/wsock.py:85-126 | bytes are refused exactly for a reserved bit or, once the length is there, a clear mask bit, and waited on only while header, key or announced payload is incomplete |
| WebSocket.MaskBits | jnxweb/wsock.py:124-125 | octet i of a masked text differs from the text's in exactly the bits that octet i modulo 4 of the key has set |
| WebSocket.MaskTwice | tools/ws_probe.py:46-63 | masking twice restores the payload; MaskBits says what masking once does |
| WebSocket.ChunkingExact | jnxweb/wsock.py:158-189 | the frames taken are independent of reads and flushes if and only if no frame that starts closing is followed by anything |
| WebSocket.SessionWhole | jnxweb/wsock.py:158-189 | a stream that ends cleanly gives the same frames, rest and verdict however it is read and flushed |
| WebSocket.CloseThenText | jnxweb/wsock.py:191-201 | an input, CLOSE then text, on which the frames taken depend on the reads |
| WebSocket.Client.OnReadable | jnxweb/wsock.py:158-189 | the loop of one read, with its three ways to stop and whether it started closing |
| WebSocket.Client.Converse | jnxweb/wsock.py:158-292 | reads and flushes delivered one after the other take exactly the frames of the session ChunkingExact is about, and end as it does |

## Left out

- FeedHandler.Market.MakeUpdate: does not model the directory texts, price limits, tick size and short-sell price of a record, because the database copies them unread.
- ReplicationExact.SectionsExact: asks for positive quantities, because the level store and the sums part on a zero quantity, and for one non-blank group a ticker, because rows of one ticker under two keys show different moments.
- ReplicationExact.TotalsExact: asks for one non-blank group a ticker, fewer than 2^32 trades a ticker, and no H message with state '?', the record's own mark for no instrument.
- ReplicationExact.ConsistentExact: leaves open an F message with number 0 and a blank group that repeats a live order 0 but for its group, because whether the record repeats it depends on the group each handler fills in.
- Database.IngestServer.HandleRecord: does not model the HELLO and GET_STATE replies, which change no table (GET_STATE answers with DumpState), nor bodies that fail to decode, which lose the connection as LoseConnection does.
- FeedHandler.Market.Recover: does not model the records' byte layout; the dump is a sequence of decoded records.
- Snapshot.SnapshotSame: covers prefixes with positive quantities; on others the replay itself may raise.
- Prototype.MarketState.Apply: keeps the tick rows in one dictionary, the parallel lists of a tick table being verified by TickTables.TickTable; does not model the per-type message counters or messages of unknown class.
- SoupRun.ExactlyOnce: assumes that names, passwords and session ids fit their fields and that numbers stay below 10^20, where the encoder raises.
- SoupWire.FrameBuffer.Feed: says nothing of the buffer after a raise, which the session discards with its reset.
- WebSocket.Client.OnReadable: leaves out what a frame's payload triggers, so a teardown caused by a full send buffer is not modelled.
- WebSocket.Client.Converse: a flush is all or nothing; partial sends and send errors are not modelled.
- The field layout of UPDATE, ORDER, TICK, HELLO and SYNC_END bodies: only their lengths are modelled.
- The short-sell price itself, VWAP and the text views: one-line arithmetic over modelled state.
- The T clock, nanosecond stamps, the collision flag and live tick rows in the comparison of handler and database: they are not replicated per ticker.
- Reactors, reconnect backoff, heartbeats and silence timers, multicast, HTTP, the query protocol, command-line views and capture-file headers: input and output.
- MoldUDP64 and the GLIMPSE client's own sequencing: covered only as a handler that starts from a snapshot at some position.
