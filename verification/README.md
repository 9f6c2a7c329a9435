# Verified model of the order-book gateway

The gateway reads ITCH market data, keeps one limit order book per stock up to date event by
event, publishes best-bid/offer (BBO) updates over bounded queues that drop when full, and
keeps option books with a cache of implied volatilities and greeks. This project models those
five parts and proves what they promise on all inputs, runs and interleavings. The option part
is modelled as the library it is: the gateway's own writer never registers a contract, so in the
program as written it stays idle, which is proved too (`Behaviours.GatewaySendsNoOptions`).

The project has two layers. The *value* layer (`Levels`, `Books`, `Gateways`, `Protocol`,
`Wire`, `Channels`, `Publication`, `Options`, `Solvers`, `WriterSteps`, `Calendar`) gives every
operation its meaning as a function or a relation, usually in a simpler form than the code, and
carries the theorems. Its vocabulary is pinned to the events and the bytes themselves: what each
event does to a book (`Ledger.EventMoves`), where each field of a message or a frame lies
(`MessageLayouts`, `WireLayouts`), and what the solver is asked (`Options.SolverArguments`).
The *in-place* layer (`OrderBooks`, `ItchParser`, `Serialization`, `Broadcaster`, `Clients`,
`OptionChains`, `Writer`, `ImpliedVolatility`) has the classes, arrays and loops of the code;
each method's contract ties its new state to the value layer. `Publication` splits the work of
the two threads into single steps; `Behaviours` proves that the writer's and the broadcaster's
methods are chains of those steps.

Main results:

- **Refinement.** On every fresh feed (a new order never gets a live reference) and for every
  order in which the hash map of books may be scanned, the gateway represents a plain table
  `reference -> (stock, side, price, shares)`, stepped as the events themselves say, all along
  exactly when no live total of the table outgrows 64 bits: every level volume is a live total,
  and on positive feeds the published best prices are the extrema of the live prices
  (`Gateways.RefinesExactly`, `Gateways.VolumesAgree`, `Quotes.BestQuotesOfRun`).
- **Exact ledger.** On arbitrary events, reused references included, each volume is the live
  shares plus the shares orphaned by overwritten references, which are the sums of exactly the
  overwritten orders' shares, all along exactly when the shares of each event fit their level
  (`Gateways.LedgerExactly`); nothing clips and nothing wraps while fewer than 2^32 orders have
  been introduced (`Ledger.LedgerOfRun` for one book, `Gateways.RunIsAccounted` for all books).
- **Conservation** of shares over whole runs (`Conservation.SharesAreConserved`).
- **Loss is detectable** in every interleaving of writer and broadcaster: the bytes broadcast
  decode, and the gap between two numbers received for a stock is the number of its updates
  dropped in between (`Publication.LossIsDetectable`), and option messages are the snapshots
  that were taken, in order (`Publication.SnapshotsInOrder`). The same holds of the bytes the
  methods send, for what was really offered to the queues (`Behaviours.SentBytesAccount`).
- **Cache coherence** of option pricing over every run of manager operations, contracts
  registered by the caller included: a clean cache is the solver's result for the present quotes
  and spot at the time the book was last priced (`Options.RunIsCoherent`,
  `Options.CleanIsCurrent`), and every two-sided entry of a snapshot is fresh
  (`Options.SnapshotIsFresh`, `WriterSteps.UpdateIsSnapshotted`).
- **Two implementations of one book** hold the same market: the option book, which scans hash
  maps, and the stock's book, run in place on the same orders (`TwoBooks.RunBoth`).
- **Round trips** in both directions: packets with resynchronisation after a bad message
  (`Protocol.PacketRoundTrip`, `Protocol.BadFrameIsSkipped`) and the outgoing stream
  (`Wire.BatchDecodes`), with every byte position of both formats in numerals (`MessageLayouts`,
  `WireLayouts`).
- **Calendar** arithmetic against the Gregorian calendar (`Calendar.DateToUnixSecsIsCalendar`).

Properties that turned out not to hold everywhere are stated with the exact condition:

- The 64-bit volumes represent the live orders exactly while they fit: `Gateways.RefinesStep`
  for one event, and `Gateways.VolumesCanOverflow` is a feed that outgrows them.
- A level's `order_count` can exceed its live orders: `Counts.CountCanExceedLiveOrders` is a
  feed that shows it, and `Counts.CoverStep` says exactly which events do it (an execution or
  cancel of an order that has no shares, at a level whose count leaves no slack). Counts stay
  covered all along a fresh run exactly when no event does (`Counts.CoveredExactly`). On a
  positive fresh feed they always are, and they are exactly the live orders all along exactly
  when no order is reduced partially and no level ever has 2^32 live orders
  (`Counts.CountsOfRun`); `Counts.CountsCanWrap` is a feed on which one has.
- An atomic replace differs from a delete followed by an add exactly when it leaves nothing at
  an unchanged price (`Replacement.ReplaceIsDeleteThenAdd`); `Replacement.ReplaceCanDiffer` is a
  feed that shows it.
- An event crosses a book exactly when its price passes the opposite best
  (`Crossing.CrossingStep`), and on any run no book is ever crossed exactly when no event's
  price does (`Crossing.UncrossedExactly`); the gateway itself never prevents it, and
  `Crossing.FeedCanCross` is a two-event feed that does.
- Expiry dates before 1970 become enormous times (`Calendar.ExactFrom1970`), so such an expiry
  is seen as reached only at the far end of the 64-bit clock, beyond 2^63 seconds
  (`Calendar.MaturityIsReached`).
- More than 64 failing clients in one broadcast abort the process, and no fewer
  (`Clients.ClientList.BroadcastBytes`); there can be as many (`Clients.TooManyCanFail`).
- The writer prices, snapshots and publishes options only for registered contracts, and a
  contract is there exactly if it was registered (`Options.RegisteredExactly`). The gateway
  registers none, so its writer never prices an order, takes a snapshot or aborts on one, and
  no option message is ever sent (`WriterSteps.RunTakesNoSnapshot`,
  `Behaviours.GatewaySendsNoOptions`).
- Where a caller registers contracts, an option order keeps its chain's spot price exactly when
  it is not priced or the cut to whole ticks keeps that price (`WriterSteps.OrderKeepsSpot`);
  `OptionWitnesses.SpotCanMove` is a run on which it does not, however the cut rounds: a call
  quoted at what it would pay at once, which the solver always prices.
- There, too, a snapshot aborts exactly when more than 128 contracts of the chain are priced and
  quoted (`OptionChains.OptionChain.Collect`); `OptionWitnesses.ChainCanOverflow` is such a run,
  with 129 calls of different strikes quoted at their payoff.
- Once its expiry is reached a contract is no longer priced (`Solvers.ExpiredIsNotPriced`), but a
  snapshot still lists it, with its old result, exactly if it has one and is quoted on one side
  only (`Solvers.ExpiredIsListedStale`); `OptionWitnesses.StaleIsListed` is a run that does.

Conventions of the model: machine integers are bounded types, additions wrap around as in a
release build, and `saturating_sub` is `SatSub`. The clock, the outcome of each socket write,
the pricing solver and the cut of a spot price to whole ticks are parameters; where it matters,
the solver keeps to what the code's answers have in common on every input (`Solvers.IsSolver`):
nothing outside the code's domain, and always something at intrinsic value. Such solvers exist
(`Solvers.SolverExists`). An order of iteration over a hash map is a choice. Computed numbers are
reals where they are computed and eight opaque bytes where they are only carried. The event
semantics are those of sections 1.3 and 1.4 of Nasdaq TotalView-ITCH 5.0; the byte layout is the
repository's own.

## Model

| member | source | states |
|---|---|---|
| Levels.TopLevelsMeaning | src/orderbook/mod.rs:246-261 | the list of the n best levels is ranked best first, leaves out nothing better, and is the only such list |
| Books.ChangeDetection | src/orderbook/mod.rs:459-481 | an update is published iff the best bid and offer changed, it describes the new book and its first top levels match its bid and ask, and the detector's invariant is kept |
| Books.UpdateIsFaithful | src/orderbook/mod.rs:306-322 | an update carries the current BBO and the ten best levels of each side, the first of which are its bid and ask |
| Books.RunIsTracked | src/orderbook/mod.rs:325-481 | after any run on one book, folding the published updates gives the current BBO and they are numbered 0, 1, 2, ... modulo 2^64 |
| Ledger.EventMoves | src/orderbook/mod.rs:329-457 | in any book, read off the event itself: both adds rest the event's own side, price and shares, executions and cancels take at most the order's shares, a delete all of them, a replace keeps the side; no other level changes |
| Ledger.NeverClips | src/orderbook/mod.rs:184-203 | a live order's shares, plus all orphaned ones, are contained in its level, so the saturating subtraction never clips |
| Ledger.BalancedStep | src/orderbook/mod.rs:329-457 | an event keeps each level's volume equal to live plus orphaned shares iff the shares it brings in fit their level's 64 bits |
| Ledger.BoundedStep | src/orderbook/mod.rs:170-243 | after n introductions no volume exceeds n*(2^32-1) and no count exceeds n |
| Ledger.LedgerOfRun | src/orderbook/mod.rs:325-457 | the exact ledger and the bounds after every run of any events with fewer than 2^32 introductions |
| Ledger.OrphansAreNeverLost | src/orderbook/mod.rs:184-243 | after every such run a level holding orphaned shares exists, and no live order's shares exceed its level |
| Gateways.ScanIsRouted | src/orderbook/mod.rs:589-599 | where index and books agree, a step has exactly one outcome whatever the scan order: the one that routes through the index |
| Gateways.RunAgrees | src/orderbook/mod.rs:536-603 | on every fresh run, however large, the index holds exactly the live orders of the plain table, and each is in its own stock's book and no other |
| Gateways.StepsOneBook | src/orderbook/mod.rs:536-603 | any step, fresh or not, delivers the event to at most one book, the one the index names unless it is a delete |
| Gateways.OtherStocksAreUntouched | src/orderbook/mod.rs:536-603 | no event on a fresh feed changes another stock's book |
| Gateways.RefinesStep | src/orderbook/mod.rs:536-603 | one event on a fresh feed keeps index, books and ledger in step with the plain table, stepped as the event itself says, iff the table's live totals then fit in 64 bits |
| Gateways.RefinesExactly | src/orderbook/mod.rs:536-603 | every fresh run, in any scan order, represents the plain table run on the same events all along (the index agrees, each order is in one book, ledgers have no orphans) iff no live total outgrows 64 bits |
| Gateways.RunRefines | src/orderbook/mod.rs:536-603 | the final state of every fresh run whose live totals fit represents the plain table |
| Gateways.FewIntroductionsFit | src/orderbook/mod.rs:170-243 | on every feed with fewer than 2^32 introductions the live totals fit |
| Gateways.VolumesCanOverflow | src/orderbook/mod.rs:170-181 | a fresh feed of 2^32 + 2 full orders at one price whose live total does not fit |
| Gateways.LedgerExactly | src/orderbook/mod.rs:536-603 | on any events of any number, a stock's volumes are its live shares plus exactly the shares of the orders overwritten there, all along, iff each event's shares fit their level |
| Gateways.RunIsAccounted | src/orderbook/mod.rs:536-603 | with fewer than 2^32 introductions, on any events, that holds for every stock, with volumes and counts within the bounds |
| Gateways.OrphansStayOnRun | src/orderbook/mod.rs:184-243 | on every such run a level with orphaned shares exists, and a live order's shares fit in its level beside the orphaned ones |
| Gateways.VolumesAgree | src/orderbook/mod.rs:170-243 | the volume at every stock, side and price (0 when absent) is the sum of the live orders' shares there |
| Quotes.LevelsAreLivePrices | src/orderbook/mod.rs:170-243 | on a positive feed a level exists iff a live order rests at its price |
| Quotes.BestQuotesOfRun | src/orderbook/mod.rs:143-159 | after every fresh positive run whose live totals fit the BBO is the highest live bid and lowest live offer with their live totals, or zeros |
| Conservation.FlowsBalance | src/orderbook/mod.rs:329-457 | introduced minus executed, cancelled, deleted and replaced-away shares are the live shares |
| Conservation.StandingIsOutstanding | src/orderbook/mod.rs:170-243 | the level volumes of both sides of all books add up to the live shares |
| Conservation.SharesAreConserved | src/orderbook/mod.rs:329-457 | over every fresh run whose live totals fit, introduced shares are executed, cancelled, deleted, replaced away or standing in the levels |
| Counts.CoverStep | src/orderbook/mod.rs:184-203 | an event keeps every count within the live orders iff it does not retire a shareless order at a level without slack |
| Counts.CoveredExactly | src/orderbook/mod.rs:184-203 | on every fresh run, of any size, the counts stay within the live orders all along iff no event retires a shareless order at a level without slack |
| Counts.CountCanExceedLiveOrders | src/orderbook/mod.rs:346-377 | a two-event feed after which a level counts one order although none is live |
| Counts.ExactStep | src/orderbook/mod.rs:170-243 | on a positive, fresh feed an event keeps the counts exact iff it reduces no order partially and the live orders of each level can be counted in 32 bits |
| Counts.CountsOfRun | src/orderbook/mod.rs:170-243 | on every fresh positive run, of any size, counts never exceed live orders; they equal them all along iff nothing is reduced partially and no level ever has 2^32 live orders |
| Counts.CountsCanWrap | src/orderbook/mod.rs:170-181 | a fresh feed of 2^32 orders at one price, which 32 bits cannot count |
| Crossing.RemovalsNeverImprove | src/orderbook/mod.rs:184-203 | executions, cancels and deletes never raise the best bid or lower a non-empty best ask |
| Crossing.CrossingStep | src/orderbook/mod.rs:329-457 | an event leaves an uncrossed book uncrossed iff its price does not pass the opposite best |
| Crossing.UncrossedNext | src/orderbook/mod.rs:536-603 | any event, fresh or not and in any scan order, leaves all books uncrossed iff its price does not pass the opposite best in the book it reaches |
| Crossing.CheckIsSound | src/orderbook/mod.rs:58-60 | the crossed-book check accepts every uncrossed book, and is exact while no ask is priced zero |
| Crossing.UncrossedExactly | src/orderbook/mod.rs:536-603 | on any run no book is ever crossed iff no price passes the opposite best when it comes in |
| Crossing.RunIsConsistent | src/orderbook/mod.rs:620-622 | if no price passes the opposite best when it comes in, the consistency check holds after every event of any run; while nothing is offered at price zero, it holds after every event only then |
| Crossing.FeedCanCross | src/orderbook/mod.rs:536-547 | a two-event fresh feed the gateway takes as it comes, after which a book is crossed and the consistency check fails |
| Replacement.SideComparison | src/orderbook/mod.rs:206-243 | on one side, replacing gives the same prices and volumes as removing and adding iff something is left, overflow included |
| Replacement.ReplaceIsDeleteThenAdd | src/orderbook/mod.rs:423-454 | in any book a replace leaves the same orders, prices and volumes as delete then add iff it leaves something at its price |
| Replacement.AtomicReplace | src/orderbook/mod.rs:423-481 | a replace with shares that fit ends with the same orders, volumes and BBO as delete then add, and publishes at most once and only if one of those does |
| Replacement.AtomicReplaceOnRun | src/orderbook/mod.rs:549-563 | the same through the gateway, index included, in every state of a fresh run; it publishes only if one of the two others does |
| Replacement.ReplaceCanDiffer | src/orderbook/mod.rs:206-225 | two feeds that end in the two forms and differ: the atomic one drops the level, the other leaves it without volume |
| Histories.RunIsTracked | src/orderbook/mod.rs:536-603 | on any run, for every stock, the published history folds to the current BBO and is numbered without gaps |
| OrderBooks.BookSide.BestSnapshot | src/orderbook/mod.rs:143-159 | the first level in the side's order, or zeros |
| OrderBooks.BookSide.Best | src/orderbook/mod.rs:162-167 | none iff the side is empty; otherwise a level of the side that no other level betters |
| OrderBooks.BookSide.AddOrder | src/orderbook/mod.rs:170-181 | adds to the level or creates it |
| OrderBooks.BookSide.RemoveShares | src/orderbook/mod.rs:184-192 | takes shares and one order off the level and drops it when empty |
| OrderBooks.BookSide.DeleteAllAtPrice | src/orderbook/mod.rs:195-203 | the same operation under the name used by deletes |
| OrderBooks.BookSide.ReplaceAtomically | src/orderbook/mod.rs:206-243 | one level updated in place, or one taken from and the other added to |
| OrderBooks.BookSide.TopN | src/orderbook/mod.rs:246-261 | the loop lists exactly the n best levels |
| OrderBooks.SingleOrderBook.constructor | src/orderbook/mod.rs:276-286 | an empty book with the zero snapshot |
| OrderBooks.SingleOrderBook.SnapshotBbo | src/orderbook/mod.rs:294-303 | the BBO of the book's levels |
| OrderBooks.SingleOrderBook.CreateBboUpdate | src/orderbook/mod.rs:306-322 | the update for the present book; the number is taken and advanced |
| OrderBooks.SingleOrderBook.InsertOrder | src/orderbook/mod.rs:330-357 | records the order, overwriting a record under its reference, and adds its shares to its level |
| OrderBooks.SingleOrderBook.DeleteOrder | src/orderbook/mod.rs:413-421 | forgets the order and takes its shares off its level, and reports whether it was there |
| OrderBooks.SingleOrderBook.ReplaceOrder | src/orderbook/mod.rs:423-454 | replaces the order under its new reference on the same side, and reports whether it was there |
| OrderBooks.SingleOrderBook.PublishIfChanged | src/orderbook/mod.rs:459-481 | skipping the comparison when nothing was touched publishes exactly what comparing would |
| OrderBooks.SingleOrderBook.TakeFromOrder | src/orderbook/mod.rs:359-411 | takes at most the order's shares, forgets it when none are left, and reports whether a level was touched |
| OrderBooks.SingleOrderBook.ApplyEvent | src/orderbook/mod.rs:325-481 | the in-place step, which skips the comparison when nothing was touched, equals the step that always compares |
| OrderBooks.SingleOrderBook.IsConsistent | src/orderbook/mod.rs:505-507 | the book's BBO is not crossed |
| OrderBooks.OrderBook.GetOrCreate | src/orderbook/mod.rs:524-528 | the stock's book, created empty when it is not there, others unchanged |
| OrderBooks.OrderBook.DeleteFromSomeBook | src/orderbook/mod.rs:589-599 | the scan hands the delete to one of the books that hold the order, or to none if none does |
| OrderBooks.OrderBook.ReplaceRouted | src/orderbook/mod.rs:549-563 | the index moves from the old to the new reference and the event goes to the routed book |
| OrderBooks.OrderBook.ReduceRouted | src/orderbook/mod.rs:565-587 | the routed book takes the event, and the reference leaves the index when no shares remain |
| OrderBooks.OrderBook.ApplyEvent | src/orderbook/mod.rs:536-603 | every event makes one of the gateway's steps on the in-memory books and index |
| OrderBooks.OrderBook.AllConsistent | src/orderbook/mod.rs:620-622 | true iff no book is crossed |
| Protocol.AcceptsExactly | src/protocol/mod.rs:121-144 | a message parses iff its type byte is one of nine given, it has that type's number of bytes, and for the two adds the side byte is 66 or 83 |
| Protocol.BodyRoundTrip | src/protocol/mod.rs:147-371 | parsing the encoded and padded body of an event gives the event |
| Protocol.ParsedIsEncodable | src/protocol/mod.rs:121-371 | every event the parser returns has a 48-bit timestamp and 32-bit price and survives encoding and parsing |
| Protocol.FramesParseInTurn | src/protocol/mod.rs:374-392 | complete frames in a row are parsed one by one whatever they hold, then what follows |
| Protocol.PacketEnds | src/protocol/mod.rs:374-392 | a packet yields nothing more iff it has no two length bytes, a length below 2, or one longer than what is left |
| Protocol.PacketRoundTrip | src/protocol/mod.rs:374-392 | parsing the frames of any encodable events gives exactly those events |
| Protocol.BadFrameIsSkipped | src/protocol/mod.rs:374-392 | a framed message that does not parse costs one error and changes nothing else |
| MessageLayouts.AddOrderLayout | src/protocol/mod.rs:147-192 | type 65, 35 bytes: timestamp, reference, side (66 a buy, 83 a sell), shares, stock and price are the big-endian values of bytes 3-8, 9-16, 17, 18-21, 22-29 and 30-33 |
| MessageLayouts.AddOrderMpidLayout | src/protocol/mod.rs:147-192 | type 70, 39 bytes: the same, and the participant in bytes 34-37 |
| MessageLayouts.OrderExecutedLayout | src/protocol/mod.rs:195-235 | type 69, 29 bytes: reference, shares and match number in bytes 9-16, 17-20 and 21-28 |
| MessageLayouts.OrderExecutedPriceLayout | src/protocol/mod.rs:195-235 | type 67, 34 bytes: also printable iff byte 29 is 89, and the price in bytes 30-33 |
| MessageLayouts.OrderCancelLayout | src/protocol/mod.rs:238-262 | type 88, 25 bytes: reference and shares in bytes 9-16 and 17-20 |
| MessageLayouts.OrderDeleteLayout | src/protocol/mod.rs:265-284 | type 68, 21 bytes: reference in bytes 9-16 |
| MessageLayouts.OrderReplaceLayout | src/protocol/mod.rs:287-315 | type 85, 37 bytes: both references, shares and price in bytes 9-16, 17-24, 25-28 and 29-32 |
| MessageLayouts.StockDirectoryLayout | src/protocol/mod.rs:318-350 | type 82, 42 bytes: stock, category, status, lot size, lots-only flag (89) and classification in bytes 9-16, 17, 18, 19-22, 23 and 24 |
| MessageLayouts.SystemEventLayout | src/protocol/mod.rs:353-371 | type 83, 14 bytes: event code in byte 9 |
| MessageLayouts.RejectedMessages | src/protocol/mod.rs:121-371 | the error of every other message: too short with the sizes expected and got, an unknown type, or an unknown side |
| Bytes.TwoBytes | src/protocol/mod.rs:161-163 | two bytes in either order as 0x100 times one and the other |
| Bytes.FourBytes | src/protocol/mod.rs:161-169 | four bytes in either order by their weights |
| Bytes.EightBytes | src/protocol/mod.rs:164-167 | eight bytes in either order as two words of four |
| ItchParser.Cursor.ReadBytes | src/protocol/mod.rs:161-169 | the big-endian value at the position, which moves past it; the callers show it never runs past the end |
| ItchParser.ParseAddOrder | src/protocol/mod.rs:147-192 | equals the field layout of both add messages, errors included |
| ItchParser.ParseOrderExecuted | src/protocol/mod.rs:195-235 | equals the field layout of both execution messages |
| ItchParser.ParseOrderCancel | src/protocol/mod.rs:238-262 | equals the field layout of a cancel |
| ItchParser.ParseOrderDelete | src/protocol/mod.rs:265-284 | equals the field layout of a delete |
| ItchParser.ParseOrderReplace | src/protocol/mod.rs:287-315 | equals the field layout of a replace |
| ItchParser.ParseStockDirectory | src/protocol/mod.rs:318-350 | equals the field layout of a directory message |
| ItchParser.ParseSystemEvent | src/protocol/mod.rs:353-371 | equals the field layout of a system event |
| ItchParser.Parse | src/protocol/mod.rs:121-144 | total on any bytes; equals the specification of a message |
| ItchParser.PacketReader.Next | src/protocol/mod.rs:374-392 | yields the next result of the packet and moves on, or ends for good |
| ItchParser.ConsumePacket | src/main.rs:277-291 | draining a packet gives its accepted events in order and the number of its errors |
| Wire.SpotFrameDecodes | src/network/tcp_broadcast.rs:181-193 | a spot frame followed by anything decodes to all fields of the update and its zero-padded top five levels |
| Wire.LevelFieldsAt | src/orderbook/mod.rs:104-117 | position i of the level list holds the i-th level's price and volume, or zeros |
| Wire.LengthNeverTruncates | src/options/mod.rs:693-698 | a chain within its capacity never overflows the 16-bit length |
| Wire.SnapshotFrameDecodes | src/options/mod.rs:697-714 | an option frame followed by anything decodes to its header and all contract fields |
| Wire.ContractsRoundTrip | src/options/mod.rs:657-689 | the 121-byte contract records decode to their fields |
| Wire.BatchDecodes | src/network/tcp_broadcast.rs:181-202 | any batch of updates and snapshots decodes to exactly those, alone or followed by more of the stream |
| WireLayouts.SpotLayout | src/orderbook/mod.rs:87-102 | an update is sent as 219 bytes: type 0, length 216, and stock, timestamp, number and the four quotes little-endian from bytes 3, 11, 19, 27, 35, 43 and 51 |
| WireLayouts.SpotLevelLayout | src/orderbook/mod.rs:104-117 | then the i-th bid and ask levels, price and volume or zeros, from bytes 59 and 139 in steps of 16 |
| WireLayouts.SnapshotLayout | src/options/mod.rs:697-707 | a snapshot is sent as 53 bytes (type 1, the length of the whole frame, underlying, spot quotes, timestamp and count from bytes 3, 11, 19, 27, 35, 43 and 51) and 121 per contract |
| WireLayouts.ContractInSnapshot | src/options/mod.rs:709-713 | the i-th contract's bytes lie 53 + 121 * i from the start of the frame |
| WireLayouts.ContractLayout | src/options/mod.rs:657-689 | expiry, strike, type, quotes, implied volatility, delta, gamma, vega, theta, rho and price at bytes 0, 4, 12, 13-44, 45, 53, 61, 69, 77, 85 and 93, then 20 zeros |
| WireLayouts.SameBytesSameContract | src/options/mod.rs:657-689 | equal bytes mean equal expiry, strike, type, quotes and all seven computed numbers |
| WireLayouts.SameBytesSameUpdate | src/orderbook/mod.rs:87-118 | equal frames mean equal stock, timestamp, number, quotes and carried levels |
| WireLayouts.BatchLayout | src/network/tcp_broadcast.rs:181-198 | the i-th update of a batch lies at byte 219 * i, and the snapshots follow the updates |
| Serialization.SerializeBbo | src/orderbook/mod.rs:87-118 | filling the buffer at a moving position gives the payload of the update |
| Serialization.PutLevels | src/orderbook/mod.rs:104-117 | the loop over five levels writes prices and volumes, zeros where there is no level |
| Serialization.SerializeContract | src/options/mod.rs:657-689 | 101 bytes of fields, the last 20 bytes left zero |
| Serialization.SerializeSnapshot | src/options/mod.rs:697-714 | appends exactly the frame of the snapshot |
| Serialization.SerializeBatch | src/network/tcp_broadcast.rs:179-198 | the buffer holds the frames of the updates, then those of the snapshots |
| Publication.BroadcastKeepsDecodable | src/network/tcp_broadcast.rs:179-205 | after a broadcast the whole stream still decodes, with the batch's messages at its end |
| Publication.SystemStepKeepsInv | src/network/tcp_broadcast.rs:161-214 | every step of either thread keeps order, decodability, numbering and drop accounting |
| Publication.StreamAccountsForLog | src/network/tcp_broadcast.rs:161-205 | what is decoded for a stock is a subsequence of what its book published, each number being the position there |
| Publication.LossIsDetectable | src/network/tcp_broadcast.rs:256-261 | in every interleaving the gap between two received numbers is the number of that stock's updates dropped in between |
| Publication.SnapshotsInOrder | src/network/tcp_broadcast.rs:169-198 | in every interleaving the option messages decoded are the snapshots the queue took, in order, up to some point |
| Publication.DropsAreReported | src/network/tcp_broadcast.rs:207-214 | for updates and for snapshots, reported plus counted plus being-counted drops are the items dropped, modulo 2^64 |
| Broadcaster.TcpBroadcastServer.EnqueueBbo | src/network/tcp_broadcast.rs:256-261 | queues the update, or counts it as dropped when the queue is full; nothing else changes |
| Broadcaster.TcpBroadcastServer.EnqueueOptionSnapshot | src/network/tcp_broadcast.rs:264-269 | the same for option snapshots |
| Broadcaster.TcpBroadcastServer.TakeBatch | src/network/tcp_broadcast.rs:162-167 | pops up to 64 of the oldest updates in order |
| Broadcaster.TcpBroadcastServer.TakeOptionBatch | src/network/tcp_broadcast.rs:169-174 | pops up to 16 of the oldest snapshots in order |
| Broadcaster.TcpBroadcastServer.BroadcastPass | src/network/tcp_broadcast.rs:161-214 | one pass sends bytes that decode to the oldest entries of both queues, and takes the drop counts only if it sent something |
| Clients.ClientList.BroadcastBytes | src/network/tcp_broadcast.rs:218-252 | aborts iff more than 64 writes were disconnected or failed otherwise; if not, each client stays as often as it is listed with a write that succeeded or would block |
| Clients.ClientList.RemoveAll | src/network/tcp_broadcast.rs:246-251 | swap-removing the failures from the last to the first stays in range and removes exactly them |
| Clients.KeptOrLost | src/network/tcp_broadcast.rs:225-244 | every client is either kept or one of the failures |
| Clients.KeptByOutcome | src/network/tcp_broadcast.rs:225-244 | a client stays as often as it is listed with a write that succeeded or would block |
| Clients.FailedByOutcome | src/network/tcp_broadcast.rs:225-244 | the removals are as many as the disconnected and otherwise failed writes |
| Clients.TooManyCanFail | src/network/tcp_broadcast.rs:15-15 | the client list can hold more clients than the list of removals, and they can all fail |
| Options.RunIsCoherent | src/options/mod.rs:310-348 | after any run of manager operations what a book has cached is the solver's result for the quotes and spot stored with it at the time the run last priced it, nothing before that, and in a clean book those are the present quotes and the chain's spot |
| Options.SolverArguments | src/options/mod.rs:310-329 | the solver is asked with (bid + ask) / 2 / 10000, the spot, strike / 10000, the rate, the seconds left over 31557600 (or 0) and the type |
| Options.CleanIsCurrent | src/options/mod.rs:310-348 | after any run a clean book's result is the solver's for those six arguments written out: its present quotes, the chain's spot, its strike, the manager's rate, the time left when the run last priced it, its type |
| Options.ChainOfRun | src/options/mod.rs:508-512 | after any run every chain carries its own underlying and the manager's rate |
| Options.FromIsCoherent | src/options/mod.rs:499-568 | the same from any coherent state |
| Options.ManagerStepCoherent | src/options/mod.rs:522-568 | every operation keeps every cache coherent with the time of its last pricing, as the operation changes that time |
| Options.ApplyOrderCoherent | src/options/mod.rs:533-568 | an option order, priced or not, keeps every cache coherent; only its own contract's time moves, to the order's time, iff it prices it |
| Options.ActionMoves | src/options/mod.rs:226-308 | read off the order: an add rests its own side, price and shares, a cancel takes at most the order's shares, a delete all of them; the cache becomes dirty exactly if a level was touched |
| Options.UpdateAllCoherent | src/options/mod.rs:401-420 | repricing makes this the time of the dirty books with both quotes and of no other, and keeps the chain coherent |
| Options.RefreshedBook | src/options/mod.rs:422-431 | an aggregate call prices every two-sided book at its spot and time, and leaves a one-sided book's result as it was |
| Options.SnapshotIsFresh | src/options/mod.rs:422-467 | each entry has its book's own contract and quotes; its result is the solver's for the six arguments written out if both quotes are there, else the old one; a contract is listed iff it has a quote and such a result |
| Options.RunListsExpiries | src/options/mod.rs:374-381 | after any run a chain's list of expiry dates is sorted, without repeats, and holds exactly the dates of its contracts |
| Options.PricedExactly | src/options/mod.rs:533-568 | an order yields a result iff its contract is registered, its chain knows a spot, both quotes are there after it and the solver answers; the order itself never moves the spot |
| Options.PricedResult | src/options/mod.rs:533-568 | in any state a manager can reach, an order's result is the solver's answer for its six arguments written out, with the spot and mid it was asked for, and none iff not registered, without spot, one-sided or unanswered |
| Options.RegisteredExactly | src/options/mod.rs:528-531 | after any run of manager operations a contract is there iff the run registered it |
| Options.RegisteredIsNew | src/options/mod.rs:374-381 | registering a contract, again too, starts it with an empty, unpriced, dirty book and leaves every other contract alone |
| TwoBooks.ApplyBoth | src/options/mod.rs:226-308 | one order on both books keeps their orders and levels equal, and an order that changes the best bid or offer leaves the option's cache dirty |
| TwoBooks.RunBoth | src/options/mod.rs:204-308 | any orders run in place on an option book and a stock's book with the same market leave the same orders and levels, and both report the same BBO |
| TwoBooks.RunNewBooks | src/options/mod.rs:174-308 | the same from two new books, with the two markets returned |
| OptionChains.OptionBook.Scan | src/options/mod.rs:194-201 | the scan of a hash map in any order finds the best level |
| OptionChains.OptionBook.BboSnapshot | src/options/mod.rs:204-214 | best prices and volumes, zeros for an empty side |
| OptionChains.OptionBook.AddOrder | src/options/mod.rs:226-261 | the order and its level, and the cache marked dirty |
| OptionChains.OptionBook.RemoveOrder | src/options/mod.rs:263-289 | takes at most the order's shares; dirty only if a level was touched |
| OptionChains.OptionBook.DeleteOrder | src/options/mod.rs:291-308 | removes the order and its shares; dirty only if it was there |
| OptionChains.OptionBook.Price | src/options/mod.rs:310-348 | without both quotes nothing changes; otherwise the cache holds the solver's result for its six arguments written out and is clean |
| OptionChains.OptionChain.RegisterContract | src/options/mod.rs:374-381 | a fresh, dirty book under the contract's key, and its expiry date in its place in the sorted list unless it is there |
| OptionChains.OptionChain.UpdateSpotPrice | src/options/mod.rs:383-391 | the new spot, and every book dirty |
| OptionChains.OptionChain.UpdateAll | src/options/mod.rs:401-420 | every dirty book repriced in any order, and the result of each that has one listed exactly once; nothing without a spot |
| OptionChains.OptionChain.AggregateSnapshot | src/options/mod.rs:422-467 | the refreshed chain and its snapshot, or an abort iff more than 128 books are priced and quoted |
| OptionChains.OptionChain.Collect | src/options/mod.rs:431-467 | lists each priced and quoted book exactly once in some order of the keys, none when there is none; aborts iff there are more than 128 |
| OptionChains.OptionChainManager.GetOrCreateChain | src/options/mod.rs:508-512 | the underlying's chain, created empty with the manager's rate |
| OptionChains.OptionChainManager.UpdateSpotPrice | src/options/mod.rs:522-526 | the chain's spot changes if there is one |
| OptionChains.OptionChainManager.RegisterContract | src/options/mod.rs:528-531 | the contract is registered with its underlying's chain |
| OptionChains.OptionChainManager.ApplyOptionOrderEvent | src/options/mod.rs:533-568 | the order reaches its contract if registered, and is priced when the chain knows a spot |
| OptionChains.OptionChainManager.AggregateSnapshot | src/options/mod.rs:518-520 | the snapshot, or the abort, of one underlying's chain through the manager, other chains unchanged |
| Calendar.JulianDayIsDayNumber | src/options/mod.rs:33-37 | the formula is the Gregorian day number up to a constant |
| Calendar.DateToUnixSecsIsCalendar | src/options/mod.rs:24-41 | on every valid date the result is 86400 times the calendar's day count since 1970, modulo 2^64 |
| Calendar.ExactFrom1970 | src/options/mod.rs:39-40 | the count is returned unwrapped iff the year is 1970 or later |
| Calendar.LaterDatesAreLater | src/options/mod.rs:24-41 | from 1970 on strictly increasing, consecutive days 86400 seconds apart |
| Calendar.MaturityIsReached | src/options/mod.rs:165-171 | whatever the clock says, no time is left iff midnight of the expiry has come, which for a day before 1970 is 2^64 seconds late |
| Calendar.YearsLeft | src/options/mod.rs:165-171 | the time left is the seconds to the expiry over 31557600, or zero |
| ImpliedVolatility.SolveImpliedVolatility | src/pricing/mod.rs:192-261 | no result out of domain, zero at intrinsic value, otherwise the outcome of the search |
| ImpliedVolatility.DomainMeaning | src/pricing/mod.rs:200-215 | for calls and puts: out of domain iff expired, not positive or more than 1e-8 below what it pays at once; at intrinsic value iff not more than 1e-8 above it |
| ImpliedVolatility.Search | src/pricing/mod.rs:217-260 | ends within 32 iterations; a result is the best volatility visited, in [1e-4, 10] and within tolerance; no result means nothing visited is |
| ImpliedVolatility.NewtonMeetsMarket | src/pricing/mod.rs:251-253 | a step goes to where the tangent of the price meets the market, or as far towards it as 1e-4 and 10 allow |
| ImpliedVolatility.SolveIvAndGreeks | src/pricing/mod.rs:263-284 | the greeks at the implied volatility: nothing outside the domain, volatility zero at intrinsic value, otherwise if anything one within the limits |
| Solvers.IntrinsicIsSolved | src/pricing/mod.rs:200-215 | a call before its expiry, quoted at what it would pay at once, always has a result |
| Solvers.ExpiredIsNotPriced | src/options/mod.rs:310-348 | once its expiry is reached (as `Calendar.MaturityIsReached` has it), no order on a contract is priced, in any state a manager can reach |
| Solvers.ExpiredIsListedStale | src/options/mod.rs:422-451 | a snapshot taken after that lists the contract iff it is quoted on one side only and has an old result, which is the one listed |
| Writer.UpdateChains | src/main.rs:203-216 | an update with both quotes moves its chain's spot and returns the chain's snapshot, or its abort; other updates change and return nothing |
| Writer.ApplyMarketEvent | src/main.rs:188-219 | one event makes a market step: books, chains, both queues and both drop counters, with the snapshot it led to |
| Writer.ApplyMarketBatch | src/main.rs:188-222 | up to 1024 events in order, or up to the first abort, make a run of such steps from the state before to the state after |
| Writer.ApplyOptionEvent | src/main.rs:226-251 | one option order makes an option step: the order, and if it was priced the snapshot of its chain offered to the option queue |
| Writer.ApplyOptionBatch | src/main.rs:224-255 | up to 1024 option orders in order, or up to the first abort, make a run of such steps |
| WriterSteps.RunKeepsCoherent | src/main.rs:187-255 | every run of the writer keeps each cache coherent with the time its book was last priced, by an order or by a snapshot |
| WriterSteps.UpdateIsSnapshotted | src/main.rs:194-219 | a two-sided update of a stock whose chain the manager holds leaves the chain at its mid price; the snapshot has the update's quotes and timestamp, fresh entries, and exactly the contracts with a quote and a result |
| WriterSteps.OrderIsSnapshotted | src/main.rs:226-251 | where contracts are registered, an order that is priced leaves its chain at its spot cut to ticks, and the snapshot is fresh at that spot with exactly the contracts that have a quote and a result |
| WriterSteps.EntryOnWire | src/options/mod.rs:657-689 | each computed number of a snapshot entry, the quotes, expiry, strike and type are sent in their own places |
| WriterSteps.OrderKeepsSpot | src/main.rs:226-251 | in any state a manager can reach, an option order keeps its chain's spot iff it is not priced or the cut keeps that spot; otherwise the spot becomes the one cut |
| WriterSteps.RunTakesNoSnapshot | src/main.rs:179-255 | a writer started without contracts, as the gateway starts it, never has any, takes no snapshot and never aborts on one |
| Behaviours.InputIsSteps | src/main.rs:188-251 | one input of the writer is an Apply, an OfferSnapshot iff there is one, and after each a counted drop iff its queue was full, in the state machine of `Publication` |
| Behaviours.PassIsSteps | src/network/tcp_broadcast.rs:161-214 | one pass of the broadcaster is its pops, then a broadcast and the two reports unless nothing was taken, with the same bytes and drop counts |
| Behaviours.RunIsBehaviour | src/main.rs:187-262 | every run of inputs and passes is a behaviour of that state machine with the same items offered, bytes sent and drops reported |
| Behaviours.RunKeepsCapacity | src/main.rs:187-262 | on every such run no queued snapshot outgrows its frame, so a pass may be made at any time |
| Behaviours.SentBytesAccount | src/network/tcp_broadcast.rs:161-269 | the bytes the methods send decode; for every stock a log of exactly the published updates explains every gap in its numbers, the option messages are the offered snapshots less the dropped ones in order, and both logs have as many drops as were reported or are still counted |
| Behaviours.GatewaySendsNoOptions | src/main.rs:179-262 | from the empty manager the gateway starts with, no option message is ever sent and no snapshot ever aborts |
| OptionWitnesses.OrderCanBePriced | src/options/mod.rs:533-568 | a run that registers a call at 100 ticks, sets a spot of 200.5 ticks and bids 100, after which an offer at 101 is priced at any time before the expiry |
| OptionWitnesses.SpotCanMove | src/main.rs:236-245 | that offer moves the chain's spot, whatever the cut |
| OptionWitnesses.StaleIsListed | src/options/mod.rs:422-451 | the bid is withdrawn, and every snapshot from the expiry on still lists the contract with the result it had before |
| OptionWitnesses.ChainCanOverflow | src/options/mod.rs:431-451 | a run that registers calls at 1 to 129 ticks and quotes each at its payoff at 1000, after which the chain's snapshot aborts, at any time before their expiry |

## Left out

- Sockets, multicast membership, the accept loop, timeouts and partial writes: input and output.
- Per-client delivery: only the broadcast bytes and the client list are modelled.
- Threads, command line, logging, statistics, shutdown and the test-data generator: plumbing.
- The pipeline's queues other than the two of the broadcaster: thin wrappers over a library queue.
- Floating-point rounding and NaN, and the Black-Scholes formulas: computed numbers are reals, price, vega and greeks are arbitrary functions, and so is the solver but for what `Solvers.IsSolver` says of it where it is named.
- The rounding of `(spot_price * 10000.0) as u64`: how a spot is cut to whole ticks is an arbitrary function, so nothing is said of how far it moves.
- The `generation` counter of a book, which only appears in a debug message.
- `strikes_for_expiry` and the other readers of a chain: nothing in the gateway calls them.
- Callers of `register_contract`: the gateway has none outside its tests, so what is said of priced orders, caches and snapshots is about a manager whose caller registers contracts.
- The library sort of the expiry dates: a date pushed onto the sorted list moves to its place by insertion.
- Broadcaster.TcpBroadcastServer.BroadcastPass: one pass with the writer quiet; interleavings of single steps are the business of `Publication`.
- Behaviours.SentBytesAccount: whole inputs and whole passes alternate; finer interleavings are covered by `Publication.LossIsDetectable`.
- Publication.SnapshotsInOrder: option snapshots carry no number, so a subscriber cannot tell which were lost.
- Ledger.LedgerOfRun: fewer than 2^32 introductions, as its bounds on volumes and counts need; so too `Gateways.RunIsAccounted` and `Gateways.OrphansStayOnRun`. The exact conditions without that bound are `Gateways.LedgerExactly` for volumes and `Counts.CountsOfRun` for counts.
- Sequence numbers, drop counters and volumes wrap as in a release build; a debug build would stop instead.
