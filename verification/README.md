# Order management engine: a verified model

The engine turns a venue's late, duplicated, reordered and contradictory order reports into
exact local accounting. This project models its core in Dafny and proves what the design
promises about it, over every input, every run and every interleaving:

- the order state machine and the store that applies one venue event to seven tables in one
  transaction;
- the lot ledger: FIFO selection, its posting, realized profit, and the two locks under which
  concurrent transactions post;
- the placement protocol against an unreliable venue, and reconciliation;
- the transactional outbox with its relay, the in-process bus, and the snapshot service's
  write, flush, checkpoint, publish chain;
- keyset pagination from the list query to the command line.

`dafny verify dfyconfig.toml` checks everything.

## Layout

| file | contents |
|---|---|
| `Prelude.dfy`, `Domain.dfy`, `TextOrder.dfy` | shared types, the order model, byte-wise text order |
| `Machine.dfy` | the state machine, the closed form of folding events, order independence |
| `Fifo.dfy`, `Ledger.dfy` | lot selection, ledger tables and postings, the ledger invariant |
| `AveragePrice.dfy` | the rounded running average |
| `Profit.dfy` | prices in the books, realized profit |
| `Store.dfy`, `StoreInvariant.dfy`, `StoreProof.dfy`, `StoreRuns.dfy` | the tables as a value, their invariant, its preservation, properties of runs |
| `Effects.dfy` | what each store operation leaves in the tables and what it refuses, column by column |
| `OrderStore.dfy` | the same operations as a class that updates its tables statement by statement |
| `Locking.dfy`, `LockKey.dfy` | interleaved transactions over the whole store, under row and advisory locks; the lock key's pre-image |
| `Placement.dfy`, `Absence.dfy` | placing orders with retries and crashes; when a local rejection means absence at the venue |
| `Reconcile.dfy` | the reconciliation pass |
| `Outbox.dfy`, `Relay.dfy`, `Bus.dfy` | the outbox protocol; the relay's loops over a table and the bus; the bus |
| `Announcing.dfy` | the outbox protocol over the store: publications against the audit log |
| `Snapshots.dfy` | the snapshot protocol |
| `Paging.dfy` | list query, page tokens, paging loop |

## How the code is modelled

- Decimals are exact for addition, subtraction and multiplication, so they are `real`. The
  only rounding is the division in the average price: the nearest multiple of 10^-16, halves
  away from zero.
- A table is a map or a sequence; an operation yields the tables its transaction commits, or
  an error and the tables as they were. `OrderStore.Tables` carries out the statements one by
  one and is proved equal to the functions of `Store` and `Ledger`; a failed transaction
  restores what it had written.
- Identity columns are row positions, except in `Outbox`, where ids are drawn before commit
  and an aborted writer leaves a gap.
- Generated IDs are parameters. An ID that is taken already takes the unique-violation path,
  so no freshness is assumed, except where a statement says so.
- Protocols are state machines over their atomic steps, with a run being any sequence of
  actions; actions that are not enabled do nothing. Crashes, lost replies, failed flushes and
  failed publications are actions or parameters.
- Clocks, the network and venue answers are parameters.

Where the code and its comments or documents differ, the model follows the code: an event for
a terminal order still contributes a fill; a fill without a status change still writes an
audit row; nothing keeps `filled_qty` below `qty`; a duplicate-ID answer from a venue counts
as unsettled.

Three promises do not hold as they are written, and are proved exactly as far as they do:

- The comment at `internal/domain/order/machine.go:71-76` and the specification
  (`docs/specs/manual-trading.md:105`) say that applying events is order-independent. When
  terminal reports contradict each other the first one to arrive wins.
  `Machine.OrderIndependentIff` gives the exact condition: the order is already terminal, or the
  terminal reports agree.
- The comment at `internal/service/order/order.go:189` says that no venue order can exist
  after a permanent refusal. Two runs of lawful venues show otherwise: an earlier attempt may
  have arrived although it looked ambiguous (`Absence.RejectedMayExistAtVenue`), and another
  call that found the pending row may submit it after the rejection
  (`Absence.RejectedMayComeToExist`). `Absence.RejectionIsRightIff` gives the guard: rejecting
  the row is right, in that no venue ever holds the order however the run goes on, if and only
  if every submit ever made under the ID was refused for good and no call under it is about to
  submit. Both are known before the rejection.
- The running average is meant to lie between the fill prices and to be close to their mean.
  Rounding to a unit of 10^-16 can break either, and a price that rounds to nothing stores no
  average (`AveragePrice.SubUnitPriceIsLost`). `AveragePrice.RangeIsKeptIff` and
  `AveragePrice.NearExactIff` give the exact conditions on the prices.

## Model

| member | source | states |
|---|---|---|
| `Machine.FoldClosedForm` | internal/domain/order/machine.go:78-121 | Folding any events: the fill is the largest of the start and every executing cumulative; the status is the first terminal one reported, else one of highest rank. |
| `Machine.ClosedFormUnique` | internal/domain/order/machine.go:14-27 | That closed form determines the state. |
| `Machine.StatusByName` | internal/domain/order/machine.go:14-27 | By status name: a fold ends in the first terminal status it started with or was told of; without one, in partially_filled if it started there or was told so, else in open likewise, else in pending. |
| `Machine.FillByName` | internal/domain/order/machine.go:93-98 | A fold's fill is the largest cumulative reported with a known status other than pending, or what it started with. |
| `Machine.DecisionByName` | internal/domain/order/machine.go:78-121 | Each part of a decision, by status name: where it goes, what fill it adds, whether it is a transition or an anomaly, and which of the three reasons it was dropped for. |
| `Machine.AgreeingOrdersConverge` | internal/domain/order/machine.go:78-121 | Any two arrangements of events whose terminal reports agree reach the same state. |
| `Machine.OrderIndependentIff` | internal/domain/order/machine.go:78-121 | Arrival order is irrelevant if and only if the order is already terminal or the terminal reports agree. |
| `Machine.AbsorbedIffDropped` | internal/domain/order/machine.go:78-121 | An event is dropped without a fill exactly when the state already reflects rank and cumulative. |
| `Machine.ReplayContributesNothing` | internal/domain/order/machine.go:78-121 | An event replayed after any traffic is dropped and carries no fill. |
| `TextOrder.LessIff` | internal/domain/ledger/ledger.go:55-61 | A text is less than another exactly when it is a proper prefix of it or has the smaller character where they first differ. |
| `Fifo.SortInPlace` | internal/domain/ledger/ledger.go:55-61 | The copied lots end a permutation of what they were in which no later one was opened earlier, or at the same time under a smaller ID. |
| `Fifo.Walk` | internal/domain/ledger/ledger.go:63-77 | The loop computes the recursive allocation over sorted lots, for any quantity. |
| `Fifo.Select` | internal/domain/ledger/ledger.go:54-78 | The answer is the allocation over a sorted permutation of the open lots, and with distinct IDs over the only one; if a lot is closed at all, every lot opened earlier, or at the same time under a smaller ID, is closed by all it held. |
| `Fifo.SelectsOldestFirst` | internal/domain/ledger/ledger.go:54-61 | That statement for any open lots with distinct IDs, whatever order they are listed in. |
| `Fifo.SelectionIgnoresListing` | internal/domain/ledger/ledger.go:54-61 | With distinct IDs the order in which open lots are listed does not matter. |
| `Fifo.AllocateIsClampedPrefixSums` | internal/domain/ledger/ledger.go:63-77 | Every lot gives up exactly the clamped difference of prefix sums; unmatched is max(0, sell - total held). |
| `Fifo.OlderLotsCloseFirst` | internal/domain/ledger/ledger.go:63-77 | A lot is touched only when every one before it in the walk is exhausted. |
| `Fifo.ClosuresArePrefix` | internal/domain/ledger/ledger.go:63-77 | The closures are a prefix of the open lots, all but the last of them whole; with an unmatched rest, all of them and all whole. |
| `Fifo.AllocationConserves` | internal/domain/ledger/ledger.go:63-77 | Closures plus unmatched equal the sell. |
| `Fifo.SellsCompose` | internal/domain/ledger/ledger.go:54-78 | Selling a, decrementing, then selling b closes from every lot, and leaves unmatched, what selling a + b does. |
| `Ledger.BuyPosts` | internal/adapters/postgres/ledger.go:76-92 | A buy appends one open lot for its whole quantity and nothing else; it fails only on a taken lot ID. |
| `Ledger.SellPosts` | internal/adapters/postgres/ledger.go:94-150 | A sell never fails: it closes its quantity from its own inventory, at its own price and time, records exactly the uncovered rest, and leaves all other sums alone. |
| `Ledger.SellClosesOldestFirst` | internal/adapters/postgres/queries/ledger.sql:11-15 | Of the closures a posted sell appends: if it closes any of a lot, every open lot of its inventory opened earlier, or at the same time under a smaller ID, is closed by all that remained of it. |
| `Ledger.PostKeepsValid` | internal/adapters/postgres/migrations/0004_ledger.sql:2-42 | Every posting keeps lot = remaining + closures, open iff remaining > 0, and all CHECK and UNIQUE constraints; these never fire. |
| `AveragePrice.RangeIsKeptIff` | internal/adapters/postgres/orders.go:241-255 | For 0 < lo <= hi: every history of positive quantities priced in [lo, hi] keeps its average in [lo, hi], stored iff some fill was priced, if and only if rounding lo does not go below lo and rounding hi not above hi. |
| `AveragePrice.AverageWithinPrices` | internal/adapters/postgres/orders.go:241-255 | Its half for one history, unpriced fills included. |
| `AveragePrice.GridRangeIsKept` | internal/adapters/postgres/orders.go:241-255 | Ranges between multiples of 10^-16 are kept. |
| `AveragePrice.NearExactIff` | internal/adapters/postgres/orders.go:241-255 | Every history priced from lo up keeps its average within the drift bound of the exact volume-weighted one if and only if lo is at least half a unit. |
| `AveragePrice.AverageNearExact` | internal/adapters/postgres/orders.go:251-254 | Its half for one history: with every fill priced at half a unit or more, the average is stored and within the drift bound. |
| `AveragePrice.DriftIsAtMost` | internal/adapters/postgres/orders.go:251-254 | The drift bound of n fills is at most n half units, and exactly n - 1 half units when the first price is on the grid. |
| `AveragePrice.UnpricedFillsDoNotWeigh` | internal/adapters/postgres/orders.go:239-250 | A fill without a price leaves the average; the first priced fill after such fills sets it to its own price. |
| `AveragePrice.RoundsHalvesAway` | internal/adapters/postgres/orders.go:251-254 | The division rounds to the nearest unit, and of two nearest to the one farther from zero. |
| `AveragePrice.SubUnitPriceIsLost` | internal/adapters/postgres/orders.go:368-373 | A first fill at a tenth of a unit stores no average, so that price's range is not kept. |
| `StoreProof.PersistWrites` | internal/adapters/postgres/orders.go:128-192 | What one persisted decision appends to every table, fill-ID conflict included, and the only ways it fails. |
| `StoreProof.PersistKeepsValid` | internal/adapters/postgres/orders.go:128-226 | A persisted decision keeps the whole cross-table invariant. |
| `Effects.ApplyEnters` | internal/adapters/postgres/orders.go:71-225 | What a successful apply leaves, in terms of the event's own fields: the order row, the audit row, the fill row with its price, fee and IDs or without them on a known fill ID, a buy's lot or a sell's closures, unmatched row and closing times, and the messages in order. |
| `Effects.ApplyRefuses` | internal/adapters/postgres/orders.go:71-135 | Which error a refused event gets: unknown order, unknown status, a fill at a negative price, a buy under a used lot ID, a venue order ID that another order of the venue has, the first of these that applies; otherwise it is applied. |
| `Effects.CreationEnters` | internal/adapters/postgres/orders.go:49-66 | A new order is stored as asked, pending and unfilled; one that exists is left alone; other sides and kinds are refused. |
| `Effects.CancelEnters` | internal/adapters/postgres/orders.go:258-270 | A cancel mark changes the update time and, if it is the first, the cancel time, and fails only for an unknown order. |
| `StoreRuns.EveryRunIsExact` | internal/adapters/postgres/orders.go:71-192 | In every reachable store: order fill = sum of its fills = lots opened, or closures plus unmatched; gap-free chained audit log that ends at the stored state and rises strictly; one order.updated per audit row and one order.filled per fill; one inventory per posting; every lot at the price and time of the fill that opened it, every closure at those of its sell. |
| `StoreRuns.RealizedProfit` | docs/specs/manual-trading.md:257-275 | In every run and inventory, the sum over closures of quantity times (sell price - lot cost) is what the sells brought in, less sales nothing was held for, less what the buys spent, plus the cost of what is still held. |
| `Profit.LotProfit` | docs/specs/manual-trading.md:257-275 | A lot earned what its closures took, less its quantity times its cost, plus what remains of it times its cost. |
| `StoreRuns.ApplyFailsIff` | internal/adapters/postgres/orders.go:71-113 | From a reachable store an event fails if and only if its order is unknown, its status is unknown, it brings a fill with a negative price or a taken lot ID, or its venue order ID belongs to another order. |
| `StoreRuns.ReplayChangesNothing` | internal/adapters/postgres/orders.go:87-126 | Re-applying an applied event at any later point of any run changes no row of any table. |
| `StoreRuns.HeldWritesNothing` | internal/adapters/postgres/orders.go:92-104 | An event whose state and venue order ID are already held writes nothing. |
| `StoreRuns.ApplySteps` | internal/adapters/postgres/orders.go:87-126 | An apply moves only its own order, as the state machine says, and adopts a venue order ID once. |
| `StoreRuns.RunKeepsIdentity` | internal/adapters/postgres/queries/orders.sql:29-52 | Orders are never deleted and their identity columns never change. |
| `StoreRuns.StateIsFold` | internal/adapters/postgres/orders.go:87-113 | A stored order is the fold of the events the run applied to it. |
| `StoreRuns.RunsConverge` | internal/adapters/postgres/orders.go:71-113 | Two runs that apply the same events to an order in different orders agree on status and fill when terminal reports agree. |
| `StoreRuns.NetPosition` | internal/adapters/postgres/ledger.go:76-129 | In every run and inventory, bought minus sold = held minus oversold. |
| `StoreRuns.FirstWritesWin` | internal/adapters/postgres/queries/orders.sql:29-52 | Over any run the first venue order ID and the first cancel timestamp of an order win. |
| `StoreRuns.EveryOversellIsAnnounced` | internal/adapters/postgres/ledger.go:122-128 | In every run each unmatched row has exactly one outbox message, in order, with its fill, inventory and quantity. |
| `StoreRuns.AuditLogIsShort` | internal/adapters/postgres/orders.go:128-142 | An order's audit log has at most three rows more than it has fills. |
| `StoreRuns.StoredAverageWithinPrices` | internal/adapters/postgres/orders.go:177-186 | In every store with exact books the stored column of an order whose fills are priced in a range that rounding does not leave lies in that range. |
| `StoreRuns.StoredAverageNearExact` | internal/adapters/postgres/orders.go:177-186 | In every store with exact books the stored column of an order whose fills are all priced at half a unit or more is within the drift bound of the exact mean. |
| `OrderStore.Tables.CreatePending` | internal/adapters/postgres/orders.go:49-66 | Inserts once; a known ID is a no-op that reports false. |
| `OrderStore.Tables.MarkCancelRequested` | internal/adapters/postgres/orders.go:258-270 | The first cancel timestamp wins; unknown orders are reported. |
| `OrderStore.Tables.ApplyEvent` | internal/adapters/postgres/orders.go:71-113 | Statement by statement equal to the specification, all or nothing, and keeps the invariant. |
| `OrderStore.Tables.AdoptVenueOrderId` | internal/adapters/postgres/orders.go:115-126 | Adopts a missing venue order ID or fails on the unique index. |
| `OrderStore.Tables.PersistDecision` | internal/adapters/postgres/orders.go:128-192 | The in-place writes equal the specification of a persisted decision. |
| `OrderStore.Tables.RecordFill` | internal/adapters/postgres/orders.go:144-175 | Fill row with conflict fallback, then its ledger posting. |
| `OrderStore.Tables.NextSeqNo` | internal/adapters/postgres/queries/orders.sql:54-61 | One past the order's largest audit sequence number. |
| `OrderStore.Tables.PostLedgerFill` | internal/adapters/postgres/ledger.go:48-74 | The in-place posting equals the ledger's specification. |
| `OrderStore.Tables.CloseLots` | internal/adapters/postgres/ledger.go:94-129 | The loop over closures equals the sell's specification. |
| `OrderStore.Tables.RecordClosure` | internal/adapters/postgres/ledger.go:131-150 | One closure row and one decrement. |
| `Locking.EveryScheduleIsSerial` | internal/adapters/postgres/orders.go:49-192 | Every interleaving of creates, cancel marks and apply transactions, crashes and colliding lock keys included, leaves the store (all tables) that executing the committed operations one by one in commit order leaves; what a transaction read under its locks is still current when it commits, that store satisfies the whole invariant, every committed operation succeeded in that serial run, and commits under one lock key follow its grants. |
| `Locking.EveryScheduleIsPriced` | internal/adapters/postgres/ledger.go:76-150 | Lot costs and closure prices agree with the fills under every interleaving too. |
| `Locking.CommitIsApply` | internal/adapters/postgres/orders.go:71-192 | What a transaction writes from the row, audit number and fill-ID conflict it read under the row lock, its decision and the lots it read is what the sequential store makes of its event, if these are still what is committed. |
| `Locking.NoFalseOversell` | internal/adapters/postgres/ledger.go:102-128 | Each committed apply opens the next serial store, and leaves unmatched exactly what the lots committed before it could not cover. |
| `Locking.SomeoneCanStep` | internal/adapters/postgres/orders.go:78-112 | Under every schedule, while a transaction is unfinished some transaction can step: no deadlock. |
| `Locking.StepsAreBounded` | internal/adapters/postgres/orders.go:71-113 | Under any schedule n transactions take at most 4n steps. |
| `LockKey.Feed` | internal/adapters/postgres/ledger.go:35-43 | The hashing loop feeds every field behind its big-endian length. |
| `LockKey.BigEndianRoundTrip` | internal/adapters/postgres/ledger.go:38-40 | A length below the word size is recovered from its bytes. |
| `LockKey.PreImageIsInjective` | internal/adapters/postgres/ledger.go:32-46 | Lists of fields shorter than 2^64 bytes share a pre-image only if they are equal. |
| `Placement.SubmitsAreBacked` | internal/service/order/order.go:144-179 | Whenever a call is about to submit, its row is stored under the identity it submits. |
| `Placement.CallGoesOn` | internal/service/order/order.go:104-182 | How a call goes on, by the request's and the row's own fields: defaults for a missing ID and bot; a new order is stored pending before it is submitted; an existing one is submitted again exactly if it was stored for the same request, is pending, has no venue order ID and the venue is configured; an answer ends the submits unless it is ambiguous. |
| `Placement.AckIsStored` | internal/service/order/order.go:115-124 | An acknowledgement moves its order to the acknowledged status if that is a later one, adopts the venue order ID if there was none, changes no fill and leaves one audit row, at the accepted time or else now; one the store refuses changes nothing. |
| `Placement.PlacedIsStored` | internal/service/order/order.go:95-130 | From any reachable state: a new order that its venue accepts is stored as asked with the status and venue order ID of the acknowledgement, and exists at the venue. |
| `Placement.RejectionIsStored` | internal/service/order/order.go:188-200 | A permanent refusal rejects the row locally with the refusal as its reason unless the order had ended; fill and venue order ID stay. |
| `Placement.AdvancedRowsAreNotSubmitted` | internal/service/order/order.go:144-182 | A call that read back an advanced row, or one with a venue order ID, never submits. |
| `Placement.SubmitsAgree` | internal/service/order/order.go:218-226 | All submits under one client order ID are for the same order, up to the venue symbol. |
| `Placement.AtMostOneInsert` | internal/service/order/order.go:155-163 | At most one call ever inserts an order. |
| `Placement.AtMostOneVenueOrder` | internal/ports/trading.go:14-18 | With venues that are idempotent in the client order ID, no ID ever has two venue orders. |
| `Absence.AbsentForGoodIff` | internal/service/order/order.go:95-216 | For every run with venues that have not taken what they refuse for good and have taken what they accept: no run that looks the same to the service has the order at its venue, now or however it goes on, if and only if every submit under the ID was refused for good, no call is about to submit it, and its row lets no later call submit it. |
| `Absence.RejectionIsRightIff` | internal/service/order/order.go:184-200 | The same for the state a local rejection leaves: absent for good if and only if, before it, every submit under the ID was refused for good and no call is about to submit. |
| `Absence.AbsenceIsCertainIff` | internal/service/order/order.go:184-216 | At one moment: no such run that looks the same has the order at its venue, if and only if every submit under the ID was refused for good. |
| `Absence.RejectedMayExistAtVenue` | internal/service/order/order.go:188-200 | A row rejected locally after a permanent refusal may be live at a lawful venue: an earlier attempt arrived but looked ambiguous, and so not every submit was refused. |
| `Absence.RejectedMayComeToExist` | internal/service/order/order.go:95-130 | A row rejected when every submit was refused may still come to be live: another call that read it as pending submits it next. |
| `Reconcile.ActiveIff` | internal/adapters/postgres/queries/orders.sql:9-12 | What a pass visits is what has not ended. |
| `Reconcile.ConsultedByName` | internal/service/reconcile/reconcile.go:174-249 | Which snapshot a visit uses: the last one listed for the order; else none for a pending order younger than two intervals or without a venue order ID; else the answer to a lookup by the stored keys, with our keys restored in it. |
| `Reconcile.VisitEnters` | internal/service/reconcile/reconcile.go:333-341 | What a visit leaves in the books, in terms of the snapshot's own fields: its status if later, its fill if larger, one audit row, one fill row of the difference at its average price, a buy's lot at that cost or a sell's closures at that price, all at its time, or now if it gave none. |
| `Reconcile.PassRepairs` | internal/service/reconcile/reconcile.go:138-249 | A completed pass applies each consulted snapshot to its own order as the state machine says; other rows, and other orders' audit rows, fills and messages, are untouched. |
| `Reconcile.RepairedMatchesIff` | internal/service/reconcile/reconcile.go:180-190 | A visited active order ends at the venue's status and fill if and only if the answer was at least as advanced. |
| `Reconcile.PassCatchesUp` | internal/service/reconcile/reconcile.go:138-172 | With advanced answers, prices not negative and IDs that do not clash, the pass completes and every consulted active order ends at the venue's status and fill. |
| `Reconcile.AmidPassHolds` | internal/service/reconcile/reconcile.go:138-249 | Whatever other committed operations run between its visits, a completed pass leaves a store that satisfies the invariant and still holds the status, fill and venue order ID of every answer it consulted. |
| `Reconcile.QuietPassIsPassed` | internal/service/reconcile/reconcile.go:138-172 | With nothing between its visits, that pass is the pass. |
| `Reconcile.SecondPassWritesNothing` | internal/service/reconcile/reconcile.go:138-249 | A second pass over the same answers on the same side of the grace time completes and writes nothing. |
| `Reconcile.ScanIsExact` | internal/service/reconcile/reconcile.go:251-302 | Orphans are exactly the open venue orders unknown here; exactly those not reported before are published. |
| `Reconcile.ScanPublishesOrphans` | internal/service/reconcile/reconcile.go:251-302 | A scan that a failed read ends has still published only orphans not reported before. |
| `Reconcile.SecondScanIsSilent` | internal/service/reconcile/reconcile.go:251-282 | The next scan of the same answers publishes nothing. |
| `Reconcile.VenueLoop.ReconcileLocal` | internal/service/reconcile/reconcile.go:174-249 | The branches over listed, pending and missing orders equal the specification of a visit. |
| `Reconcile.VenueLoop.ReconcileOrphans` | internal/service/reconcile/reconcile.go:251-302 | The loop equals the orphan scan, failed reads included: one ends it after what it has published. |
| `Reconcile.VenueLoop.Apply` | internal/service/reconcile/reconcile.go:333-350 | Applies a snapshot as an event (`Reconcile.VisitEnters` says what that enters); an order that disappeared is not an error. |
| `Reconcile.VenueLoop.Pass` | internal/service/reconcile/reconcile.go:138-172 | The whole pass equals its specification: an unanswered venue skips it, a store error ends it with what was applied so far, a failed read leaves the remembered orphans alone. |
| `Outbox.EveryScheduleDelivers` | internal/adapters/postgres/outbox.go:36-72 | Under every schedule of writers, one relay, deletes, crashes and bus shutdowns: a committed row is still unpublished or was published, nothing uncommitted is published, what was published the bus took or, being closed, ignored, and one order's rows are first published in commit order. |
| `Announcing.AnnouncementsFollowTheLog` | internal/adapters/postgres/orders.go:189-225 | With writers that commit the store's operations and rows that carry their messages: what was first published of an order is, under every schedule, a prefix of its messages in commit order, and so the states it announced are a prefix of the order's audit log. |
| `Announcing.DrainedOrderIsAnnounced` | internal/adapters/postgres/outbox.go:36-72 | Once none of an order's rows waits, they are all of them. |
| `Outbox.OpenBusTakesAll` | internal/bus/bus.go:65-71 | While the bus is not closed, every committed row is still unpublished or has been taken by the bus. |
| `Outbox.OpenPublishIsTaken` | internal/bus/bus.go:65-71 | Under every schedule a row published while the bus is not closed, or has been reopened by a restart, has been taken. |
| `Relay.ClaimedIsHead` | internal/adapters/postgres/queries/outbox.sql:4-9 | The claim is the head of the unpublished rows in id order, all of them or as many as the limit. |
| `Relay.Store.PublishAll` | internal/adapters/postgres/outbox.go:51-62 | The publish loop hands the batch to the bus in order up to the first failure; an open bus has logged exactly those messages, a closed one none. |
| `Relay.Store.PublishPending` | internal/adapters/postgres/outbox.go:36-72 | Publishes the claimed rows in order up to the first failure; marks all of them, or none when a publication, the marking or the commit fails. |
| `Relay.Store.Drain` | internal/service/outbox/outbox.go:93-114 | Terminates for any batch size of at least one. What it hands to the bus is a prefix of the backlog, each row once and in id order, and what it marks is no more than that; when every batch commits it stops only at the first failed publication, and otherwise leaves no backlog. |
| `Relay.Store.DeletePublishedBefore` | internal/adapters/postgres/queries/outbox.sql:14-15 | Deletes exactly the rows published before the cutoff; the others stay as they are. |
| `Bus.InProc.Publish` | internal/bus/bus.go:65-82 | Offers the event to every matching subscriber in any order, drops only on a full buffer, keeps the books, and never sends on a closed channel. |
| `Bus.InProc.Subscribe` | internal/bus/bus.go:85-91 | Registers a fresh subscriber with an empty buffer. |
| `Bus.InProc.Unsubscribe` | internal/bus/bus.go:107-114 | Closes the channel of a registered subscriber once. |
| `Bus.InProc.Receive` | internal/bus/bus.go:93-105 | One turn of a subscriber's goroutine: it hands the oldest buffered event to the handler, or returns on shutdown or a drained closed channel. |
| `Bus.InProc.Close` | internal/bus/bus.go:120-127 | Shuts down and waits until no goroutine is left; handlers get at most what was buffered, oldest first, and no subscriber's account is disturbed. |
| `Bus.PublishKeeps` | internal/bus/bus.go:65-82 | A publish keeps every subscriber's account exact. |
| `Bus.BooksBalance` | internal/bus/bus.go:65-118 | For every subscriber ever registered offered = handled + buffered + dropped, buffers hold at most 64, and with nothing dropped it got exactly what it was offered, in order. |
| `Snapshots.PublishedMeansDurable` | internal/service/snapshot/snapshot.go:114-199 | In every interleaving a published snapshot has an ok checkpoint, and an ok checkpoint means all its non-zero rows are durable and counted. |
| `Snapshots.UndisturbedIsPublished` | internal/service/snapshot/snapshot.go:154-191 | After any run that left the mutex free, a snapshot that nothing disturbs ends with all its non-zero rows durable, an ok checkpoint that counts them, and published. |
| `Snapshots.FailedFetchIsRecorded` | internal/service/snapshot/snapshot.go:145-152 | A target whose balances could not be fetched is recorded as failed and not published. |
| `Snapshots.FlushStores` | internal/ports/store.go:19-25 | A successful flush after the last write stores the whole snapshot. |
| `Snapshots.NonZeroKeeps` | internal/domain/account/account.go:54-63 | Exactly the balances with a non-zero total are written. |
| `Snapshots.FlushesAreOwn` | internal/service/snapshot/snapshot.go:176-191 | In every interleaving at most one snapshot is being written, and every buffered row is its own or one of a snapshot that was given up: no flush decides over another target's rows. |
| `Paging.QueryIsHead` | internal/adapters/postgres/queries/orders.sql:14-27 | The keyset query is the head of the selected rows in (created_at, id) descending order. |
| `Paging.PageOf` | internal/api/orders.go:86-119 | A page is the head of what its cursor leaves, with a token exactly when there is more. |
| `Paging.PageIsAsAsked` | internal/api/orders.go:86-119 | By the request's own fields: a page holds rows of the asked venue, bot and statuses past its token only, newest first, at most the limit or fifty; it leaves out only rows older than all of a full page, and then ends in a token for its last row. |
| `Paging.RefusedIff` | internal/api/orders.go:136-151 | A request is refused exactly for a limit outside 0 to 500 or a token that is garbled, of another version, incomplete, or issued under another filter. |
| `Paging.TokenIsBoundToFilter` | internal/api/orders.go:153-175 | A page's token is accepted, at any limit, if and only if the request names the same venue, the same bot and the same set of statuses. |
| `Paging.NothingIsRepeated` | cmd/ctl/order.go:82-125 | Whatever tables the pages read, as long as creation times do not change: what is printed strictly descends by (created_at, id), so no order is printed twice, and is at most the limit. |
| `Paging.NothingIsSkipped` | cmd/ctl/order.go:82-125 | Whatever tables the pages read: an order that exists and matches whenever a page is read is printed, unless the limit was reached before its place. |
| `Paging.PrintedMatched` | internal/api/orders.go:86-119 | Every printed order matched the filter when its page was read. |
| `Paging.StorePagesAreComplete` | internal/adapters/postgres/queries/orders.sql:14-27 | The two hold of any store whatever operations commit between pages, status filters included. |
| `Paging.RunsOnlyAddNewer` | internal/adapters/postgres/queries/orders.sql:14-27 | Any run of store operations leaves a listing as it was, with additions above it only, if orders are created later than those listed and, under a status filter, no listed or unlisted order changes its answer. |
| `Paging.RestIsUnchanged` | internal/adapters/postgres/queries/orders.sql:19-26 | Below a row already shown, a table that grew at the top lists what it did; rows may be updated meanwhile as long as the filter's answer stands. |
| `Paging.PagesAreListing` | internal/api/orders.go:86-119 | If tables only grow that way, the pages are exactly the first min(limit, N) rows of the listing as the first page found it. |
| `Paging.PrintPages` | cmd/ctl/order.go:105-123 | The loop terminates and prints what paging through these tables prints, tokens and page limits included. |
| `Paging.RunOrderList` | cmd/ctl/order.go:82-125 | The command refuses a limit below one. However the tables change between its pages: every printed order was there with the asked venue, bot and status when some page was read; and as long as creation times stay, orders are printed newest first, and one that is there as asked at every page is printed unless its place is past the limit. |

## Left out

- Venue adapters, websockets and conversion to and from the exchange library's types: events, acknowledgements and snapshots are arbitrary inputs.
- JSON, base64, SHA-256 and ULID internals: encodings and the filter digest are treated as injective; the lock key's hash is outside the model.
- Gaps that rolled-back transactions leave in identity columns of the order tables.
- Begin, connection and context errors of single statements: they abort the transaction, which the failure paths cover.
- Backoff timing and deadlines: a submit is tried any number of times.
- `Cancel`: a status guard and two calls; the store's part of it is `MarkCancelRequested`.
- Whitespace trimming of list filters and the mapping between wire and domain statuses.
- Metrics, logging, configuration, wiring, servers, generated code and the terminal interface.
- Locking.EveryScheduleIsSerial: identity columns are drawn at commit, so their gaps and their order among overlapping transactions are not modelled; the row locks on single lots are covered by the inventory lock.
- Announcing.AnnouncementsFollowTheLog: has one relay; message ids are drawn by separate steps, their contents appear at commit.
- Bus.InProc.Publish: is one step; a receive that overlaps it is taken as before or after it, which the channels cannot tell apart. The 64-bit drop counter does not wrap.
- Bus.InProc.Close: events published or subscriptions made while it waits are taken as after it.
- Outbox.EveryScheduleDelivers: has one relay; order across different orders is not promised.
- Relay.Store.Drain: has no writers beside it; `Outbox.EveryScheduleDelivers` has.
- Reconcile.VenueLoop.Pass: has no writers beside it; `Reconcile.AmidPassHolds` covers them for the sequence of visits.
- Reconcile.VenueLoop.ReconcileOrphans: publishing an orphan does not fail, as the in-process bus never reports an error.
- Snapshots.PublishedMeansDurable: the snapshot service is the only user of the series writer.
