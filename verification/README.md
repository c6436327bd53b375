# GoshopX: a verified model of the checkout core

This Dafny project models the checkout of the shop as it runs over four services, the Inventory reservation
ledger, the cart with its lock and proposals, orders with quotes and coupons, and VNPAY payments with their
effects, and proves what each step keeps, what holds over every run and where the code falls short of what
one would expect. Two further cores stand beside it: the byte-level image checks of the chat, and the
exactly-once reporting projection.

`dafny verify dfyconfig.toml` checks everything.

## How it is built

* A database transaction under row locks is one step of a state machine, given as a function from tables to
  tables (`Ledger`, `Orders`, `Payments`, `CartLock`, `Projection`). Theorems speak of these functions and of
  every run of them (`LedgerTheorems`, `OrderTheorems`, `PaymentTheorems`), and of what the services answer, stated
  without their bodies (`LedgerReplies`, `CouponTheorems`, `QuoteTheorems`, `ServedOrders`, `PaymentPrices`,
  `EventCounts`).
* The services are classes with the fields the code updates, or methods with the code's loops; each is proved
  to do what its function says, or against a statement of its own (`InventoryRepository`, `CartCalls`,
  `CartService`, `OrderRepository`, `OrderServer`, `PaymentService`, `PaymentEffects`, `Checkout`,
  `AdminRepository`, `Reporting`, `Tiff`, `Jpeg`, `WebP`, `Orientation`).
* Where a service and a machine of racing requests describe the same protocol, lemmas connect them
  (`CartLock.Server`, `CartRefinement`, `PaymentService.OpenedIsARun`, `PaymentService.AnsweredAsInTheMachine`,
  `ConcurrentDeliveries.Uninterrupted`).
* During a cart operation other accounts run before every call to Inventory. They are a parameter that may do
  anything except touch the operation's own reservations or lower stock by hand (`CartModel.Polite`);
  `CartModel.RunsInterfere` shows that this covers every run of their transactions.
* Between the snapshot of a checkout and its commits no lock is held, so there anybody may do anything, the same
  account included (`CommitLog`): the only assumptions are that nobody lowers a stock by hand and that a
  reservation is asked for again only with the product of its line, as the cart does.
* What the services learn from outside (a lock that is busy, a save that fails, a lost reply, a fresh id, the
  catalog's prices) is a parameter. Integer widths are explicit (`Width`).

## What does not hold

Each of these is proved for every state in which it happens, beside the exact condition under which all is well.

* A failed upsert that lowered a quantity cannot always be compensated: a rival can take the freed units
  (`CartLimits.LoweredCanBeLost`). Every other compensation of the cart that arrives is always accepted.
* A request that Inventory carries out although its reply is lost, or without its compensation ever arriving,
  leaves a cart with a line for it apart from Inventory, exactly unless it asked for what the line already had
  (`CartLimits.UnansweredAgrees`); without a line it strands units that are held for nobody
  (`CartLimits.UnansweredStrands`). A save that took effect but reported an error leaves them apart as well
  (`CartLimits.SavedThenUndone`).
* A proposal is applied once per lifetime of the cart key, not once: after the key expires the version restarts
  at 0 (`CartLock.AppliedAtMostOncePerLifetime`, tight by `CartLock.EveryLifetimeCanApply`). Against
  the clock it is applied once exactly if requests end before a saved cart key's term (`CartLockTimed.OnceExactly`).
* A proposal that was rolled back cannot be confirmed again once it had dealt with a product new to the cart
  (`CartLimits.RetryFails`), and its used-up ids stand in the way of exactly those items
  (`CartLimits.SpentExactly`).
* A checkout, cash on delivery or online, can take other units out of stock than its order has, because the cart
  is neither locked nor emptied between snapshot and commits: the account can remove a line
  (`Covering.RemovedNotCovered`), change its quantity (`Covering.ChangedNotCovered`) or check the same cart out
  twice (`Covering.SecondNotCovered`), and a reservation can run out (`CommitLog.DeadTakesNothing`). Every commit is
  accepted all the same and the order counts as paid (`PaymentEffects.Apply`). Exact conditions:
  `Covering.OrderCovered`, `OnlineCheckout.PaidExactly`.
* Cash on delivery, a product the catalog no longer returns is taken but not ordered
  (`Checkout.UnknownProductTaken`), and a used quote with a new cart returns the old order
  (`Checkout.UsedQuoteTakesMore`). Exact conditions: `Covering.NewOrderCovers`, `Checkout.StoredCoversTaken`.
* Effects of a payment whose calls fail three times are never repeated, so a paid order keeps its reservations
  uncommitted (`OnlineCheckout.NeverRepeated`; exact condition: `OnlineCheckout.PaidExactly`).
* A fully discounted order is charged its undiscounted catalog price (`PaymentOrders.FreeOrderCharged`; exact
  conditions: `PaymentService.ChargedAsOrdered`, `PaymentOrders.FreeExactly`).
* An order can be paid twice: after its payment its checkout key is free again, and its status is still
  pending (`PaidOnce.PaidTwice`; exact condition: `PaidOnce.PaidAtMostOnce`).
* Two disagreeing callbacks that both read a pending transaction can turn Success into Failed
  (`PaymentTheorems.DisagreeingCallbacks`; exact condition: `PaymentTheorems.TerminalChangesExactly`).
* Concurrent deliveries can lose each other's facts (`ConcurrentDeliveries.UpdateLost`; exact condition:
  `ConcurrentDeliveries.ExactlyOnceWhenCurrent`).
* Fill bytes, or TEM, before the Exif segment of a JPEG file make the walk skip a misread length
  (`JpegGrammar.OddIsSkipped`), so that a file that ends before it, of up to about 48 KB, loses its orientation
  (`JpegGrammar.OrientationHidden`; exact condition for such files: `JpegGrammar.AgreesExactly`). Files with TEM
  are refused by the image decoder before their orientation matters.

Two comparisons are exact only on what Order hands them, and the boundary is proved as well: that of an order with
a request (`OrderMatch.StoredMatchesExactly`, `OrderMatch.MatchesOther`), and the hash of a checkout
(`CheckoutHash.HashCanonical`, `CheckoutHash.NulCollides`).

## Model

| member | source | states |
|---|---|---|
| LedgerTheorems.ReserveAccepts | inventory/internal/repository.go:161-263 | a reservation is accepted if and only if the exact, unbounded sum of the other live holds plus the request fits the stock and the id is new or still active; no int32 conversion or subtraction ever changes the answer |
| LedgerTheorems.ReserveEffect | inventory/internal/repository.go:185-241 | after an accepted reservation its product's live sum is the other holds plus the new one, and no other product's sum grows |
| LedgerTheorems.ReserveRestoresBound | inventory/internal/repository.go:198-241 | any accepted reservation re-establishes holds <= stock for its product, even if an administrator had lowered the stock below the holds |
| LedgerTheorems.ReserveRows | inventory/internal/repository.go:205-241 | exactly one row is written, every other id keeps its row but for expiry, and ids stay unique |
| LedgerTheorems.TransitionEffect | inventory/internal/repository.go:302-388 | release and commit never add to any product's live sum and take exactly the reservation's live quantity out of its own |
| LedgerTheorems.TransitionRows | inventory/internal/repository.go:331-370 | one row moves to the new status unless it has expired; all other rows only age |
| LedgerTheorems.CommitHonoured | inventory/internal/repository.go:331-388 | every hold is honourable: with no oversell, committing a live reservation succeeds, takes exactly its quantity from its own product and leaves availability unchanged |
| LedgerTheorems.KnownAccepted | inventory/internal/repository.go:302-388 | with no oversell neither commit nor release of a reservation that exists is ever refused |
| LedgerTheorems.StepSound | inventory/internal/repository.go:32-388 | every transaction, admin operations included, keeps stock in [0, 2^31-1], ids unique and the live sum within int32 |
| LedgerTheorems.RunSound | inventory/internal/repository.go:32-388 | the same over every run, so the int64-to-int32 conversion of the sum never loses value |
| LedgerTheorems.StepNoOversell | inventory/internal/repository.go:161-429 | no transaction that does not lower a stock by hand breaks holds <= stock |
| LedgerTheorems.RunNoOversell | inventory/internal/repository.go:161-429 | over every run of reservations, releases, commits, sweeps, waiting and non-reducing stock changes the live holds of a product never exceed its stock |
| LedgerTheorems.AdjustExact | inventory/internal/repository.go:32-56 | an adjustment is stored exactly or refused: it is accepted if and only if the true sum is in [0, 2^31-1], wrapping addition notwithstanding |
| LedgerTheorems.StockConserved | inventory/internal/repository.go:32-388 | over every run stock = initial + net changes by hand - quantities of reservations that went from active to committed |
| LedgerTheorems.StepForward | inventory/internal/repository.go:331-356 | no transaction deletes a row, returns one to active or changes an expired one |
| LedgerTheorems.RunForward | inventory/internal/repository.go:331-356 | the same from the start to the end of every run |
| LedgerTheorems.NotSoldAgain | inventory/internal/repository.go:331-356 | an id that is not active is never deducted from stock in any continuation |
| LedgerTheorems.SoldOnce | inventory/internal/repository.go:331-356 | in every run each reservation id is deducted from stock at most once |
| Ledger.ReservedSplit | inventory/internal/repository.go:431-446 | the sum over all live holds is the sum that excludes one id plus that id's own weight |
| Ledger.ReservedSweep | inventory/internal/repository.go:417-429 | sweeping expired rows, of one product or of all, changes no live sum |
| Ledger.ReservedUpdate | inventory/internal/repository.go:431-446 | replacing one row moves each live sum by exactly the difference of the two rows' weights |
| InventoryRepository.PostgresRepository.ReserveStock | inventory/internal/repository.go:161-263 | the branches of the transaction leave the tables as the ledger says; a refusal changes nothing and an acceptance leaves holds <= stock |
| InventoryRepository.PostgresRepository.TransitionReservation | inventory/internal/repository.go:302-388 | the branches of release and commit leave the tables as the ledger says; a refusal is rolled back completely |
| InventoryRepository.PostgresRepository.ReleaseReservation | inventory/internal/repository.go:265-267 | moves one reservation to released and no stock at all |
| InventoryRepository.PostgresRepository.CommitReservation | inventory/internal/repository.go:269-271 | moves one reservation to committed, as the ledger's transition does |
| InventoryRepository.PostgresRepository.AdjustStock | inventory/internal/repository.go:32-56 | refuses exactly the sums outside [0, 2^31-1] |
| InventoryRepository.PostgresRepository.UpsertStock | inventory/internal/repository.go:108-128 | overwrites level and reorder point and keeps the ledger sound, live holds notwithstanding |
| InventoryRepository.PostgresRepository.InitializeStock | inventory/internal/repository.go:130-146 | creates a row only if there is none, tells which, and never changes an existing one |
| InventoryRepository.PostgresRepository.GetAvailability | inventory/internal/repository.go:148-159 | with any transactions between the sweep and the two reads: reports the stock as first read, the exact live sum as read after it, their difference cut at 0 and the low-stock flag |
| InventoryRepository.PostgresRepository.CleanupExpiredReservations | inventory/internal/repository.go:289-300 | afterwards every active row is unexpired, and the count is 0 exactly if nothing changed |
| CartModel.RunsInterfere | cart/internal/service.go:400-456 | the interference allowed between two calls of a cart operation covers every run of other accounts' transactions that lowers no stock by hand |
| CartModel.StepAges | cart/internal/service.go:400-456 | a transaction that does not name a reservation at most expires it |
| CartModel.AgreeSurvives | cart/internal/service.go:70-79 | a cart that agrees with Inventory still does after anything other accounts or the clock do: a line keeps its backing or has expired itself |
| CartModel.LoweringAccepted | cart/internal/service.go:406-417 | a live reservation can always be lowered: with no oversell the compensating call is never refused, whatever was reserved meanwhile |
| CartSaga.InterferenceKeeps | cart/internal/service.go:400-456 | nothing that happens during the lease can expire or alter a reservation the confirmation has raised or undone |
| CartSaga.RolledBack | cart/internal/service.go:406-417 | after a complete rollback the cart agrees with Inventory and every reservation of the operation holds the quantity it held at the start, unless it was never changed and ran out by itself |
| CartSaga.LineRaised | cart/internal/service.go:419-447 | raising a line of the cart extends the invariant of the loop: previous quantity recorded, cart and Inventory agree, units grow by the proposed ones |
| CartSaga.LineAdded | cart/internal/service.go:419-447 | the same for a product the cart did not have, on the proposal's own reservation id |
| CartSaga.OneUndone | cart/internal/service.go:406-417 | undoing one change disturbs no other change |
| CartCalls.Compensate | cart/internal/service.go:406-417 | every compensating call is accepted and puts back exactly the previous quantity, with other accounts reserving in between |
| CartCalls.Rollback | cart/internal/service.go:406-417 | undoing in reverse order gives every reservation of the operation its original quantity; no call is refused |
| CartCalls.ReserveItem | cart/internal/service.go:419-447 | one item either extends the loop's invariant by one item or is blocked by the cap or by a refusal of Inventory for exactly the wanted quantity, with nothing changed |
| CartCalls.ApplyProposal | cart/internal/service.go:400-456 | all items are reserved and the new lines agree with Inventory, or everything is undone |
| CartCalls.CompensateLine | cart/internal/service.go:138-152 | the compensation of a single-line request restores cart and holds, and can be refused only if the request had lowered the quantity |
| CartCalls.ReserveLine | cart/internal/service.go:111-152 | a granted line is backed for a full term; a failed one leaves cart and holds as they were, with that one exception |
| CartService.FilterExpired | cart/internal/service.go:476-490 | keeps exactly the unexpired lines, in order |
| CartService.Service.LetTimePass | cart/internal/service.go:70-79 | other accounts' runs and the expiry of the cart key keep the agreement of cart and Inventory |
| CartService.Service.UpsertCartItem | cart/internal/service.go:89-163 | on success version + 1, the product has the new quantity on a fresh hold, other products are untouched and cart and Inventory agree; on failure, for one of five stated reasons only, the cart is unchanged and so are its holds, unless the compensation of a lowered one is refused: then it holds what was asked for |
| CartService.Service.RemoveCartItem | cart/internal/service.go:165-206 | a product without a line changes nothing; otherwise version + 1, its units are gone, others are kept, and its reservation is over unless the release never arrived; fails exactly for lock, version or save |
| CartService.Service.ClearCart | cart/internal/service.go:208-251 | empties the cart, version + 1; every reservation whose release arrives is over, with or without an answer; fails exactly for lock, version or save |
| CartService.Service.CompleteCheckout | cart/internal/service.go:253-274 | empties the cart without touching Inventory, even when cart and Inventory no longer agree, and they agree afterwards |
| CartService.Service.PrepareCheckoutAtVersion | cart/internal/service.go:297-322 | fails exactly for lock or version; every line of the snapshot is on a live hold of exactly its quantity |
| Checkout.ValidIsKnown | cart/internal/service.go:297-322 | the snapshot of a cart that agrees with Inventory has distinct named products on holds of exactly its positive quantities, which the theorems on checkouts start from |
| CartService.Service.CheckProposalItems | cart/internal/service.go:325-336 | accepts exactly 1 to 20 distinct, named products with quantities from 1 to 100 |
| CartService.Service.CreateCartProposal | cart/internal/service.go:324-368 | idempotent in its key: a known key gives the stored proposal or a mismatch and stores nothing; a new key stores a proposal exactly for the cart's current version |
| CartService.Service.ConfirmCartProposal | cart/internal/service.go:370-456 | replay returns the stored result and does nothing; success moves the base version on by one and every product gains exactly the proposed units on fresh holds; failure leaves cart and proposals as they were, every compensating call accepted, every hold restored and exactly the new products dealt with used up, and has one of the stated reasons |
| CartLimits.LoweredCanBeLost | cart/internal/service.go:138-152 | the exception is real: for every live reservation lowered by a failing request a rival who takes what became free makes Inventory refuse the compensation |
| CartLimits.NeverReservedAgain | cart/internal/service.go:406-417 | a reservation once released, committed or expired can never be reserved again, in any continuation |
| CartLimits.SpentExactly | cart/internal/service.go:406-417 | after a failed confirmation the proposal's own id stands in the way of an item if and only if the failed one had dealt with that item and the cart had no line for it |
| CartLimits.RetryFails | cart/internal/service.go:370-456 | a confirmation that failed after it had dealt with a product new to the cart cannot be retried: after any run of transactions, as long as no other request saved a line for that product, every later one fails again, at that product or before it |
| CartLimits.FreshNotBlocked | cart/internal/service.go:419-447 | with its own ids unknown and the lines outlasting it, a confirmation is never blocked by a used-up id |
| CartLimits.UnansweredAgrees | cart/internal/service.go:138-152 | if Inventory carried a request for a line out and its reply was lost, the unsaved cart agrees with Inventory afterwards if and only if the request asked for what the line already had |
| CartLimits.UnansweredStrands | cart/internal/service.go:138-152 | for a product without a line the cart agrees, and the units are held for nobody |
| CartLimits.SavedThenUndone | cart/internal/service.go:400-456 | if a save took effect but reported an error, the saved cart disagrees with Inventory on every unexpired line whose change was undone |
| CartLock.Server.LockCart | cart/internal/service.go:276-291 | one try with the set-if-absent command is the machine's lock step |
| CartLock.Server.LoadCart | cart/internal/service.go:370-396 | the read and the version checks are the machine's load step: it goes on exactly at the base version and below the last one |
| CartLock.Server.SaveChanges | cart/internal/service.go:492-498 | the save commands are the machine's save step: one version more, with the proposal marked as applied |
| CartLock.Server.UnlockCart | cart/internal/service.go:276-291 | the compare-and-delete is the machine's unlock step |
| CartLockTimed.AppliedAtMostOnce | cart/internal/service.go:370-399 | against the clock: if requests end before a saved cart key's term, every proposal is applied at most once, over every run |
| CartLockTimed.AppliedTwice | cart/internal/service.go:370-399 | otherwise there is a run that applies one twice, from every initial state with an unapplied proposal and no cart |
| CartLockTimed.OnceExactly | cart/internal/service.go:370-399 | so a proposal is applied at most once in all runs if and only if requests end before a saved cart key's term |
| CartRefinement.MutationIsARun | cart/internal/service.go:89-163 | a service call that changes the cart under the lock does to the Redis keys what an undisturbed request of the racing machine does |
| CartRefinement.ConfirmIsARun | cart/internal/service.go:370-456 | so does every confirmation, by its contract: replay, refusal, failure or success |
| CartLock.OneInCriticalSection | cart/internal/service.go:276-291 | in every interleaving of racing requests at most one is between loading and saving the cart |
| CartLock.AppliedAtMostOncePerLifetime | cart/internal/service.go:370-399 | in every interleaving a proposal is applied at most once for each lifetime of the cart key, so once if the key never expires |
| CartLock.EveryLifetimeCanApply | cart/internal/service.go:370-399 | that bound is exact: from every initial state with an unapplied proposal for version 0 and every n there is a run with n key expiries that applies it n + 1 times |
| CartLock.VersionCountsSaves | cart/internal/service.go:492-498 | without an expiry of the key the stored version is the initial one plus the number of successful saves, one by one: no update is lost |
| CartLock.LockKept | cart/internal/service.go:276-291 | only the owner's own release after its save, or the end of the lease, takes a lock away |
| CartLock.RunKeeps | cart/internal/service.go:276-291 | mutual exclusion, base versions, the version count and once-per-lifetime hold in every reachable state |
| CartModel.Truncate | inventory/internal/server.go:138-148 | the expiry on the wire is at most the database's and less than a second earlier: it errs on the safe side |
| CartLock.RedisRepository.AcquireCartLock | cart/internal/repository.go:58-60 | succeeds exactly if the lock is free |
| CartLock.RedisRepository.ReleaseCartLock | cart/internal/repository.go:62-64 | a late release leaves a successor's lock in place |
| CommitLog.CommitMeets | graphql/graph/mutation.go:631-638 | a commit of a reservation that exists is never refused; it takes the reservation's quantity out of its own product exactly if it is live, and nothing otherwise |
| Checkout.CommitLines | graphql/graph/mutation.go:631-638 | with no oversell none of the commits is refused, whatever anybody does to the reservations meanwhile; it goes on to the first call that is not answered, and after all of them every reservation is over |
| Covering.CoversExactly | graphql/graph/mutation.go:624-638 | over any run of anybody's transactions since the snapshot, an order's lines are exactly what its checkout takes if and only if it has only products of the snapshot and, of each line, as many units as the first own commit meets on the line's live reservation |
| Covering.OrderCovered | graphql/graph/mutation.go:624-638 | for an order of the snapshot's items: if and only if the first commit of every line meets its reservation active, within its term and with the ordered quantity |
| Covering.NewOrderCovers | graphql/graph/mutation.go:624-638 | for a new order: if and only if every line the catalog knows is met as ordered and no live reservation is met for any other |
| Covering.RemovedNotCovered | graphql/graph/mutation.go:624-638 | the account removes a line after the snapshot: the commits are accepted, nothing is taken of it, and the order is not covered, whatever follows |
| Covering.ChangedNotCovered | graphql/graph/mutation.go:624-638 | the account changes the quantity of a line after the snapshot: the new quantity is taken for the old order |
| Covering.SecondNotCovered | graphql/graph/mutation.go:603-646 | the same cart was checked out before: the second order takes nothing at all, and its commits are accepted |
| Covering.QuietTakesItems | graphql/graph/mutation.go:603-646 | if nobody else names the reservations and they outlast the calls, exactly the snapshot's items are taken, however often calls are repeated |
| Checkout.StoredCoversTaken | graphql/graph/mutation.go:603-646 | then the order stored under the returned id covers exactly the units taken if and only if the quote was unused and every product known, or it was used for an order of the same items |
| Checkout.UsedQuoteTakesMore | graphql/graph/mutation.go:603-646 | a used quote presented with a new cart creates nothing and returns the old order, and for every product the cart has more of than that order more is taken than ordered |
| Checkout.UnknownProductTaken | graphql/graph/mutation.go:624-638 | units of a product that the catalog no longer returns are taken although the order does not have it |
| Checkout.RetryTakesOrderOnce | graphql/graph/mutation.go:603-646 | a checkout whose calls were lost on the way, retried with the same quote and cart: Order returns the same order, and exactly its lines leave the stock, once, whatever of the first attempt had arrived |
| Checkout.CheckoutCartCod | graphql/graph/mutation.go:603-646 | with anybody, the same account included, running before every call: succeeds exactly if the snapshot is taken, Order stores or returns an order and its reply arrives, every commit is answered and the cart can be emptied; before there is an order nothing changes, after success every reservation is over and the cart, whatever was made of it meanwhile, is empty |
| PaymentOrders.FreeExactly | order/internal/coupon.go:28-54 | a coupon discounts a positive subtotal completely if and only if it grants 100% or an amount of at least the subtotal, and no lower cap |
| PaymentOrders.FreeOrder | order/internal/coupon.go:28-54 | from every state with such a coupon: the preview's total is 0 and so is that of the order made from it |
| OrderServer.CheckRequest | order/internal/server.go:75-90 | accepts exactly 1 to 100 distinct named products with quantities |
| OrderServer.PostOrder | order/internal/server.go:69-159 | stores exactly the requested products that the catalog returns, with the quote, the coupon or neither, and keeps every stored order's lines distinct, named and positive |
| OrderServer.ServedKeeps | order/internal/server.go:69-159 | over every run of previews and orders from an empty shop every stored order has distinct, named lines with positive quantities |
| Coupons.PreviewSubtotal | order/internal/server.go:293-300 | rejects exactly the sums above 2^63-1 and is otherwise exact |
| Coupons.PercentageExact | order/internal/coupon.go:39-46 | the split percentage is floor(subtotal * bp / 10000) for every subtotal; the overflow guard never fires and nothing wraps |
| Coupons.DiscountExact | order/internal/coupon.go:28-54 | an available, well-formed coupon gives exactly the promised discount in exact arithmetic, and no other coupon gives any |
| Coupons.DiscountBounded | order/internal/coupon.go:47-54 | 0 <= discount <= subtotal |
| Coupons.PayableMonotone | order/internal/coupon.go:28-54 | a larger subtotal never costs less |
| Coupons.DiscountStable | order/internal/coupon.go:28-54 | use counts and the clock decide acceptance but never the amount |
| CheckoutHash.DecimalInjective | order/models/coupon.go:70 | different numbers print differently |
| CheckoutHash.LineDecodes | order/models/coupon.go:70 | a line's id, quantity and end can be read back in one way only |
| CheckoutHash.EncodedInjective | order/models/coupon.go:66-71 | two lists of NUL-free ids that print alike are the same list |
| CheckoutHash.CheckoutItemsHash | order/models/coupon.go:57-73 | hashes a sorted rearrangement of the non-nil products |
| CheckoutHash.HashCanonical | order/models/coupon.go:57-73 | for distinct NUL-free ids two lists hash alike if and only if they hold the same (id, quantity) pairs, whatever order the sort leaves |
| CheckoutHash.NulCollides | order/models/coupon.go:70 | the condition on NUL is exact: with ids that may hold NUL another list shares the hash of a NUL-free one if and only if that one has two lines or more |
| Sorting.Sort | order/models/coupon.go:64 | sorted and a permutation |
| Sorting.SortedUnique | order/models/coupon.go:64 | without ties there is only one sorted arrangement, so an unstable sort is deterministic |
| Orders.Granted | order/internal/repository.go:198-222 | a granted discount is the coupon's promise and discount + total = subtotal, without wrapping |
| Orders.RedemptionWithinLimits | order/internal/repository.go:198-222 | one more granted redemption keeps both limits of every coupon |
| Orders.StepKeeps | order/internal/repository.go:64-229 | every transaction keeps exact amounts, one order per quote, one redemption per discounted order and both limits |
| Orders.RunKeeps | order/internal/repository.go:64-229 | the same over every interleaving of locked transactions |
| OrderTheorems.LimitsHold | order/internal/repository.go:187-229 | from an empty shop redemptions never exceed MaximumRedemptions or PerAccountLimit, there is one for each order with a coupon, and no two orders share a quote |
| OrderTheorems.QuoteRun | order/internal/repository.go:64-128 | an issued quote only ever disappears or is marked as used, once, by one order |
| OrderTheorems.QuotedIsOrdered | order/internal/repository.go:98-128 | an order made from a quote has the quote's account, coupon, subtotal, discount and total, and discount + total = subtotal |
| OrderTheorems.PreviewedIsOrdered | order/internal/repository.go:73-143 | from preview to order, with any transactions in between: the previewed items in some order, exactly the previewed amounts, the previewed cart version |
| OrderServer.PostStores | order/internal/repository.go:73-154 | the id a successful call returns is that of a stored order, of the used quote's one or of a new one with exactly the matched lines |
| OrderServer.UsedReturns | order/internal/repository.go:86-97 | a used quote of the account is answered with its order whatever known products and version are presented, and nothing is created |
| OrderTheorems.ReplayReturnsTheOrder | order/internal/repository.go:86-97 | a used quote presented again creates nothing and gives the same order id and amounts; its saved lines follow the request's own |
| OrderTheorems.QuoteHonoured | order/internal/repository.go:73-143 | a quote is honoured if and only if it is presented in time, unused, by its account, for the previewed version, subtotal and items, and its coupon has room; the unique index never refuses it |
| OrderRepository.PostgresRepository.PutOrderWithQuote | order/internal/repository.go:73-143 | the field-by-field transaction is the one the theorems speak of |
| OrderRepository.PostgresRepository.PutOrderWithCoupon | order/internal/repository.go:156-229 | the same for orders without a quote, with or without a coupon |
| OrderRepository.PostgresRepository.PreviewCoupon | order/internal/repository.go:231-251 | the discount an order would get now, between 0 and the subtotal |
| OrderRepository.PostgresRepository.PreviewCheckout | order/internal/service.go:57-76 | stores a quote with exact amounts under a new id and keeps the invariant |
| Text.NormalizeTwice | order/internal/repository.go:188 | normalising a coupon code again, as every layer does, changes nothing |
| PaymentService.CollectQuantities | payment/internal/service.go:102-116 | accepts exactly the non-empty lists of distinct, non-blank products with positive quantities |
| PaymentService.ProductsForCheckout | payment/internal/service.go:212-253 | fails exactly for an invalid catalog price; returns all products in request order if and only if each is known, catalog before mirror |
| Coupons.CatalogSubtotal | payment/internal/service.go:124-133 | the sign test after wrapping rejects exactly the sums above 2^63-1 |
| OrderMatch.SameOrderItems | payment/internal/service.go:201-211 | the loop decides the one-sided comparison |
| OrderMatch.MatchesExactly | payment/internal/service.go:201-211 | for distinct positive lines the one-sided comparison is exact equality of order and request (pigeonhole) |
| OrderMatch.StoredMatchesExactly | payment/internal/service.go:201-211 | so it is for every order that Order stores, whatever was called before |
| OrderMatch.MatchesOther | payment/internal/service.go:201-211 | of lists of lines in general it accepts some other cart if and only if lines of one product agree and some line is repeated or has quantity 0 |
| PaymentService.PriceSession | payment/internal/service.go:101-155 | the loops and checks together yield the amount due on the order at the exact sum of the prices in force, or refuse |
| PaymentService.Payable | payment/internal/service.go:135-155 | an order as Order makes them is payable if and only if it is pending, the user's own, requested line by line and, unless free, still priced at its subtotal |
| PaymentService.ChargedAsOrdered | payment/internal/service.go:149-155 | the charge is the order's total if and only if that is positive: a fully discounted order is charged the undiscounted catalog price |
| PaymentService.QuotedIsCharged | payment/internal/service.go:156-198 | the session of an order made from a quote at a positive total carries exactly the quoted total |
| PaymentOrders.RunCarries | payment/internal/service.go:156-301 | if the sessions of an order begin with one amount every transaction of it carries that, however sessions and callbacks interleave |
| PaymentOrders.QuotedRowsCarry | payment/internal/service.go:149-198 | whatever sessions and callbacks race, at whatever times and catalog prices, every transaction of an order made from a quote is for the quoted total, if that is positive |
| PaymentOrders.FreeOrderCharged | payment/internal/service.go:149-155 | from every state with a coupon that pays for all: preview and order cost 0, the order is payable, and its session opens a transaction for the catalog subtotal |
| PaidOnce.PaidAtMostOnce | payment/internal/service.go:156-301 | in serialised runs an order is paid at most once, with nothing open beside its payment, if and only if no session opens a transaction for it when it is paid already |
| PaidOnce.PaidTwice | payment/internal/service.go:156-301 | from every state with a pending transaction there is a serialised run that pays it, opens a second one for the order and pays that, both confirmed |
| PaymentService.OpenedKeeps | payment/internal/service.go:156-197 | a session never disturbs the table, and its row is pending and for exactly the user, order and amount |
| PaymentService.OpenedAgain | payment/internal/service.go:158-170 | a retry finds the pending session and creates nothing |
| PaymentService.OpenedIsARun | payment/internal/service.go:156-197 | undisturbed, lookup, insert and recovery in the machine of racing sessions do exactly what the service method does |
| PaymentService.Service.CreateCheckoutSession | payment/internal/service.go:101-199 | returns a URL exactly if the fetched order is the one asked for, an amount is due on it, the pending row if any is for it and the URL can carry it; reference and amount in the URL are those of the row |
| PaymentService.AnsweredAsInTheMachine | payment/internal/service.go:272-301 | a callback handled without interruption gets the answer of the machine of racing callbacks |
| PaymentService.AmountDecides | payment/internal/service.go:277-289 | a pending transaction is settled by exactly the verified callbacks that name its amount |
| PaymentService.EchoAccepted | payment/internal/service.go:277-289 | a callback that echoes reference and amount of the URL is accepted |
| PaymentService.Service.HandleVNPAYIPN | payment/internal/service.go:272-301 | settles exactly the one pending row of the reference at its total, starts effects only then, and leaves terminal rows alone |
| Payments.StepKeeps | payment/internal/service.go:156-301 | every database statement of racing sessions and callbacks keeps keys unique, terms fixed, pending rows unsettled and terminal ones settled at their total |
| Payments.RunKeeps | payment/internal/service.go:156-301 | the same over every interleaving |
| PaymentTheorems.SettledExactly | payment/internal/service.go:291-296 | in every interleaving a pending transaction has settled 0 and a terminal one exactly its total |
| PaymentTheorems.OpenSessionsShare | payment/internal/service.go:156-198 | sessions of one order that succeed while it is pending share one reference and one amount, however lookups, inserts and recoveries interleave |
| PaymentTheorems.SessionTermsKept | payment/internal/service.go:156-198 | the row of an opened session keeps its order, user and amount for ever |
| PaymentTheorems.TerminalChangesExactly | payment/internal/service.go:272-301 | a terminal row is touched if and only if a callback that read it while pending saves a different outcome |
| PaymentTheorems.TerminalWhenAgreeing | payment/internal/service.go:272-301 | if all callbacks of a reference agree, terminal transactions never change in any interleaving |
| PaymentTheorems.DisagreeingCallbacks | payment/internal/service.go:277-297 | for every pending transaction two disagreeing callbacks have an interleaving that makes it Success and then Failed, both confirmed |
| PaymentTheorems.HandleIpn | payment/internal/service.go:272-301 | one uninterrupted callback confirms exactly a pending row of that amount and changes nothing else |
| PaymentTheorems.TerminalWhenSerial | payment/internal/service.go:272-301 | in serialised runs terminal transactions never change |
| PaymentTheorems.OnePendingPerOrder | payment/models/transaction.go:14-25 | in every interleaving an order has at most one pending transaction |
| OnlineCheckout.SessionIsForSnapshot | payment/internal/service.go:135-155 | a session is opened only for an order of exactly the snapshot's items |
| OnlineCheckout.NeverRepeated | payment/internal/webhook.go:16-28 | effects whose calls did not arrive are never started again: after the confirmation every later callback is answered otherwise, and then the paid order stays uncovered, whatever anybody does |
| PaymentTheorems.ConfirmedOnce | payment/internal/webhook.go:16-28 | in serialised runs effects are started at most once per reference: after a confirmation every later callback is answered otherwise |
| Vnpay.ValueOfDecimal | payment/vnpay/client.go:99 | parsing undoes printing for every number |
| Vnpay.AmountRoundTrip | payment/vnpay/client.go:91-140 | the guard stops exactly the amounts whose hundredths overflow int64, and the amount of a URL is read back from its callback |
| Vnpay.AmountInjective | payment/vnpay/client.go:91-99 | two amounts never share a URL text |
| IdList.IdsRoundTrip | payment/internal/server.go:86-94 | the joined id list comes back if and only if every id is non-empty, trimmed and free of commas |
| PaymentEffects.Settle | payment/internal/server.go:55-68 | with anybody and the clock running before every call, a known reservation is settled if and only if one of three calls is answered, lost replies included; what is over stays over |
| PaymentEffects.Apply | payment/internal/server.go:53-81 | every id gets one to three calls, whatever anybody does in between; known reservations are all settled unless three calls in a row fail; status and cart follow only after complete success, also when the reservations were over or had run out; if no call arrives nothing is settled |
| CommitLog.TakenIsMet | payment/internal/server.go:53-81 | over any run of anybody's transactions exactly the quantity is taken of a line's product that the first own commit meets on a live reservation, once, whatever answers are lost and repeated |
| CommitLog.TakenElsewhere | payment/internal/server.go:53-81 | nothing is taken of any other product |
| CommitLog.DeadTakesNothing | payment/internal/server.go:53-81 | once the reservations are over, or have run out, the own calls take nothing, whatever anybody does and however often they are repeated |
| OnlineCheckout.PaidExactly | payment/internal/server.go:53-81 | with anybody's transactions between snapshot and payment and between the calls, the account's own included: the effects take exactly the units of the paid order if and only if the first arriving commit of every line meets its reservation active, within its term and with the ordered quantity |
| OnlineCheckout.StoredIdsAreLines | payment/internal/server.go:53-55 | the stored list of ids names exactly the snapshot's reservations |
| CommitLog.RepetitionInert | payment/internal/server.go:53-81 | commits and releases of reservations that are over, by whomever and however often, leave all stock as it is |
| CommitLog.ReleasesTakeNothing | payment/internal/server.go:53-81 | the effects of a failed payment take nothing, whatever anybody does in between |
| Tiff.FindOrientation | graphql/graph/chat_image_normalize.go:89-119 | stays in bounds and terminates on every input, and computes the decoder the theorems speak of |
| Tiff.DecodesEncoded | graphql/graph/chat_image_normalize.go:89-119 | undoes an encoder of TIFF header and directory in both byte orders, for every gap, directory and tail (TIFF 6.0, sections 2 and 8) |
| Jpeg.JpegExifOrientation | graphql/graph/chat_image_normalize.go:61-87 | terminates in bounds on every input and computes the walk the theorems speak of |
| Jpeg.WalkReadsSegments | graphql/graph/chat_image_normalize.go:61-87 | on any segments as the walk takes them, SOS and any scan data it returns the first non-zero orientation of an Exif APP1 segment, else 1 |
| JpegGrammar.WalkRefinesGrammar | graphql/graph/chat_image_normalize.go:61-87 | on every file of marker segments with fill bytes and TEM as ITU-T T.81, section B.1.1, has them, it returns the file's orientation if none of these comes before the first oriented segment or with it |
| JpegGrammar.OddIsSkipped | graphql/graph/chat_image_normalize.go:61-87 | in every other file the walk goes on behind the length misread at the first fill byte or TEM, or returns 1 if the file ends before |
| JpegGrammar.OrientationHidden | graphql/graph/chat_image_normalize.go:61-87 | so if the file ends before that length it returns 1, whatever the Exif data says |
| JpegGrammar.AgreesExactly | graphql/graph/chat_image_normalize.go:61-87 | in files that end before the misread length it returns the file's orientation if and only if no fill byte or TEM comes first or the orientation is 1 anyway |
| Jpeg.WalkReadsAPrefix | graphql/graph/chat_image_normalize.go:61-87 | on every input at all it reads a prefix as segments and returns the first non-zero orientation among them, else 1 |
| WebP.CheckContainer | graphql/graph/chat_image_normalize.go:157-197 | terminates in bounds on every input and computes the check the theorems speak of |
| WebP.AcceptsExactly | graphql/graph/chat_image_normalize.go:157-197 | accepts exactly the consistent RIFF files that are concatenations of well-formed padded chunks without animation, with a VP8X payload of at least ten bytes, whose Exif chunks leave the orientation at 1 (sections 2.3, 2.4 and 2.7 of RFC 9649) |
| WebP.ScanReads | graphql/graph/chat_image_normalize.go:165-196 | reads a concatenation of chunks as those chunks |
| WebP.ScanParses | graphql/graph/chat_image_normalize.go:165-196 | whatever is not rejected is a concatenation of chunks |
| Orientation.DimensionsExact | graphql/graph/chat_image_normalize.go:57-59 | the division test is exactly the bound of 20 million pixels |
| Orientation.PlacedByTheTag | graphql/graph/chat_image_normalize.go:129-150 | every stored pixel lands as far from the sides of row 0 and column 0 as the Orientation tag demands (TIFF 6.0, section 8) |
| Orientation.DestBack | graphql/graph/chat_image_normalize.go:129-150 | orienting by the inverse brings every coordinate back |
| Orientation.OrientationUndone | graphql/graph/chat_image_normalize.go:121-155 | 2, 3, 4, 5 and 7 are involutions and 6 and 8 undo each other, on every picture |
| Orientation.CopyPixel | graphql/graph/chat_image_normalize.go:129-150 | one pixel is copied and none copied before is overwritten |
| Orientation.OrientImage | graphql/graph/chat_image_normalize.go:121-155 | the loop writes every pixel of the result, each from its own source |
| Projection.ExactlyOnce | admin/internal/repository.go:67-116 | whatever is delivered one by one, repeated, reordered, failed, quarantined and replayed, the daily metrics are the fold over the applied events and no id is applied twice |
| Projection.AppliedExactly | admin/internal/repository.go:67-83 | the applied events are exactly the events with an id that came through at least once |
| Projection.OrderDoesNotMatter | admin/internal/repository.go:67-116 | two histories that applied the same events have the same metrics on every day |
| Projection.SuccessesNeverExceedAttempts | admin/internal/repository.go:85-116 | in every history SuccessfulPayments <= PaymentAttempts |
| AdminRepository.PostgresRepository.ApplyEvent | admin/internal/repository.go:67-83 | the id and its facts enter together or not at all, and a duplicate changes nothing |
| AdminRepository.PostgresRepository.ReplayQuarantined | admin/internal/repository.go:45-59 | replays through ApplyEvent and marks the record; succeeds exactly for a stored message that decodes, has an id and fails neither in applying nor in marking |
| Projection.ReplayedIsCounted | admin/internal/repository.go:45-59 | in every history a record marked as replayed belongs to an applied event |
| ConcurrentDeliveries.ExactlyOnceWhenCurrent | admin/internal/repository.go:67-116 | with deliveries of several partitions interleaved the tables always are the fold over the committed events if and only if every commit finds the row of its day as it read it |
| ConcurrentDeliveries.Uninterrupted | admin/internal/repository.go:67-116 | a delivery that nothing interrupts does what the serial projection does |
| ConcurrentDeliveries.UpdateLost | admin/internal/repository.go:85-116 | two overlapping deliveries of one day leave only the second one's facts although both ids are recorded, in every state with a row for the day |
| Projection.Dashboard | admin/internal/service.go:19-46 | the loop over the rows is the total of the window |
| Projection.WindowsAddUp | admin/internal/service.go:19-46 | the totals of a window are the fold over its distinct events and adjacent windows add up, int64 wrap-around included |
| Reporting.BuildDashboard | admin/internal/reporting.go:12-65 | GMV, revenue, attempts and successes are the sums over the window, OrderCount the number of distinct paid order ids, and the products are ranked and cut to the limit |
| Reporting.CollectRows | admin/internal/reporting.go:52-54 | one row for each product sold, in whatever order the map is traversed |
| Reporting.KeptDominate | admin/internal/reporting.go:57-62 | every kept product is strictly above every dropped one by GMV, then id |
| Reporting.DashboardDetermined | admin/internal/reporting.go:12-65 | the result is independent of the order of the facts and of map traversal |
| Reporting.GmvConserved | admin/internal/reporting.go:12-65 | the products' GMV adds up to the total GMV before the list is cut |
| LedgerReplies.ReserveReads | inventory/internal/repository.go:185-260 | an accepted reservation is answered with the stock, the other live holds plus its own, and exactly their difference: nothing is cut at 0 |
| LedgerReplies.ReserveStores | inventory/internal/repository.go:205-260 | it is answered with its row as it is stored, and stocks and clock are untouched |
| LedgerReplies.ReserveAnswers | inventory/internal/repository.go:205-260 | for a hold that has not run out already the answer is the availability of the tables afterwards |
| LedgerReplies.ReserveRefuses | inventory/internal/repository.go:161-236 | every refusal names its reason, the first that applies of a bad quantity, an unknown product, too little stock and a used-up id, and changes nothing |
| LedgerReplies.TransitionAnswers | inventory/internal/repository.go:302-388 | every answer of a release or commit, replayed, expired or effective, gives the row as stored and the availability of its product afterwards |
| LedgerReplies.TransitionRefuses | inventory/internal/repository.go:302-388 | release and commit are refused only for an unknown id, and a commit of a live hold for more than there is in stock |
| LedgerReplies.AdjustSets | inventory/internal/repository.go:32-56 | an adjustment sets the exact sum and, unless it is negative, the reorder level, of that product alone; each refusal names its reason |
| LedgerReplies.UpsertSets | inventory/internal/repository.go:108-146 | an upsert sets both numbers unless one is negative, an initialisation only where there is no row; each refusal names its reason |
| CartModel.UnexpiredInOrder | cart/internal/service.go:476-490 | what is kept stays in its order |
| QuoteTheorems.PreviewRetains | order/internal/repository.go:64-70 | a preview stores its quote, keeps every quote that ran out no more than seven days ago, unchanged, and deletes exactly the others |
| QuoteTheorems.PreviewIssues | order/internal/repository.go:64-70 | its quote is new, unused, for the account, items, version and subtotal asked for, and runs out ten minutes later |
| QuoteTheorems.QuoteRetained | order/internal/repository.go:64-66 | over every run a stored quote is still stored, with the same terms, until a week after it ran out |
| QuoteTheorems.PreviewHonoured | order/internal/repository.go:73-110 | from the preview on, whatever runs in between: an order is made exactly if the same account presents the quote within ten minutes of the preview, unused, for the previewed version, subtotal and items, while its coupon, if any, is usable |
| QuoteTheorems.ReplayWithinAWeek | order/internal/repository.go:84-97 | until a week after it ran out a used quote gives its order again and creates nothing |
| CouponTheorems.DirectOrder | order/internal/repository.go:187-229 | a direct order whose text is a code in any case with blanks around it is placed exactly if the subtotal is not negative and the coupon of that code is usable; it carries the code, the promised discount and the rest as total, and is one redemption more of that account |
| CouponTheorems.DirectOrderWithout | order/internal/repository.go:156-191 | without a code it is placed at its subtotal, with no discount and no redemption |
| CouponTheorems.GrantedExactly | order/internal/coupon.go:28-41 | a discount is granted exactly for an active, named coupon within its term, its minimum and both limits that gives either 1 to 10000 basis points or an amount |
| CouponTheorems.PromisedLargest | order/internal/coupon.go:38-55 | the discount is the largest amount within the subtotal, the cap and the percentage or fixed amount |
| CouponTheorems.PreviewWithCode | order/internal/service.go:57-76 | a preview accepts and grants what an order with the same text would, and its quote holds the code, discount, rest, hash of the items, version and a term of ten minutes |
| CouponTheorems.PreviewWithout | order/internal/service.go:57-76 | without a code the quote is for the subtotal |
| Text.SpaceCodes | order/internal/repository.go:188 | what is trimmed around a code is the white space of Unicode |
| Text.NormalizesExactly | order/internal/repository.go:188 | a text is looked up under a stored code exactly if it is that code in any case with blanks around it |
| PaymentPrices.ChargedExactly | payment/internal/service.go:101-155 | a stored order is charged its own total or, if that is 0, the sum of price times quantity, exactly if it is the user's and pending, the request is for its lines in any order, every price is positive, the sum fits an int64 and, unless the order is free, is the order's subtotal |
| PaymentPrices.BillIsTotal | payment/internal/service.go:212-253 | the lines are priced by the catalog, or by the mirror in VND for products the catalog does not know |
| PaymentPrices.NoPriceNoCharge | payment/internal/service.go:121-131 | a product that is unknown or only mirrored in another currency is never charged |
| PaymentService.CodeOfKnown | payment/internal/service.go:272-301 | a callback whose reference has a row gets 97 if unverified, blank or without an amount, else 02 if the row is settled, 04 for another amount, 00 otherwise |
| PaymentService.CodeOfOthers | payment/internal/service.go:272-280 | one whose reference has no row gets 97 or 01 |
| EventCounts.OrderCounts | admin/internal/repository.go:85-116 | order.created adds one order and its total to the GMV of its day, and nothing else |
| EventCounts.SuccessCounts | admin/internal/repository.go:85-116 | payment.success, payment.succeeded and payment.settled add one attempt, one success and the total to the revenue |
| EventCounts.FailureCounts | admin/internal/repository.go:85-116 | payment.failed and payment.failure add one attempt |
| EventCounts.OthersCountNothing | admin/internal/repository.go:85-116 | every other type adds nothing; the two account types are kept as audits, the first of an id |
| EventCounts.Recorded | admin/internal/repository.go:67-116 | an event is recorded in any case, and only the row of its own day can change |
| Text.LessExactly | admin/internal/reporting.go:57-62 | the order of ids is the lexicographic one |
| Tiff.Header | graphql/graph/chat_image_normalize.go:89-100 | the two headers are II*NUL and MM NUL* |
| Tiff.FirstCounts | graphql/graph/chat_image_normalize.go:100-119 | the orientation is the value of the first entry with tag 274, type SHORT and one value |
| Jpeg.ExifSegments | graphql/graph/chat_image_normalize.go:61-87 | only segments of marker 0xe1 that start with Exif and two zero bytes carry an orientation, that of the TIFF structure behind them |
| WebP.Names | graphql/graph/chat_image_normalize.go:157-197 | RIFF, WEBP, VP8X, EXIF, ANIM and ANMF are looked for under these very letters |
| QuoteTheorems.QuoteRefusals | order/internal/repository.go:73-126 | a valid request with a quote is refused for a negative total, for the coupon of a quote that is otherwise in order, or else for the quote; neither the unique index nor a missing order ever is the reason |
| CouponTheorems.UsesExactly | order/internal/repository.go:200-205 | the two use counts are the numbers of redemption rows of the code, and of the account among them |
| PaymentTheorems.FoundAtOnce | payment/internal/service.go:156-168 | a session that begins while its order has a pending row finds it and inserts nothing; it gets the row's reference if user and amount are its own |
| PaymentTheorems.LoserRecovers | payment/internal/service.go:179-195 | a session that looked too early and loses the insert recovers with the row that came in between |
| Vnpay.CallbackExactly | payment/vnpay/client.go:131-140 | an amount is read from exactly the numbers that are a hundred times it |
| Vnpay.NoNumber | payment/vnpay/client.go:131-134 | a text without digits, or with anything but digits after an optional sign, is no amount |
| Vnpay.ParsesPrinted | payment/vnpay/client.go:131-134 | numbers are read with or without sign, and refused exactly outside int64 |
| CartLimits.RivalPolite | cart/internal/service.go:400-456 | a rival who makes one request between two calls is one of the accounts every cart operation has to live with |
| CartLock.LeaseEnds | cart/internal/service.go:276-291 | a lease that ends frees the lock of a request that is past its save or gone |
| CartLock.ForgottenIsGone | cart/internal/service.go:370-378 | a proposal whose keys expired cannot be confirmed |
| CartLock.RefusedIsSilent | cart/internal/service.go:276-291 | a request that finds the lock taken, or crashed, never touches a key again |
| CartLock.ProposedIsApplied | cart/internal/service.go:324-456 | a proposal made for the current version and confirmed before anything else happens is applied, once, and the lock is free again |
| EventCounts.DeliverySucceeds | admin/internal/repository.go:67-83 | a delivery succeeds exactly if its event has an id and its transaction does not fail, and a recorded or failing one changes nothing |
| ConcurrentDeliveries.StartsAtOnce | admin/internal/repository.go:67-93 | a delivery waits for none of another id and day, nor for one of its day that found the row there |
| ConcurrentDeliveries.WaitsForInsert | admin/internal/repository.go:67-93 | it waits for one that is about to insert the same id or the row of the same day |
| Reporting.OrderAdds | admin/internal/reporting.go:18-36 | an order fact counts exactly if it is paid and in the window, whose end is excluded |
| Reporting.PaymentAdds | admin/internal/reporting.go:38-47 | a payment fact of the window is an attempt, and a success with its amount if its status is success or settled |
| Tiff.FoundExactly | graphql/graph/chat_image_normalize.go:89-119 | of all inputs: an orientation is found exactly in the bytes that hold a TIFF structure with it, wherever its directory lies in them; everything else gives 0 |
| Jpeg.WalkSized | graphql/graph/chat_image_normalize.go:61-87 | a sized segment is read or skipped, and marker 0xda ends the walk |
| WebP.StillByName | graphql/graph/chat_image_normalize.go:168-182 | exactly ANIM and ANMF chunks, and VP8X chunks that are shorter than ten bytes or have the animation flag, are refused |
| WebP.FinalIsLast | graphql/graph/chat_image_normalize.go:165-196 | the last EXIF chunk that gives an orientation decides |
| ServedOrders.BadRequestRefused | order/internal/server.go:76-89 | a request is in order exactly if it has 1 to 100 lines, none of them unnamed, of no quantity or of the product of one before it; any other changes nothing |
| ServedOrders.PostedWithCoupon | order/internal/server.go:69-140 | without a quote the order is of the products the catalog knows, with the coupon that the text spells: placed or refused, and charged, as that coupon says |
| ServedOrders.PostedWithout | order/internal/server.go:69-140 | with a blank text it is placed at its subtotal |
| ServedOrders.PostedQuote | order/internal/server.go:69-140 | from the preview to the server's answer, whatever runs in between: the quote makes an order exactly if the request is in order, its known products are the previewed ones, and account, time, use, version, subtotal and coupon are right |
| PaymentService.OpenedStores | payment/internal/service.go:169-179 | a new session's row holds order, user, amount, reference, reservations and checkout key of the request, pending and unsettled |
| ConcurrentDeliveries.RolledBackIsGone | admin/internal/repository.go:67-83 | a delivery that rolls back leaves tables and other deliveries and is no longer waited for |

## Left out

- A transaction reads the clock once, where the code reads it several times.
- UUIDs, lock tokens and payment references are fresh, and SHA-256 and the MAC injective; HMAC, hashing and
  JSON are not modelled, nor are the fields of the payment URL other than reference and amount.
- A cart operation finishes within its lock lease: the lease never ends between lock and save
  (the code assumes the same at cart/internal/service.go:282).
- CartService.Service.ConfirmCartProposal: its calls to Inventory, and the compensating ones, are answered; so are
  those of UpsertCartItem. A call that is carried out but not answered is CartLimits.UnansweredAgrees; lost
  releases and lost replies of RemoveCartItem and ClearCart are modelled.
- CartCalls.Rollback: every compensating call arrives, where the code ignores those that do not.
- Errors of the databases themselves, other than failing saves, marks and transactions: the callback code 99.
- That a failing transaction is rolled back is the database's promise and taken as given.
- PaymentEffects.Apply: the call to ClearCart is a flag; what it releases is covered by CommitLog.RepetitionInert.
- Checkout.CheckoutCartCod: lines that the account adds to the cart after the snapshot are dropped with it when it is
  emptied; what becomes of their holds is not followed.
- Projection.Dashboard: windows with both ends; an open end, the averages and the product metrics are left out.
- Coupons are never edited; order and payment status columns, cancellation and gaps in order ids are not modelled.
  A payment writes an order's payment status only; cancellation alone writes its status.
- PaymentService.Service.CreateCheckoutSession: without an order client, which payment/cmd/payment/main.go:59
  always configures, a session for order 0 would be made without a checkout key.
- ConcurrentDeliveries.UpdateLost: needs a row for the day; two transactions that would both create it wait for
  each other on its primary key.
- Prices are positive integers of dong; float rounding of prices and percentages is left out, and the total that
  PostOrder sums in floating point is a parameter.
- OrderServer.PostOrder: the lines are stored in the order of the catalog's answer, for which the request's order
  stands here; what is proved of them does not depend on it.
- Upper-casing of coupon codes is modelled for ASCII letters only.
- Nil entries in request lists, except in CheckoutItemsHash.
- Image decoding and encoding, and images whose bounds do not start at 0; padding bytes of WebP chunks are not
  looked at, though RFC 9649 wants them 0. In JPEG files that go on behind a misread
  length, what the walk finds there.
- Counters of the projection are far below their uint64 width.
- The online CheckoutCart resolver, which copies fields between calls modelled here; the rest of GraphQL, gRPC,
  Kafka, email, account, product, notification and recommender services and the web UI.
- Refunds and the customer portal, which the code does not support.
- Liveness: nothing says that a retry eventually succeeds.
