# Cinema tickets purchase rule

A Dafny model of the cinema ticket service: the validator that accepts or rejects a
purchase, the calculator that prices it and counts its seats, and the service that
runs them and then calls the payment and seat reservation collaborators.

- `tickets.dfy` (module `Tickets`): ticket categories (`Adult`, `Child`, `Infant`),
  line items `Req(t, n)`, the per-category sums `CountOf`, the `Total`, and the
  facts about these sums: additive, order independent, non-negative.
- `validator.dfy` (module `TicketOrderValidator`): `Validate` is `validate`'s loop,
  with the four counters and the early exits. It is proved equal to `Check`, the
  checks in source order. Each exception becomes `Fail(reason)`, with one tag per
  check. `CheckPassIff` shows exactly which orders are accepted. `CheckReasons`
  shows which reason each rejected order gets. The file also holds the 32-bit
  version of the counters (see Findings).
- `calculator.dfy` (module `TicketOrderCalculator`): `CalculateTotalAmount` and
  `CalculateSeatsToReserve` are the two accumulator loops. They are proved equal to
  the recursive `Amount` and `Seats`, whose meaning is given per category by
  `AmountByCategory` and `SeatsByCategory`.
- `ticket_service.dfy` (module `TicketService`): the class `TicketServiceImpl`.
  Its collaborators are replaced by a `trace` field that records each
  `MakePayment(accountId, amount)` and `ReserveSeat(accountId, seats)` call.
  `PurchaseTickets` appends exactly `PurchaseEvents(accountId, requests)`. That is
  nothing for a rejected order, and one payment followed by one reservation for an
  accepted one.

The account id is a Java `Long` that may be `null`; it is modelled as
`Option<int>`. Ticket counts are modelled as unbounded integers; the 32-bit
behaviour of the Java counters is modelled separately, in `Tally32` and `Check32`.

## Model

| member | source | states |
|---|---|---|
| TicketOrderValidator.Validate | cinema-tickets-java/src/main/java/uk/gov/dwp/uc/pairtest/validation/TicketOrderValidator.java:10-46 | the outcome is the first failing check in source order; the loop invariant keeps each counter equal to its category sum over the processed prefix, and `totalTickets` equal to the total |
| TicketOrderValidator.CheckPassIff | cinema-tickets-java/src/main/java/uk/gov/dwp/uc/pairtest/validation/TicketOrderValidator.java:10-46 | validate passes iff the account id is present and positive, no count is negative, the total is between 1 and 25, and there is at least one Adult ticket |
| TicketOrderValidator.CheckReasons | cinema-tickets-java/src/main/java/uk/gov/dwp/uc/pairtest/validation/TicketOrderValidator.java:11-45 | each reason is reported iff all earlier checks pass and its own fails: account, then negative count, then more than 25, then adult required (equivalently: 1 to 25 tickets and no Adult), then empty (total 0) |
| TicketOrderValidator.InvalidAccountRejected | cinema-tickets-java/src/main/java/uk/gov/dwp/uc/pairtest/validation/TicketOrderValidator.java:11-13 | a null or non-positive account id is rejected as an invalid account whatever the line items |
| TicketOrderValidator.NegativeCountRejected | cinema-tickets-java/src/main/java/uk/gov/dwp/uc/pairtest/validation/TicketOrderValidator.java:21-24 | with a valid account, one negative line item anywhere rejects the order as a negative count |
| TicketOrderValidator.TicketLimit | cinema-tickets-java/src/main/java/uk/gov/dwp/uc/pairtest/validation/TicketOrderValidator.java:8-37 | a total above 25 is rejected as too many tickets; a total of exactly 25 is not rejected for that reason |
| TicketOrderValidator.ChildOrInfantNeedAdult | cinema-tickets-java/src/main/java/uk/gov/dwp/uc/pairtest/validation/TicketOrderValidator.java:39-41 | Child or Infant tickets with no Adult ticket are always rejected |
| TicketOrderValidator.EmptyOrderRejected | cinema-tickets-java/src/main/java/uk/gov/dwp/uc/pairtest/validation/TicketOrderValidator.java:43-45 | an order whose counts sum to zero is always rejected |
| TicketOrderValidator.ValidateScenarios | cinema-tickets-java/src/test/java/uk/gov/dwp/uc/pairtest/TicketServiceImplTest.java:59-118 | the test suite's orders get the expected outcome: Child only or Infant only needs an Adult, 26 Adults is too many, 0 Adults and 0 Children is empty, a -1 Infant is negative, account 0 is invalid, 2A/3C/2I passes |
| TicketOrderValidator.Wrap | cinema-tickets-java/src/main/java/uk/gov/dwp/uc/pairtest/validation/TicketOrderValidator.java:26-31 | Java `int` addition: the result is in the 32-bit range, differs from the exact value by a multiple of 2^32, and equals it when the exact value is in range |
| TicketOrderValidator.Tally32 | cinema-tickets-java/src/main/java/uk/gov/dwp/uc/pairtest/validation/TicketOrderValidator.java:15-33 | the four counters as the Java loop keeps them are always 32-bit values |
| TicketOrderValidator.Check32 | cinema-tickets-java/src/main/java/uk/gov/dwp/uc/pairtest/validation/TicketOrderValidator.java:10-46 | validate as written, with the 32-bit counters: the account and negative-count checks give the exact rule's outcome; an accepted order has a valid account, no negative count and a wrapped total that is non-zero and at most 25, though it may be negative |
| TicketOrderValidator.Tally32Exact | cinema-tickets-java/src/main/java/uk/gov/dwp/uc/pairtest/validation/TicketOrderValidator.java:15-33 | with no negative count and a total that fits in an `int`, the 32-bit counters equal the exact total and category sums |
| TicketOrderValidator.Check32AgreesWithoutOverflow | cinema-tickets-java/src/main/java/uk/gov/dwp/uc/pairtest/validation/TicketOrderValidator.java:10-46 | when the total fits in an `int`, validate as written with 32-bit counters gives the same outcome as the exact rule |
| TicketOrderValidator.OverflowAcceptsOversizedOrder | cinema-tickets-java/src/main/java/uk/gov/dwp/uc/pairtest/validation/TicketOrderValidator.java:26-45 | two Adult items of 2147483647 wrap the counters to -2 and pass validate as written; the exact rule rejects them as too many |
| TicketOrderValidator.OverflowAcceptsThirtyAdults | cinema-tickets-java/src/main/java/uk/gov/dwp/uc/pairtest/validation/TicketOrderValidator.java:26-45 | 30 Adult tickets beside Infant items of 2147483647 and 2147483639 wrap the total to 20 and pass validate as written; the exact rule rejects them as too many |
| Tickets.TotalByCategory | cinema-tickets-java/src/main/java/uk/gov/dwp/uc/pairtest/validation/TicketOrderValidator.java:26-31 | the total equals the Adult, Child and Infant counts added together |
| Tickets.CountOfNonNegative | cinema-tickets-java/src/main/java/uk/gov/dwp/uc/pairtest/validation/TicketOrderValidator.java:21-31 | once no count is negative, every category count is non-negative |
| Tickets.CountOfAppend | cinema-tickets-java/src/main/java/uk/gov/dwp/uc/pairtest/validation/TicketOrderValidator.java:20-33 | a category count over a concatenation is the sum of the counts over the two parts |
| Tickets.CountOfPermutation | cinema-tickets-java/src/main/java/uk/gov/dwp/uc/pairtest/validation/TicketOrderValidator.java:20-33 | category counts do not depend on the order of the line items |
| Tickets.NoNegativePermutation | cinema-tickets-java/src/main/java/uk/gov/dwp/uc/pairtest/validation/TicketOrderValidator.java:20-24 | a reordering of the line items has a negative count iff the original has one |
| TicketOrderValidator.CheckOrderIndependent | cinema-tickets-java/src/main/java/uk/gov/dwp/uc/pairtest/validation/TicketOrderValidator.java:10-46 | reordering the line items changes neither the outcome nor the reported reason |
| TicketOrderCalculator.CalculateTotalAmount | cinema-tickets-java/src/main/java/uk/gov/dwp/uc/pairtest/service/TicketOrderCalculator.java:7-21 | the loop computes `Amount`, the sum of the line prices; 0 for no line items |
| TicketOrderCalculator.CalculateSeatsToReserve | cinema-tickets-java/src/main/java/uk/gov/dwp/uc/pairtest/service/TicketOrderCalculator.java:23-34 | the loop computes `Seats`, the sum of the line seat counts; 0 for no line items |
| TicketOrderCalculator.AmountByCategory | cinema-tickets-java/src/main/java/uk/gov/dwp/uc/pairtest/service/TicketOrderCalculator.java:13-17 | the total amount is 25 times the Adult count plus 15 times the Child count, so Infants add nothing |
| TicketOrderCalculator.SeatsByCategory | cinema-tickets-java/src/main/java/uk/gov/dwp/uc/pairtest/service/TicketOrderCalculator.java:27-30 | the seats are the Adult count plus the Child count, so Infants add no seats |
| TicketOrderCalculator.Additive | cinema-tickets-java/src/main/java/uk/gov/dwp/uc/pairtest/service/TicketOrderCalculator.java:10-31 | amount and seats of a concatenation are the sums of those of its parts |
| TicketOrderCalculator.OrderIndependent | cinema-tickets-java/src/main/java/uk/gov/dwp/uc/pairtest/service/TicketOrderCalculator.java:10-31 | any reordering of the line items gives the same amount and the same seats |
| TicketOrderCalculator.InfantsAddNothing | cinema-tickets-java/src/main/java/uk/gov/dwp/uc/pairtest/service/TicketOrderCalculator.java:16-29 | inserting an Infant line item anywhere changes neither the amount nor the seats |
| TicketOrderCalculator.PriceBounds | cinema-tickets-java/src/main/java/uk/gov/dwp/uc/pairtest/service/TicketOrderCalculator.java:14-28 | with no negative count, 15 times the seats is at most the amount, which is at most 25 times the seats |
| TicketOrderCalculator.CalculatorScenarios | cinema-tickets-java/src/test/java/uk/gov/dwp/uc/pairtest/TicketServiceImplTest.java:26-68 | the empty order costs 0 for 0 seats; 1A costs 25 for 1 seat, 1A1C 40 for 2, 1A1I 25 for 1, 2A3C2I 95 for 5 |
| TicketService.TicketServiceImpl.constructor | cinema-tickets-java/src/main/java/uk/gov/dwp/uc/pairtest/TicketServiceImpl.java:45-50 | a new service has made no collaborator call |
| TicketService.TicketServiceImpl.PurchaseTickets | cinema-tickets-java/src/main/java/uk/gov/dwp/uc/pairtest/TicketServiceImpl.java:62-70 | reports validate's outcome; appends nothing for a rejected order, and for an accepted one appends the payment of the computed amount and then the reservation of the computed seats, both for the purchasing account |
| TicketService.NoCallsIffInvalid | cinema-tickets-java/src/main/java/uk/gov/dwp/uc/pairtest/TicketServiceImpl.java:63-69 | a purchase makes no collaborator call iff the order is not valid |
| TicketService.ValidPurchaseEvents | cinema-tickets-java/src/main/java/uk/gov/dwp/uc/pairtest/TicketServiceImpl.java:65-69 | a valid purchase makes exactly two calls: a payment of 25A + 15C, then a reservation of A + C seats, both for the same account |
| TicketService.ValidPurchaseBounds | cinema-tickets-java/src/main/java/uk/gov/dwp/uc/pairtest/TicketServiceImpl.java:63-66 | a valid purchase reserves 1 to 25 seats, pays between 15 and 25 per seat, and pays between 25 and 625 in all |
| TicketService.PurchaseScenarios | cinema-tickets-java/src/test/java/uk/gov/dwp/uc/pairtest/TicketServiceImplTest.java:59-118 | account 2 with 2A/3C/2I calls `makePayment(2, 95)` then `reserveSeat(2, 5)`; account 0 calls nothing |
| TicketService.WrappedPurchaseScenarios | cinema-tickets-java/src/main/java/uk/gov/dwp/uc/pairtest/TicketServiceImpl.java:65-69 | for the order of 30 Adults above the amount is 750 for 30 seats; for two Adult items of 2147483647 the Java `int` amount wraps to -50 and the seat count to -2 |
| TicketService.PurchaseTwice | cinema-tickets-java/src/main/java/uk/gov/dwp/uc/pairtest/TicketServiceImpl.java:62-70 | after a rejected `[Req(Child, 2)]` and an accepted `[Req(Adult, 1)]` on a new service for account 1, the trace is exactly `[MakePayment(1, 25), ReserveSeat(1, 1)]` |

## Left out

- The no-argument constructor and the third-party `TicketPaymentServiceImpl` and `SeatReservationServiceImpl` it creates are not part of this model. The collaborators are modelled only by the calls they receive. Any failure inside them is not modelled; they are taken to always succeed.
- `TicketTypeRequest` is not part of this model. A line item is only the pair its two getters return. Checks made when a request is constructed, and `null` entries in the request array, are not modelled.
- Exception messages are not modelled; each check has its own `Rejection` tag.
- The account id is an unbounded integer, not a 64-bit `Long`; only its `null` case is kept.
- TicketOrderValidator.Validate: uses exact integers, not Java's wrapping 32-bit counters. It agrees with the code whenever the total fits in an `int` (`Check32AgreesWithoutOverflow`). The code as written is modelled by `Check32` (see Findings).
- TicketOrderCalculator.CalculateTotalAmount: does not model 32-bit wrap-around of `count * 25`, `count * 15` and `total +=`. On orders the exact rule accepts, the amount is at most 625 (`ValidPurchaseBounds`), so nothing overflows there. On orders the code as written accepts, the amount can wrap: two Adult items of 2147483647 pay -50 (`WrappedPurchaseScenarios`).
- TicketOrderCalculator.CalculateSeatsToReserve: does not model 32-bit wrap-around of `seats +=`. On orders the exact rule accepts, the result is at most 25. On orders the code as written accepts, it can be larger or negative: two Adult items of 2147483647 reserve -2 seats (`WrappedPurchaseScenarios`).
- TicketService.TicketServiceImpl.PurchaseTickets: validates with the exact rule. The code as written pays and reserves for every order `Check32` accepts. That includes orders of more than 25 seats whose amount does not wrap, such as 30 Adult tickets beside two Infant items whose counts wrap the total to 20 (750 paid, 30 seats; `OverflowAcceptsThirtyAdults`, `WrappedPurchaseScenarios`). It also includes orders whose amount and seats wrap. The model makes no calls for any of these.

## Findings

| source | as written | input that shows it | evidently intended | confidence | as-written member | corrected member |
|---|---|---|---|---|---|---|
| cinema-tickets-java/src/main/java/uk/gov/dwp/uc/pairtest/validation/TicketOrderValidator.java:26-45 | `totalTickets += count` and `adultCount += count` are 32-bit `int` additions that wrap | account 1 with two Adult line items of 2147483647: both counters become -2, so the limit, adult and empty checks all pass | an order of more than 25 tickets is rejected whatever the counts | not executed; follows from Java `int` semantics | TicketOrderValidator.OverflowAcceptsOversizedOrder | TicketOrderValidator.CheckPassIff |
