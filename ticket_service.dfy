/** TicketServiceImpl: validate the order, compute amount and seats, then pay and
    reserve. The payment and seat reservation collaborators are modelled by the calls
    they receive, recorded in order in a trace. */
module TicketService {
  import opened Tickets
  import opened TicketOrderValidator
  import opened TicketOrderCalculator

  /** One call to a collaborator: makePayment(accountId, amount) or reserveSeat(accountId, seats). */
  datatype Event = MakePayment(accountId: int, amount: int) | ReserveSeat(accountId: int, seats: int)

  /** The collaborator calls one purchase causes. */
  function PurchaseEvents(accountId: Option<int>, rs: seq<Req>): seq<Event>
  {
    if Check(accountId, rs) == Pass
    then [MakePayment(accountId.value, Amount(rs)), ReserveSeat(accountId.value, Seats(rs))]
    else []
  }

  class TicketServiceImpl {
    /** Every call made so far to the payment and seat reservation services. */
    var trace: seq<Event>

    /** A service whose collaborators have not been called yet. */
    constructor ()
      ensures trace == []
    {
      trace := [];
    }

    /** purchaseTickets: a rejected order is reported and calls nothing; an accepted
        one is paid for, then its seats are reserved. */
    method PurchaseTickets(accountId: Option<int>, requests: seq<Req>) returns (outcome: Outcome)
      modifies this
      ensures outcome == Check(accountId, requests)
      ensures trace == old(trace) + PurchaseEvents(accountId, requests)
    {
      outcome := Validate(accountId, requests);
      if outcome.Fail? {
        return;
      }
      var totalAmount := CalculateTotalAmount(requests);
      var seatsToReserve := CalculateSeatsToReserve(requests);
      trace := trace + [MakePayment(accountId.value, totalAmount)];
      trace := trace + [ReserveSeat(accountId.value, seatsToReserve)];
    }
  }

  /** A purchase calls no collaborator exactly when the order is not valid. */
  lemma NoCallsIffInvalid(accountId: Option<int>, rs: seq<Req>)
    ensures PurchaseEvents(accountId, rs) == [] <==> !ValidPurchase(accountId, rs)
  {
    CheckPassIff(accountId, rs);
  }

  /** A valid purchase pays 25 per Adult and 15 per Child, then reserves one seat per
      Adult and Child, both for the purchasing account. */
  lemma ValidPurchaseEvents(accountId: Option<int>, rs: seq<Req>)
    requires ValidPurchase(accountId, rs)
    ensures PurchaseEvents(accountId, rs) == [
      MakePayment(accountId.value, ADULT_PRICE * CountOf(rs, Adult) + CHILD_PRICE * CountOf(rs, Child)),
      ReserveSeat(accountId.value, CountOf(rs, Adult) + CountOf(rs, Child))]
  {
    CheckPassIff(accountId, rs);
    AmountByCategory(rs);
    SeatsByCategory(rs);
  }

  /** A valid purchase reserves between 1 and 25 seats and pays between the Child and
      the Adult price for each of them. */
  lemma ValidPurchaseBounds(accountId: Option<int>, rs: seq<Req>)
    requires ValidPurchase(accountId, rs)
    ensures 1 <= Seats(rs) <= MAX_TICKETS
    ensures CHILD_PRICE * Seats(rs) <= Amount(rs) <= ADULT_PRICE * Seats(rs)
    ensures ADULT_PRICE <= Amount(rs) <= ADULT_PRICE * MAX_TICKETS
  {
    SeatsByCategory(rs);
    AmountByCategory(rs);
    TotalByCategory(rs);
    CountOfNonNegative(rs, Child);
    CountOfNonNegative(rs, Infant);
    PriceBounds(rs);
  }

  /** Account 2 buying 2 Adult, 3 Child and 2 Infant tickets pays 95 and reserves 5 seats;
      account 0 causes no call. */
  lemma PurchaseScenarios()
    ensures PurchaseEvents(Some(2), [Req(Adult, 2), Req(Child, 3), Req(Infant, 2)])
      == [MakePayment(2, 95), ReserveSeat(2, 5)]
    ensures PurchaseEvents(Some(0), [Req(Adult, 1)]) == []
  {
    ValidateScenarios();
    CalculatorScenarios();
  }

  /** What the code as written would send the collaborators for orders that only its
      wrapped counters accept: 30 Adults beside two large Infant items are charged 750 for
      30 seats, and two Adult items of the largest int are charged the wrapped amount -50
      for the wrapped seat count -2. */
  lemma WrappedPurchaseScenarios()
    ensures Amount([Req(Adult, 30), Req(Infant, INT_MAX), Req(Infant, 2147483639)]) == 750
    ensures Seats([Req(Adult, 30), Req(Infant, INT_MAX), Req(Infant, 2147483639)]) == 30
    ensures Wrap(Wrap(0 + Wrap(INT_MAX * ADULT_PRICE)) + Wrap(INT_MAX * ADULT_PRICE)) == -50
    ensures Wrap(Wrap(0 + INT_MAX) + INT_MAX) == -2
  {
    var s := [Req(Adult, 30), Req(Infant, INT_MAX), Req(Infant, 2147483639)];
    assert s[..2] == [Req(Adult, 30), Req(Infant, INT_MAX)];
    assert s[..2][..1] == [Req(Adult, 30)];
    assert [Req(Adult, 30)][..0] == [];
    assert Amount(s[..2][..1]) == 750 && Seats(s[..2][..1]) == 30;
    assert Amount(s[..2]) == 750 && Seats(s[..2]) == 30;
  }

  /** A new service, a rejected Child-only purchase and then an accepted one-Adult purchase
      for account 1: the trace holds exactly that purchase's payment and reservation. */
  method PurchaseTwice() returns (service: TicketServiceImpl)
    ensures service.trace == [MakePayment(1, 25), ReserveSeat(1, 1)]
  {
    service := new TicketServiceImpl();
    var rejected := service.PurchaseTickets(Some(1), [Req(Child, 2)]);
    ValidateScenarios();
    assert rejected == Fail(AdultRequired);
    var accepted := service.PurchaseTickets(Some(1), [Req(Adult, 1)]);
    CalculatorScenarios();
    assert [Req(Adult, 1)][..0] == [];
    assert Total([Req(Adult, 1)]) == 1 && CountOf([Req(Adult, 1)], Adult) == 1;
  }
}
