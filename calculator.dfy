/** TicketOrderCalculator: the price of an order and the number of seats it needs,
    each computed by an accumulator loop over the line items. */
module TicketOrderCalculator {
  import opened Tickets

  /** Unit prices per category. */
  const ADULT_PRICE: int := 25
  const CHILD_PRICE: int := 15
  const INFANT_PRICE: int := 0

  /** What one line item adds to the total amount. */
  function LinePrice(r: Req): int
  {
    match r.t
    case Adult => r.n * ADULT_PRICE
    case Child => r.n * CHILD_PRICE
    case Infant => INFANT_PRICE
  }

  /** What one line item adds to the seat count: Infants sit on an Adult's lap. */
  function LineSeats(r: Req): int
  {
    match r.t
    case Adult => r.n
    case Child => r.n
    case Infant => 0
  }

  /** The total amount: the line prices summed in order. */
  function Amount(rs: seq<Req>): int
  {
    if rs == [] then 0 else Amount(rs[..|rs| - 1]) + LinePrice(rs[|rs| - 1])
  }

  /** The seats to reserve: the line seat counts summed in order. */
  function Seats(rs: seq<Req>): int
  {
    if rs == [] then 0 else Seats(rs[..|rs| - 1]) + LineSeats(rs[|rs| - 1])
  }

  /** calculateTotalAmount. */
  method CalculateTotalAmount(requests: seq<Req>) returns (total: int)
    ensures total == Amount(requests)
  {
    total := 0;
    for i := 0 to |requests|
      invariant total == Amount(requests[..i])
    {
      assert requests[..i + 1][..i] == requests[..i];
      var count := requests[i].n;
      match requests[i].t
      case Adult => total := total + count * ADULT_PRICE;
      case Child => total := total + count * CHILD_PRICE;
      case Infant => total := total + INFANT_PRICE;
    }
    assert requests[..|requests|] == requests;
  }

  /** calculateSeatsToReserve. */
  method CalculateSeatsToReserve(requests: seq<Req>) returns (seats: int)
    ensures seats == Seats(requests)
  {
    seats := 0;
    for i := 0 to |requests|
      invariant seats == Seats(requests[..i])
    {
      assert requests[..i + 1][..i] == requests[..i];
      match requests[i].t
      case Adult => seats := seats + requests[i].n;
      case Child => seats := seats + requests[i].n;
      case Infant =>
    }
    assert requests[..|requests|] == requests;
  }

  /** The amount is 25 per Adult ticket plus 15 per Child ticket; Infants are free. */
  lemma {:induction false} AmountByCategory(rs: seq<Req>)
    ensures Amount(rs) == ADULT_PRICE * CountOf(rs, Adult) + CHILD_PRICE * CountOf(rs, Child)
  {
    if rs != [] {
      AmountByCategory(rs[..|rs| - 1]);
    }
  }

  /** The seats are one per Adult ticket and one per Child ticket; Infants take none. */
  lemma {:induction false} SeatsByCategory(rs: seq<Req>)
    ensures Seats(rs) == CountOf(rs, Adult) + CountOf(rs, Child)
  {
    if rs != [] {
      SeatsByCategory(rs[..|rs| - 1]);
    }
  }

  /** Both results are additive over concatenation. */
  lemma Additive(a: seq<Req>, b: seq<Req>)
    ensures Amount(a + b) == Amount(a) + Amount(b)
    ensures Seats(a + b) == Seats(a) + Seats(b)
  {
    AmountByCategory(a);
    AmountByCategory(b);
    AmountByCategory(a + b);
    SeatsByCategory(a);
    SeatsByCategory(b);
    SeatsByCategory(a + b);
    CountOfAppend(a, b, Adult);
    CountOfAppend(a, b, Child);
  }

  /** Neither result depends on the order of the line items. */
  lemma OrderIndependent(a: seq<Req>, b: seq<Req>)
    requires multiset(a) == multiset(b)
    ensures Amount(a) == Amount(b)
    ensures Seats(a) == Seats(b)
  {
    AmountByCategory(a);
    AmountByCategory(b);
    SeatsByCategory(a);
    SeatsByCategory(b);
    CountOfPermutation(a, b, Adult);
    CountOfPermutation(a, b, Child);
  }

  /** An Infant line item, wherever it stands, adds nothing to the amount or the seats. */
  lemma InfantsAddNothing(a: seq<Req>, b: seq<Req>, n: int)
    ensures Amount(a + [Req(Infant, n)] + b) == Amount(a + b)
    ensures Seats(a + [Req(Infant, n)] + b) == Seats(a + b)
  {
    Additive(a, [Req(Infant, n)]);
    Additive(a + [Req(Infant, n)], b);
    Additive(a, b);
    assert [Req(Infant, n)][..0] == [];
  }

  /** With no negative count, every seat costs between the Child and the Adult price. */
  lemma {:induction false} PriceBounds(rs: seq<Req>)
    requires NoNegative(rs)
    ensures CHILD_PRICE * Seats(rs) <= Amount(rs) <= ADULT_PRICE * Seats(rs)
  {
    AmountByCategory(rs);
    SeatsByCategory(rs);
    CountOfNonNegative(rs, Adult);
    CountOfNonNegative(rs, Child);
  }

  /** The orders of the test suite, and the empty order. */
  lemma CalculatorScenarios()
    ensures Amount([]) == 0 && Seats([]) == 0
    ensures Amount([Req(Adult, 1)]) == 25 && Seats([Req(Adult, 1)]) == 1
    ensures Amount([Req(Adult, 1), Req(Child, 1)]) == 40 && Seats([Req(Adult, 1), Req(Child, 1)]) == 2
    ensures Amount([Req(Adult, 1), Req(Infant, 1)]) == 25 && Seats([Req(Adult, 1), Req(Infant, 1)]) == 1
    ensures Amount([Req(Adult, 2), Req(Child, 3), Req(Infant, 2)]) == 95
    ensures Seats([Req(Adult, 2), Req(Child, 3), Req(Infant, 2)]) == 5
  {
  }
}
