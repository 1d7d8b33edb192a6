/** TicketOrderValidator: the purchase rule. The account id is checked first, then the
    line items are folded into four running counters, rejecting a negative count as
    soon as it is seen, and then three guards run on the counters. */
module TicketOrderValidator {
  import opened Tickets

  /** The largest number of tickets one purchase may hold. */
  const MAX_TICKETS: int := 25

  /** One tag per check, in the order the checks run. */
  datatype Rejection = InvalidAccount | NegativeCount | TooManyTickets | AdultRequired | EmptyOrder

  /** validate returns normally (Pass) or throws InvalidPurchaseException (Fail). */
  datatype Outcome = Pass | Fail(reason: Rejection)

  /** The account id is present and strictly positive. */
  predicate AccountValid(accountId: Option<int>)
  {
    accountId.Some? && accountId.value > 0
  }

  /** The outcome of validate: the first check that fails, in source order. */
  function Check(accountId: Option<int>, rs: seq<Req>): Outcome
  {
    if !AccountValid(accountId) then Fail(InvalidAccount)
    else if !NoNegative(rs) then Fail(NegativeCount)
    else if Total(rs) > MAX_TICKETS then Fail(TooManyTickets)
    else if CountOf(rs, Adult) == 0 && (CountOf(rs, Child) > 0 || CountOf(rs, Infant) > 0) then Fail(AdultRequired)
    else if Total(rs) == 0 then Fail(EmptyOrder)
    else Pass
  }

  /** The orders validate accepts, stated without reference to the order of the checks. */
  predicate ValidPurchase(accountId: Option<int>, rs: seq<Req>)
  {
    AccountValid(accountId) && NoNegative(rs) && 1 <= Total(rs) <= MAX_TICKETS && CountOf(rs, Adult) >= 1
  }

  /** validate: the counters are the category sums of the prefix processed so far. */
  method Validate(accountId: Option<int>, requests: seq<Req>) returns (outcome: Outcome)
    ensures outcome == Check(accountId, requests)
  {
    if accountId.None? || accountId.value <= 0 {
      return Fail(InvalidAccount);
    }
    var totalTickets, adultCount, childCount, infantCount := 0, 0, 0, 0;
    for i := 0 to |requests|
      invariant NoNegative(requests[..i])
      invariant totalTickets == Total(requests[..i])
      invariant adultCount == CountOf(requests[..i], Adult)
      invariant childCount == CountOf(requests[..i], Child)
      invariant infantCount == CountOf(requests[..i], Infant)
    {
      var count := requests[i].n;
      if count < 0 {
        return Fail(NegativeCount);
      }
      assert requests[..i + 1][..i] == requests[..i];
      totalTickets := totalTickets + count;
      match requests[i].t
      case Adult => adultCount := adultCount + count;
      case Child => childCount := childCount + count;
      case Infant => infantCount := infantCount + count;
    }
    assert requests[..|requests|] == requests;
    if totalTickets > MAX_TICKETS {
      return Fail(TooManyTickets);
    }
    if adultCount == 0 && (childCount > 0 || infantCount > 0) {
      return Fail(AdultRequired);
    }
    if totalTickets == 0 {
      return Fail(EmptyOrder);
    }
    return Pass;
  }

  /** validate succeeds exactly on valid purchases. */
  lemma CheckPassIff(accountId: Option<int>, rs: seq<Req>)
    ensures Check(accountId, rs) == Pass <==> ValidPurchase(accountId, rs)
  {
    if AccountValid(accountId) && NoNegative(rs) {
      TotalByCategory(rs);
      CountOfNonNegative(rs, Adult);
      CountOfNonNegative(rs, Child);
      CountOfNonNegative(rs, Infant);
    }
  }

  /** The reported reason is the first violated condition, each stated on the whole order. */
  lemma CheckReasons(accountId: Option<int>, rs: seq<Req>)
    ensures Check(accountId, rs) == Fail(InvalidAccount) <==> !AccountValid(accountId)
    ensures Check(accountId, rs) == Fail(NegativeCount) <==> AccountValid(accountId) && !NoNegative(rs)
    ensures Check(accountId, rs) == Fail(TooManyTickets)
      <==> AccountValid(accountId) && NoNegative(rs) && Total(rs) > MAX_TICKETS
    ensures Check(accountId, rs) == Fail(AdultRequired)
      <==> AccountValid(accountId) && NoNegative(rs) && 1 <= Total(rs) <= MAX_TICKETS && CountOf(rs, Adult) == 0
    ensures Check(accountId, rs) == Fail(EmptyOrder)
      <==> AccountValid(accountId) && NoNegative(rs) && Total(rs) == 0
  {
    if AccountValid(accountId) && NoNegative(rs) {
      TotalByCategory(rs);
      CountOfNonNegative(rs, Adult);
      CountOfNonNegative(rs, Child);
      CountOfNonNegative(rs, Infant);
    }
  }

  /** The outcome, reason included, does not depend on the order of the line items. */
  lemma CheckOrderIndependent(accountId: Option<int>, a: seq<Req>, b: seq<Req>)
    requires multiset(a) == multiset(b)
    ensures Check(accountId, a) == Check(accountId, b)
  {
    NoNegativePermutation(a, b);
    TotalByCategory(a);
    TotalByCategory(b);
    CountOfPermutation(a, b, Adult);
    CountOfPermutation(a, b, Child);
    CountOfPermutation(a, b, Infant);
  }

  /** A missing or non-positive account id is rejected whatever the line items are. */
  lemma InvalidAccountRejected(accountId: Option<int>, rs: seq<Req>)
    requires accountId.None? || accountId.value <= 0
    ensures Check(accountId, rs) == Fail(InvalidAccount)
  {
  }

  /** A negative line item rejects the order, however valid the other items are. */
  lemma NegativeCountRejected(accountId: Option<int>, rs: seq<Req>, i: int)
    requires AccountValid(accountId) && 0 <= i < |rs| && rs[i].n < 0
    ensures Check(accountId, rs) == Fail(NegativeCount)
  {
  }

  /** More than 25 tickets is rejected for that reason; 25 is not rejected for it. */
  lemma TicketLimit(accountId: Option<int>, rs: seq<Req>)
    requires AccountValid(accountId) && NoNegative(rs)
    ensures Total(rs) > MAX_TICKETS ==> Check(accountId, rs) == Fail(TooManyTickets)
    ensures Total(rs) == MAX_TICKETS ==> Check(accountId, rs) != Fail(TooManyTickets)
  {
  }

  /** Child or Infant tickets with no Adult ticket are never accepted. */
  lemma ChildOrInfantNeedAdult(accountId: Option<int>, rs: seq<Req>)
    requires CountOf(rs, Adult) == 0 && (CountOf(rs, Child) > 0 || CountOf(rs, Infant) > 0)
    ensures Check(accountId, rs).Fail?
  {
  }

  /** An order whose counts sum to zero is never accepted. */
  lemma EmptyOrderRejected(accountId: Option<int>, rs: seq<Req>)
    requires Total(rs) == 0
    ensures Check(accountId, rs).Fail?
  {
  }

  /** The rejection scenarios of the test suite, and the accepted 2 Adult, 3 Child, 2 Infant order. */
  lemma ValidateScenarios()
    ensures Check(Some(1), [Req(Child, 2)]) == Fail(AdultRequired)
    ensures Check(Some(1), [Req(Infant, 3)]) == Fail(AdultRequired)
    ensures Check(Some(1), [Req(Adult, 26)]) == Fail(TooManyTickets)
    ensures Check(Some(1), [Req(Adult, 0), Req(Child, 0)]) == Fail(EmptyOrder)
    ensures Check(Some(1), [Req(Adult, 1), Req(Infant, -1)]) == Fail(NegativeCount)
    ensures Check(Some(0), [Req(Adult, 1)]) == Fail(InvalidAccount)
    ensures Check(Some(2), [Req(Adult, 2), Req(Child, 3), Req(Infant, 2)]) == Pass
  {
    assert [Req(Adult, 0), Req(Child, 0)][..1] == [Req(Adult, 0)];
    assert [Req(Adult, 1), Req(Infant, -1)][1].n < 0;
    var s := [Req(Adult, 2), Req(Child, 3), Req(Infant, 2)];
    assert s[..2] == [Req(Adult, 2), Req(Child, 3)];
    assert s[..2][..1] == [Req(Adult, 2)];
    assert [Req(Adult, 2)][..0] == [];
    assert CountOf([Req(Adult, 2)], Adult) == 2;
    assert CountOf(s[..2], Adult) == 2;
    assert Total(s) == 7 && CountOf(s, Adult) == 2;
  }

  // The Java counters are 32-bit ints and `+=` wraps around modulo 2^32.

  /** The largest Java int. */
  const INT_MAX: int := 0x7fff_ffff

  /** x is representable as a Java int. */
  predicate IsInt(x: int)
  {
    -0x8000_0000 <= x <= INT_MAX
  }

  /** Java int arithmetic: x reduced into the int range modulo 2^32. */
  function Wrap(x: int): (r: int)
    ensures IsInt(r)
    ensures IsInt(x) ==> r == x
    ensures (r - x) % 0x1_0000_0000 == 0
  {
    (x + 0x8000_0000) % 0x1_0000_0000 - 0x8000_0000
  }

  /** The four counters of validate after its loop. */
  datatype Counters = Counters(total: int, adult: int, child: int, infant: int)

  /** The counters as the Java loop computes them, each `+=` wrapping. */
  function Tally32(rs: seq<Req>): (c: Counters)
    ensures IsInt(c.total) && IsInt(c.adult) && IsInt(c.child) && IsInt(c.infant)
  {
    if rs == [] then Counters(0, 0, 0, 0)
    else
      var c := Tally32(rs[..|rs| - 1]);
      var r := rs[|rs| - 1];
      Counters(Wrap(c.total + r.n),
               if r.t == Adult then Wrap(c.adult + r.n) else c.adult,
               if r.t == Child then Wrap(c.child + r.n) else c.child,
               if r.t == Infant then Wrap(c.infant + r.n) else c.infant)
  }

  /** validate exactly as written, with 32-bit counters. The account and negative-count
      checks are those of the exact rule; an accepted order has a valid account, no negative
      count and a wrapped total that is non-zero and at most 25, though it may be negative. */
  function Check32(accountId: Option<int>, rs: seq<Req>): (r: Outcome)
    ensures !AccountValid(accountId) || !NoNegative(rs) ==> r == Check(accountId, rs)
    ensures r == Pass ==> AccountValid(accountId) && NoNegative(rs)
                          && Tally32(rs).total != 0 && Tally32(rs).total <= MAX_TICKETS
  {
    if !AccountValid(accountId) then Fail(InvalidAccount)
    else if !NoNegative(rs) then Fail(NegativeCount)
    else
      var c := Tally32(rs);
      if c.total > MAX_TICKETS then Fail(TooManyTickets)
      else if c.adult == 0 && (c.child > 0 || c.infant > 0) then Fail(AdultRequired)
      else if c.total == 0 then Fail(EmptyOrder)
      else Pass
  }

  /** Two Adult line items of the largest int wrap the total to -2, and the order of
      4294967294 tickets is accepted; the intended rule rejects it. */
  lemma OverflowAcceptsOversizedOrder()
    ensures Check32(Some(1), [Req(Adult, INT_MAX), Req(Adult, INT_MAX)]) == Pass
    ensures Check(Some(1), [Req(Adult, INT_MAX), Req(Adult, INT_MAX)]) == Fail(TooManyTickets)
  {
    var s := [Req(Adult, INT_MAX), Req(Adult, INT_MAX)];
    assert s[..1] == [Req(Adult, INT_MAX)];
    assert Tally32(s[..1]) == Counters(INT_MAX, INT_MAX, 0, 0);
    assert Tally32(s) == Counters(-2, -2, 0, 0);
    assert [Req(Adult, INT_MAX)][..0] == [];
    assert Total(s[..1]) == INT_MAX;
    assert Total(s) == 2 * INT_MAX;
  }

  /** With 30 Adult tickets and two Infant items whose counts wrap the total to 20, an
      order of 30 seats passes validate as written; the intended rule rejects it. */
  lemma OverflowAcceptsThirtyAdults()
    ensures Check32(Some(1), [Req(Adult, 30), Req(Infant, INT_MAX), Req(Infant, 2147483639)]) == Pass
    ensures Check(Some(1), [Req(Adult, 30), Req(Infant, INT_MAX), Req(Infant, 2147483639)]) == Fail(TooManyTickets)
  {
    var s := [Req(Adult, 30), Req(Infant, INT_MAX), Req(Infant, 2147483639)];
    assert s[..2] == [Req(Adult, 30), Req(Infant, INT_MAX)];
    assert s[..2][..1] == [Req(Adult, 30)];
    assert [Req(Adult, 30)][..0] == [];
    assert Tally32(s[..2][..1]) == Counters(30, 30, 0, 0);
    assert Tally32(s[..2]) == Counters(-2147483619, 30, 0, INT_MAX);
    assert Tally32(s) == Counters(20, 30, 0, -10);
    assert Total(s[..2][..1]) == 30;
    assert Total(s[..2]) == 30 + INT_MAX;
  }

  /** While no counter can overflow, the 32-bit counters are the category sums. */
  lemma {:induction false} Tally32Exact(rs: seq<Req>)
    requires NoNegative(rs) && Total(rs) <= INT_MAX
    ensures Tally32(rs) == Counters(Total(rs), CountOf(rs, Adult), CountOf(rs, Child), CountOf(rs, Infant))
  {
    if rs != [] {
      var p := rs[..|rs| - 1];
      assert NoNegative(p) by {
        forall i | 0 <= i < |p| ensures p[i].n >= 0 {
          assert p[i] == rs[i];
        }
      }
      assert rs[|rs| - 1].n >= 0;
      Tally32Exact(p);
      TotalByCategory(rs);
      CountOfNonNegative(rs, Adult);
      CountOfNonNegative(rs, Child);
      CountOfNonNegative(rs, Infant);
      CountOfNonNegative(p, Adult);
      CountOfNonNegative(p, Child);
      CountOfNonNegative(p, Infant);
    }
  }

  /** The code as written and the intended rule agree on every order whose total fits in an int. */
  lemma Check32AgreesWithoutOverflow(accountId: Option<int>, rs: seq<Req>)
    requires Total(rs) <= INT_MAX
    ensures Check32(accountId, rs) == Check(accountId, rs)
  {
    if AccountValid(accountId) && NoNegative(rs) {
      Tally32Exact(rs);
    }
  }
}
