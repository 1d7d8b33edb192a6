/** The request data shared by the validator, the calculator and the service:
    ticket categories, line items, and the per-category sums of their counts. */
module Tickets {

  /** A value that may be absent; used for the account id, a boxed Long that may be null. */
  datatype Option<T> = None | Some(value: T)

  /** The closed set of ticket categories. */
  datatype TicketType = Adult | Child | Infant

  /** One line item of a purchase: the pair returned by getTicketType() and
      getNoOfTickets(). The count comes from the caller and may be negative. */
  datatype Req = Req(t: TicketType, n: int)

  /** The sum of the counts of the line items of category t. */
  function CountOf(rs: seq<Req>, t: TicketType): int
  {
    if rs == [] then 0
    else CountOf(rs[..|rs| - 1], t) + (if rs[|rs| - 1].t == t then rs[|rs| - 1].n else 0)
  }

  /** The sum of the counts of all line items, whatever their category. */
  function Total(rs: seq<Req>): int
  {
    if rs == [] then 0 else Total(rs[..|rs| - 1]) + rs[|rs| - 1].n
  }

  /** No line item asks for a negative number of tickets. */
  predicate NoNegative(rs: seq<Req>)
  {
    forall i :: 0 <= i < |rs| ==> rs[i].n >= 0
  }

  /** The total is the sum of the three category counts. */
  lemma {:induction false} TotalByCategory(rs: seq<Req>)
    ensures Total(rs) == CountOf(rs, Adult) + CountOf(rs, Child) + CountOf(rs, Infant)
  {
    if rs != [] {
      TotalByCategory(rs[..|rs| - 1]);
    }
  }

  /** With no negative line item, every category count is non-negative. */
  lemma {:induction false} CountOfNonNegative(rs: seq<Req>, t: TicketType)
    requires NoNegative(rs)
    ensures CountOf(rs, t) >= 0
  {
    if rs != [] {
      var p := rs[..|rs| - 1];
      assert NoNegative(p) by {
        forall i | 0 <= i < |p| ensures p[i].n >= 0 {
          assert p[i] == rs[i];
        }
      }
      CountOfNonNegative(p, t);
      assert rs[|rs| - 1].n >= 0;
    }
  }

  /** Category counts are additive over concatenation of line-item sequences. */
  lemma {:induction false} CountOfAppend(a: seq<Req>, b: seq<Req>, t: TicketType)
    ensures CountOf(a + b, t) == CountOf(a, t) + CountOf(b, t)
    decreases |b|
  {
    if b == [] {
      assert a + b == a;
    } else {
      var b' := b[..|b| - 1];
      assert (a + b)[..|a + b| - 1] == a + b';
      assert (a + b)[|a + b| - 1] == b[|b| - 1];
      CountOfAppend(a, b', t);
    }
  }

  /** Taking the j-th line item out of a sequence removes its count and one copy of it. */
  lemma RemoveAt(b: seq<Req>, j: int, t: TicketType)
    requires 0 <= j < |b|
    ensures multiset(b[..j] + b[j + 1..]) == multiset(b) - multiset{b[j]}
    ensures CountOf(b, t) == CountOf(b[..j] + b[j + 1..], t) + CountOf([b[j]], t)
  {
    var l, r := b[..j], b[j + 1..];
    assert b == l + [b[j]] + r;
    CountOfAppend(l, r, t);
    CountOfAppend(l, [b[j]], t);
    CountOfAppend(l + [b[j]], r, t);
  }

  /** Category counts do not depend on the order of the line items. */
  lemma {:induction false} CountOfPermutation(a: seq<Req>, b: seq<Req>, t: TicketType)
    requires multiset(a) == multiset(b)
    ensures CountOf(a, t) == CountOf(b, t)
    decreases |a|
  {
    if a == [] {
      assert |b| == |multiset(b)| == 0;
    } else {
      var x := a[|a| - 1];
      var a' := a[..|a| - 1];
      assert a == a' + [x];
      assert multiset(a') == multiset(a) - multiset{x};
      assert x in multiset(b);
      var j :| 0 <= j < |b| && b[j] == x;
      RemoveAt(b, j, t);
      CountOfPermutation(a', b[..j] + b[j + 1..], t);
      CountOfAppend(a', [x], t);
    }
  }

  /** Reordering keeps every line item, so it keeps the absence of negative counts. */
  lemma NoNegativeTransfer(a: seq<Req>, b: seq<Req>)
    requires multiset(a) == multiset(b) && NoNegative(a)
    ensures NoNegative(b)
  {
    forall i | 0 <= i < |b| ensures b[i].n >= 0 {
      assert b[i] in multiset(b);
      assert b[i] in multiset(a);
      var j :| 0 <= j < |a| && a[j] == b[i];
    }
  }

  /** Having no negative count does not depend on the order of the line items. */
  lemma NoNegativePermutation(a: seq<Req>, b: seq<Req>)
    requires multiset(a) == multiset(b)
    ensures NoNegative(a) <==> NoNegative(b)
  {
    if NoNegative(a) {
      NoNegativeTransfer(a, b);
    }
    if NoNegative(b) {
      NoNegativeTransfer(b, a);
    }
  }
}
