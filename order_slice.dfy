/**
 * The order slice of the client store: the billing records fetched from the
 * backend and one counter per order status, recomputed whenever the list is
 * replaced.
 */
module OrderSlice {
  import opened Tally

  /** The three statuses the slice counts; `Other` carries any other status
      string (one outside the three names), which no counter takes into account. */
  datatype OrderStatus = Pending | Paid | Cancelled | Other(name: string)

  /** The fields of an order that the slice reads; `createdAt` is a timestamp. */
  datatype Order = Order(id: string, amount: int, status: OrderStatus, createdAt: int)

  const CountedStatuses: seq<OrderStatus> := [Pending, Paid, Cancelled]

  function Statuses(os: seq<Order>): seq<OrderStatus> {
    seq(|os|, i requires 0 <= i < |os| => os[i].status)
  }

  /** Number of orders in `os` whose status is `s`. */
  function Count(os: seq<Order>, s: OrderStatus): nat {
    Occurrences(Statuses(os), s)
  }

  /** The counter fields of the state, `totalOrders` last. */
  datatype Counters = Counters(pending: int, paid: int, cancelled: int, total: int)

  const InitialCounters := Counters(0, 0, 0, 0)

  /** What the counters must be for the list `os`: a fresh recount. */
  function Recount(os: seq<Order>): Counters {
    Counters(Count(os, Pending), Count(os, Paid), Count(os, Cancelled), |os|)
  }

  /** Every order is counted at most once; orders of another status are counted nowhere. */
  lemma RecountBounds(os: seq<Order>)
    ensures Recount(os).total == |os|
    ensures var c := Recount(os); c.pending + c.paid + c.cancelled <= c.total
    ensures (forall i :: 0 <= i < |os| ==> !os[i].status.Other?) ==>
              var c := Recount(os); c.pending + c.paid + c.cancelled == c.total
  {
    var ss := Statuses(os);
    SumOfDistinctOccurrences(ss, CountedStatuses);
    assert [Cancelled][1..] == [];
    assert SumOfOccurrences(ss, [Cancelled]) == Count(os, Cancelled);
    assert [Paid, Cancelled][1..] == [Cancelled];
    assert CountedStatuses[1..] == [Paid, Cancelled];
    if forall i :: 0 <= i < |os| ==> !os[i].status.Other? {
      forall i | 0 <= i < |ss| ensures ss[i] in CountedStatuses {
        assert ss[i] == os[i].status;
      }
    }
  }

  /** The status list of the orders of `os[..i + 1]` extends that of `os[..i]` by one. */
  lemma StatusesSnoc(os: seq<Order>, i: nat)
    requires i < |os|
    ensures Statuses(os[..i + 1]) == Statuses(os[..i]) + [os[i].status]
  {
  }

  /** Counting over one more order adds one exactly when that order has the status. */
  lemma CountSnoc(os: seq<Order>, i: nat, s: OrderStatus)
    requires i < |os|
    ensures Count(os[..i + 1], s) == Count(os[..i], s) + Indicator(os[i].status == s)
  {
    StatusesSnoc(os, i);
    var xs := Statuses(os[..i + 1]);
    assert xs[..|xs| - 1] == Statuses(os[..i]);
  }

  /** The order state; `Valid` says the counters equal a fresh recount. */
  class OrderStore {
    var orders: seq<Order>
    var pendingCount: int
    var paidCount: int
    var cancelledCount: int
    var totalOrders: int

    function Counts(): Counters
      reads this
    {
      Counters(pendingCount, paidCount, cancelledCount, totalOrders)
    }

    ghost predicate Valid()
      reads this
    {
      Counts() == Recount(orders)
    }

    /** The initial state: no orders, every counter at 0. */
    constructor ()
      ensures orders == [] && Counts() == InitialCounters
      ensures Valid()
    {
      orders := [];
      pendingCount, paidCount, cancelledCount, totalOrders := 0, 0, 0, 0;
    }

    /** `setOrders`: store the payload, reset the counters and count the payload
        status by status. The outcome depends on the payload alone. */
    method SetOrders(payload: seq<Order>)
      modifies this
      ensures orders == payload
      ensures Counts() == Recount(payload)
      ensures Valid()
    {
      orders := payload;
      totalOrders := |payload|;
      pendingCount, paidCount, cancelledCount := 0, 0, 0;
      for i := 0 to |payload|
        invariant orders == payload && totalOrders == |payload|
        invariant pendingCount == Count(payload[..i], Pending)
        invariant paidCount == Count(payload[..i], Paid)
        invariant cancelledCount == Count(payload[..i], Cancelled)
      {
        CountSnoc(payload, i, Pending);
        CountSnoc(payload, i, Paid);
        CountSnoc(payload, i, Cancelled);
        match payload[i].status {
          case Pending => pendingCount := pendingCount + 1;
          case Paid => paidCount := paidCount + 1;
          case Cancelled => cancelledCount := cancelledCount + 1;
          case Other(_) =>
        }
      }
      assert payload[..|payload|] == payload;
    }

    /** `clearOrders`: the state becomes the initial state. */
    method ClearOrders()
      modifies this
      ensures orders == [] && Counts() == InitialCounters
      ensures Valid()
    {
      orders := [];
      pendingCount, paidCount, cancelledCount, totalOrders := 0, 0, 0, 0;
    }

    /** `selectAllOrders`: the stored list as it is; in a valid state the
        counters describe exactly this list. */
    function SelectAllOrders(): (r: seq<Order>)
      reads this
      ensures |r| == |orders| && forall i :: 0 <= i < |r| ==> r[i] == orders[i]
      ensures Valid() ==> Recount(r) == Counts()
    {
      orders
    }
  }
}
