/**
 * The delivery slice of the client store: the delivery list fetched from the
 * backend and one counter per delivery status, recomputed whenever the list is
 * replaced.
 */
module DeliverySlice {
  import opened Tally

  /** The four statuses the slice counts; `Other` carries any other status string
      (one outside the four names), which no counter takes into account. */
  datatype DeliveryStatus = Pending | InTransit | Completed | Cancelled | Other(name: string)

  /** The fields of a delivery that the slice reads; `createdAt` is a timestamp. */
  datatype Delivery = Delivery(id: string, status: DeliveryStatus, createdAt: int)

  const CountedStatuses: seq<DeliveryStatus> := [Pending, InTransit, Completed, Cancelled]

  function Statuses(ds: seq<Delivery>): seq<DeliveryStatus> {
    seq(|ds|, i requires 0 <= i < |ds| => ds[i].status)
  }

  /** Number of deliveries in `ds` whose status is `s`. */
  function Count(ds: seq<Delivery>, s: DeliveryStatus): nat {
    Occurrences(Statuses(ds), s)
  }

  /** The counter fields of the state, `totalDeliveries` last. */
  datatype Counters = Counters(pending: int, inTransit: int, completed: int, cancelled: int, total: int)

  const InitialCounters := Counters(0, 0, 0, 0, 0)

  /** What the counters must be for the list `ds`: a fresh recount. */
  function Recount(ds: seq<Delivery>): Counters {
    Counters(Count(ds, Pending), Count(ds, InTransit), Count(ds, Completed), Count(ds, Cancelled), |ds|)
  }

  /** Every delivery is counted at most once; deliveries of another status are counted nowhere. */
  lemma RecountBounds(ds: seq<Delivery>)
    ensures Recount(ds).total == |ds|
    ensures var c := Recount(ds); c.pending + c.inTransit + c.completed + c.cancelled <= c.total
    ensures (forall i :: 0 <= i < |ds| ==> !ds[i].status.Other?) ==>
              var c := Recount(ds); c.pending + c.inTransit + c.completed + c.cancelled == c.total
  {
    var ss := Statuses(ds);
    SumOfDistinctOccurrences(ss, CountedStatuses);
    assert [Cancelled][1..] == [];
    assert SumOfOccurrences(ss, [Cancelled]) == Count(ds, Cancelled);
    assert [Completed, Cancelled][1..] == [Cancelled];
    assert SumOfOccurrences(ss, [Completed, Cancelled]) == Count(ds, Completed) + Count(ds, Cancelled);
    assert [InTransit, Completed, Cancelled][1..] == [Completed, Cancelled];
    assert CountedStatuses[1..] == [InTransit, Completed, Cancelled];
    if forall i :: 0 <= i < |ds| ==> !ds[i].status.Other? {
      forall i | 0 <= i < |ss| ensures ss[i] in CountedStatuses {
        assert ss[i] == ds[i].status;
      }
    }
  }

  /** The status list of the deliveries of `ds[..i + 1]` extends that of `ds[..i]` by one. */
  lemma StatusesSnoc(ds: seq<Delivery>, i: nat)
    requires i < |ds|
    ensures Statuses(ds[..i + 1]) == Statuses(ds[..i]) + [ds[i].status]
  {
  }

  /** Counting over one more delivery adds one exactly when that delivery has the status. */
  lemma CountSnoc(ds: seq<Delivery>, i: nat, s: DeliveryStatus)
    requires i < |ds|
    ensures Count(ds[..i + 1], s) == Count(ds[..i], s) + Indicator(ds[i].status == s)
  {
    StatusesSnoc(ds, i);
    var xs := Statuses(ds[..i + 1]);
    assert xs[..|xs| - 1] == Statuses(ds[..i]);
  }

  /** The delivery state; `Valid` says the counters equal a fresh recount. */
  class DeliveryStore {
    var deliveries: seq<Delivery>
    var pendingCount: int
    var inTransitCount: int
    var completedCount: int
    var cancelledCount: int
    var totalDeliveries: int

    function Counts(): Counters
      reads this
    {
      Counters(pendingCount, inTransitCount, completedCount, cancelledCount, totalDeliveries)
    }

    ghost predicate Valid()
      reads this
    {
      Counts() == Recount(deliveries)
    }

    /** The initial state: no deliveries, every counter at 0. */
    constructor ()
      ensures deliveries == [] && Counts() == InitialCounters
      ensures Valid()
    {
      deliveries := [];
      pendingCount, inTransitCount, completedCount, cancelledCount, totalDeliveries := 0, 0, 0, 0, 0;
    }

    /** `setDeliveries`: store the payload, reset the counters and count the
        payload status by status. The outcome depends on the payload alone. */
    method SetDeliveries(payload: seq<Delivery>)
      modifies this
      ensures deliveries == payload
      ensures Counts() == Recount(payload)
      ensures Valid()
    {
      deliveries := payload;
      totalDeliveries := |payload|;
      pendingCount, inTransitCount, completedCount, cancelledCount := 0, 0, 0, 0;
      for i := 0 to |payload|
        invariant deliveries == payload && totalDeliveries == |payload|
        invariant pendingCount == Count(payload[..i], Pending)
        invariant inTransitCount == Count(payload[..i], InTransit)
        invariant completedCount == Count(payload[..i], Completed)
        invariant cancelledCount == Count(payload[..i], Cancelled)
      {
        CountSnoc(payload, i, Pending);
        CountSnoc(payload, i, InTransit);
        CountSnoc(payload, i, Completed);
        CountSnoc(payload, i, Cancelled);
        match payload[i].status {
          case Pending => pendingCount := pendingCount + 1;
          case InTransit => inTransitCount := inTransitCount + 1;
          case Completed => completedCount := completedCount + 1;
          case Cancelled => cancelledCount := cancelledCount + 1;
          case Other(_) =>
        }
      }
      assert payload[..|payload|] == payload;
    }

    /** `clearDeliveries`: the state becomes the initial state. */
    method ClearDeliveries()
      modifies this
      ensures deliveries == [] && Counts() == InitialCounters
      ensures Valid()
    {
      deliveries := [];
      pendingCount, inTransitCount, completedCount, cancelledCount, totalDeliveries := 0, 0, 0, 0, 0;
    }

    /** `selectAllDeliveries`: the stored list as it is; in a valid state the
        counters describe exactly this list. */
    function SelectAllDeliveries(): (r: seq<Delivery>)
      reads this
      ensures |r| == |deliveries| && forall i :: 0 <= i < |r| ==> r[i] == deliveries[i]
      ensures Valid() ==> Recount(r) == Counts()
    {
      deliveries
    }
  }
}
