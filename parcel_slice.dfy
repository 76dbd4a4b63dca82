/**
 * The parcel slice of the client store: the parcel list fetched from the
 * backend, one counter per parcel status, the reducers that replace, patch and
 * clear the list, and three selectors: the first three parcels and the newest
 * parcel in transit, which the home screen reads, and the three newest
 * delivered parcels, which the slice exports but no screen reads.
 */
module ParcelSlice {
  import opened Wrappers
  import opened Tally

  /** The four statuses the slice counts; `Other` carries any other status
      string the backend may send (one outside the four names), which no
      counter takes into account. */
  datatype ParcelStatus = Pending | InTransit | Delivered | Returned | Other(name: string)

  /** The fields of a parcel that the slice reads; `createdAt` is a timestamp. */
  datatype Parcel = Parcel(id: string, status: ParcelStatus, createdAt: int)

  /** The counted statuses, in the order of the state's fields. */
  const CountedStatuses: seq<ParcelStatus> := [Pending, InTransit, Delivered, Returned]

  function Statuses(ps: seq<Parcel>): seq<ParcelStatus> {
    seq(|ps|, i requires 0 <= i < |ps| => ps[i].status)
  }

  /** Number of parcels in `ps` whose status is `s`. */
  function Count(ps: seq<Parcel>, s: ParcelStatus): nat {
    Occurrences(Statuses(ps), s)
  }

  /** The counter fields of the state, `totalParcels` last. */
  datatype Counters = Counters(pending: int, inTransit: int, delivered: int, returned: int, total: int)

  const InitialCounters := Counters(0, 0, 0, 0, 0)

  /** What the counters must be for the list `ps`: a fresh recount. */
  function Recount(ps: seq<Parcel>): Counters {
    Counters(Count(ps, Pending), Count(ps, InTransit), Count(ps, Delivered), Count(ps, Returned), |ps|)
  }

  /** Recounting counts every parcel at most once; parcels of another status are counted nowhere. */
  lemma RecountBounds(ps: seq<Parcel>)
    ensures Recount(ps).total == |ps|
    ensures var c := Recount(ps); c.pending + c.inTransit + c.delivered + c.returned <= c.total
    ensures (forall i :: 0 <= i < |ps| ==> !ps[i].status.Other?) ==>
              var c := Recount(ps); c.pending + c.inTransit + c.delivered + c.returned == c.total
  {
    var ss := Statuses(ps);
    SumOfDistinctOccurrences(ss, CountedStatuses);
    assert [Returned][1..] == [];
    assert SumOfOccurrences(ss, [Returned]) == Count(ps, Returned);
    assert [Delivered, Returned][1..] == [Returned];
    assert SumOfOccurrences(ss, [Delivered, Returned]) == Count(ps, Delivered) + Count(ps, Returned);
    assert [InTransit, Delivered, Returned][1..] == [Delivered, Returned];
    assert CountedStatuses[1..] == [InTransit, Delivered, Returned];
    if forall i :: 0 <= i < |ps| ==> !ps[i].status.Other? {
      forall i | 0 <= i < |ss| ensures ss[i] in CountedStatuses {
        assert ss[i] == ps[i].status;
      }
    }
  }

  /** The status list of the parcels of `ps[..i + 1]` extends that of `ps[..i]` by one. */
  lemma StatusesSnoc(ps: seq<Parcel>, i: nat)
    requires i < |ps|
    ensures Statuses(ps[..i + 1]) == Statuses(ps[..i]) + [ps[i].status]
  {
  }

  /** Counting over one more parcel adds one exactly when that parcel has the status. */
  lemma CountSnoc(ps: seq<Parcel>, i: nat, s: ParcelStatus)
    requires i < |ps|
    ensures Count(ps[..i + 1], s) == Count(ps[..i], s) + Indicator(ps[i].status == s)
  {
    StatusesSnoc(ps, i);
    var xs := Statuses(ps[..i + 1]);
    assert xs[..|xs| - 1] == Statuses(ps[..i]);
  }

  /** Counter adjustment of `updateParcelStatus`: one off the counter of the old
      status, one on the counter of the new status; `total` is not touched. */
  function Shift(c: Counters, from: ParcelStatus, to: ParcelStatus): Counters {
    Increment(Decrement(c, from), to)
  }

  /** One off the counter of status `s`, if it has one. */
  function Decrement(c: Counters, s: ParcelStatus): Counters {
    Counters(c.pending - Indicator(s == Pending), c.inTransit - Indicator(s == InTransit),
             c.delivered - Indicator(s == Delivered), c.returned - Indicator(s == Returned), c.total)
  }

  /** One on the counter of status `s`, if it has one. */
  function Increment(c: Counters, s: ParcelStatus): Counters {
    Counters(c.pending + Indicator(s == Pending), c.inTransit + Indicator(s == InTransit),
             c.delivered + Indicator(s == Delivered), c.returned + Indicator(s == Returned), c.total)
  }

  /** Changing the status of one parcel changes the fresh recount exactly as `Shift` does. */
  lemma {:induction false} RecountAfterStatusChange(ps: seq<Parcel>, k: nat, s: ParcelStatus)
    requires k < |ps|
    ensures Recount(ps[k := ps[k].(status := s)]) == Shift(Recount(ps), ps[k].status, s)
  {
    var qs := ps[k := ps[k].(status := s)];
    assert Statuses(qs) == Statuses(ps)[k := s];
    OccurrencesUpdate(Statuses(ps), k, s, Pending);
    OccurrencesUpdate(Statuses(ps), k, s, InTransit);
    OccurrencesUpdate(Statuses(ps), k, s, Delivered);
    OccurrencesUpdate(Statuses(ps), k, s, Returned);
  }

  /** `parcels.find(p => p.id === id)`, as the index of the first parcel with that id. */
  function FindIndex(ps: seq<Parcel>, id: string): (r: Option<nat>)
    ensures r.Some? ==> r.value < |ps| && ps[r.value].id == id
                        && forall j :: 0 <= j < r.value ==> ps[j].id != id
    ensures r.None? <==> forall j :: 0 <= j < |ps| ==> ps[j].id != id
  {
    if ps == [] then None
    else if ps[0].id == id then Some(0)
    else match FindIndex(ps[1..], id)
      case None => None
      case Some(k) => Some(k + 1)
  }

  /** The parcel state. The counters are plain fields, kept in step with the list
      by the reducers; `Valid` says they equal a fresh recount. */
  class ParcelStore {
    var parcels: seq<Parcel>
    var pendingCount: int
    var inTransitCount: int
    var deliveredCount: int
    var returnedCount: int
    var totalParcels: int

    function Counts(): Counters
      reads this
    {
      Counters(pendingCount, inTransitCount, deliveredCount, returnedCount, totalParcels)
    }

    ghost predicate Valid()
      reads this
    {
      Counts() == Recount(parcels)
    }

    /** The initial state: no parcels, every counter at 0. */
    constructor ()
      ensures parcels == [] && Counts() == InitialCounters
      ensures Valid()
    {
      parcels := [];
      pendingCount, inTransitCount, deliveredCount, returnedCount, totalParcels := 0, 0, 0, 0, 0;
    }

    /** `setParcels`: store the payload, reset the counters and count the payload
        status by status. The outcome depends on the payload alone. */
    method SetParcels(payload: seq<Parcel>)
      modifies this
      ensures parcels == payload
      ensures Counts() == Recount(payload)
      ensures Valid()
    {
      parcels := payload;
      totalParcels := |payload|;
      pendingCount, inTransitCount, deliveredCount, returnedCount := 0, 0, 0, 0;
      for i := 0 to |payload|
        invariant parcels == payload && totalParcels == |payload|
        invariant pendingCount == Count(payload[..i], Pending)
        invariant inTransitCount == Count(payload[..i], InTransit)
        invariant deliveredCount == Count(payload[..i], Delivered)
        invariant returnedCount == Count(payload[..i], Returned)
      {
        CountSnoc(payload, i, Pending);
        CountSnoc(payload, i, InTransit);
        CountSnoc(payload, i, Delivered);
        CountSnoc(payload, i, Returned);
        var status := payload[i].status;
        if status.Pending? {
          pendingCount := pendingCount + 1;
        } else if status.InTransit? {
          inTransitCount := inTransitCount + 1;
        } else if status.Delivered? {
          deliveredCount := deliveredCount + 1;
        } else if status.Returned? {
          returnedCount := returnedCount + 1;
        }
      }
      assert payload[..|payload|] == payload;
    }

    /** `updateParcelStatus`: give the first parcel with this id the new status,
        moving one unit between the counters when the status changes. An unknown
        id changes nothing. */
    method UpdateParcelStatus(id: string, status: ParcelStatus)
      modifies this
      ensures match FindIndex(old(parcels), id)
        case None => parcels == old(parcels) && Counts() == old(Counts())
        case Some(k) =>
          parcels == old(parcels)[k := old(parcels)[k].(status := status)]
          && Counts() == if old(parcels)[k].status == status then old(Counts())
                         else Shift(old(Counts()), old(parcels)[k].status, status)
      ensures |parcels| == |old(parcels)| && totalParcels == old(totalParcels)
      ensures forall j :: 0 <= j < |parcels| ==>
                parcels[j].id == old(parcels)[j].id && parcels[j].createdAt == old(parcels)[j].createdAt
      ensures old(Valid()) ==> Valid()
    {
      var found := FindIndex(parcels, id);
      if found.Some? {
        var k := found.value;
        var current := parcels[k].status;
        if current != status {
          DecrementCounter(current);
          IncrementCounter(status);
        }
        RecountAfterStatusChange(parcels, k, status);
        parcels := parcels[k := parcels[k].(status := status)];
      }
    }

    /** The decrements of `updateParcelStatus`: one off the counter of the parcel's old status. */
    method DecrementCounter(current: ParcelStatus)
      modifies this
      ensures parcels == old(parcels) && Counts() == Decrement(old(Counts()), current)
    {
      if current.Pending? { pendingCount := pendingCount - 1; }
      if current.InTransit? { inTransitCount := inTransitCount - 1; }
      if current.Delivered? { deliveredCount := deliveredCount - 1; }
      if current.Returned? { returnedCount := returnedCount - 1; }
    }

    /** The increments of `updateParcelStatus`: one on the counter of the new status. */
    method IncrementCounter(status: ParcelStatus)
      modifies this
      ensures parcels == old(parcels) && Counts() == Increment(old(Counts()), status)
    {
      if status.Pending? { pendingCount := pendingCount + 1; }
      if status.InTransit? { inTransitCount := inTransitCount + 1; }
      if status.Delivered? { deliveredCount := deliveredCount + 1; }
      if status.Returned? { returnedCount := returnedCount + 1; }
    }

    /** `clearParcels`: back to the initial state. */
    method ClearParcels()
      modifies this
      ensures parcels == [] && Counts() == InitialCounters
      ensures Valid()
    {
      parcels := [];
      pendingCount, inTransitCount, deliveredCount, returnedCount, totalParcels := 0, 0, 0, 0, 0;
    }
  }

  // Selectors

  /** `selectThreeMostRecentParcels`: the list is assumed to arrive newest first,
      so the first three parcels are taken as they are. */
  function SelectThreeMostRecentParcels(ps: seq<Parcel>): (r: seq<Parcel>)
    ensures |r| == if |ps| < 3 then |ps| else 3
    ensures forall i :: 0 <= i < |r| ==> r[i] == ps[i]
  {
    ps[..if |ps| < 3 then |ps| else 3]
  }

  /** `filter(p => p.status === s)`, built from the back. */
  function WithStatus(ps: seq<Parcel>, s: ParcelStatus): seq<Parcel> {
    if ps == [] then []
    else WithStatus(ps[..|ps| - 1], s) + (if ps[|ps| - 1].status == s then [ps[|ps| - 1]] else [])
  }

  /** The filter keeps exactly the parcels of that status, as many as the status counter counts. */
  lemma WithStatusContents(ps: seq<Parcel>, s: ParcelStatus)
    ensures forall p :: p in WithStatus(ps, s) <==> p in ps && p.status == s
    ensures |WithStatus(ps, s)| == Count(ps, s)
  {
    WithStatusMembers(ps, s);
    WithStatusLength(ps, s);
  }

  lemma {:induction false} WithStatusMembers(ps: seq<Parcel>, s: ParcelStatus)
    ensures forall p :: p in WithStatus(ps, s) <==> p in ps && p.status == s
  {
    if ps != [] {
      var n := |ps|;
      var init, last := ps[..n - 1], ps[n - 1];
      WithStatusMembers(init, s);
      assert ps == init + [last];
      assert WithStatus(ps, s) == WithStatus(init, s) + (if last.status == s then [last] else []);
    }
  }

  lemma {:induction false} WithStatusLength(ps: seq<Parcel>, s: ParcelStatus)
    ensures |WithStatus(ps, s)| == Count(ps, s)
  {
    if ps != [] {
      var n := |ps|;
      var init := ps[..n - 1];
      WithStatusLength(init, s);
      assert |WithStatus(ps, s)| == |WithStatus(init, s)| + Indicator(ps[n - 1].status == s);
      CountSnoc(ps, n - 1, s);
      assert ps[..n] == ps;
    }
  }

  /** Ordered by `createdAt`, newest first. */
  predicate NewestFirst(ps: seq<Parcel>) {
    forall i, j :: 0 <= i < j < |ps| ==> ps[i].createdAt >= ps[j].createdAt
  }

  /** Every parcel of `ps` is at least as new as `t`. */
  predicate AllAtLeast(ps: seq<Parcel>, t: int) {
    forall i :: 0 <= i < |ps| ==> ps[i].createdAt >= t
  }

  /** Inserts `p` into a newest-first list after every parcel at least as new,
      so that parcels with equal timestamps keep their order. */
  function Insert(ps: seq<Parcel>, p: Parcel): (r: seq<Parcel>)
    ensures |r| == |ps| + 1
  {
    if ps == [] then [p]
    else if ps[|ps| - 1].createdAt >= p.createdAt then ps + [p]
    else Insert(ps[..|ps| - 1], p) + [ps[|ps| - 1]]
  }

  lemma {:induction false} InsertMultiset(ps: seq<Parcel>, p: Parcel)
    ensures multiset(Insert(ps, p)) == multiset(ps) + multiset{p}
  {
    if ps != [] && ps[|ps| - 1].createdAt < p.createdAt {
      var n := |ps|;
      InsertMultiset(ps[..n - 1], p);
      assert ps == ps[..n - 1] + [ps[n - 1]];
    }
  }

  lemma {:induction false} InsertAtLeast(ps: seq<Parcel>, p: Parcel, t: int)
    requires AllAtLeast(ps, t) && p.createdAt >= t
    ensures AllAtLeast(Insert(ps, p), t)
  {
    if ps != [] && ps[|ps| - 1].createdAt < p.createdAt {
      InsertAtLeast(ps[..|ps| - 1], p, t);
    }
  }

  /** Inserting keeps a list newest first; the new head is `p` exactly when `p` is strictly newer than the old head. */
  lemma {:induction false} InsertNewestFirst(ps: seq<Parcel>, p: Parcel)
    requires NewestFirst(ps)
    ensures NewestFirst(Insert(ps, p))
    ensures Insert(ps, p)[0] == if ps != [] && ps[0].createdAt >= p.createdAt then ps[0] else p
  {
    if ps != [] && ps[|ps| - 1].createdAt < p.createdAt {
      var n := |ps|;
      var init, last := ps[..n - 1], ps[n - 1];
      InsertNewestFirst(init, p);
      InsertAtLeast(init, p, last.createdAt);
      var front := Insert(init, p);
      assert Insert(ps, p) == front + [last];
      assert AllAtLeast(front, last.createdAt);
    }
  }

  /**
   * `sort((a, b) => b.createdAt - a.createdAt)`: JavaScript's sort is stable, so
   * the result is newest first and parcels with equal timestamps stay in list order.
   */
  function SortNewestFirst(ps: seq<Parcel>): (r: seq<Parcel>)
    ensures |r| == |ps|
  {
    if ps == [] then []
    else Insert(SortNewestFirst(ps[..|ps| - 1]), ps[|ps| - 1])
  }

  /** The sort is a permutation of its input, ordered newest first. */
  lemma SortNewestFirstSorts(ps: seq<Parcel>)
    ensures multiset(SortNewestFirst(ps)) == multiset(ps)
    ensures NewestFirst(SortNewestFirst(ps))
  {
    SortPermutes(ps);
    SortOrders(ps);
  }

  lemma {:induction false} SortPermutes(ps: seq<Parcel>)
    ensures multiset(SortNewestFirst(ps)) == multiset(ps)
  {
    if ps != [] {
      var init, last := ps[..|ps| - 1], ps[|ps| - 1];
      var rest := SortNewestFirst(init);
      calc {
        multiset(SortNewestFirst(ps));
        multiset(Insert(rest, last));
        { InsertMultiset(rest, last); }
        multiset(rest) + multiset{last};
        { SortPermutes(init); }
        multiset(init) + multiset{last};
        multiset(init + [last]);
        { assert init + [last] == ps; }
        multiset(ps);
      }
    }
  }

  lemma {:induction false} SortOrders(ps: seq<Parcel>)
    ensures NewestFirst(SortNewestFirst(ps))
  {
    if ps != [] {
      var init := ps[..|ps| - 1];
      SortOrders(init);
      InsertNewestFirst(SortNewestFirst(init), ps[|ps| - 1]);
    }
  }

  /** `k` is the first position of a newest parcel of status `s` in `ps`. */
  predicate IsFirstNewest(ps: seq<Parcel>, s: ParcelStatus, k: int) {
    0 <= k < |ps| && ps[k].status == s
    && (forall j :: 0 <= j < |ps| && ps[j].status == s ==> ps[j].createdAt <= ps[k].createdAt)
    && (forall j :: 0 <= j < k && ps[j].status == s ==> ps[j].createdAt < ps[k].createdAt)
  }

  lemma FirstNewestSnoc(init: seq<Parcel>, last: Parcel, s: ParcelStatus, k: int)
    requires IsFirstNewest(init, s, k)
    ensures last.status != s || last.createdAt <= init[k].createdAt ==> IsFirstNewest(init + [last], s, k)
    ensures last.status == s && last.createdAt > init[k].createdAt ==> IsFirstNewest(init + [last], s, |init|)
  {
  }

  lemma NoneWithStatus(ps: seq<Parcel>, s: ParcelStatus)
    requires forall p :: p in ps ==> p.status != s
    ensures forall j :: 0 <= j < |ps| ==> ps[j].status != s
  {
    forall j | 0 <= j < |ps| ensures ps[j].status != s {
      assert ps[j] in ps;
    }
  }

  lemma WithStatusSnoc(init: seq<Parcel>, last: Parcel, s: ParcelStatus)
    ensures WithStatus(init + [last], s) == WithStatus(init, s) + (if last.status == s then [last] else [])
  {
    assert (init + [last])[..|init|] == init;
  }

  lemma SortSnoc(f: seq<Parcel>, last: Parcel)
    ensures SortNewestFirst(f + [last]) == Insert(SortNewestFirst(f), last)
  {
    assert (f + [last])[..|f|] == f;
  }

  /** The head of the sorted filter is the first of the newest parcels with that
      status; `k` is its position in `ps`. */
  lemma {:induction false} SortedFilterHead(ps: seq<Parcel>, s: ParcelStatus) returns (k: int)
    requires WithStatus(ps, s) != []
    ensures IsFirstNewest(ps, s, k) && SortNewestFirst(WithStatus(ps, s))[0] == ps[k]
  {
    var n := |ps|;
    var init, last := ps[..n - 1], ps[n - 1];
    assert ps == init + [last];
    WithStatusSnoc(init, last, s);
    if last.status != s {
      var j := SortedFilterHead(init, s);
      k := HeadAfterOther(init, last, s, j);
    } else if WithStatus(init, s) == [] {
      k := HeadAfterNone(init, last, s);
    } else {
      var j := SortedFilterHead(init, s);
      k := HeadAfterSame(init, last, s, j);
    }
  }

  /** A parcel of another status appended at the end leaves the head where it was. */
  lemma HeadAfterOther(init: seq<Parcel>, last: Parcel, s: ParcelStatus, j: int) returns (k: int)
    requires last.status != s && WithStatus(init, s) != []
    requires IsFirstNewest(init, s, j) && SortNewestFirst(WithStatus(init, s))[0] == init[j]
    ensures IsFirstNewest(init + [last], s, k) && SortNewestFirst(WithStatus(init + [last], s))[0] == (init + [last])[k]
  {
    var f := WithStatus(init, s);
    WithStatusSnoc(init, last, s);
    assert f + [] == f;
    assert WithStatus(init + [last], s) == f;
    FirstNewestSnoc(init, last, s, j);
    assert (init + [last])[j] == init[j];
    k := j;
  }

  /** The first parcel of the status to be appended becomes the head. */
  lemma HeadAfterNone(init: seq<Parcel>, last: Parcel, s: ParcelStatus) returns (k: int)
    requires last.status == s && WithStatus(init, s) == []
    ensures IsFirstNewest(init + [last], s, k) && SortNewestFirst(WithStatus(init + [last], s))[0] == (init + [last])[k]
  {
    WithStatusSnoc(init, last, s);
    WithStatusMembers(init, s);
    NoneWithStatus(init, s);
    FirstNewestAlone(init, last, s);
    SortSnoc([], last);
    k := |init|;
  }

  /** An appended parcel of the status becomes the head exactly when it is strictly newer than the old head. */
  lemma HeadAfterSame(init: seq<Parcel>, last: Parcel, s: ParcelStatus, j: int) returns (k: int)
    requires last.status == s && WithStatus(init, s) != []
    requires IsFirstNewest(init, s, j) && SortNewestFirst(WithStatus(init, s))[0] == init[j]
    ensures IsFirstNewest(init + [last], s, k) && SortNewestFirst(WithStatus(init + [last], s))[0] == (init + [last])[k]
  {
    var f := WithStatus(init, s);
    WithStatusSnoc(init, last, s);
    SortSnoc(f, last);
    SortNewestFirstSorts(f);
    InsertNewestFirst(SortNewestFirst(f), last);
    FirstNewestSnoc(init, last, s, j);
    k := if init[j].createdAt >= last.createdAt then j else |init|;
  }

  lemma SortedFilterHasHead(ps: seq<Parcel>, s: ParcelStatus)
    requires WithStatus(ps, s) != []
    ensures exists k :: IsFirstNewest(ps, s, k) && SortNewestFirst(WithStatus(ps, s))[0] == ps[k]
  {
    var k := SortedFilterHead(ps, s);
  }

  lemma FirstNewestAlone(init: seq<Parcel>, last: Parcel, s: ParcelStatus)
    requires forall j :: 0 <= j < |init| ==> init[j].status != s
    requires last.status == s
    ensures IsFirstNewest(init + [last], s, |init|)
  {
  }

  /** `selectMostRecentInTransitParcel`: the head of the in-transit parcels sorted
      newest first, or nothing (`undefined`) when no parcel is in transit. */
  function SelectMostRecentInTransitParcel(ps: seq<Parcel>): (r: Option<Parcel>)
    ensures r.None? <==> forall p :: p in ps ==> p.status != InTransit
    ensures r.Some? ==> exists k :: IsFirstNewest(ps, InTransit, k) && ps[k] == r.value
  {
    var f := WithStatus(ps, InTransit);
    var sorted := SortNewestFirst(f);
    WithStatusContents(ps, InTransit);
    if sorted == [] then
      None
    else
      SortedFilterHasHead(ps, InTransit);
      Some(sorted[0])
  }

  /** A parcel of a newest-first list that is not among its first `m` comes after them, and is no newer than the m-th. */
  lemma OmittedIsOlder(sorted: seq<Parcel>, m: nat, p: Parcel)
    requires NewestFirst(sorted) && m <= |sorted| && p in sorted && p !in sorted[..m]
    ensures m < |sorted| && (m > 0 ==> p.createdAt <= sorted[m - 1].createdAt)
  {
    var i :| 0 <= i < |sorted| && sorted[i] == p;
    assert forall j :: 0 <= j < m ==> sorted[..m][j] == sorted[j];
  }

  /** The first `m` parcels of a list are some of its parcels. */
  lemma PrefixIsSubMultiset(xs: seq<Parcel>, m: nat)
    requires m <= |xs|
    ensures multiset(xs[..m]) <= multiset(xs)
  {
    assert xs == xs[..m] + xs[m..];
  }

  /** `selectThreeMostRecentDeliveredParcels`: the delivered parcels sorted newest
      first, cut to three. */
  function SelectThreeMostRecentDeliveredParcels(ps: seq<Parcel>): (r: seq<Parcel>)
    ensures |r| == if Count(ps, Delivered) < 3 then Count(ps, Delivered) else 3
    ensures multiset(r) <= multiset(WithStatus(ps, Delivered))
    ensures forall p :: p in r ==> p in ps && p.status == Delivered
    ensures NewestFirst(r)
    ensures forall p :: p in ps && p.status == Delivered && p !in r ==>
              |r| == 3 && p.createdAt <= r[2].createdAt
  {
    var f := WithStatus(ps, Delivered);
    var sorted := SortNewestFirst(f);
    WithStatusContents(ps, Delivered);
    SortNewestFirstSorts(f);
    var m := if |sorted| < 3 then |sorted| else 3;
    PrefixIsSubMultiset(sorted, m);
    PrefixNewestFirst(sorted, m);
    TopOfSortedFilter(ps, f, sorted, m);
    sorted[..m]
  }

  lemma PrefixNewestFirst(xs: seq<Parcel>, m: nat)
    requires m <= |xs| && NewestFirst(xs)
    ensures NewestFirst(xs[..m])
  {
  }

  lemma TopOfSortedFilter(ps: seq<Parcel>, f: seq<Parcel>, sorted: seq<Parcel>, m: nat)
    requires forall p :: p in f <==> p in ps && p.status == Delivered
    requires multiset(sorted) == multiset(f) && NewestFirst(sorted)
    requires m == if |sorted| < 3 then |sorted| else 3
    requires multiset(sorted[..m]) <= multiset(sorted)
    ensures forall p :: p in sorted[..m] ==> p in ps && p.status == Delivered
    ensures forall p :: p in ps && p.status == Delivered && p !in sorted[..m] ==>
              m == 3 && p.createdAt <= sorted[2].createdAt
  {
    forall p | p in sorted[..m] ensures p in ps && p.status == Delivered {
      assert p in multiset(sorted[..m]);
      assert p in multiset(f);
    }
    forall p | p in ps && p.status == Delivered && p !in sorted[..m]
      ensures m == 3 && p.createdAt <= sorted[2].createdAt
    {
      assert p in multiset(f);
      OmittedIsOlder(sorted, m, p);
    }
  }
}
