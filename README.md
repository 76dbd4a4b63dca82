# kidelivery client core, modelled in Dafny

kidelivery is a parcel-delivery mobile client. This project models the small
pieces of sequential logic the client carries:

- the Redux slices that keep a list of parcels, deliveries or orders together
  with one counter per status, and the reducers that replace, patch and clear
  them (`store/slices/parcelSlice.ts`, `deliverySlice.ts`, `orderSlice.ts`);
- the three parcel selectors: the first three parcels and the newest parcel in
  transit, which the home screen reads (`app/(home)/(tabs)/index.tsx`,
  `components/being-shipped-box.tsx`), and the three newest delivered parcels,
  which the slice exports but no screen reads;
- the auth slice holding the signed-in user (`store/slices/authSlice.ts`);
- the delivery-fee estimate over a hard-coded table of neighbouring communes
  (`utils/calculateFee.ts`);
- the start and end of the DAY, WEEK, MONTH and YEAR around a date
  (`utils/dateUtils.ts`);
- the two-letter initials of a full name (`utils/getInitials.ts`).

Each slice is a `class` whose fields are the slice's state fields. Each reducer
is a method that updates them in place, as the Immer draft does. The counter
reducers are proved against a pure specification: `Recount(list)` counts each
status afresh, and the `Valid()` invariant says the counter fields equal it.
`setX` establishes `Valid()` by a loop with invariants. `updateParcelStatus`
preserves it. `clearX` restores it.

Statuses are closed datatypes with an extra `Other(name)` case. It stands for a
status string the backend may send that none of the counters recognises.
`createdAt` is an integer timestamp.

Dates are civil wall-clock values: year, month 0-11, day and milliseconds
since midnight. Day numbers count from 1 January 1970, which gives the weekday
(1 January 1970 was a Thursday). `setDate` and `new Date(y, m, d)` accept days
and months outside their range and carry them over. `DateOfDayInMonth` and
`CarryDate` model that carrying. `new Date(y, m, d)` also reads a year from 0
to 99 as 1900 + year (the MakeFullYear step of the Date constructor in ECMA-262); `FullYear`
models that, and `MakeDate` applies it before carrying.

The fee estimate looks communes up in a plain object. A name such as
`toString` or `__proto__` is found on `Object.prototype` rather than in the
table, and calling `includes` on what it finds throws a TypeError. The fee is a
`Result` whose `Err` case is that TypeError.

`getInitials` returns a `Result`. An empty word makes `part[0]` undefined, so
`toUpperCase` throws a TypeError; that is the `Err` case.

Modules: `Wrappers` (Option, Result), `Tally` (generic occurrence counting),
`ParcelSlice`, `DeliverySlice`, `OrderSlice`, `AuthSlice`, `CalculateFee`,
`DateUtils`, `GetInitials`.

## Model

| member | source | states |
|---|---|---|
| ParcelSlice.ParcelStore.constructor | store/slices/parcelSlice.ts:13-20 | The initial state has no parcels and every counter at 0, and it satisfies the counter invariant. |
| ParcelSlice.ParcelStore.SetParcels | store/slices/parcelSlice.ts:27-48 | The list becomes exactly the payload and the counters become exactly `Recount(payload)`. So the state depends on the payload alone and the invariant holds. |
| ParcelSlice.RecountBounds | store/slices/parcelSlice.ts:36-47 | `totalParcels` is the list length. The four status counters sum to at most the total, and to exactly the total when no parcel has an unrecognised status. |
| ParcelSlice.FindIndex | store/slices/parcelSlice.ts:56 | `find` by id returns the index of the first parcel with that id, or nothing exactly when no parcel has it. |
| ParcelSlice.ParcelStore.UpdateParcelStatus | store/slices/parcelSlice.ts:51-75 | Unknown id: nothing changes. Otherwise only the status of the first parcel with that id changes. Length, ids, timestamps and `totalParcels` are kept. The counters move by `Shift`, or stay put when the status is unchanged. A valid state stays valid. |
| ParcelSlice.ParcelStore.DecrementCounter | store/slices/parcelSlice.ts:61-64 | Takes one off the counter of the old status, if it has one; no other field changes. |
| ParcelSlice.ParcelStore.IncrementCounter | store/slices/parcelSlice.ts:67-70 | Adds one to the counter of the new status, if it has one; no other field changes. |
| ParcelSlice.RecountAfterStatusChange | store/slices/parcelSlice.ts:59-73 | Recounting after one parcel's status changes gives the old recount shifted from the old status to the new one. This is why the counter updates keep the invariant. |
| ParcelSlice.ParcelStore.ClearParcels | store/slices/parcelSlice.ts:78-85 | The list is empty, every counter is 0 (the initial state), and the invariant holds. |
| ParcelSlice.SelectThreeMostRecentParcels | store/slices/parcelSlice.ts:92-97 | Returns the first min(3, n) parcels in stored order. |
| ParcelSlice.WithStatusContents | store/slices/parcelSlice.ts:104 | The status filter keeps exactly the parcels of that status, and as many as that status's counter counts. |
| ParcelSlice.InsertNewestFirst | store/slices/parcelSlice.ts:105-108 | Inserting into a newest-first list keeps it newest first. The new head is the inserted parcel only when it is strictly newer, so equal timestamps keep list order as a stable sort does. |
| ParcelSlice.SortNewestFirstSorts | store/slices/parcelSlice.ts:105-108 | Sorting by `b.createdAt - a.createdAt` yields a permutation of the input, ordered by non-increasing `createdAt`. |
| ParcelSlice.SortedFilterHead | store/slices/parcelSlice.ts:103-108 | The head of the sorted filter is the first, in list order, of the newest parcels with that status. |
| ParcelSlice.SelectMostRecentInTransitParcel | store/slices/parcelSlice.ts:100-109 | Returns nothing exactly when no parcel is in transit. Otherwise it returns an in-transit parcel with the greatest `createdAt`, the first such in list order. |
| ParcelSlice.SelectThreeMostRecentDeliveredParcels | store/slices/parcelSlice.ts:112-122 | Returns min(3, number delivered) parcels, all delivered and drawn from the list without repeats, newest first. A delivered parcel left out means three were returned, none older than it. |
| DeliverySlice.DeliveryStore.constructor | store/slices/deliverySlice.ts:14-21 | The initial state has no deliveries and every counter at 0, and it satisfies the invariant. |
| DeliverySlice.DeliveryStore.SetDeliveries | store/slices/deliverySlice.ts:27-52 | The list becomes exactly the payload and the counters become `Recount(payload)`, whatever the earlier counts were. |
| DeliverySlice.RecountBounds | store/slices/deliverySlice.ts:36-51 | The total is the length. The four counters sum to at most the total, and to exactly the total when no status is unrecognised. |
| DeliverySlice.DeliveryStore.ClearDeliveries | store/slices/deliverySlice.ts:53 | Back to the initial state: empty list, zero counters, invariant holds. |
| DeliverySlice.DeliveryStore.SelectAllDeliveries | store/slices/deliverySlice.ts:59-60 | Returns the stored list element for element. In a valid state the counters are exactly its recount. |
| OrderSlice.OrderStore.constructor | store/slices/orderSlice.ts:13-19 | The initial state has no orders and every counter at 0, and it satisfies the invariant. |
| OrderSlice.OrderStore.SetOrders | store/slices/orderSlice.ts:25-46 | The list becomes exactly the payload and the counters become `Recount(payload)`, whatever the earlier counts were. |
| OrderSlice.RecountBounds | store/slices/orderSlice.ts:34-45 | The total is the length. The three counters sum to at most the total, and to exactly the total when no status is unrecognised. |
| OrderSlice.OrderStore.ClearOrders | store/slices/orderSlice.ts:47 | Back to the initial state: empty list, zero counters, invariant holds. |
| OrderSlice.OrderStore.SelectAllOrders | store/slices/orderSlice.ts:53 | Returns the stored list element for element. In a valid state the counters are exactly its recount. |
| AuthSlice.AuthStore.constructor | store/slices/authSlice.ts:11-16 | The initial state: null id, phone number and name, no shops. |
| AuthSlice.AuthStore.SetUser | store/slices/authSlice.ts:22-35 | Every field takes the payload's value, so nothing of an earlier user survives. Reading the state back gives exactly the payload user. |
| AuthSlice.AuthStore.ClearUser | store/slices/authSlice.ts:36-41 | From any state, including an already cleared one, the result is the initial state, which holds no user. |
| AuthSlice.SignedInUser | store/slices/authSlice.ts:4-9 | A state describes a user exactly when its id, phone number and full name are all set. |
| AuthSlice.SignedInRoundTrip | store/slices/authSlice.ts:31-34 | The state `setUser` writes reads back as the same user. A state holding a user is exactly the state `setUser` writes for that user. The initial state holds none. |
| CalculateFee.Includes | utils/calculateFee.ts:32-33 | `table[a]?.includes(b)` throws exactly when `a` is a key inherited from `Object.prototype`. Otherwise it is true exactly when the table's own entry for `a` lists `b`. |
| CalculateFee.IsNeighboring | utils/calculateFee.ts:31-33 | The two-way lookup throws exactly when the first name is inherited, or the first lookup is false and the second name is inherited. Otherwise it is true exactly when either entry lists the other commune. |
| CalculateFee.CalculateDeliveryFee | utils/calculateFee.ts:22-44 | It throws exactly when the communes differ and one of them is an inherited key, EXPRESS or not. Otherwise EXPRESS gives 20000 whatever the communes; same commune 10000; distinct communes 15000 when in one neighbour group, else 25000. |
| CalculateFee.ListsIffSameGroup | utils/calculateFee.ts:5-12 | The table lists `b` under `a` exactly when they are distinct communes of the same group. |
| CalculateFee.NeighborsAreSameGroup | utils/calculateFee.ts:31-33 | For distinct communes, one of the two table entries lists the other exactly when they share a group. |
| CalculateFee.TableSymmetricIrreflexive | utils/calculateFee.ts:5-12 | The table is symmetric and lists no commune as its own neighbour. |
| CalculateFee.FeeIsSymmetric | utils/calculateFee.ts:30-35 | Swapping sender and delivery commune changes neither the fee nor whether it throws. |
| CalculateFee.FeeRange | utils/calculateFee.ts:27-43 | A fee is one of 10000, 15000, 20000, 25000; the only failure is an inherited key. |
| CalculateFee.UnlistedCommuneIsDistant | utils/calculateFee.ts:32-35 | A commune absent from the table costs the distant fee to any other commune, unless EXPRESS, and unless one of the names is an inherited key, which throws. |
| DateUtils.PreviousMonth | utils/dateUtils.ts:11 | The month before a month is a valid month whose next month is the original. |
| DateUtils.DateOfDayInMonth | utils/dateUtils.ts:11 | `setDate(k)` carries over as JavaScript does: the result is a valid date at midnight, exactly `k - 1` days after the 1st of the month, for any `k` including 0 and negatives. |
| DateUtils.GetStartOf | utils/dateUtils.ts:1-20 | The start of every range is a valid date. The date is a value, so the input is never modified. |
| DateUtils.GetEndOf | utils/dateUtils.ts:22-41 | The end of every range is a valid date; the input is not modified. |
| DateUtils.DayRange | utils/dateUtils.ts:8-29 | DAY runs from the same date at 00:00:00.000 to the same date at 23:59:59.999, and the date lies between them. |
| DateUtils.WeekRange | utils/dateUtils.ts:10-33 | WEEK starts on the Sunday on or before the date at midnight and ends on the Saturday six days later at 23:59:59.999. The date lies within the seven days and between start and end. |
| DateUtils.FullYear | utils/dateUtils.ts:14-16 | The year `new Date` uses is never from 0 to 99, and any year outside 0-99 is kept as it is. |
| DateUtils.MonthRange | utils/dateUtils.ts:14-35 | MONTH starts on the 1st at midnight of the full year (1900 + year for a year from 0 to 99). It ends on that month's last day (leap years included) at 00:00, one day before the next month's 1st. For a year outside 0-99 the date is after the start, and at most the end exactly when it is not the last day after midnight. |
| DateUtils.WithinMonth | utils/dateUtils.ts:14-35 | A date lies after the 1st of its month at midnight, and at most the last day at 00:00 exactly when it is not the last day after midnight. |
| DateUtils.LastDayOfMonth | utils/dateUtils.ts:35 | `new Date(y, m + 1, 0)` is the last day of month `m` of the full year, December included, one day before the 1st of the next month. |
| DateUtils.NextMonthStart | utils/dateUtils.ts:35 | The 1st of the next month comes `DaysInMonth` days after the 1st of this one, across the year boundary too. |
| DateUtils.YearRange | utils/dateUtils.ts:16-37 | YEAR runs from 1 January 00:00 to 31 December 00:00 of the full year (1900 + year for a year from 0 to 99). For a year outside 0-99 the date is after the start, and at most the end exactly when it is not 31 December after midnight. |
| DateUtils.YearStart | utils/dateUtils.ts:16 | `new Date(y, 0, 1)` is 1 January of the full year at midnight. |
| DateUtils.YearEnd | utils/dateUtils.ts:37 | `new Date(y, 11, 31)` is 31 December of the full year at midnight. |
| DateUtils.DaysBeforeYearGrows | utils/dateUtils.ts:14-16 | Every day of a year comes before the first day of any later year. |
| DateUtils.DayInYear | utils/dateUtils.ts:14-16 | A valid date falls between the first and the last day of its own year. |
| DateUtils.TwoDigitYearStartsLater | utils/dateUtils.ts:14-16 | For a date in a year from 0 to 99, the MONTH and YEAR starts fall after the date itself, in 1900 + year. |
| GetInitials.TrimStart | utils/getInitials.ts:2 | The result does not start with white space. |
| GetInitials.TrimStartIsSuffix | utils/getInitials.ts:2 | Trimming the front drops only white space, and only from the front. |
| GetInitials.TrimEndDropsWhitespace | utils/getInitials.ts:2 | Trimming the back drops only white space. |
| GetInitials.Trim | utils/getInitials.ts:2 | The trimmed string neither starts nor ends with white space. |
| GetInitials.TrimDecomposes | utils/getInitials.ts:2 | The original string is the trimmed one with white space on both sides. |
| GetInitials.Split | utils/getInitials.ts:2 | `split(" ")` gives at least one piece, and no piece holds a space. |
| GetInitials.JoinSplit | utils/getInitials.ts:2 | Joining the pieces with single spaces gives the string back. |
| GetInitials.SplitJoin | utils/getInitials.ts:2 | Splitting undoes joining space-free pieces. |
| GetInitials.EmptyPiece | utils/getInitials.ts:2 | A split has an empty piece exactly when the string is empty, starts or ends with a space, or holds two spaces in a row. |
| GetInitials.Initials | utils/getInitials.ts:4 | The mapping fails exactly when some piece is empty. Otherwise it gives one upper-cased first character per piece, in order. |
| GetInitials.GetInitials | utils/getInitials.ts:1-7 | It fails exactly when a piece of the trimmed name is empty. Otherwise it gives min(2, pieces) characters: the upper-cased first characters of the first pieces, in order. |
| GetInitials.GetInitialsFails | utils/getInitials.ts:2-4 | It fails exactly when the trimmed name is empty or holds two spaces in a row. |
| GetInitials.PaddingIgnored | utils/getInitials.ts:2 | White space added before or after the name does not change the result. |

## Left out

- Redux Toolkit and Immer: actions, draft proxies, store wiring (`store/index.ts`) and selectors' `RootState` plumbing. Reducers are class methods; selectors take the list.
- Parsing `createdAt` strings with `new Date(...)`, and invalid dates (a NaN comparator). `createdAt` is an integer timestamp.
- Time zones and daylight-saving time. Dates are local civil dates with integer milliseconds. Day numbers assume every day has 86 400 000 ms.
- `DateUtils.GetStartOf`, `DateUtils.GetEndOf`: years are unbounded. JavaScript gives an Invalid Date beyond 8.64e15 ms (about 275 760 years) from 1970 (TimeClip in ECMA-262); that limit is not modelled.
- `DateUtils.MonthRange`, `DateUtils.YearRange`: the ordering of start, date and end is promised for years outside 0-99 only. For a year from 0 to 99 the range lies in 1900 + year, and `DateUtils.TwoDigitYearStartsLater` proves its start falls after the date.
- `DateUtils.LastDayOfMonth`, `DateUtils.YearStart`, `DateUtils.YearEnd`: the day they give is in the full year, which for a year from 0 to 99 is 1900 + year, not the year passed.
- `CalculateFee.InheritedKeys` lists the properties ECMA-262 puts on `Object.prototype`. An engine that adds further non-standard properties would make more names throw.
- The `default` branches of `getStartOf` and `getEndOf`. The range is a closed datatype, so they cannot be reached.
- `GetInitials.ToUpper`: upper-cases the ASCII letters only; the Unicode case mapping of `toUpperCase` is not modelled.
- `GetInitials.GetInitials`: strings are sequences of characters, not UTF-16 code units. `part[0]` of a name with a character outside the Basic Multilingual Plane is the whole character here, not a lone surrogate.
- Record fields that no modelled code reads, such as addresses and recipients, are not modelled. Parcels, deliveries and orders keep only id, status and `createdAt`, plus the order's `amount`.
- An `Other(name)` status whose name equals one of the known status strings. The model treats such a value as unrecognised, while the source would count it.
- `utils/fetchData.ts` is not part of this model: network I/O and its asynchronous ordering.
- `utils/communesGn.ts` is not part of this model: static data with no logic, not used by the fee estimate.
- The React components and screens, including the `dateRangePicker.tsx` range handler, are not part of this model.
