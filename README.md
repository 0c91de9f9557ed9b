# DriveXpress server: list queries and booking creation

This project is a Dafny model of the request logic of the DriveXpress car-rental
server (`index.js`). The model covers five things:

- The four paginated list endpoints. `GET /cars` lists every car, optionally
  narrowed by a free-text search. `GET /mycars/:email` lists the caller's own
  listings. `GET /bookings/:email` lists the caller's bookings as renter, and
  `GET /requests/:email` lists the bookings of the caller's cars.
- The filter each list endpoint builds.
- The `sort` switch that picks a field and a direction.
- The page arithmetic: `skip`, the cursor window, `totalCount`, `totalPages`
  and `currentPage`.
- The token gate in front of the scoped lists, and `POST /bookings`, which
  inserts a booking and then increments the car's `rent_count`.

The two document collections are sequences of records. The list handlers are
pure functions over those sequences. Each reply carries its HTTP status, its
body, and the store calls the handler made, in order. `POST /bookings` changes
two collections one after the other. It is a method on a `Store` class whose
fields are the two collections and a log of the writes, in the order applied.

Modules:

- `Text` (text.dfy): JavaScript's `trim` and its whitespace set, and the
  case-insensitive substring match that `$regex` with option `"i"` performs.
- `Records` (records.dfy): `Car` and `Booking`.
- `Ordering` (ordering.dfy): the store's sort. The store may return any sorted
  permutation of the matching documents. The model's store fixes one of
  them, a stable insertion sort. This module also proves that two sorted
  arrangements of one result set have the same key sequence, and that the
  ascending and descending orders have reversed key sequences, whatever the
  tie-breaking.
- `Paging` (paging.dfy): `skip`, the `.skip().limit()` window, and ceiling
  division.
- `Queries` (queries.dfy): the `sort` switch, the filters, `countDocuments`,
  `find`, and the response envelope `{ success, items, totalCount, totalPages,
  currentPage }`.
- `Access` (access.dfy): the `verifyJWTToken` middleware with the handlers'
  email check, and the four list handlers.
- `BookingStore` (booking_store.dfy): the store class and `POST /bookings`.

Notes on the code's own behaviour:

- `page` and `limit` are read with `parseInt` and are not defaulted or
  clamped (index.js:125-126, 197-198). The model requires `page >= 1` and
  `limit >= 1` of a request that reaches the query.
- A cookie whose token fails `jwt.verify` is answered with 400 "Bad Request"
  (index.js:34-36). A missing token gets 401 (index.js:30-32) and a token for
  another email gets 403 (index.js:168-170).
- The `$regex` pattern is the untrimmed `search` (index.js:99-101). Only the
  emptiness test uses `search.trim()` (index.js:97).
- "price-low" sorts `price` ascending and "price-high" sorts it descending in
  every list (index.js:114-119, 186-191). The booking lists do the same with
  `totalPrice` (index.js:270-275, 327-332).

## Model

| member | source | states |
|---|---|---|
| `Text.SkipLeading` | index.js:97 | The scan stops at the first non-whitespace character, or at the end; everything it passes over is JavaScript whitespace |
| `Text.SkipTrailing` | index.js:97 | The backward scan stops just after the last non-whitespace character, or at its lower bound; everything it passes over is whitespace |
| `Text.Trim` | index.js:97 | `search.trim()`: the result is an infix of the input with only whitespace on either side, and it neither starts nor ends with whitespace |
| `Text.TrimEmptyIffBlank` | index.js:97 | `search.trim()` is the empty (falsy) string exactly when the search is blank |
| `Text.ContainsIgnoreCase` | index.js:99-101 | The scan answers true exactly when the pattern occurs, up to case, at some offset of the text |
| `Text.Lower` | index.js:99-101 | Option `"i"` folds ASCII upper-case letters to lower case and leaves every other character alone; no folded character is upper case |
| `Text.ContainsIgnoresCaseOfPattern` | index.js:99-101 | Two patterns that agree up to case match exactly the same texts (option `"i"`) |
| `Text.SubstringMatches` | index.js:99-101 | Every substring of a field matches that field |
| `Ordering.Insert` | index.js:133 | Inserting adds exactly that one element to the multiset of records |
| `Ordering.InsertSorted` | index.js:133 | Inserting into a sorted sequence keeps it sorted |
| `Ordering.Sort` | index.js:131-136 | The store's ordering of a result set is sorted by the key in the chosen direction and is a permutation of the result set |
| `Ordering.OppositeDirectionsReverse` | index.js:107-122 | Any ascending and any descending arrangement of one result set have key sequences that are each other's reverse |
| `Ordering.SortedKeysUnique` | index.js:131-136 | Any two arrangements of one result set sorted by the same key and direction have the same key sequence, however equal keys are ordered |
| `Ordering.SortDirectionsReverse` | index.js:107-122 | "oldest" is "newest" reversed and "price-low" is "price-high" reversed, key by key, over the same set of records |
| `Paging.Skip` | index.js:125-127 | `(page - 1) * limit` is 0 exactly for page 1 |
| `Paging.Window` | index.js:134-135 | `.skip(s).limit(l)` gives the records from index `s` on, exactly `min(l, n - s)` of them for `n` records, and none when `s` is at or past the end |
| `Paging.CeilDiv` | index.js:142 | `Math.ceil(n / d)` is the fewest pages of `d` that hold `n` records, and is 0 exactly when `n` is 0 |
| `Paging.PageInRangeIffNotPastEnd` | index.js:125-142 | A page starts inside the result exactly when its number is at most `totalPages` |
| `Paging.RecordOnExactlyOnePage` | index.js:125-136 | In one fixed ordering of the result, record `i` falls in page `p`'s window exactly when `p == i / limit + 1` |
| `Paging.RecordHomePage` | index.js:125-142 | That page is within `totalPages`, and the record is its `(i % limit)`-th item |
| `Paging.SkipNext` | index.js:127 | Page `page + 1` starts exactly `limit` records after page `page` |
| `Paging.PagesTile` | index.js:125-136 | In one fixed ordering of the result, reading pages 1 to `k` one after the other gives exactly the records before page `k + 1`, in order, with no gap and no repeat |
| `Paging.AllPagesTile` | index.js:125-142 | In one fixed ordering of the result, reading every page from 1 to `totalPages` gives the whole ordering, each record once |
| `Queries.ParseSort` | index.js:107-122 | The switch recognises "oldest", "price-low" and "price-high" exactly, and gives "newest" for every other string |
| `Queries.CarSortTable` | index.js:107-122 | Car lists: "newest" and every unrecognised value sort `dateAdded` descending, "oldest" sorts `dateAdded` ascending, "price-low" sorts `price` ascending, "price-high" sorts `price` descending |
| `Queries.SortOptionsDistinct` | index.js:179-194 | The four recognised values give four different sort options, for cars and for bookings |
| `Queries.BookingSortMirrorsCarSort` | index.js:263-278 | Booking lists use the same mapping with `dateBooked` for `dateAdded` and `totalPrice` for `price`, including the default |
| `Queries.CarSortOption` | index.js:107-122 | No contract of its own: the switch for car lists, specified by `Queries.CarSortTable` and `Queries.SortOptionsDistinct` |
| `Queries.BookingSortOption` | index.js:263-278 | No contract of its own: the switch for booking lists, specified by `Queries.BookingSortMirrorsCarSort` and `Queries.SortOptionsDistinct` |
| `Queries.CarsFilter` | index.js:96-103 | `GET /cars` adds the `$or` exactly when the search is not blank, with the untrimmed search as the pattern, and adds no owner scope |
| `Queries.MyCarsFilter` | index.js:175 | No contract of its own: `{ addedBy: email }`, specified by `Queries.MyCarsScope` |
| `Queries.CarMatches` | index.js:96-103 | No contract of its own: when a car satisfies a car query, specified by `Queries.BlankSearchSelectsAll`, `Queries.NonBlankSearchMatches` and `Queries.MyCarsScope` |
| `Queries.BookingMatches` | index.js:259 | No contract of its own: `{ bookedBy: email }` (and `{ addedBy: email }` at line 316), specified by `Queries.BookingScope` |
| `Queries.Select` | index.js:128 | Every selected document matches the filter, and there are no more of them than stored documents |
| `Queries.SelectMultiset` | index.js:128 | The documents a query selects are every matching document, with its multiplicity, and no other |
| `Queries.BlankSearchSelectsAll` | index.js:96-103 | A blank search selects every car, in store order |
| `Queries.NonBlankSearchMatches` | index.js:97-102 | A non-blank search keeps a car exactly when its name, type or location contains the search, ignoring case |
| `Queries.MyCarsScope` | index.js:175 | `/mycars/:email` keeps exactly the cars whose `addedBy` equals the path email |
| `Queries.BookingScope` | index.js:259 | `/bookings/:email` keeps exactly the bookings with `bookedBy` equal to the email; `/requests/:email` keeps those with `addedBy` equal to it |
| `Queries.OrderedIsMatching` | index.js:131-133 | The store's ordering of a query's result is sorted, and holds each matching document as often as it is stored and no other document |
| `Queries.CountDocuments` | index.js:128 | No contract of its own: `countDocuments(query)`, specified by `Queries.ListPageCounts` and `Queries.SelectMultiset` |
| `Queries.Find` | index.js:131-136 | No contract of its own: `find(query).sort().skip().limit()`, whose result is the whole `[skip, skip + limit)` slice of the ordering by `Queries.ListPageWindow`, sorted and matching by `Queries.ListPageItemsSortedAndMatching` |
| `Queries.ListPage` | index.js:125-144 | No contract of its own: one list request and its envelope, specified by `Queries.ListPageWindow`, `Queries.ListPageCounts` and `Queries.ListPagePastEnd` |
| `Queries.ListPageWindow` | index.js:125-136 | The items are exactly the records from index `(page - 1) * limit` up to `limit` later, or to the end, of a sorted arrangement of exactly the matching documents; a page starting at or past the end is empty; page 1 starts at the first record |
| `Queries.ListPageItemsSortedAndMatching` | index.js:131-136 | Every listed item matches the filter, and the items are in the requested order |
| `Queries.ListPageCounts` | index.js:128-144 | `totalCount` is the number of matching documents; `totalPages` is the ceiling of `totalCount / limit` (see `Paging.CeilDiv`) and is 0 exactly when nothing matches; `currentPage` echoes the requested page and `success` is true |
| `Queries.TotalCountIgnoresPaging` | index.js:128 | `totalCount` is the same whatever `page` and `limit` are |
| `Queries.ListPagePastEnd` | index.js:125-144 | The item list is empty exactly when the page is beyond `totalPages`; no error is raised |
| `Queries.FirstPageIsTop` | index.js:131-136 | No record of the ordering after page 1 comes before a record on it |
| `Queries.FirstPageBeatsTheRest` | index.js:131-136 | No matching stored document left off page 1 comes before a record on it |
| `Queries.NewestFirstPageIsLatest` | index.js:107-109 | In a car list sorted newest first, no matching car left off page 1 was added later than a car on it |
| `Queries.SevenRecordsThreePerPage` | index.js:125-144 | Seven matching records, three per page: page 1 is full, page 3 holds one record, and there are three pages |
| `Queries.SevenListingsThreePerPage` | index.js:89-145 | With 7 listings, `limit=3` and "newest", page 1 holds 3 listings added no earlier than any other, `totalPages` is 3, and page 3 holds 1 listing |
| `Queries.PageKeysIgnoreTies` | index.js:131-136 | Two requests for the same page get the same sequence of sort keys, whatever order the store gives records with equal keys on each request |
| `Queries.SortKeeps` | index.js:133 | Every record of the store's ordering has every property that all the records of the result set have |
| `Access.Authorize` | index.js:28-41 | No contract of its own: the token middleware followed by the email check at lines 168-170, specified by `Access.GateDecision` |
| `Access.GateDecision` | index.js:28-41 | No token (or an empty one) gives 401; a token that fails verification gives 400; a verified token whose email is not the path email gives 403; only a verified token for that email passes |
| `Access.RejectedBeforeAnyQuery` | index.js:168-170 | A scoped request that fails the gate gets the gate's status and message. It records no store call, and its reply does not depend on the store's contents (also at lines 252-254 and 309-311) |
| `Access.CarList` | index.js:196-216 | No contract of its own: count, then fetch one page of cars, specified by `Access.CarListServed` |
| `Access.BookingList` | index.js:280-300 | No contract of its own: count, then fetch one page of bookings, specified by `Access.BookingListServed` |
| `Access.GetCars` | index.js:89-145 | No contract of its own: `GET /cars`, specified by `Access.CarsServed` |
| `Access.GetMyCars` | index.js:163-217 | No contract of its own: `GET /mycars/:email`, specified by `Access.RejectedBeforeAnyQuery` and `Access.MyCarsServed` |
| `Access.GetBookings` | index.js:247-301 | No contract of its own: `GET /bookings/:email`, specified by `Access.RejectedBeforeAnyQuery` and `Access.BookingListsServed` |
| `Access.GetRequests` | index.js:304-357 | No contract of its own: `GET /requests/:email`, specified by `Access.RejectedBeforeAnyQuery` and `Access.BookingListsServed` |
| `Access.CarListServed` | index.js:196-216 | A car list is 200. It counts, then fetches with the same filter at skip `(page - 1) * limit` and the given limit. Its items are exactly that page's slice of the ordered matching cars, at most `limit` of them, all matching and in the requested order. `totalCount` is the number of matching cars, `totalPages` its ceiling over `limit`, and the page is echoed |
| `Access.BookingListServed` | index.js:280-300 | A booking list is the same with the booking filter and the booking sort: the count-then-find calls, exactly the page's slice of the ordered matching bookings, the number of matching bookings as `totalCount`, its ceiling over `limit` as `totalPages`, and the page echoed |
| `Access.MyCarsServed` | index.js:163-217 | An admitted `/mycars` request is the car list with filter `{ addedBy: email }`, and every listed car is the caller's |
| `Access.BookingListsServed` | index.js:247-357 | An admitted `/bookings` request lists only bookings with `bookedBy` equal to the email, and an admitted `/requests` request only those with `addedBy` equal to it |
| `Access.CarsServed` | index.js:89-145 | `GET /cars` needs no token and is the car list with the search filter; with a blank search `totalCount` is the number of cars |
| `BookingStore.FirstCarWithId` | index.js:368-369 | `updateOne` picks the first car whose `_id` is the booking's `carID`, and picks none when no car has that id |
| `BookingStore.BumpRentCount` | index.js:365-369 | No contract of its own: `updateOne({ _id }, { $inc: { rent_count: 1 } })`, specified by `BookingStore.BumpTouchesOnlyTarget` and `BookingStore.BumpAddsOne` |
| `BookingStore.BumpTouchesOnlyTarget` | index.js:365-369 | With unique ids, the `$inc` raises `rent_count` by exactly 1 on the car whose id is `carID`; every other car and every other field is unchanged |
| `BookingStore.BumpAddsOne` | index.js:365-369 | The total `rent_count` grows by exactly 1 when a car has the id, and by 0 otherwise |
| `BookingStore.Store.constructor` | index.js:58-60 | The store starts with the given collections and an empty write log |
| `BookingStore.Store.InsertOne` | index.js:362 | An insert appends exactly the booking and logs it; a duplicate `_id` changes nothing |
| `BookingStore.Store.IncrementRentCountOf` | index.js:365-369 | The increment updates the cars as `updateOne` does, logs the write, and leaves the bookings alone |
| `BookingStore.Store.CreateBooking` | index.js:360-371 | A new booking is appended before its car's `rent_count` is raised by 1; the write log shows the insert before the increment; every other car is unchanged and the existing bookings are kept; a duplicate `_id` stops the handler before the increment |

## Left out

- Express routing, CORS, cookie parsing, `app.listen`, the root route, `/jwt`
  and `/logout`, and the MongoDB client bootstrap: framework and I/O plumbing.
- JWT signing and verification. This is a cryptographic library call.
  `Access.Authorize` takes the cookie value and an abstract `verify` function
  from a token to "invalid" or a decoded `email` claim.
- `/recentcars`, `GET`/`PATCH`/`DELETE /cars/:id`, `POST /cars` and
  `PATCH /bookings/:id`. Each is a single store call with no logic of its own.
- Text.ContainsIgnoreCase: the search string is used as a raw regular
  expression. The model treats it as a literal substring, so metacharacters
  are not modelled. A pattern that is an invalid regular expression would be
  an error in the store.
- Text.Lower: case folding covers ASCII letters only. The store's
  case-insensitive matching also folds non-ASCII letters.
- `parseInt` of a missing or non-numeric `page` or `limit` gives `NaN`.
  `search.trim()` throws when `search` is absent. Neither is modelled: list
  requests that reach the query require `page >= 1` and `limit >= 1`, and
  `search` is a string. A page below 1 would give a negative skip, which the
  store rejects. A `limit` of 0 is not modelled either: the store reads
  `.limit(0)` as no limit, so the page holds every matching document, and
  `totalCount / 0` makes `totalPages` `Infinity` (or `NaN` when nothing
  matches); either is sent as `null`.
- Paging.CeilDiv: integer ceiling division stands in for `Math.ceil` over
  floating-point division. The two agree for the counts a collection holds.
- Prices and dates are integers: float prices and `Date` values are not
  modelled. Documents missing a sorted or searched field are not modelled.
- Ordering.Sort: the store breaks ties among equal keys in its own
  unspecified order. The model fixes one tie-break, a stable insertion sort,
  so every request sees the same order. The properties of a single list
  response use only "sorted" and "a permutation of the matching documents".
- Paging.PagesTile / Paging.AllPagesTile / Paging.RecordOnExactlyOnePage: each
  page is a query of its own, and separate page requests may order records
  with equal keys differently. So in the source, reading pages 1 to
  `totalPages` sees each record exactly once only when the sort keys are
  distinct. The sequence of sort keys still tiles, whatever the tie order
  (`Queries.PageKeysIgnoreTies`).
- The `countDocuments` and `find` calls are not atomic with respect to each
  other, and neither are the insert and the increment of `POST /bookings`.
  Concurrent requests are not modelled.
- Store failures: the model's `countDocuments`, `find`, `insertOne` and
  `updateOne` always succeed, so every admitted list request is answered
  with 200. In index.js each store call is awaited without a `try`/`catch`
  (lines 128, 131-136, 200, 203-208, 284, 287-292, 341, 344-349, 362 and
  369). A rejected call, like any other throw listed here, ends the handler
  before `res.send`, so no envelope is sent. In `POST /bookings` a failed
  `updateOne` after a successful insert leaves the booking stored without
  its increment, a state `BookingStore.Store.CreateBooking` does not reach.
- BookingStore.Store.CreateBooking: `new ObjectId(booking.carID)` throws
  after the insert when `carID` is not a valid ObjectId. The model treats ids
  as opaque strings, so this path is not modelled. A booking without a
  `carID` gives `new ObjectId(undefined)`, which is a fresh id that matches no
  car: the booking is inserted and no `rent_count` changes. The model covers
  this as a `carID` that no car has. The store assigns the new
  booking's `_id`; the model takes it as part of the booking.
- The JSON response keys (`cars`, `bookings`, `requests`) are all modelled as
  one `items` field.
