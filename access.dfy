/** The four list endpoints as request handlers: `GET /cars`, and the
    identity-scoped `GET /mycars/:email`, `GET /bookings/:email` and
    `GET /requests/:email`, which first pass the token check. A reply records
    the store calls the handler made, in order, beside its status and body. */
module Access {
  import opened Records
  import opened Ordering
  import opened Paging
  import opened Queries

  /** What `jwt.verify` reports for a token: failure, or the decoded
      payload's `email` claim (None when the payload has none). */
  datatype Verification = Invalid | Verified(email: Option<Email>)

  /** The query-string parameters of a list request, `page` and `limit`
      after `parseInt`. */
  datatype ListParams = ListParams(page: int, limit: int, search: string, sort: string)

  /** A call on a collection: `countDocuments(filter)`, or
      `find(filter).sort(sort).skip(skip).limit(limit)`. */
  datatype StoreCall<Flt, F> =
    | CountCall(filter: Flt)
    | FindCall(filter: Flt, sort: SortOption<F>, skip: nat, limit: nat)

  /** A reply body: an error object `{ massage }` or a list envelope. */
  datatype Body<T> = Message(massage: string) | Listing(list: ListResponse<T>)

  datatype Reply<T, Flt, F> = Reply(status: nat, body: Body<T>, calls: seq<StoreCall<Flt, F>>)

  type CarReply = Reply<Car, CarFilter, CarField>
  type BookingReply = Reply<Booking, BookingFilter, BookingField>

  datatype Gate = Admit | Deny(status: nat, massage: string)

  /** The `verifyJWTToken` middleware followed by the handler's
      `decodedEmail !== email` check. `cookie` is the `driveXpressAccess`
      cookie; an empty value is as good as none. */
  function Authorize(cookie: Option<string>, verify: string -> Verification, email: Email): Gate {
    if cookie == None || cookie.value == "" then
      Deny(401, "Unauthorize Access")
    else
      match verify(cookie.value)
      case Invalid => Deny(400, "Bad Request")
      case Verified(claim) => if claim != Some(email) then Deny(403, "Forbidden Access") else Admit
  }

  /** No token is 401, a token that fails verification 400, a verified
      token for another identity (or for none) 403, and only a verified
      token for the path's email is admitted. */
  lemma GateDecision(cookie: Option<string>, verify: string -> Verification, email: Email)
    ensures var g := Authorize(cookie, verify, email);
            var hasToken := cookie.Some? && cookie.value != "";
            && (g == Admit <==> hasToken && verify(cookie.value) == Verified(Some(email)))
            && (g.Deny? && g.status == 401 <==> !hasToken)
            && (g.Deny? && g.status == 400 <==> hasToken && verify(cookie.value) == Invalid)
            && (g.Deny? && g.status == 403 <==>
                  hasToken && verify(cookie.value).Verified? && verify(cookie.value).email != Some(email))
  {
  }

  /** Count, then fetch one page, over the cars the filter selects. */
  function CarList(cars: seq<Car>, filter: CarFilter, option: SortOption<CarField>,
                   page: int, limit: int): CarReply
    requires page >= 1 && limit >= 1
  {
    var list := ListPage(cars, CarMatcher(filter), CarKey(option.field), option.direction, page, limit);
    Reply(200, Listing(list),
          [CountCall(filter), FindCall(filter, option, Skip(page, limit), limit)])
  }

  /** Count, then fetch one page, over the bookings the filter selects. */
  function BookingList(bookings: seq<Booking>, filter: BookingFilter,
                       option: SortOption<BookingField>, page: int, limit: int): BookingReply
    requires page >= 1 && limit >= 1
  {
    var list := ListPage(bookings, BookingMatcher(filter), BookingKey(option.field),
                         option.direction, page, limit);
    Reply(200, Listing(list),
          [CountCall(filter), FindCall(filter, option, Skip(page, limit), limit)])
  }

  /** `GET /cars`: every car, or those matching a non-blank search. */
  function GetCars(params: ListParams, cars: seq<Car>): CarReply
    requires params.page >= 1 && params.limit >= 1
  {
    CarList(cars, CarsFilter(params.search), CarSortOption(ParseSort(params.sort)),
            params.page, params.limit)
  }

  /** `GET /mycars/:email`: the caller's own listings. */
  function GetMyCars(cookie: Option<string>, verify: string -> Verification, email: Email,
                     params: ListParams, cars: seq<Car>): CarReply
    requires Authorize(cookie, verify, email) == Admit ==> params.page >= 1 && params.limit >= 1
  {
    match Authorize(cookie, verify, email)
    case Deny(status, massage) => Reply(status, Message(massage), [])
    case Admit =>
      CarList(cars, MyCarsFilter(email), CarSortOption(ParseSort(params.sort)),
              params.page, params.limit)
  }

  /** `GET /bookings/:email`: the bookings the caller made. */
  function GetBookings(cookie: Option<string>, verify: string -> Verification, email: Email,
                       params: ListParams, bookings: seq<Booking>): BookingReply
    requires Authorize(cookie, verify, email) == Admit ==> params.page >= 1 && params.limit >= 1
  {
    match Authorize(cookie, verify, email)
    case Deny(status, massage) => Reply(status, Message(massage), [])
    case Admit =>
      BookingList(bookings, ByRenter(email), BookingSortOption(ParseSort(params.sort)),
                  params.page, params.limit)
  }

  /** `GET /requests/:email`: the bookings made of the caller's cars. */
  function GetRequests(cookie: Option<string>, verify: string -> Verification, email: Email,
                       params: ListParams, bookings: seq<Booking>): BookingReply
    requires Authorize(cookie, verify, email) == Admit ==> params.page >= 1 && params.limit >= 1
  {
    match Authorize(cookie, verify, email)
    case Deny(status, massage) => Reply(status, Message(massage), [])
    case Admit =>
      BookingList(bookings, ByOwner(email), BookingSortOption(ParseSort(params.sort)),
                  params.page, params.limit)
  }

  /** A scoped request that fails the gate is answered with the gate's
      status and message before any count or fetch: the reply records no
      store call and does not depend on what the store holds. */
  lemma RejectedBeforeAnyQuery(cookie: Option<string>, verify: string -> Verification, email: Email,
                               params: ListParams, cars: seq<Car>, cars': seq<Car>,
                               bookings: seq<Booking>, bookings': seq<Booking>)
    requires Authorize(cookie, verify, email) != Admit
    ensures var g := Authorize(cookie, verify, email);
            var m := GetMyCars(cookie, verify, email, params, cars);
            var b := GetBookings(cookie, verify, email, params, bookings);
            var q := GetRequests(cookie, verify, email, params, bookings);
            && m.status == g.status && b.status == g.status && q.status == g.status
            && m.status in {400, 401, 403}
            && m.calls == [] && b.calls == [] && q.calls == []
            && m.body == Message(g.massage) && b.body == Message(g.massage)
            && q.body == Message(g.massage)
            && m == GetMyCars(cookie, verify, email, params, cars')
            && b == GetBookings(cookie, verify, email, params, bookings')
            && q == GetRequests(cookie, verify, email, params, bookings')
  {
  }

  /** A car list counts, then fetches the page at `(page - 1) * limit` with
      the same filter. It lists that page of the ordered matching cars, in
      the requested order, and reports how many cars match and how many
      pages of `limit` they fill. */
  lemma CarListServed(cars: seq<Car>, filter: CarFilter, option: SortOption<CarField>,
                      page: int, limit: int)
    requires page >= 1 && limit >= 1
    ensures var r := CarList(cars, filter, option, page, limit);
            && r.status == 200 && r.body.Listing?
            && r.calls == [CountCall(filter), FindCall(filter, option, (page - 1) * limit, limit)]
            && r.body.list.currentPage == page
            && r.body.list.totalCount == |Select(cars, CarMatcher(filter))|
            && r.body.list.totalPages == CeilDiv(r.body.list.totalCount, limit)
            && |r.body.list.items| <= limit
            && (var ordered := Sort(CarKey(option.field), option.direction, Select(cars, CarMatcher(filter)));
                r.body.list.items == (if (page - 1) * limit < |ordered|
                                      then ordered[(page - 1) * limit..Min((page - 1) * limit + limit, |ordered|)]
                                      else []))
            && SortedBy(CarKey(option.field), option.direction, r.body.list.items)
            && forall i :: 0 <= i < |r.body.list.items| ==> CarMatches(filter, r.body.list.items[i])
  {
    var list := ListPage(cars, CarMatcher(filter), CarKey(option.field), option.direction, page, limit);
    assert CarList(cars, filter, option, page, limit).body.list == list;
    ListPageItemsSortedAndMatching(cars, CarMatcher(filter), CarKey(option.field), option.direction,
                                   page, limit);
    ListPageWindow(cars, CarMatcher(filter), CarKey(option.field), option.direction, page, limit);
    forall i | 0 <= i < |list.items| ensures CarMatches(filter, list.items[i]) {
      assert CarMatcher(filter)(list.items[i]);
    }
  }

  /** A booking list counts, then fetches the page at `(page - 1) * limit`
      with the same filter. It lists that page of the ordered matching
      bookings, in the requested order, and reports how many bookings match
      and how many pages of `limit` they fill. */
  lemma BookingListServed(bookings: seq<Booking>, filter: BookingFilter,
                          option: SortOption<BookingField>, page: int, limit: int)
    requires page >= 1 && limit >= 1
    ensures var r := BookingList(bookings, filter, option, page, limit);
            && r.status == 200 && r.body.Listing?
            && r.calls == [CountCall(filter), FindCall(filter, option, (page - 1) * limit, limit)]
            && r.body.list.currentPage == page
            && r.body.list.totalCount == |Select(bookings, BookingMatcher(filter))|
            && r.body.list.totalPages == CeilDiv(r.body.list.totalCount, limit)
            && |r.body.list.items| <= limit
            && (var ordered := Sort(BookingKey(option.field), option.direction,
                                    Select(bookings, BookingMatcher(filter)));
                r.body.list.items == (if (page - 1) * limit < |ordered|
                                      then ordered[(page - 1) * limit..Min((page - 1) * limit + limit, |ordered|)]
                                      else []))
            && SortedBy(BookingKey(option.field), option.direction, r.body.list.items)
            && forall i :: 0 <= i < |r.body.list.items| ==> BookingMatches(filter, r.body.list.items[i])
  {
    var list := ListPage(bookings, BookingMatcher(filter), BookingKey(option.field), option.direction,
                         page, limit);
    assert BookingList(bookings, filter, option, page, limit).body.list == list;
    ListPageItemsSortedAndMatching(bookings, BookingMatcher(filter), BookingKey(option.field),
                                   option.direction, page, limit);
    ListPageWindow(bookings, BookingMatcher(filter), BookingKey(option.field), option.direction,
                   page, limit);
    forall i | 0 <= i < |list.items| ensures BookingMatches(filter, list.items[i]) {
      assert BookingMatcher(filter)(list.items[i]);
    }
  }

  /** An admitted `/mycars` request is the car list with the owner filter
      `{ addedBy: email }`: every listed car is the caller's. */
  lemma MyCarsServed(cookie: Option<string>, verify: string -> Verification, email: Email,
                     params: ListParams, cars: seq<Car>)
    requires Authorize(cookie, verify, email) == Admit
    requires params.page >= 1 && params.limit >= 1
    ensures var r := GetMyCars(cookie, verify, email, params, cars);
            && r == CarList(cars, MyCarsFilter(email), CarSortOption(ParseSort(params.sort)),
                            params.page, params.limit)
            && forall i :: 0 <= i < |r.body.list.items| ==> r.body.list.items[i].addedBy == email
  {
    CarListServed(cars, MyCarsFilter(email), CarSortOption(ParseSort(params.sort)),
                  params.page, params.limit);
  }

  /** Admitted `/bookings` and `/requests` requests are the booking list
      with the renter filter `{ bookedBy: email }` and the owner filter
      `{ addedBy: email }`: every listed booking is the caller's. */
  lemma BookingListsServed(cookie: Option<string>, verify: string -> Verification, email: Email,
                           params: ListParams, bookings: seq<Booking>)
    requires Authorize(cookie, verify, email) == Admit
    requires params.page >= 1 && params.limit >= 1
    ensures var o := BookingSortOption(ParseSort(params.sort));
            var b := GetBookings(cookie, verify, email, params, bookings);
            var q := GetRequests(cookie, verify, email, params, bookings);
            && b == BookingList(bookings, ByRenter(email), o, params.page, params.limit)
            && q == BookingList(bookings, ByOwner(email), o, params.page, params.limit)
            && (forall i :: 0 <= i < |b.body.list.items| ==> b.body.list.items[i].bookedBy == email)
            && (forall i :: 0 <= i < |q.body.list.items| ==> q.body.list.items[i].addedBy == email)
  {
    var o := BookingSortOption(ParseSort(params.sort));
    BookingListServed(bookings, ByRenter(email), o, params.page, params.limit);
    BookingListServed(bookings, ByOwner(email), o, params.page, params.limit);
  }

  /** `GET /cars` needs no token: it is the car list with the search filter,
      and with a blank search it counts every car. */
  lemma CarsServed(params: ListParams, cars: seq<Car>)
    requires params.page >= 1 && params.limit >= 1
    ensures var r := GetCars(params, cars);
            && r == CarList(cars, CarsFilter(params.search), CarSortOption(ParseSort(params.sort)),
                            params.page, params.limit)
            && (Text.IsBlank(params.search) ==> r.body.list.totalCount == |cars|)
  {
    if Text.IsBlank(params.search) {
      BlankSearchSelectsAll(cars, params.search);
    }
  }
}
