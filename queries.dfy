/** The list-query logic the four list endpoints share: the filter each one
    builds, the `sort` switch, the store's answers to `countDocuments` and to
    `find(...).sort(...).skip(...).limit(...)`, and the response envelope. */
module Queries {
  import opened Records
  import opened Text
  import opened Ordering
  import opened Paging

  // ---------------------------------------------------------------- sorting

  /** The four recognised values of the `sort` query parameter. */
  datatype SortKind = Newest | Oldest | PriceLow | PriceHigh

  /** The `switch (sort)`: the four recognised strings, and "newest" for
      every other string. */
  function ParseSort(sort: string): (k: SortKind)
    ensures k == Oldest <==> sort == "oldest"
    ensures k == PriceLow <==> sort == "price-low"
    ensures k == PriceHigh <==> sort == "price-high"
    ensures k == Newest <==> sort !in {"oldest", "price-low", "price-high"}
  {
    match sort
    case "newest" => Newest
    case "oldest" => Oldest
    case "price-low" => PriceLow
    case "price-high" => PriceHigh
    case _ => Newest
  }

  datatype CarField = DateAdded | Price
  datatype BookingField = DateBooked | TotalPrice

  /** A cursor sort option `{ field: 1 }` or `{ field: -1 }`. */
  datatype SortOption<F> = SortOption(field: F, direction: Direction)

  /** The sort option the car lists (`/cars`, `/mycars/:email`) use. */
  function CarSortOption(k: SortKind): SortOption<CarField> {
    match k
    case Newest => SortOption(DateAdded, Descending)
    case Oldest => SortOption(DateAdded, Ascending)
    case PriceLow => SortOption(Price, Ascending)
    case PriceHigh => SortOption(Price, Descending)
  }

  /** The sort option the booking lists (`/bookings/:email`,
      `/requests/:email`) use. */
  function BookingSortOption(k: SortKind): SortOption<BookingField> {
    match k
    case Newest => SortOption(DateBooked, Descending)
    case Oldest => SortOption(DateBooked, Ascending)
    case PriceLow => SortOption(TotalPrice, Ascending)
    case PriceHigh => SortOption(TotalPrice, Descending)
  }

  /** "newest" orders by date, latest first, and so does every string the
      switch does not recognise; the other three are as named; and the four
      recognised strings give four different orders. */
  lemma CarSortTable(sort: string)
    ensures sort !in {"oldest", "price-low", "price-high"} ==>
              CarSortOption(ParseSort(sort)) == SortOption(DateAdded, Descending)
    ensures sort == "oldest" ==> CarSortOption(ParseSort(sort)) == SortOption(DateAdded, Ascending)
    ensures sort == "price-low" ==> CarSortOption(ParseSort(sort)) == SortOption(Price, Ascending)
    ensures sort == "price-high" ==> CarSortOption(ParseSort(sort)) == SortOption(Price, Descending)
  {
  }

  lemma SortOptionsDistinct(k1: SortKind, k2: SortKind)
    ensures CarSortOption(k1) == CarSortOption(k2) <==> k1 == k2
    ensures BookingSortOption(k1) == BookingSortOption(k2) <==> k1 == k2
  {
  }

  /** The booking lists use the car lists' mapping with `dateBooked` for
      `dateAdded` and `totalPrice` for `price`, including the default. */
  lemma BookingSortMirrorsCarSort(sort: string)
    ensures BookingSortOption(ParseSort(sort)).direction == CarSortOption(ParseSort(sort)).direction
    ensures (BookingSortOption(ParseSort(sort)).field == DateBooked)
              <==> (CarSortOption(ParseSort(sort)).field == DateAdded)
  {
  }

  function CarKey(field: CarField): Car -> int {
    match field
    case DateAdded => (c: Car) => c.dateAdded
    case Price => (c: Car) => c.price
  }

  function BookingKey(field: BookingField): Booking -> int {
    match field
    case DateBooked => (b: Booking) => b.dateBooked
    case TotalPrice => (b: Booking) => b.totalPrice
  }

  // ---------------------------------------------------------------- filters

  /** The query object of a car list: an optional exact owner (`addedBy`)
      and an optional `$or` of case-insensitive matches of one pattern
      against `name`, `type` and `location`. */
  datatype CarFilter = CarFilter(addedBy: Option<Email>, pattern: Option<string>)

  /** The query object of a booking list: exact renter or exact owner. */
  datatype BookingFilter = ByRenter(renter: Email) | ByOwner(owner: Email)

  /** The query of `GET /cars`: the `$or` is added only when `search.trim()`
      is non-empty, and then it matches the untrimmed `search`. */
  function CarsFilter(search: string): (f: CarFilter)
    ensures f.addedBy == None
    ensures f.pattern == None <==> IsBlank(search)
    ensures f.pattern != None ==> f.pattern.value == search
  {
    TrimEmptyIffBlank(search);
    CarFilter(None, if Trim(search) != "" then Some(search) else None)
  }

  /** The query of `GET /mycars/:email`: `{ addedBy: email }`. */
  function MyCarsFilter(email: Email): CarFilter {
    CarFilter(Some(email), None)
  }

  predicate CarMatches(f: CarFilter, c: Car) {
    && (f.addedBy.Some? ==> c.addedBy == f.addedBy.value)
    && (f.pattern.Some? ==>
          || ContainsIgnoreCase(c.name, f.pattern.value)
          || ContainsIgnoreCase(c.carType, f.pattern.value)
          || ContainsIgnoreCase(c.location, f.pattern.value))
  }

  function CarMatcher(f: CarFilter): Car -> bool {
    (c: Car) => CarMatches(f, c)
  }

  predicate BookingMatches(f: BookingFilter, b: Booking) {
    match f
    case ByRenter(e) => b.bookedBy == e
    case ByOwner(e) => b.addedBy == e
  }

  function BookingMatcher(f: BookingFilter): Booking -> bool {
    (b: Booking) => BookingMatches(f, b)
  }

  /** The documents of `s` that match, in store order. */
  function Select<T>(s: seq<T>, matches: T -> bool): (r: seq<T>)
    ensures |r| <= |s|
    ensures forall i :: 0 <= i < |r| ==> matches(r[i])
  {
    if s == [] then
      []
    else
      var rest := Select(s[1..], matches);
      if matches(s[0]) then [s[0]] + rest else rest
  }

  /** The selection holds each matching document as often as `s` does, and
      no other document. */
  lemma {:induction false} SelectMultiset<T>(s: seq<T>, matches: T -> bool)
    ensures multiset(Select(s, matches)) <= multiset(s)
    ensures forall x :: x in multiset(s) ==>
              multiset(Select(s, matches))[x] == if matches(x) then multiset(s)[x] else 0
  {
    if s != [] {
      var rest := Select(s[1..], matches);
      var r := Select(s, matches);
      SelectMultiset(s[1..], matches);
      assert s == [s[0]] + s[1..];
      var head := multiset{s[0]};
      assert multiset(s) == head + multiset(s[1..]);
      assert multiset(r) == if matches(s[0]) then head + multiset(rest) else multiset(rest);
      forall x | x in multiset(s)
        ensures multiset(r)[x] == if matches(x) then multiset(s)[x] else 0
      {
        if x !in multiset(s[1..]) {
          assert multiset(rest)[x] == 0;
        }
      }
    }
  }

  /** A filter every document meets selects the whole collection, in order. */
  lemma {:induction false} SelectAll<T>(s: seq<T>, matches: T -> bool)
    requires forall i :: 0 <= i < |s| ==> matches(s[i])
    ensures Select(s, matches) == s
  {
    if s != [] {
      SelectAll(s[1..], matches);
    }
  }

  /** A blank search builds the empty query: `GET /cars` then lists every
      car. */
  lemma BlankSearchSelectsAll(cars: seq<Car>, search: string)
    requires IsBlank(search)
    ensures Select(cars, CarMatcher(CarsFilter(search))) == cars
  {
    SelectAll(cars, CarMatcher(CarsFilter(search)));
  }

  /** A non-blank search keeps a car exactly when its name, type or location
      contains the search text, ignoring case. */
  lemma NonBlankSearchMatches(cars: seq<Car>, search: string, c: Car)
    requires !IsBlank(search)
    ensures c in Select(cars, CarMatcher(CarsFilter(search))) <==>
              c in cars
              && (|| ContainsIgnoreCase(c.name, search)
                  || ContainsIgnoreCase(c.carType, search)
                  || ContainsIgnoreCase(c.location, search))
  {
    var r := Select(cars, CarMatcher(CarsFilter(search)));
    SelectMultiset(cars, CarMatcher(CarsFilter(search)));
    assert c in r <==> multiset(r)[c] > 0;
    assert c in cars <==> multiset(cars)[c] > 0;
  }

  /** `/mycars/:email` keeps exactly the cars whose `addedBy` is `email`. */
  lemma MyCarsScope(cars: seq<Car>, email: Email, c: Car)
    ensures c in Select(cars, CarMatcher(MyCarsFilter(email))) <==> c in cars && c.addedBy == email
  {
    var r := Select(cars, CarMatcher(MyCarsFilter(email)));
    SelectMultiset(cars, CarMatcher(MyCarsFilter(email)));
    assert c in r <==> multiset(r)[c] > 0;
    assert c in cars <==> multiset(cars)[c] > 0;
  }

  /** `/bookings/:email` keeps the renter's bookings and `/requests/:email`
      the owner's. */
  lemma BookingScope(bookings: seq<Booking>, email: Email, b: Booking)
    ensures b in Select(bookings, BookingMatcher(ByRenter(email))) <==> b in bookings && b.bookedBy == email
    ensures b in Select(bookings, BookingMatcher(ByOwner(email))) <==> b in bookings && b.addedBy == email
  {
    var r := Select(bookings, BookingMatcher(ByRenter(email)));
    var q := Select(bookings, BookingMatcher(ByOwner(email)));
    SelectMultiset(bookings, BookingMatcher(ByRenter(email)));
    SelectMultiset(bookings, BookingMatcher(ByOwner(email)));
    assert b in r <==> multiset(r)[b] > 0;
    assert b in q <==> multiset(q)[b] > 0;
    assert b in bookings <==> multiset(bookings)[b] > 0;
  }

  // ------------------------------------------------- store reads and envelope

  /** `collection.countDocuments(query)`. */
  function CountDocuments<T>(docs: seq<T>, matches: T -> bool): nat {
    |Select(docs, matches)|
  }

  /** `collection.find(query).sort(option).skip(skip).limit(limit)`. */
  function Find<T>(docs: seq<T>, matches: T -> bool, key: T -> int, dir: Direction,
                   skip: nat, limit: nat): seq<T> {
    Window(Sort(key, dir, Select(docs, matches)), skip, limit)
  }

  /** The body `{ success, <items>, totalCount, totalPages, currentPage }`. */
  datatype ListResponse<T> = ListResponse(
    success: bool, items: seq<T>, totalCount: nat, totalPages: nat, currentPage: int)

  /** One list request: count the matching documents, fetch the requested
      page of them in order, and wrap both in the envelope. */
  function ListPage<T>(docs: seq<T>, matches: T -> bool, key: T -> int, dir: Direction,
                       page: int, limit: int): ListResponse<T>
    requires page >= 1 && limit >= 1
  {
    var totalCount := CountDocuments(docs, matches);
    ListResponse(true, Find(docs, matches, key, dir, Skip(page, limit), limit),
                 totalCount, CeilDiv(totalCount, limit), page)
  }

  /** The store orders exactly the matching documents, each as often as it
      is stored. */
  lemma OrderedIsMatching<T>(docs: seq<T>, matches: T -> bool, key: T -> int, dir: Direction)
    ensures var ordered := Sort(key, dir, Select(docs, matches));
            && SortedBy(key, dir, ordered)
            && forall x :: multiset(ordered)[x] == if matches(x) then multiset(docs)[x] else 0
  {
    SelectMultiset(docs, matches);
  }

  /** The items of a list response are the records from index
      `(page - 1) * limit` on, `limit` of them or as many as are left, of a
      sorted arrangement of exactly the matching documents; a page past the
      end is empty, and the first page starts at the first record. */
  lemma ListPageWindow<T>(docs: seq<T>, matches: T -> bool, key: T -> int, dir: Direction,
                          page: int, limit: int)
    requires page >= 1 && limit >= 1
    ensures var r := ListPage(docs, matches, key, dir, page, limit);
            var ordered := Sort(key, dir, Select(docs, matches));
            && SortedBy(key, dir, ordered)
            && (forall x :: multiset(ordered)[x] == if matches(x) then multiset(docs)[x] else 0)
            && |r.items| <= limit
            && (forall i :: 0 <= i < |r.items| ==> r.items[i] == ordered[(page - 1) * limit + i])
            && r.items == (if (page - 1) * limit < |ordered|
                           then ordered[(page - 1) * limit..Min((page - 1) * limit + limit, |ordered|)]
                           else [])
            && (page == 1 ==> r.items == ordered[..Min(limit, |ordered|)])
  {
    OrderedIsMatching(docs, matches, key, dir);
  }

  lemma WindowKeepsOrder<T>(key: T -> int, dir: Direction, s: seq<T>, skip: nat, limit: nat)
    requires SortedBy(key, dir, s)
    ensures SortedBy(key, dir, Window(s, skip, limit))
  {
    var w := Window(s, skip, limit);
    forall i, j | 0 <= i < j < |w| ensures Precedes(key, dir, w[i], w[j]) {
      assert w[i] == s[skip + i] && w[j] == s[skip + j];
    }
  }

  /** Each page is a query of its own, and the store may break ties between
      equal keys differently each time. Whatever arrangements two requests
      get, the same page carries the same sequence of sort keys. */
  lemma PageKeysIgnoreTies<T>(key: T -> int, dir: Direction, a: seq<T>, b: seq<T>,
                              page: int, limit: int)
    requires page >= 1 && limit >= 1
    requires SortedBy(key, dir, a) && SortedBy(key, dir, b) && multiset(a) == multiset(b)
    ensures Keys(key, Window(a, Skip(page, limit), limit)) == Keys(key, Window(b, Skip(page, limit), limit))
  {
    SortedKeysUnique(key, dir, a, b);
    assert |a| == |multiset(a)| == |multiset(b)| == |b|;
    var skip := Skip(page, limit);
    var wa, wb := Window(a, skip, limit), Window(b, skip, limit);
    forall i | 0 <= i < |wa| ensures key(wa[i]) == key(wb[i]) {
      assert Keys(key, a)[skip + i] == Keys(key, b)[skip + i];
    }
  }

  /** Ordering a result set keeps every record of it, so a property all its
      records have holds of all records of the ordering. */
  lemma SortKeeps<T>(key: T -> int, dir: Direction, s: seq<T>, p: T -> bool)
    requires forall i :: 0 <= i < |s| ==> p(s[i])
    ensures forall i :: 0 <= i < |Sort(key, dir, s)| ==> p(Sort(key, dir, s)[i])
  {
    var ordered := Sort(key, dir, s);
    forall i | 0 <= i < |ordered| ensures p(ordered[i]) {
      assert ordered[i] in multiset(ordered);
      assert ordered[i] in multiset(s);
      var k :| 0 <= k < |s| && s[k] == ordered[i];
    }
  }

  /** The items are in the requested order and each matches the filter. */
  lemma ListPageItemsSortedAndMatching<T>(docs: seq<T>, matches: T -> bool, key: T -> int,
                                           dir: Direction, page: int, limit: int)
    requires page >= 1 && limit >= 1
    ensures var r := ListPage(docs, matches, key, dir, page, limit);
            SortedBy(key, dir, r.items) && forall i :: 0 <= i < |r.items| ==> matches(r.items[i])
  {
    var ordered := Sort(key, dir, Select(docs, matches));
    var skip := Skip(page, limit);
    var w := Window(ordered, skip, limit);
    assert ListPage(docs, matches, key, dir, page, limit).items == w;
    WindowKeepsOrder(key, dir, ordered, skip, limit);
    SortKeeps(key, dir, Select(docs, matches), matches);
    WindowKeeps(ordered, matches, skip, limit);
  }

  /** `totalCount` is the number of matching documents; `totalPages` is the
      fewest pages of `limit` that hold them (0 when nothing matches);
      `currentPage` echoes the request. */
  lemma ListPageCounts<T>(docs: seq<T>, matches: T -> bool, key: T -> int, dir: Direction,
                          page: int, limit: int)
    requires page >= 1 && limit >= 1
    ensures var r := ListPage(docs, matches, key, dir, page, limit);
            && r.success && r.currentPage == page
            && r.totalCount == |Sort(key, dir, Select(docs, matches))|
            && r.totalPages == CeilDiv(r.totalCount, limit)
            && (r.totalPages == 0 <==> r.totalCount == 0)
  {
    var n := CountDocuments(docs, matches);
    var ordered := Sort(key, dir, Select(docs, matches));
    assert ListPage(docs, matches, key, dir, page, limit).totalCount == n;
    assert ListPage(docs, matches, key, dir, page, limit).totalPages == CeilDiv(n, limit);
    assert |ordered| == |multiset(ordered)| == |multiset(Select(docs, matches))| == n;
  }

  /** `totalCount` does not depend on the requested page or page size. */
  lemma TotalCountIgnoresPaging<T>(docs: seq<T>, matches: T -> bool, key: T -> int, dir: Direction,
                                   page: int, limit: int, page': int, limit': int)
    requires page >= 1 && limit >= 1 && page' >= 1 && limit' >= 1
    ensures ListPage(docs, matches, key, dir, page, limit).totalCount
            == ListPage(docs, matches, key, dir, page', limit').totalCount
  {
    assert ListPage(docs, matches, key, dir, page, limit).totalCount == CountDocuments(docs, matches);
    assert ListPage(docs, matches, key, dir, page', limit').totalCount == CountDocuments(docs, matches);
  }

  /** A page past the last one is empty, and not an error; every page up to
      the last holds at least one record. */
  lemma ListPagePastEnd<T>(docs: seq<T>, matches: T -> bool, key: T -> int, dir: Direction,
                           page: int, limit: int)
    requires page >= 1 && limit >= 1
    ensures var r := ListPage(docs, matches, key, dir, page, limit);
            r.items == [] <==> page > r.totalPages
  {
    var ordered := Sort(key, dir, Select(docs, matches));
    assert |ordered| == |Select(docs, matches)| by {
      assert multiset(ordered) == multiset(Select(docs, matches));
    }
    PageInRangeIffNotPastEnd(|ordered|, page, limit);
  }

  /** The first page holds the top records: none of the matching records left
      off it comes before any record on it. */
  lemma FirstPageIsTop<T>(docs: seq<T>, matches: T -> bool, key: T -> int, dir: Direction,
                          limit: int)
    requires limit >= 1
    ensures var r := ListPage(docs, matches, key, dir, 1, limit);
            var ordered := Sort(key, dir, Select(docs, matches));
            forall i, j :: 0 <= i < |r.items| <= j < |ordered| ==> Precedes(key, dir, r.items[i], ordered[j])
  {
    var r := ListPage(docs, matches, key, dir, 1, limit);
    var ordered := Sort(key, dir, Select(docs, matches));
    forall i, j | 0 <= i < |r.items| <= j < |ordered| ensures Precedes(key, dir, r.items[i], ordered[j]) {
      assert r.items[i] == ordered[i];
    }
  }

  /** No matching document left off the first page comes before any
      document on it. */
  lemma FirstPageBeatsTheRest<T>(docs: seq<T>, matches: T -> bool, key: T -> int, dir: Direction,
                                 limit: int)
    requires limit >= 1
    ensures var r := ListPage(docs, matches, key, dir, 1, limit);
            forall i, x :: 0 <= i < |r.items| && x in docs && matches(x) && x !in r.items ==>
              Precedes(key, dir, r.items[i], x)
  {
    var r := ListPage(docs, matches, key, dir, 1, limit);
    var ordered := Sort(key, dir, Select(docs, matches));
    FirstPageIsTop(docs, matches, key, dir, limit);
    SelectMultiset(docs, matches);
    assert r.items == ordered[..|r.items|];
    forall i, x | 0 <= i < |r.items| && x in docs && matches(x) && x !in r.items
      ensures Precedes(key, dir, r.items[i], x)
    {
      assert x in multiset(docs);
      assert x in multiset(ordered);
      var j :| 0 <= j < |ordered| && ordered[j] == x;
      assert x !in ordered[..|r.items|];
    }
  }

  /** In a car list sorted newest first, no matching car left off page 1
      was added later than a car on it. */
  lemma NewestFirstPageIsLatest(cars: seq<Car>, filter: CarFilter, limit: int)
    requires limit >= 1
    ensures var r := ListPage(cars, CarMatcher(filter), CarKey(DateAdded), Descending, 1, limit);
            forall i, c :: 0 <= i < |r.items| && c in cars && CarMatches(filter, c) && c !in r.items ==>
              c.dateAdded <= r.items[i].dateAdded
  {
    var r := ListPage(cars, CarMatcher(filter), CarKey(DateAdded), Descending, 1, limit);
    FirstPageBeatsTheRest(cars, CarMatcher(filter), CarKey(DateAdded), Descending, limit);
    forall i, c | 0 <= i < |r.items| && c in cars && CarMatches(filter, c) && c !in r.items
      ensures c.dateAdded <= r.items[i].dateAdded
    {
      assert CarMatcher(filter)(c);
      assert Precedes(CarKey(DateAdded), Descending, r.items[i], c);
    }
  }

  /** Seven records, three per page: page 1 is full, page 3 holds one
      record, and there are three pages. */
  lemma SevenRecordsThreePerPage<T>(docs: seq<T>, matches: T -> bool, key: T -> int, dir: Direction)
    requires Select(docs, matches) == docs && |docs| == 7
    ensures var p1 := ListPage(docs, matches, key, dir, 1, 3);
            var p3 := ListPage(docs, matches, key, dir, 3, 3);
            && |p1.items| == 3 && p1.totalPages == 3 && p1.currentPage == 1
            && |p3.items| == 1 && p3.currentPage == 3
  {
    var ordered := Sort(key, dir, docs);
    assert |ordered| == |multiset(ordered)| == |multiset(docs)| == 7;
    assert CeilDiv(7, 3) == 3;
    assert ListPage(docs, matches, key, dir, 1, 3)
           == ListResponse(true, Window(ordered, 0, 3), 7, CeilDiv(7, 3), 1);
    assert Skip(3, 3) == 6;
    assert ListPage(docs, matches, key, dir, 3, 3)
           == ListResponse(true, Window(ordered, 6, 3), 7, CeilDiv(7, 3), 3);
  }

  /** Seven listings, three per page, newest first: page 1 holds three
      listings added no earlier than any other, there are three pages, and
      page 3 holds the one remaining listing. */
  lemma SevenListingsThreePerPage(cars: seq<Car>)
    requires |cars| == 7
    ensures var f := CarMatcher(CarsFilter(""));
            var o := CarSortOption(ParseSort("newest"));
            var p1 := ListPage(cars, f, CarKey(o.field), o.direction, 1, 3);
            var p3 := ListPage(cars, f, CarKey(o.field), o.direction, 3, 3);
            && |p1.items| == 3 && p1.totalPages == 3 && p1.currentPage == 1
            && |p3.items| == 1 && p3.currentPage == 3
            && forall i, c :: 0 <= i < 3 && c in cars && c !in p1.items ==> c.dateAdded <= p1.items[i].dateAdded
  {
    assert CarSortOption(ParseSort("newest")) == SortOption(DateAdded, Descending);
    assert CarsFilter("") == CarFilter(None, None);
    BlankSearchSelectsAll(cars, "");
    var all := CarFilter(None, None);
    SevenRecordsThreePerPage(cars, CarMatcher(all), CarKey(DateAdded), Descending);
    NewestFirstPageIsLatest(cars, all, 3);
    var p1 := ListPage(cars, CarMatcher(all), CarKey(DateAdded), Descending, 1, 3);
    forall i, c | 0 <= i < 3 && c in cars && c !in p1.items ensures c.dateAdded <= p1.items[i].dateAdded {
      assert CarMatches(all, c);
    }
  }
}
