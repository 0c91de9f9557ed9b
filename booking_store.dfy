/** `POST /bookings`: insert the booking, then increment `rent_count` on the
    car it books. The two collections are the fields of a store object that
    the handler updates in place; `writes` records the writes in the order
    they reach the store. */
module BookingStore {
  import opened Records

  /** A write the store has applied. */
  datatype Write = InsertBooking(booking: Booking) | IncrementRentCount(carId: Id)

  /** What `insertOne` reports: the inserted `_id`, or a duplicate-key error
      when a booking with that `_id` already exists. */
  datatype InsertResult = Inserted(insertedId: Id) | DuplicateKey

  predicate UniqueCarIds(cars: seq<Car>) {
    forall i, j :: 0 <= i < j < |cars| ==> cars[i].id != cars[j].id
  }

  predicate UniqueBookingIds(bookings: seq<Booking>) {
    forall i, j :: 0 <= i < j < |bookings| ==> bookings[i].id != bookings[j].id
  }

  predicate HasBooking(bookings: seq<Booking>, id: Id) {
    exists i :: 0 <= i < |bookings| && bookings[i].id == id
  }

  predicate HasCar(cars: seq<Car>, id: Id) {
    exists i :: 0 <= i < |cars| && cars[i].id == id
  }

  /** The position of the first car with `_id` equal to `id`, the document
      `updateOne` picks. */
  function FirstCarWithId(cars: seq<Car>, id: Id): (k: Option<nat>)
    ensures k.None? <==> !HasCar(cars, id)
    ensures k.Some? ==> k.value < |cars| && cars[k.value].id == id
                        && forall i :: 0 <= i < k.value ==> cars[i].id != id
  {
    if cars == [] then None
    else if cars[0].id == id then Some(0)
    else match FirstCarWithId(cars[1..], id)
      case None => None
      case Some(k) => Some(k + 1)
  }

  /** `updateOne({ _id: id }, { $inc: { rent_count: 1 } })` on the cars. */
  function BumpRentCount(cars: seq<Car>, id: Id): seq<Car> {
    match FirstCarWithId(cars, id)
    case None => cars
    case Some(k) => cars[k := cars[k].(rentCount := cars[k].rentCount + 1)]
  }

  /** With unique ids, the increment raises `rent_count` by exactly one on the
      car whose id is `id`, and leaves every other car, and every other field
      of that car, as it was. */
  lemma BumpTouchesOnlyTarget(cars: seq<Car>, id: Id)
    requires UniqueCarIds(cars)
    ensures var r := BumpRentCount(cars, id);
            && |r| == |cars| && UniqueCarIds(r)
            && forall i :: 0 <= i < |cars| ==>
                 r[i] == if cars[i].id == id then cars[i].(rentCount := cars[i].rentCount + 1) else cars[i]
  {
  }

  /** The sum of all `rent_count` values. */
  function TotalRentCount(cars: seq<Car>): nat {
    if cars == [] then 0 else cars[0].rentCount + TotalRentCount(cars[1..])
  }

  lemma {:induction false} TotalRentCountUpdate(cars: seq<Car>, k: nat, c: Car)
    requires k < |cars|
    ensures TotalRentCount(cars[k := c]) == TotalRentCount(cars) - cars[k].rentCount + c.rentCount
  {
    if k > 0 {
      assert cars[k := c][1..] == cars[1..][k - 1 := c];
      TotalRentCountUpdate(cars[1..], k - 1, c);
    }
  }

  /** The increment adds exactly one to the total when some car has the id,
      and nothing otherwise. */
  lemma {:induction false} BumpAddsOne(cars: seq<Car>, id: Id)
    ensures TotalRentCount(BumpRentCount(cars, id)) == TotalRentCount(cars) + if HasCar(cars, id) then 1 else 0
  {
    var first := FirstCarWithId(cars, id);
    if first.Some? {
      var k := first.value;
      var c := cars[k].(rentCount := cars[k].rentCount + 1);
      assert BumpRentCount(cars, id) == cars[k := c];
      TotalRentCountUpdate(cars, k, c);
    }
  }

  class Store {
    var cars: seq<Car>
    var bookings: seq<Booking>
    var writes: seq<Write>

    /** `_id` is unique within each collection. */
    ghost predicate Valid()
      reads this
    {
      UniqueCarIds(cars) && UniqueBookingIds(bookings)
    }

    constructor (cars: seq<Car>, bookings: seq<Booking>)
      requires UniqueCarIds(cars) && UniqueBookingIds(bookings)
      ensures Valid()
      ensures this.cars == cars && this.bookings == bookings && writes == []
    {
      this.cars := cars;
      this.bookings := bookings;
      writes := [];
    }

    /** `bookingsCollection.insertOne(booking)`. */
    method InsertOne(booking: Booking) returns (result: InsertResult)
      requires Valid()
      modifies this
      ensures Valid() && cars == old(cars)
      ensures HasBooking(old(bookings), booking.id) ==>
                result == DuplicateKey && bookings == old(bookings) && writes == old(writes)
      ensures !HasBooking(old(bookings), booking.id) ==>
                && result == Inserted(booking.id)
                && bookings == old(bookings) + [booking]
                && writes == old(writes) + [InsertBooking(booking)]
    {
      if HasBooking(bookings, booking.id) {
        result := DuplicateKey;
      } else {
        bookings := bookings + [booking];
        writes := writes + [InsertBooking(booking)];
        result := Inserted(booking.id);
      }
    }

    /** `carCollection.updateOne({ _id: carId }, { $inc: { rent_count: 1 } })`;
        `matched` is whether a car was matched. */
    method IncrementRentCountOf(carId: Id) returns (matched: bool)
      requires Valid()
      modifies this
      ensures Valid() && bookings == old(bookings)
      ensures cars == BumpRentCount(old(cars), carId)
      ensures writes == old(writes) + [IncrementRentCount(carId)]
      ensures matched <==> HasCar(old(cars), carId)
    {
      BumpTouchesOnlyTarget(cars, carId);
      matched := FirstCarWithId(cars, carId).Some?;
      cars := BumpRentCount(cars, carId);
      writes := writes + [IncrementRentCount(carId)];
    }

    /** The `POST /bookings` handler. A new booking is inserted first and
        then its car's `rent_count` is raised by one, and nothing else
        changes. A duplicate `_id` makes the insert fail, and the handler
        stops before the increment. */
    method CreateBooking(booking: Booking) returns (result: InsertResult)
      requires Valid()
      modifies this
      ensures Valid()
      ensures HasBooking(old(bookings), booking.id) ==>
                && result == DuplicateKey
                && cars == old(cars) && bookings == old(bookings) && writes == old(writes)
      ensures !HasBooking(old(bookings), booking.id) ==>
                && result == Inserted(booking.id)
                && bookings == old(bookings) + [booking]
                && writes == old(writes) + [InsertBooking(booking), IncrementRentCount(booking.carId)]
                && |cars| == |old(cars)|
                && (forall i :: 0 <= i < |cars| ==>
                      cars[i] == if old(cars)[i].id == booking.carId
                                 then old(cars)[i].(rentCount := old(cars)[i].rentCount + 1)
                                 else old(cars)[i])
                && TotalRentCount(cars) == TotalRentCount(old(cars)) + if HasCar(old(cars), booking.carId) then 1 else 0
    {
      result := InsertOne(booking);
      if result.Inserted? {
        BumpTouchesOnlyTarget(cars, booking.carId);
        BumpAddsOne(cars, booking.carId);
        var _ := IncrementRentCountOf(booking.carId);
      }
    }
  }
}
