/** The two kinds of document the list endpoints read: car listings (the
    `cars` collection) and bookings (the `bookings` collection). Prices and
    dates are integers; identifiers are opaque strings. */
module Records {

  datatype Option<T> = None | Some(value: T)

  type Email = string
  type Id = string

  /** A car listing. `rentCount` is the `rent_count` counter that booking
      creation increments; a document without the field counts as 0. */
  datatype Car = Car(
    id: Id,
    name: string,
    carType: string,
    location: string,
    price: int,
    dateAdded: int,
    addedBy: Email,
    rentCount: nat)

  /** A booking of a car. `addedBy` is the car owner's email, copied into the
      booking so that an owner's requests can be listed without a join. */
  datatype Booking = Booking(
    id: Id,
    carId: Id,
    bookedBy: Email,
    addedBy: Email,
    totalPrice: int,
    dateBooked: int,
    status: string)
}
