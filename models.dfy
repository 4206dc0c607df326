/** The API-side values of the booking service (models/). */
module Models {
  import opened FlightClassEnum
  import opened LuggageEnum

  /** A `time.Time`, kept as an opaque instant. */
  type Timestamp = int

  /** Go's `enums.Status` is a string type; the lifecycle uses two values. */
  type Status = string

  const Pending: Status := "Pending"
  const Success: Status := "Success"

  /** A traveller on a booking (models/passenger.go). */
  datatype Passenger = Passenger(
    id: int,
    fullName: string,
    dateOfBirth: Timestamp,
    passportNumber: string,
    email: string)

  /** A seat of a booking, or of a flight's seat map. */
  datatype Seat = Seat(row: int, column: string, available: bool)

  /** The payment sub-object a client sends with a new booking. The service
      forwards it untouched, so it is kept as its JSON text. */
  datatype Payment = Payment(raw: string)

  /** The zero value of a payment: what a booking read from storage carries. */
  const NoPayment: Payment := Payment("")

  /** A booking as the API sees it. */
  datatype Booking = Booking(
    id: int,
    userId: int,
    flightCode: string,
    flightClass: FlightClass,
    luggage: seq<Luggage>,
    seats: seq<Seat>,
    passengers: seq<Passenger>,
    status: Status,
    payment: Payment)

  /** The body of a `user_deleted` message. */
  datatype UserDeletedEvent = UserDeletedEvent(userId: int)
}

/** The storage rows (repositories/entity/). */
module Entities {
  import opened Models

  /** A row of the Passenger table; BookingID is the foreign key. */
  datatype PassengerEntity = PassengerEntity(
    id: int,
    bookingId: int,
    fullName: string,
    dateOfBirth: Timestamp,
    passportNumber: string,
    email: string)

  /** A row of the Seat table. */
  datatype SeatEntity = SeatEntity(id: int, bookingId: int, row: int, column: string)

  /** A row of the SeatOption table: the static seat map of a flight. */
  datatype SeatOptionEntity = SeatOptionEntity(id: int, row: int, column: string, status: bool)

  /** A booking row together with its preloaded children. The class is stored
      as a plain int and the luggage as its JSON text. */
  datatype BookingEntity = BookingEntity(
    id: int,
    userId: int,
    flightCode: string,
    flightClass: int,
    createdAt: Timestamp,
    passengers: seq<PassengerEntity>,
    seats: seq<SeatEntity>,
    luggage: string,
    status: string)

  /** What a lookup that matches no row leaves behind: Go's zero value. */
  const ZeroBookingEntity: BookingEntity := BookingEntity(0, 0, "", 0, 0, [], [], "", "")
}
