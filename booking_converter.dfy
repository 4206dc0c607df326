/** Conversions between bookings and booking rows
    (services/converter/booking_converter.go). */
module BookingConverter {
  import opened FlightClassEnum
  import opened LuggageEnum
  import opened Models
  import opened Entities
  import opened PassengerConverter
  import opened SeatConverter

  /** The booking a row describes. The class and the luggage are decoded;
      the payment is not stored, so it comes back as the zero value. */
  function ConvertBookingEntityToBooking(entity: BookingEntity): (b: Booking)
    ensures b.id == entity.id && b.userId == entity.userId
    ensures b.flightCode == entity.flightCode && b.status == entity.status
    ensures IsFlightClass(b.flightClass)
    ensures AllKnown(b.luggage)
    ensures |b.seats| == |entity.seats| && AllAvailable(b.seats)
    ensures |b.passengers| == |entity.passengers|
    ensures b.payment == NoPayment
  {
    Booking(
      entity.id,
      entity.userId,
      entity.flightCode,
      FlightClassFromInt(entity.flightClass),
      DecodeLuggage(entity.luggage),
      SeatsOf(entity.seats),
      PassengersOf(entity.passengers),
      entity.status,
      NoPayment)
  }

  /** The row for a booking, stamped with the creation time `now`; every
      child row is given the booking's id as its foreign key. */
  function ConvertBookingToBookingEntity(booking: Booking, now: Timestamp): (e: BookingEntity)
    ensures e.id == booking.id && e.userId == booking.userId
    ensures e.flightCode == booking.flightCode && e.status == booking.status
    ensures e.flightClass == booking.flightClass
    ensures e.createdAt == now
    ensures |e.passengers| == |booking.passengers| && |e.seats| == |booking.seats|
    ensures forall i :: 0 <= i < |e.passengers| ==> e.passengers[i].bookingId == booking.id
    ensures forall i :: 0 <= i < |e.seats| ==> e.seats[i].bookingId == booking.id
  {
    BookingEntity(
      booking.id,
      booking.userId,
      booking.flightCode,
      booking.flightClass,
      now,
      PassengerEntitiesOf(booking.passengers, booking.id),
      SeatEntitiesOf(booking.seats, booking.id),
      JSONStringToLuggageClasses(booking.luggage),
      booking.status)
  }

  /** What a booking becomes once stored and read back: class decoded, unknown
      luggage dropped, seats available, payment cleared. */
  function Normalized(b: Booking): Booking {
    b.(flightClass := FlightClassFromInt(b.flightClass),
       luggage := KnownOnly(b.luggage),
       seats := MarkedAvailable(b.seats),
       payment := NoPayment)
  }

  /** A booking that storage reproduces exactly. */
  predicate Canonical(b: Booking) {
    IsFlightClass(b.flightClass) && AllKnown(b.luggage) && AllAvailable(b.seats)
    && b.payment == NoPayment
  }

  /** Storing and reading back normalises a booking, whatever the clock says. */
  lemma BookingRoundTrip(b: Booking, now: Timestamp)
    requires AllPlain(b.luggage)
    ensures ConvertBookingEntityToBooking(ConvertBookingToBookingEntity(b, now)) == Normalized(b)
  {
    DecodeEncodeFilters(b.luggage);
    SeatsRoundTrip(b.seats, b.id);
    PassengersRoundTrip(b.passengers, b.id);
  }

  /** The fixed points of normalisation are exactly the canonical bookings. */
  lemma NormalizedFixedPoints(b: Booking)
    ensures Canonical(Normalized(b))
    ensures Canonical(b) <==> Normalized(b) == b
  {
    if Canonical(b) {
      KnownOnlyKeepsKnown(b.luggage);
      MarkedAvailableKeepsAvailable(b.seats);
    }
  }

  /** Round trip: a canonical booking is read back exactly as it was stored. */
  lemma CanonicalRoundTrip(b: Booking, now: Timestamp)
    requires Canonical(b)
    ensures ConvertBookingEntityToBooking(ConvertBookingToBookingEntity(b, now)) == b
  {
    forall i | 0 <= i < |b.luggage| ensures IsPlain(b.luggage[i]) {
      KnownIsPlain(b.luggage[i]);
    }
    BookingRoundTrip(b, now);
    NormalizedFixedPoints(b);
  }

  /** A row that the converter could have written: a valid class, luggage
      that is the encoding of known tags, children pointing at the row. */
  ghost predicate CanonicalEntity(e: BookingEntity) {
    && IsFlightClass(e.flightClass)
    && (exists tags :: AllKnown(tags) && e.luggage == JSONStringToLuggageClasses(tags))
    && (forall i :: 0 <= i < |e.passengers| ==> e.passengers[i].bookingId == e.id)
    && (forall i :: 0 <= i < |e.seats| ==> e.seats[i].bookingId == e.id)
  }

  /** Reading such a row and writing it again reproduces it, except for the
      creation time, taken from the clock, and the seat ids, reset to zero. */
  lemma EntityRoundTrip(e: BookingEntity, now: Timestamp)
    requires CanonicalEntity(e)
    ensures ConvertBookingToBookingEntity(ConvertBookingEntityToBooking(e), now)
            == e.(createdAt := now, seats := ZeroedIds(e.seats))
  {
    var tags :| AllKnown(tags) && e.luggage == JSONStringToLuggageClasses(tags);
    DecodeEncode(tags);
    PassengerEntitiesRoundTrip(e.passengers, e.id);
    SeatEntitiesRoundTrip(e.seats, e.id);
  }
}
