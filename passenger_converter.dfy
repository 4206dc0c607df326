/** Conversions between passengers and Passenger rows
    (services/converter/passenger_converter.go). */
module PassengerConverter {
  import opened Models
  import opened Entities

  /** The passenger a row describes; the foreign key is dropped. */
  function ToPassenger(e: PassengerEntity): Passenger {
    Passenger(e.id, e.fullName, e.dateOfBirth, e.passportNumber, e.email)
  }

  /** The row for a passenger of booking `bookingId`. */
  function ToPassengerEntity(p: Passenger, bookingId: int): PassengerEntity {
    PassengerEntity(p.id, bookingId, p.fullName, p.dateOfBirth, p.passportNumber, p.email)
  }

  /** Specification of ConvertPassengerEntitiesToPassengers. */
  function PassengersOf(es: seq<PassengerEntity>): (ps: seq<Passenger>)
    ensures |ps| == |es|
    ensures forall i :: 0 <= i < |es| ==>
      && ps[i].id == es[i].id
      && ps[i].fullName == es[i].fullName
      && ps[i].dateOfBirth == es[i].dateOfBirth
      && ps[i].passportNumber == es[i].passportNumber
      && ps[i].email == es[i].email
  {
    if es == [] then [] else [ToPassenger(es[0])] + PassengersOf(es[1..])
  }

  /** Specification of ConvertPassengersToPassengerEntities. */
  function PassengerEntitiesOf(ps: seq<Passenger>, bookingId: int): (es: seq<PassengerEntity>)
    ensures |es| == |ps|
    ensures forall i :: 0 <= i < |ps| ==>
      && es[i].id == ps[i].id
      && es[i].bookingId == bookingId
      && es[i].fullName == ps[i].fullName
      && es[i].dateOfBirth == ps[i].dateOfBirth
      && es[i].passportNumber == ps[i].passportNumber
      && es[i].email == ps[i].email
  {
    if ps == [] then [] else [ToPassengerEntity(ps[0], bookingId)] + PassengerEntitiesOf(ps[1..], bookingId)
  }

  method ConvertPassengerEntitiesToPassengers(passengerEntities: seq<PassengerEntity>)
    returns (passengers: seq<Passenger>)
    ensures passengers == PassengersOf(passengerEntities)
  {
    passengers := [];
    for i := 0 to |passengerEntities|
      invariant passengers == PassengersOf(passengerEntities[..i])
    {
      passengers := passengers + [ToPassenger(passengerEntities[i])];
    }
    assert passengerEntities[..|passengerEntities|] == passengerEntities;
  }

  method ConvertPassengersToPassengerEntities(passengers: seq<Passenger>, bookingId: int)
    returns (passengerEntities: seq<PassengerEntity>)
    ensures passengerEntities == PassengerEntitiesOf(passengers, bookingId)
  {
    passengerEntities := [];
    for i := 0 to |passengers|
      invariant passengerEntities == PassengerEntitiesOf(passengers[..i], bookingId)
    {
      passengerEntities := passengerEntities + [ToPassengerEntity(passengers[i], bookingId)];
    }
    assert passengers[..|passengers|] == passengers;
  }

  /** Round trip: storing passengers under any booking and reading them back
      gives the same passengers. */
  lemma {:induction false} PassengersRoundTrip(ps: seq<Passenger>, bookingId: int)
    ensures PassengersOf(PassengerEntitiesOf(ps, bookingId)) == ps
  {
    if ps != [] {
      PassengersRoundTrip(ps[1..], bookingId);
    }
  }

  /** Reading rows back ignores their foreign key: rows that differ only in
      BookingID give the same passengers. */
  lemma {:induction false} PassengersIgnoreBookingId(es1: seq<PassengerEntity>, es2: seq<PassengerEntity>)
    requires |es1| == |es2|
    requires forall i :: 0 <= i < |es1| ==> es1[i].(bookingId := 0) == es2[i].(bookingId := 0)
    ensures PassengersOf(es1) == PassengersOf(es2)
  {
    if es1 != [] {
      assert es1[0].(bookingId := 0) == es2[0].(bookingId := 0);
      PassengersIgnoreBookingId(es1[1..], es2[1..]);
    }
  }

  /** Re-storing rows read back under their own booking id rebuilds them. */
  lemma {:induction false} PassengerEntitiesRoundTrip(es: seq<PassengerEntity>, bookingId: int)
    requires forall i :: 0 <= i < |es| ==> es[i].bookingId == bookingId
    ensures PassengerEntitiesOf(PassengersOf(es), bookingId) == es
  {
    if es != [] {
      PassengerEntitiesRoundTrip(es[1..], bookingId);
    }
  }
}
