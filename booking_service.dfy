/** The booking lifecycle rules (services/booking_service.go): existence
    checks in front of the store, the initial Pending status, and the
    `booking.created` message that asks the payment service to charge. */
module Service {
  import opened Wrappers
  import opened Models
  import opened Entities
  import opened Tables
  import opened LuggageEnum
  import opened Repository
  import opened BookingConverter

  /** The service's errors (services/errors/), each carrying the booking id. */
  datatype BookingError =
    | BookingExistsError(id: int)
    | BookingNotFoundError(id: int)
    | BookingCreateError(id: int)

  /** The body of a `booking.created` message. */
  datatype PaymentRequest = PaymentRequest(bookingId: int, payment: Payment)

  /** A message handed to the broker: `booking.created` or `booking.confirmed`. */
  datatype Event =
    | BookingCreated(request: PaymentRequest)
    | BookingConfirmed(booking: Booking)

  /** The broker channel, reduced to the messages it accepted, in order. */
  class Channel {
    var published: seq<Event>

    constructor ()
      ensures published == []
    {
      published := [];
    }

    /** Publishes one message; one the broker rejects is logged and dropped. */
    method Publish(event: Event, accepted: bool)
      modifies this
      ensures published == if accepted then old(published) + [event] else old(published)
    {
      if accepted {
        published := published + [event];
      }
    }
  }

  class BookingService {
    const repo: BookingRepository
    const channel: Channel

    ghost predicate Valid()
      reads repo
    {
      repo.Valid()
    }

    constructor (repo: BookingRepository, channel: Channel)
      ensures this.repo == repo && this.channel == channel
    {
      this.repo := repo;
      this.channel := channel;
    }

    /** Scans every stored booking for the id. */
    method BookingExists(bookingId: int) returns (found: bool)
      ensures found <==> bookingId in repo.Ids()
    {
      var all := repo.GetAll();
      var i := 0;
      while i < |all|
        invariant 0 <= i <= |all|
        invariant forall j :: 0 <= j < i ==> repo.bookingRows[j].id != bookingId
      {
        if all[i].id == bookingId {
          KeyIn(repo.bookingRows, RowId, i);
          return true;
        }
        i := i + 1;
      }
      if bookingId in repo.Ids() {
        var j := KeyWitness(repo.bookingRows, RowId, bookingId);
      }
      return false;
    }

    /** The stored booking with that id, read back through the converter; the
        converted zero row when there is none. */
    function GetByID(id: int): (b: Booking)
      requires Valid()
      reads repo
      ensures b == ConvertBookingEntityToBooking(repo.GetByID(id))
      ensures id in repo.Ids() ==> b.id == id
      ensures id !in repo.Ids() ==> b.id == 0 && b.userId == 0 && b.passengers == [] && b.seats == []
    {
      ConvertBookingEntityToBooking(repo.GetByID(id))
    }

    /** The user's bookings, converted one by one in store order: exactly the
        stored bookings of that user. */
    method GetByUserID(userId: int) returns (bookings: seq<Booking>)
      ensures bookings == BookingsOf(repo.GetByUserID(userId))
      ensures forall b :: b in bookings ==> b.userId == userId
      ensures Keys(bookings, BookingId) == Keys(Matching(repo.bookingRows, RowUser, userId), RowId)
    {
      var entities := repo.GetByUserID(userId);
      bookings := [];
      for i := 0 to |entities|
        invariant |bookings| == i
        invariant forall j :: 0 <= j < i ==> bookings[j] == ConvertBookingEntityToBooking(entities[j])
      {
        var booking := ConvertBookingEntityToBooking(entities[i]);
        ghost var before := bookings;
        bookings := bookings + [booking];
        assert forall j :: 0 <= j < i ==> bookings[j] == before[j];
      }
      ConvertedOwned(entities, Matching(repo.bookingRows, RowUser, userId), bookings, userId);
      assert bookings == BookingsOf(entities);
    }

    /** Rejects a taken id, stores the booking as Pending, and asks for its
        payment on `booking.created`. A broker that refuses the message does
        not change the outcome. */
    method Create(booking: Booking, now: Timestamp, dbFault: bool, brokerAccepts: bool)
      returns (result: Result<Booking, BookingError>)
      requires Valid()
      modifies repo, channel
      ensures Valid()
      ensures booking.id in old(repo.Ids()) ==>
        result == Err(BookingExistsError(booking.id)) && unchanged(repo) && unchanged(channel)
      ensures booking.id !in old(repo.Ids()) && dbFault ==>
        result == Err(BookingCreateError(booking.id)) && unchanged(repo) && unchanged(channel)
      ensures booking.id !in old(repo.Ids()) && !dbFault ==>
        && repo.Ids() == old(repo.Ids()) + {booking.id}
        && repo.GetByID(booking.id) == ConvertBookingToBookingEntity(booking.(status := Pending), now)
        && result == Ok(GetByID(booking.id))
        && (forall id :: id != booking.id ==> GetByID(id) == old(GetByID(id)))
        && channel.published == old(channel.published) +
             (if brokerAccepts then [BookingCreated(PaymentRequest(booking.id, booking.payment))] else [])
      ensures result.Ok? ==> result.value.id == booking.id && result.value.status == Pending
      ensures result.Ok? && AllPlain(booking.luggage) ==>
        result.value == Normalized(booking.(status := Pending))
    {
      var known := BookingExists(booking.id);
      if known {
        return Err(BookingExistsError(booking.id));
      }
      var pending := booking.(status := Pending);
      var bookingEntity := ConvertBookingToBookingEntity(pending, now);
      AdoptedFixed(bookingEntity);
      var created := repo.Create(bookingEntity, dbFault);
      if created.None? {
        return Err(BookingCreateError(booking.id));
      }
      var createdBooking := ConvertBookingEntityToBooking(created.value);
      assert createdBooking.id == booking.id;
      ghost var sent := [BookingCreated(PaymentRequest(booking.id, booking.payment))];
      channel.Publish(BookingCreated(PaymentRequest(createdBooking.id, booking.payment)), brokerAccepts);
      assert channel.published == old(channel.published) + (if brokerAccepts then sent else []);
      result := Ok(createdBooking);
      if AllPlain(booking.luggage) {
        BookingRoundTrip(pending, now);
      }
    }

    /** Rejects an unknown id with NotFound without touching the store;
        otherwise reports whether the store removed the booking row. */
    method DeleteByBookingID(id: int, fault: DeleteFault) returns (success: bool, err: Option<BookingError>)
      requires Valid()
      modifies repo
      ensures Valid()
      ensures id !in old(repo.Ids()) ==>
        !success && err == Some(BookingNotFoundError(id)) && unchanged(repo)
      ensures id in old(repo.Ids()) ==>
        && err == None
        && (success <==> fault == NoFault)
        && repo.bookingRows == RowsAfterDelete(old(repo.bookingRows), id, fault)
        && repo.passengerRows == PassengersAfterDelete(old(repo.passengerRows), id, fault)
        && repo.seatRows == SeatsAfterDelete(old(repo.seatRows), id, fault)
      ensures forall other :: other != id ==> GetByID(other) == old(GetByID(other))
      ensures fault == NoFault ==>
        && repo.bookingRows == Excluding(old(repo.bookingRows), RowId, {id})
        && repo.passengerRows == Excluding(old(repo.passengerRows), PassengerOwner, {id})
        && repo.seatRows == Excluding(old(repo.seatRows), SeatOwner, {id})
    {
      var known := BookingExists(id);
      if !known {
        UnknownIdExcludesNothing(repo.bookingRows, repo.passengerRows, repo.seatRows, id);
        return false, Some(BookingNotFoundError(id));
      }
      success := repo.DeleteByBookingID(id, fault);
      err := None;
    }

    /** Hands the new status to the store. */
    method UpdateStatus(bookingId: int, status: Status)
      requires Valid()
      modifies repo
      ensures Valid()
      ensures repo.bookingRows == WithStatus(old(repo.bookingRows), bookingId, status)
      ensures repo.passengerRows == old(repo.passengerRows) && repo.seatRows == old(repo.seatRows)
      ensures repo.Ids() == old(repo.Ids())
      ensures bookingId in repo.Ids() ==> GetByID(bookingId) == old(GetByID(bookingId)).(status := status)
      ensures forall id :: id != bookingId ==> GetByID(id) == old(GetByID(id))
    {
      repo.UpdateStatus(bookingId, status);
    }

    /** Rejects an unknown id with NotFound without touching the store;
        otherwise saves the booking and returns it as read back. */
    method Update(booking: Booking, now: Timestamp) returns (result: Result<Booking, BookingError>)
      requires Valid()
      modifies repo
      ensures Valid()
      ensures booking.id !in old(repo.Ids()) ==>
        result == Err(BookingNotFoundError(booking.id)) && unchanged(repo)
      ensures booking.id in old(repo.Ids()) ==>
        && repo.Ids() == old(repo.Ids())
        && repo.GetByID(booking.id) == ConvertBookingToBookingEntity(booking, now)
        && result == Ok(GetByID(booking.id))
        && forall id :: id != booking.id ==> GetByID(id) == old(GetByID(id))
      ensures result.Ok? && AllPlain(booking.luggage) ==> result.value == Normalized(booking)
    {
      var known := BookingExists(booking.id);
      if !known {
        return Err(BookingNotFoundError(booking.id));
      }
      var entity := ConvertBookingToBookingEntity(booking, now);
      AdoptedFixed(entity);
      var updatedEntity := repo.Update(entity);
      assert repo.Ids() == old(repo.Ids()) + {booking.id} == old(repo.Ids());
      assert updatedEntity == entity == repo.GetByID(booking.id);
      result := Ok(ConvertBookingEntityToBooking(updatedEntity));
      assert result == Ok(GetByID(booking.id));
      if AllPlain(booking.luggage) {
        BookingRoundTrip(booking, now);
      }
    }
  }

  function BookingId(b: Booking): int { b.id }

  /** Booking rows read back one by one, in order. */
  function BookingsOf(es: seq<BookingEntity>): (bs: seq<Booking>)
    ensures |bs| == |es|
    ensures forall i :: 0 <= i < |es| ==> bs[i] == ConvertBookingEntityToBooking(es[i])
  {
    seq(|es|, i requires 0 <= i < |es| => ConvertBookingEntityToBooking(es[i]))
  }

  /** Bookings converted from the rows of one user belong to that user and
      carry exactly those rows' ids. */
  lemma ConvertedOwned(entities: seq<BookingEntity>, owned: seq<BookingRow>, bookings: seq<Booking>, userId: int)
    requires |bookings| == |entities| == |owned|
    requires forall i :: 0 <= i < |bookings| ==> bookings[i] == ConvertBookingEntityToBooking(entities[i])
    requires forall i :: 0 <= i < |entities| ==> RowOf(entities[i]) == owned[i]
    requires forall r :: r in owned ==> r.userId == userId
    ensures forall b :: b in bookings ==> b.userId == userId
    ensures Keys(bookings, BookingId) == Keys(owned, RowId)
  {
    forall b | b in bookings ensures b.userId == userId {
      var i :| 0 <= i < |bookings| && bookings[i] == b;
      assert owned[i] in owned;
    }
    KeysPointwise(bookings, BookingId, owned, RowId);
  }

  /** With the store's invariant, deleting an id no booking has removes no row
      from any table. */
  lemma UnknownIdExcludesNothing(rows: seq<BookingRow>, ps: seq<PassengerEntity>, ss: seq<SeatEntity>, id: int)
    requires TablesValid(rows, ps, ss) && id !in Keys(rows, RowId)
    ensures Excluding(rows, RowId, {id}) == rows
    ensures Excluding(ps, PassengerOwner, {id}) == ps
    ensures Excluding(ss, SeatOwner, {id}) == ss
  {
    ExcludingNone(rows, RowId, {id});
    ExcludingNone(ps, PassengerOwner, {id});
    ExcludingNone(ss, SeatOwner, {id});
  }
}
