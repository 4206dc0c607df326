/** The consumers of the payment service's verdicts
    (services/payment_event_listener.go), one message at a time. A message
    arrives already decoded: `None` stands for a body that is not a JSON
    integer, which the loop skips. */
module PaymentListener {
  import opened Wrappers
  import opened Models
  import opened Tables
  import opened Repository
  import opened Service

  class PaymentEventListener {
    const channel: Channel
    const bookingService: BookingService

    ghost predicate Valid()
      reads bookingService.repo
    {
      bookingService.Valid()
    }

    constructor (channel: Channel, service: BookingService)
      ensures this.channel == channel && bookingService == service
    {
      this.channel := channel;
      bookingService := service;
    }

    /** `payment.success`: marks the booking Success, reads it back and
        announces it on `booking.confirmed`. */
    method HandlePaymentSuccess(message: Option<int>, brokerAccepts: bool)
      requires Valid()
      modifies bookingService.repo, channel
      ensures Valid()
      ensures message.None? ==> unchanged(bookingService.repo) && unchanged(channel)
      ensures message.Some? ==>
        var id := message.value;
        && bookingService.repo.bookingRows == WithStatus(old(bookingService.repo.bookingRows), id, Success)
        && bookingService.repo.passengerRows == old(bookingService.repo.passengerRows)
        && bookingService.repo.seatRows == old(bookingService.repo.seatRows)
        && (forall other :: other != id ==> bookingService.GetByID(other) == old(bookingService.GetByID(other)))
        && channel.published == old(channel.published) +
             (if brokerAccepts then [BookingConfirmed(bookingService.GetByID(id))] else [])
      ensures message.Some? && message.value in old(bookingService.repo.Ids()) ==>
        bookingService.GetByID(message.value) == old(bookingService.GetByID(message.value)).(status := Success)
    {
      if message.None? {
        return;
      }
      var bookingId := message.value;
      bookingService.UpdateStatus(bookingId, Success);
      var booking := bookingService.GetByID(bookingId);
      channel.Publish(BookingConfirmed(booking), brokerAccepts);
      assert channel.published == old(channel.published) + (if brokerAccepts then [BookingConfirmed(booking)] else []);
    }

    /** `payment.failed`: deletes the booking; the outcome is ignored. */
    method HandlePaymentFailed(message: Option<int>, fault: DeleteFault)
      requires Valid()
      modifies bookingService.repo
      ensures Valid()
      ensures message.None? ==> unchanged(bookingService.repo)
      ensures message.Some? && message.value !in old(bookingService.repo.Ids()) ==>
        unchanged(bookingService.repo)
      ensures message.Some? && message.value in old(bookingService.repo.Ids()) ==>
        var id := message.value;
        && bookingService.repo.bookingRows == RowsAfterDelete(old(bookingService.repo.bookingRows), id, fault)
        && bookingService.repo.passengerRows == PassengersAfterDelete(old(bookingService.repo.passengerRows), id, fault)
        && bookingService.repo.seatRows == SeatsAfterDelete(old(bookingService.repo.seatRows), id, fault)
      ensures message.Some? ==>
        forall other :: other != message.value ==> bookingService.GetByID(other) == old(bookingService.GetByID(other))
      ensures message.Some? && fault == NoFault ==>
        var id := message.value;
        && bookingService.repo.bookingRows == Excluding(old(bookingService.repo.bookingRows), RowId, {id})
        && bookingService.repo.passengerRows == Excluding(old(bookingService.repo.passengerRows), PassengerOwner, {id})
        && bookingService.repo.seatRows == Excluding(old(bookingService.repo.seatRows), SeatOwner, {id})
        && id !in bookingService.repo.Ids()
        && (forall p :: p in bookingService.repo.passengerRows ==> p.bookingId != id)
        && (forall s :: s in bookingService.repo.seatRows ==> s.bookingId != id)
    {
      if message.None? {
        return;
      }
      var _, _ := bookingService.DeleteByBookingID(message.value, fault);
    }
  }
}
