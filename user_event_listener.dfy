/** The consumer of `user_deleted` (services/user_event_listener.go), one
    message at a time: every booking of the deleted user goes, with its
    passengers and seats. A message arrives already decoded: `None` stands
    for a body that is not a user-deleted event, which the loop skips. */
module UserListener {
  import opened Wrappers
  import opened Models
  import opened Tables
  import opened Repository
  import opened Service

  class UserEventListener {
    const channel: Channel
    const bookingService: BookingService

    ghost predicate Valid()
      reads bookingService.repo
    {
      bookingService.Valid()
    }

    constructor (channel: Channel, service: BookingService)
      ensures this.channel == channel && bookingService == service
    {
      this.channel := channel;
      bookingService := service;
    }

    /** Looks up the user's bookings, then deletes them one by one. */
    method HandleUserDeleted(message: Option<UserDeletedEvent>)
      requires Valid()
      modifies bookingService.repo
      ensures Valid()
      ensures message.None? ==> unchanged(bookingService.repo)
      ensures message.Some? ==>
        var userId := message.value.userId;
        var gone := Keys(Matching(old(bookingService.repo.bookingRows), RowUser, userId), RowId);
        && bookingService.repo.bookingRows == Excluding(old(bookingService.repo.bookingRows), RowUser, {userId})
        && bookingService.repo.passengerRows == Excluding(old(bookingService.repo.passengerRows), PassengerOwner, gone)
        && bookingService.repo.seatRows == Excluding(old(bookingService.repo.seatRows), SeatOwner, gone)
        && (forall r :: r in bookingService.repo.bookingRows ==> r.userId != userId)
        && (forall r :: r in old(bookingService.repo.bookingRows) && r.userId != userId ==>
              r in bookingService.repo.bookingRows)
    {
      if message.None? {
        return;
      }
      var userId := message.value.userId;
      var repo := bookingService.repo;
      ghost var rows, ps, ss := repo.bookingRows, repo.passengerRows, repo.seatRows;
      var bookings := bookingService.GetByUserID(userId);
      ghost var deleted: set<int> := {};
      ExcludingNone(rows, RowId, {});
      ExcludingNone(ps, PassengerOwner, {});
      ExcludingNone(ss, SeatOwner, {});
      for i := 0 to |bookings|
        invariant repo.Valid()
        invariant deleted == Keys(bookings[..i], BookingId)
        invariant repo.bookingRows == Excluding(rows, RowId, deleted)
        invariant repo.passengerRows == Excluding(ps, PassengerOwner, deleted)
        invariant repo.seatRows == Excluding(ss, SeatOwner, deleted)
      {
        var _, _ := bookingService.DeleteByBookingID(bookings[i].id, NoFault);
        DeletedOneMore(rows, ps, ss, deleted, bookings[i].id);
        KeysExtend(bookings, i);
        deleted := deleted + {bookings[i].id};
      }
      assert bookings[..|bookings|] == bookings;
      OwnerRowsExcluded(rows, userId);
    }
  }

  lemma KeysExtend(bookings: seq<Booking>, i: int)
    requires 0 <= i < |bookings|
    ensures Keys(bookings[..i + 1], BookingId) == Keys(bookings[..i], BookingId) + {bookings[i].id}
  {
    assert bookings[..i + 1] == bookings[..i] + [bookings[i]];
    KeysAppend(bookings[..i], [bookings[i]], BookingId);
    KeyIn([bookings[i]], BookingId, 0);
    assert Keys([bookings[i]], BookingId) == {bookings[i].id};
  }

  /** Deleting one more booking id from tables already cleared of `deleted`. */
  lemma DeletedOneMore(rows: seq<BookingRow>, ps: seq<Entities.PassengerEntity>, ss: seq<Entities.SeatEntity>,
                       deleted: set<int>, id: int)
    ensures Excluding(Excluding(rows, RowId, deleted), RowId, {id}) == Excluding(rows, RowId, deleted + {id})
    ensures Excluding(Excluding(ps, PassengerOwner, deleted), PassengerOwner, {id})
            == Excluding(ps, PassengerOwner, deleted + {id})
    ensures Excluding(Excluding(ss, SeatOwner, deleted), SeatOwner, {id})
            == Excluding(ss, SeatOwner, deleted + {id})
  {
    ExcludingTwice(rows, RowId, deleted, {id});
    ExcludingTwice(ps, PassengerOwner, deleted, {id});
    ExcludingTwice(ss, SeatOwner, deleted, {id});
  }

  /** Deleting by id the rows a user owns deletes exactly the rows with that
      user id, because booking ids are unique. */
  lemma OwnerRowsExcluded(rows: seq<BookingRow>, userId: int)
    requires UniqueIds(rows)
    ensures Excluding(rows, RowId, Keys(Matching(rows, RowUser, userId), RowId))
            == Excluding(rows, RowUser, {userId})
  {
    var owned := Matching(rows, RowUser, userId);
    forall x | x in rows
      ensures RowId(x) in Keys(owned, RowId) <==> RowUser(x) in {userId}
    {
      if x.id in Keys(owned, RowId) {
        var y :| y in owned && y.id == x.id;
        var i :| 0 <= i < |rows| && rows[i] == x;
        var j :| 0 <= j < |rows| && rows[j] == y;
      }
      if x.userId == userId {
        assert x in owned;
      }
    }
    ExcludingSameRows(rows, RowId, Keys(owned, RowId), RowUser, {userId});
  }
}
