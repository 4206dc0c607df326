/** Conversions between seats, Seat rows and SeatOption rows
    (services/converter/seat_converter.go). */
module SeatConverter {
  import opened Models
  import opened Entities

  /** A booked seat read back from its row is reported as available. */
  function ToSeat(e: SeatEntity): Seat {
    Seat(e.row, e.column, true)
  }

  /** The row for a seat of booking `bookingId`; its id is left at zero for
      the store to assign, and availability is not stored. */
  function ToSeatEntity(s: Seat, bookingId: int): SeatEntity {
    SeatEntity(0, bookingId, s.row, s.column)
  }

  /** A seat of the seat map takes its availability from the option's status. */
  function OptionToSeat(e: SeatOptionEntity): Seat {
    Seat(e.row, e.column, e.status)
  }

  predicate AllAvailable(ss: seq<Seat>) {
    forall i :: 0 <= i < |ss| ==> ss[i].available
  }

  /** Specification of ConvertSeatEntitiesToSeats. */
  function SeatsOf(es: seq<SeatEntity>): (ss: seq<Seat>)
    ensures |ss| == |es|
    ensures forall i :: 0 <= i < |es| ==>
      ss[i].row == es[i].row && ss[i].column == es[i].column && ss[i].available
  {
    if es == [] then [] else [ToSeat(es[0])] + SeatsOf(es[1..])
  }

  /** Specification of ConvertSeatsToSeatEntities. */
  function SeatEntitiesOf(ss: seq<Seat>, bookingId: int): (es: seq<SeatEntity>)
    ensures |es| == |ss|
    ensures forall i :: 0 <= i < |ss| ==>
      && es[i].id == 0
      && es[i].bookingId == bookingId
      && es[i].row == ss[i].row
      && es[i].column == ss[i].column
  {
    if ss == [] then [] else [ToSeatEntity(ss[0], bookingId)] + SeatEntitiesOf(ss[1..], bookingId)
  }

  /** Specification of ConvertSeatOptionEntitiesToSeats. */
  function SeatsOfOptions(es: seq<SeatOptionEntity>): (ss: seq<Seat>)
    ensures |ss| == |es|
    ensures forall i :: 0 <= i < |es| ==>
      ss[i].row == es[i].row && ss[i].column == es[i].column && ss[i].available == es[i].status
  {
    if es == [] then [] else [OptionToSeat(es[0])] + SeatsOfOptions(es[1..])
  }

  /** Every seat marked available, positions kept. */
  function MarkedAvailable(ss: seq<Seat>): (r: seq<Seat>)
    ensures |r| == |ss| && AllAvailable(r)
    ensures forall i :: 0 <= i < |ss| ==> r[i].row == ss[i].row && r[i].column == ss[i].column
  {
    if ss == [] then [] else [ss[0].(available := true)] + MarkedAvailable(ss[1..])
  }

  method ConvertSeatEntitiesToSeats(seatEntities: seq<SeatEntity>) returns (seats: seq<Seat>)
    ensures seats == SeatsOf(seatEntities)
  {
    seats := [];
    for i := 0 to |seatEntities|
      invariant seats == SeatsOf(seatEntities[..i])
    {
      seats := seats + [ToSeat(seatEntities[i])];
    }
    assert seatEntities[..|seatEntities|] == seatEntities;
  }

  method ConvertSeatsToSeatEntities(seats: seq<Seat>, bookingId: int) returns (seatEntities: seq<SeatEntity>)
    ensures seatEntities == SeatEntitiesOf(seats, bookingId)
  {
    seatEntities := [];
    for i := 0 to |seats|
      invariant seatEntities == SeatEntitiesOf(seats[..i], bookingId)
    {
      seatEntities := seatEntities + [ToSeatEntity(seats[i], bookingId)];
    }
    assert seats[..|seats|] == seats;
  }

  method ConvertSeatOptionEntitiesToSeats(seatOptionEntities: seq<SeatOptionEntity>) returns (seats: seq<Seat>)
    ensures seats == SeatsOfOptions(seatOptionEntities)
  {
    seats := [];
    for i := 0 to |seatOptionEntities|
      invariant seats == SeatsOfOptions(seatOptionEntities[..i])
    {
      seats := seats + [OptionToSeat(seatOptionEntities[i])];
    }
    assert seatOptionEntities[..|seatOptionEntities|] == seatOptionEntities;
  }

  /** Round trip: storing seats and reading them back keeps row and column
      and marks every seat available. */
  lemma {:induction false} SeatsRoundTrip(ss: seq<Seat>, bookingId: int)
    ensures SeatsOf(SeatEntitiesOf(ss, bookingId)) == MarkedAvailable(ss)
  {
    if ss != [] {
      SeatsRoundTrip(ss[1..], bookingId);
    }
  }

  /** Seats that are all available survive the round trip unchanged. */
  lemma {:induction false} MarkedAvailableKeepsAvailable(ss: seq<Seat>)
    requires AllAvailable(ss)
    ensures MarkedAvailable(ss) == ss
  {
    if ss != [] {
      MarkedAvailableKeepsAvailable(ss[1..]);
    }
  }

  /** Re-storing rows read back under their own booking id rebuilds them,
      except that the row ids are reset to zero. */
  lemma {:induction false} SeatEntitiesRoundTrip(es: seq<SeatEntity>, bookingId: int)
    requires forall i :: 0 <= i < |es| ==> es[i].bookingId == bookingId
    ensures SeatEntitiesOf(SeatsOf(es), bookingId) == ZeroedIds(es)
  {
    if es != [] {
      SeatEntitiesRoundTrip(es[1..], bookingId);
    }
  }

  /** The rows with their ids reset to zero. */
  function ZeroedIds(es: seq<SeatEntity>): (r: seq<SeatEntity>)
    ensures |r| == |es|
    ensures forall i :: 0 <= i < |es| ==> r[i] == es[i].(id := 0)
  {
    if es == [] then [] else [es[0].(id := 0)] + ZeroedIds(es[1..])
  }
}
