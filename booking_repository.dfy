/** The booking store (repositories/booking_repository.go): three tables,
    Booking, Passenger and Seat, held in memory. */
module Repository {
  import opened Wrappers
  import opened Models
  import opened Entities
  import opened Tables

  /** A row of the Booking table: the booking's own columns, without children. */
  datatype BookingRow = BookingRow(
    id: int,
    userId: int,
    flightCode: string,
    flightClass: int,
    createdAt: Timestamp,
    luggage: string,
    status: string)

  // The key columns the store selects on.
  function RowId(r: BookingRow): int { r.id }
  function RowUser(r: BookingRow): int { r.userId }
  function PassengerOwner(p: PassengerEntity): int { p.bookingId }
  function SeatOwner(s: SeatEntity): int { s.bookingId }

  /** The Booking-table part of an entity. */
  function RowOf(e: BookingEntity): BookingRow {
    BookingRow(e.id, e.userId, e.flightCode, e.flightClass, e.createdAt, e.luggage, e.status)
  }

  /** The entity after GORM saved it with its associations: every child row
      carries the booking's id as its foreign key. */
  function Adopted(e: BookingEntity): (a: BookingEntity)
    ensures RowOf(a) == RowOf(e)
    ensures |a.passengers| == |e.passengers| && |a.seats| == |e.seats|
    ensures forall p :: p in a.passengers ==> p.bookingId == e.id
    ensures forall s :: s in a.seats ==> s.bookingId == e.id
  {
    e.(passengers := seq(|e.passengers|, i requires 0 <= i < |e.passengers| => e.passengers[i].(bookingId := e.id)),
       seats := seq(|e.seats|, i requires 0 <= i < |e.seats| => e.seats[i].(bookingId := e.id)))
  }

  /** Saving an entity whose children already point at it adopts nothing. */
  lemma AdoptedFixed(e: BookingEntity)
    requires forall i :: 0 <= i < |e.passengers| ==> e.passengers[i].bookingId == e.id
    requires forall i :: 0 <= i < |e.seats| ==> e.seats[i].bookingId == e.id
    ensures Adopted(e) == e
  {
  }

  /** Which of the three DELETE statements of a booking delete the database
      rejects, if any. */
  datatype DeleteFault = NoFault | PassengerDeleteFails | SeatDeleteFails | BookingDeleteFails

  // The tables after deleting booking `id`, stopping at the statement that fails.
  function RowsAfterDelete(rows: seq<BookingRow>, id: int, fault: DeleteFault): seq<BookingRow> {
    if fault == NoFault then Excluding(rows, RowId, {id}) else rows
  }
  function PassengersAfterDelete(ps: seq<PassengerEntity>, id: int, fault: DeleteFault): seq<PassengerEntity> {
    if fault == PassengerDeleteFails then ps else Excluding(ps, PassengerOwner, {id})
  }
  function SeatsAfterDelete(ss: seq<SeatEntity>, id: int, fault: DeleteFault): seq<SeatEntity> {
    if fault == PassengerDeleteFails || fault == SeatDeleteFails then ss else Excluding(ss, SeatOwner, {id})
  }

  /** A booking row with its passengers and seats preloaded. */
  function Preload(row: BookingRow, ps: seq<PassengerEntity>, ss: seq<SeatEntity>): BookingEntity {
    BookingEntity(row.id, row.userId, row.flightCode, row.flightClass, row.createdAt,
                  Matching(ps, PassengerOwner, row.id), Matching(ss, SeatOwner, row.id),
                  row.luggage, row.status)
  }

  function PreloadAll(rows: seq<BookingRow>, ps: seq<PassengerEntity>, ss: seq<SeatEntity>): (r: seq<BookingEntity>)
    ensures |r| == |rows|
    ensures forall i :: 0 <= i < |rows| ==> r[i] == Preload(rows[i], ps, ss)
  {
    seq(|rows|, i requires 0 <= i < |rows| => Preload(rows[i], ps, ss))
  }

  /** The primary-key constraint of the Booking table. */
  ghost predicate UniqueIds(rows: seq<BookingRow>) {
    forall i, j :: 0 <= i < |rows| && 0 <= j < |rows| && rows[i].id == rows[j].id ==> i == j
  }

  /** Position of the row with the given id, or -1. */
  function IndexOf(rows: seq<BookingRow>, id: int): (k: int)
    ensures -1 <= k < |rows|
    ensures k >= 0 ==> rows[k].id == id
    ensures k < 0 <==> id !in Keys(rows, RowId)
  {
    if rows == [] then -1
    else if rows[0].id == id then KeyIn(rows, RowId, 0); 0
    else
      var k := IndexOf(rows[1..], id);
      KeysAppend([rows[0]], rows[1..], RowId);
      assert [rows[0]] + rows[1..] == rows;
      if k < 0 then -1 else k + 1
  }

  /** `WHERE ID = id` with the children preloaded; Go's zero value when no row matches. */
  function Lookup(rows: seq<BookingRow>, ps: seq<PassengerEntity>, ss: seq<SeatEntity>, id: int): BookingEntity {
    var k := IndexOf(rows, id);
    if k < 0 then ZeroBookingEntity else Preload(rows[k], ps, ss)
  }

  /** The rows after the status of booking `id` is set to `status`. */
  function WithStatus(rows: seq<BookingRow>, id: int, status: Status): seq<BookingRow> {
    seq(|rows|, i requires 0 <= i < |rows| =>
      if rows[i].id == id then rows[i].(status := status) else rows[i])
  }

  /** The rows after the row with `row`'s id is overwritten by it. */
  function Replaced(rows: seq<BookingRow>, row: BookingRow): seq<BookingRow> {
    seq(|rows|, i requires 0 <= i < |rows| => if rows[i].id == row.id then row else rows[i])
  }

  /** Preloading the rows of one user gives the preloaded bookings of that user. */
  lemma OwnedPreloaded(rows: seq<BookingRow>, ps: seq<PassengerEntity>, ss: seq<SeatEntity>, userId: int)
    ensures forall e :: e in PreloadAll(Matching(rows, RowUser, userId), ps, ss)
                        <==> e in PreloadAll(rows, ps, ss) && e.userId == userId
  {
    var owned := Matching(rows, RowUser, userId);
    var all := PreloadAll(rows, ps, ss);
    var r := PreloadAll(owned, ps, ss);
    forall e | e in all && e.userId == userId ensures e in r {
      var i :| 0 <= i < |rows| && all[i] == e;
      assert rows[i] in owned;
      var j :| 0 <= j < |owned| && owned[j] == rows[i];
      assert r[j] == e;
    }
    forall e | e in r ensures e in all && e.userId == userId {
      var j :| 0 <= j < |r| && r[j] == e;
      assert owned[j] in rows;
      var i :| 0 <= i < |rows| && rows[i] == owned[j];
      assert all[i] == e;
    }
  }

  lemma UniqueAt(rows: seq<BookingRow>, k: int, id: int)
    requires UniqueIds(rows) && 0 <= k < |rows| && rows[k].id == id
    ensures forall i :: 0 <= i < |rows| && i != k ==> rows[i].id != id
  {
  }

  lemma {:induction false} ExcludingKeepsUnique(rows: seq<BookingRow>, gone: set<int>)
    requires UniqueIds(rows)
    ensures UniqueIds(Excluding(rows, RowId, gone))
  {
    if rows != [] {
      var tail := rows[1..];
      assert UniqueIds(tail) by {
        forall i, j | 0 <= i < |tail| && 0 <= j < |tail| && tail[i].id == tail[j].id
          ensures i == j
        {
          assert rows[i + 1].id == rows[j + 1].id;
        }
      }
      ExcludingKeepsUnique(tail, gone);
      var rest := Excluding(tail, RowId, gone);
      if rows[0].id !in gone {
        forall j | 0 <= j < |rest| ensures rest[j].id != rows[0].id {
          assert rest[j] in tail;
          var k :| 0 <= k < |tail| && tail[k] == rest[j];
          assert rows[k + 1] == rest[j];
        }
        var r := [rows[0]] + rest;
        assert Excluding(rows, RowId, gone) == r;
        forall i, j | 0 <= i < |r| && 0 <= j < |r| && r[i].id == r[j].id ensures i == j {
          if i > 0 && j > 0 {
            assert rest[i - 1].id == rest[j - 1].id;
          }
        }
      }
    }
  }

  /** The store's invariant, on the three tables. */
  ghost predicate TablesValid(rows: seq<BookingRow>, ps: seq<PassengerEntity>, ss: seq<SeatEntity>) {
    && UniqueIds(rows)
    && (forall p :: p in ps ==> p.bookingId in Keys(rows, RowId))
    && (forall s :: s in ss ==> s.bookingId in Keys(rows, RowId))
  }

  /** Appending a row with a fresh id keeps the ids unique and adds that id. */
  lemma AppendKeepsUnique(rows: seq<BookingRow>, row: BookingRow)
    requires UniqueIds(rows) && row.id !in Keys(rows, RowId)
    ensures UniqueIds(rows + [row])
    ensures Keys(rows + [row], RowId) == Keys(rows, RowId) + {row.id}
  {
    var rows' := rows + [row];
    KeysAppend(rows, [row], RowId);
    KeyIn([row], RowId, 0);
    forall i, j | 0 <= i < |rows'| && 0 <= j < |rows'| && rows'[i].id == rows'[j].id ensures i == j {
      if i < |rows| { KeyIn(rows, RowId, i); }
      if j < |rows| { KeyIn(rows, RowId, j); }
    }
  }

  /** Saving a booking whose row is already in rows': its children replace
      the stored ones, and the invariant is kept. */
  lemma ChildrenReplaced(rows: seq<BookingRow>, ps: seq<PassengerEntity>, ss: seq<SeatEntity>,
                         rows': seq<BookingRow>, e: BookingEntity)
    requires TablesValid(rows, ps, ss)
    requires UniqueIds(rows') && Keys(rows, RowId) + {e.id} <= Keys(rows', RowId)
    requires forall p :: p in e.passengers ==> p.bookingId == e.id
    requires forall s :: s in e.seats ==> s.bookingId == e.id
    ensures TablesValid(rows', Excluding(ps, PassengerOwner, {e.id}) + e.passengers,
                        Excluding(ss, SeatOwner, {e.id}) + e.seats)
    ensures Matching(Excluding(ps, PassengerOwner, {e.id}) + e.passengers, PassengerOwner, e.id) == e.passengers
    ensures Matching(Excluding(ss, SeatOwner, {e.id}) + e.seats, SeatOwner, e.id) == e.seats
  {
    MatchingReplaced(ps, PassengerOwner, e.id, e.passengers);
    MatchingReplaced(ss, SeatOwner, e.id, e.seats);
  }

  /** Saving booking e leaves the children of every other booking as they were. */
  lemma OthersChildrenKept(ps: seq<PassengerEntity>, ss: seq<SeatEntity>, e: BookingEntity, other: int)
    requires other != e.id
    requires forall p :: p in e.passengers ==> p.bookingId == e.id
    requires forall s :: s in e.seats ==> s.bookingId == e.id
    ensures Matching(Excluding(ps, PassengerOwner, {e.id}) + e.passengers, PassengerOwner, other)
            == Matching(ps, PassengerOwner, other)
    ensures Matching(Excluding(ss, SeatOwner, {e.id}) + e.seats, SeatOwner, other)
            == Matching(ss, SeatOwner, other)
  {
    MatchingOther(Excluding(ps, PassengerOwner, {e.id}), PassengerOwner, other, e.passengers);
    MatchingExcludingOther(ps, PassengerOwner, other, {e.id});
    MatchingOther(Excluding(ss, SeatOwner, {e.id}), SeatOwner, other, e.seats);
    MatchingExcludingOther(ss, SeatOwner, other, {e.id});
  }

  /** Saving booking e, as an overwrite or an insert, leaves the lookup of
      every other id as it was. */
  lemma SavedOthersKept(rows: seq<BookingRow>, ps: seq<PassengerEntity>, ss: seq<SeatEntity>,
                        rows': seq<BookingRow>, e: BookingEntity, other: int)
    requires UniqueIds(rows) && UniqueIds(rows')
    requires other != e.id
    requires forall p :: p in e.passengers ==> p.bookingId == e.id
    requires forall s :: s in e.seats ==> s.bookingId == e.id
    requires rows' == Replaced(rows, RowOf(e)) || rows' == rows + [RowOf(e)]
    requires Keys(rows', RowId) == Keys(rows, RowId) + {e.id}
    ensures Lookup(rows', Excluding(ps, PassengerOwner, {e.id}) + e.passengers,
                   Excluding(ss, SeatOwner, {e.id}) + e.seats, other)
            == Lookup(rows, ps, ss, other)
  {
    OthersChildrenKept(ps, ss, e, other);
    if other in Keys(rows, RowId) {
      var j := KeyWitness(rows, RowId, other);
      assert rows'[j] == rows[j];
      UniqueAt(rows, j, other);
      UniqueAt(rows', j, other);
    }
  }

  /** Deleting booking `id`, however far the deletion gets, leaves the lookup
      of every other id as it was. */
  lemma DeletedOthersKept(rows: seq<BookingRow>, ps: seq<PassengerEntity>, ss: seq<SeatEntity>,
                          id: int, fault: DeleteFault, other: int)
    requires UniqueIds(rows)
    requires other != id
    ensures Lookup(RowsAfterDelete(rows, id, fault), PassengersAfterDelete(ps, id, fault),
                   SeatsAfterDelete(ss, id, fault), other)
            == Lookup(rows, ps, ss, other)
  {
    MatchingExcludingOther(ps, PassengerOwner, other, {id});
    MatchingExcludingOther(ss, SeatOwner, other, {id});
    var rows' := RowsAfterDelete(rows, id, fault);
    if fault == NoFault && other in Keys(rows, RowId) {
      var j := KeyWitness(rows, RowId, other);
      assert rows[j] in rows';
      KeyIn(rows', RowId, IndexOf(rows', other));
      var k := IndexOf(rows', other);
      assert rows'[k] in rows;
      var i :| 0 <= i < |rows| && rows[i] == rows'[k];
      assert i == j == IndexOf(rows, other);
    } else if fault == NoFault {
      forall r | r in rows' ensures r.id != other {
        assert r in rows;
      }
      assert other !in Keys(rows', RowId);
    }
  }

  /** The Booking table after GORM's `Save` of a row: an overwrite of the row
      with the same id, or an insert when there is none. */
  function SavedRows(rows: seq<BookingRow>, row: BookingRow): seq<BookingRow> {
    if row.id in Keys(rows, RowId) then Replaced(rows, row) else rows + [row]
  }

  /** Saving an adopted entity keeps the invariant, adds its id, reads back as
      the entity, and leaves every other booking as it was. */
  lemma Saved(rows: seq<BookingRow>, ps: seq<PassengerEntity>, ss: seq<SeatEntity>, e: BookingEntity)
    requires TablesValid(rows, ps, ss)
    requires forall p :: p in e.passengers ==> p.bookingId == e.id
    requires forall s :: s in e.seats ==> s.bookingId == e.id
    ensures var rows', ps', ss' := SavedRows(rows, RowOf(e)),
                                   Excluding(ps, PassengerOwner, {e.id}) + e.passengers,
                                   Excluding(ss, SeatOwner, {e.id}) + e.seats;
      && TablesValid(rows', ps', ss')
      && Keys(rows', RowId) == Keys(rows, RowId) + {e.id}
      && Lookup(rows', ps', ss', e.id) == e
      && forall other :: other != e.id ==> Lookup(rows', ps', ss', other) == Lookup(rows, ps, ss, other)
  {
    var row := RowOf(e);
    var rows' := SavedRows(rows, row);
    if row.id in Keys(rows, RowId) {
      KeysPointwise(rows, RowId, rows', RowId);
      assert UniqueIds(rows') by {
        forall i, j | 0 <= i < |rows'| && 0 <= j < |rows'| && rows'[i].id == rows'[j].id ensures i == j {
          assert rows[i].id == rows'[i].id && rows[j].id == rows'[j].id;
        }
      }
    } else {
      AppendKeepsUnique(rows, row);
    }
    ChildrenReplaced(rows, ps, ss, rows', e);
    forall other | other != e.id
      ensures Lookup(rows', Excluding(ps, PassengerOwner, {e.id}) + e.passengers,
                     Excluding(ss, SeatOwner, {e.id}) + e.seats, other) == Lookup(rows, ps, ss, other)
    {
      SavedOthersKept(rows, ps, ss, rows', e, other);
    }
  }

  /** Inserting a fresh booking with its adopted children keeps the invariant,
      and the new booking's children are exactly the inserted ones. */
  lemma ChildrenAppended(rows: seq<BookingRow>, ps: seq<PassengerEntity>, ss: seq<SeatEntity>,
                         row: BookingRow, e: BookingEntity)
    requires TablesValid(rows, ps, ss)
    requires row.id !in Keys(rows, RowId)
    requires forall p :: p in e.passengers ==> p.bookingId == row.id
    requires forall s :: s in e.seats ==> s.bookingId == row.id
    ensures TablesValid(rows + [row], ps + e.passengers, ss + e.seats)
    ensures Matching(ps + e.passengers, PassengerOwner, row.id) == e.passengers
    ensures Matching(ss + e.seats, SeatOwner, row.id) == e.seats
  {
    AppendKeepsUnique(rows, row);
    MatchingAppended(ps, PassengerOwner, row.id, e.passengers);
    MatchingAppended(ss, SeatOwner, row.id, e.seats);
  }

  class BookingRepository {
    var bookingRows: seq<BookingRow>
    var passengerRows: seq<PassengerEntity>
    var seatRows: seq<SeatEntity>

    /** Booking ids are unique, and every child row belongs to a stored booking. */
    ghost predicate Valid()
      reads this
    {
      TablesValid(bookingRows, passengerRows, seatRows)
    }

    constructor ()
      ensures Valid()
      ensures bookingRows == [] && passengerRows == [] && seatRows == []
    {
      bookingRows, passengerRows, seatRows := [], [], [];
    }

    /** The ids of the stored bookings. */
    function Ids(): set<int>
      reads this
    {
      Keys(bookingRows, RowId)
    }

    /** Every booking, in table order, with its children. */
    function GetAll(): (all: seq<BookingEntity>)
      reads this
      ensures |all| == |bookingRows|
      ensures forall i :: 0 <= i < |all| ==>
        && RowOf(all[i]) == bookingRows[i]
        && all[i].passengers == Matching(passengerRows, PassengerOwner, bookingRows[i].id)
        && all[i].seats == Matching(seatRows, SeatOwner, bookingRows[i].id)
    {
      PreloadAll(bookingRows, passengerRows, seatRows)
    }

    /** The booking with the given id and its children; the zero entity when
        there is none. */
    function GetByID(id: int): (e: BookingEntity)
      requires Valid()
      reads this
      ensures forall k :: 0 <= k < |bookingRows| && bookingRows[k].id == id ==> e == GetAll()[k]
      ensures id in Ids() ==> e.id == id && e in GetAll()
      ensures id !in Ids() ==> e == ZeroBookingEntity
    {
      var k := IndexOf(bookingRows, id);
      assert forall j :: 0 <= j < |bookingRows| && bookingRows[j].id == id ==> j == k by {
        forall j | 0 <= j < |bookingRows| && bookingRows[j].id == id ensures j == k {
          KeyIn(bookingRows, RowId, j);
        }
      }
      Lookup(bookingRows, passengerRows, seatRows, id)
    }

    /** The rows of one user, in table order, with their children. */
    function GetByUserID(userId: int): (bookings: seq<BookingEntity>)
      reads this
      ensures |bookings| == |Matching(bookingRows, RowUser, userId)|
      ensures forall i :: 0 <= i < |bookings| ==> RowOf(bookings[i]) == Matching(bookingRows, RowUser, userId)[i]
    {
      PreloadAll(Matching(bookingRows, RowUser, userId), passengerRows, seatRows)
    }

    /** Inserts a booking and its children. The insert fails when the id is
        already taken or the database rejects the write (`dbFault`). */
    method Create(bookingEntity: BookingEntity, dbFault: bool) returns (created: Option<BookingEntity>)
      requires Valid()
      modifies this
      ensures Valid()
      ensures created.Some? <==> !dbFault && bookingEntity.id !in old(Ids())
      ensures created.Some? ==>
        && created.value == Adopted(bookingEntity)
        && bookingRows == old(bookingRows) + [RowOf(bookingEntity)]
        && passengerRows == old(passengerRows) + created.value.passengers
        && seatRows == old(seatRows) + created.value.seats
        && GetByID(bookingEntity.id) == created.value
        && Ids() == old(Ids()) + {bookingEntity.id}
        && forall id :: id != bookingEntity.id ==> GetByID(id) == old(GetByID(id))
      ensures created.None? ==> unchanged(this)
    {
      if dbFault || bookingEntity.id in Ids() {
        return None;
      }
      var id := bookingEntity.id;
      var adopted := Adopted(bookingEntity);
      var row := RowOf(bookingEntity);
      ghost var oldRows, oldPs, oldSs := bookingRows, passengerRows, seatRows;
      bookingRows := bookingRows + [row];
      passengerRows := passengerRows + adopted.passengers;
      seatRows := seatRows + adopted.seats;
      created := Some(adopted);
      ChildrenAppended(oldRows, oldPs, oldSs, row, adopted);
      AppendKeepsUnique(oldRows, row);
      assert bookingRows[|oldRows|].id == id;
      ExcludingNone(oldPs, PassengerOwner, {id});
      ExcludingNone(oldSs, SeatOwner, {id});
      Saved(oldRows, oldPs, oldSs, adopted);
    }

    /** Deletes the booking's passengers, then its seats, then the booking row,
        stopping at the first statement the database rejects (`fault`); true
        exactly when a booking row was removed. */
    method DeleteByBookingID(bookingId: int, fault: DeleteFault) returns (removed: bool)
      requires Valid()
      modifies this
      ensures Valid()
      ensures removed <==> fault == NoFault && bookingId in old(Ids())
      ensures bookingRows == RowsAfterDelete(old(bookingRows), bookingId, fault)
      ensures passengerRows == PassengersAfterDelete(old(passengerRows), bookingId, fault)
      ensures seatRows == SeatsAfterDelete(old(seatRows), bookingId, fault)
      ensures forall id :: id != bookingId ==> GetByID(id) == old(GetByID(id))
    {
      forall id | id != bookingId
        ensures Lookup(RowsAfterDelete(bookingRows, bookingId, fault), PassengersAfterDelete(passengerRows, bookingId, fault),
                       SeatsAfterDelete(seatRows, bookingId, fault), id)
                == Lookup(bookingRows, passengerRows, seatRows, id)
      {
        DeletedOthersKept(bookingRows, passengerRows, seatRows, bookingId, fault, id);
      }
      if fault == PassengerDeleteFails {
        return false;
      }
      passengerRows := Excluding(passengerRows, PassengerOwner, {bookingId});
      if fault == SeatDeleteFails {
        return false;
      }
      seatRows := Excluding(seatRows, SeatOwner, {bookingId});
      if fault == BookingDeleteFails {
        return false;
      }
      var before := |bookingRows|;
      ghost var oldRows := bookingRows;
      bookingRows := Excluding(bookingRows, RowId, {bookingId});
      removed := |bookingRows| < before;
      ExcludingShrinks(oldRows, RowId, {bookingId});
      ExcludingKeepsUnique(oldRows, {bookingId});
      forall p | p in passengerRows ensures p.bookingId in Keys(bookingRows, RowId) {
        var r :| r in oldRows && r.id == p.bookingId;
        assert r in bookingRows;
      }
      forall s | s in seatRows ensures s.bookingId in Keys(bookingRows, RowId) {
        var r :| r in oldRows && r.id == s.bookingId;
        assert r in bookingRows;
      }
    }

    /** Loads the booking, sets its status and saves it. */
    method UpdateStatus(bookingId: int, status: Status)
      requires Valid()
      modifies this
      ensures Valid()
      ensures bookingRows == WithStatus(old(bookingRows), bookingId, status)
      ensures passengerRows == old(passengerRows) && seatRows == old(seatRows)
      ensures Ids() == old(Ids())
      ensures bookingId in Ids() ==> GetByID(bookingId) == old(GetByID(bookingId)).(status := status)
      ensures forall id :: id != bookingId ==> GetByID(id) == old(GetByID(id))
    {
      var k := IndexOf(bookingRows, bookingId);
      if k < 0 {
        forall i | 0 <= i < |bookingRows| ensures bookingRows[i].id != bookingId {
          KeyIn(bookingRows, RowId, i);
        }
        assert bookingRows == WithStatus(bookingRows, bookingId, status);
        return;
      }
      UniqueAt(bookingRows, k, bookingId);
      ghost var oldRows := bookingRows;
      bookingRows := bookingRows[k := bookingRows[k].(status := status)];
      assert bookingRows == WithStatus(oldRows, bookingId, status);
      KeysPointwise(oldRows, RowId, bookingRows, RowId);
      forall id | id != bookingId ensures GetByID(id) == old(GetByID(id)) {
        if id in Ids() {
          var j := KeyWitness(bookingRows, RowId, id);
          assert bookingRows[j] == oldRows[j];
        }
      }
    }

    /** Saves an entity: the row with its id is overwritten, or inserted when
        there is none, and its children replace the ones stored for that id. */
    method Update(bookingEntity: BookingEntity) returns (updated: BookingEntity)
      requires Valid()
      modifies this
      ensures Valid()
      ensures updated == Adopted(bookingEntity)
      ensures bookingRows == SavedRows(old(bookingRows), RowOf(bookingEntity))
      ensures passengerRows == Excluding(old(passengerRows), PassengerOwner, {bookingEntity.id}) + updated.passengers
      ensures seatRows == Excluding(old(seatRows), SeatOwner, {bookingEntity.id}) + updated.seats
      ensures GetByID(bookingEntity.id) == updated
      ensures Ids() == old(Ids()) + {bookingEntity.id}
      ensures forall id :: id != bookingEntity.id ==> GetByID(id) == old(GetByID(id))
    {
      var id := bookingEntity.id;
      var row := RowOf(bookingEntity);
      updated := Adopted(bookingEntity);
      ghost var oldRows, oldPs, oldSs := bookingRows, passengerRows, seatRows;
      var k := IndexOf(bookingRows, id);
      if k < 0 {
        bookingRows := bookingRows + [row];
      } else {
        UniqueAt(bookingRows, k, id);
        bookingRows := bookingRows[k := row];
        assert bookingRows == Replaced(oldRows, row);
      }
      passengerRows := Excluding(passengerRows, PassengerOwner, {id}) + updated.passengers;
      seatRows := Excluding(seatRows, SeatOwner, {id}) + updated.seats;
      Saved(oldRows, oldPs, oldSs, updated);
    }
  }

  /** `GetByUserID` returns exactly the stored bookings of that user. */
  lemma GetByUserIDSelects(repo: BookingRepository, userId: int)
    ensures forall e :: e in repo.GetByUserID(userId) <==> e in repo.GetAll() && e.userId == userId
  {
    OwnedPreloaded(repo.bookingRows, repo.passengerRows, repo.seatRows, userId);
  }
}
