/** The HTTP face of the booking service (routes/booking_router.go): how each
    handler turns a request and the service's outcome into a status code and
    a body. The caller's user id, put in the request context by the gateway's
    authentication middleware, arrives as an input; `None` stands for a value
    that is not an int. A JSON body arrives already bound: `None` stands for
    a body gin cannot bind to a booking. */
module Router {
  import opened Wrappers
  import opened FlightClassEnum
  import opened Models
  import opened Tables
  import opened Repository
  import opened BookingConverter
  import opened Service

  // The status codes the handlers answer with (Go's net/http names).
  const StatusOK: int := 200
  const StatusCreated: int := 201
  const StatusBadRequest: int := 400
  const StatusForbidden: int := 403
  const StatusNotFound: int := 404
  const StatusConflict: int := 409
  const StatusInternalServerError: int := 500

  // The range of Go's `int` on a 64-bit platform.
  const MinInt: int := -0x8000_0000_0000_0000
  const MaxInt: int := 0x7FFF_FFFF_FFFF_FFFF

  /** What a handler writes. Error texts are not modelled: an error body
      carries the service's error, a message body only its kind. */
  datatype Body =
    | InvalidRequest
    | Unauthorized
    | Failure(error: BookingError)
    | Deleted
    | NotDeleted
    | OneBooking(booking: Booking)
    | ManyBookings(bookings: seq<Booking>)

  datatype Response = Response(status: int, body: Body)

  // ---- strconv.Atoi and strconv.Itoa, base 10 ----

  predicate IsDigit(c: char) {
    '0' <= c <= '9'
  }

  predicate AllDigits(s: string) {
    forall i :: 0 <= i < |s| ==> IsDigit(s[i])
  }

  /** The number a string of decimal digits denotes. */
  function DigitsValue(s: string): nat
    requires AllDigits(s)
  {
    if s == [] then 0 else DigitsValue(s[..|s| - 1]) * 10 + (s[|s| - 1] as int - '0' as int)
  }

  /** `strconv.Atoi`: an optional sign, then at least one decimal digit, and
      the value must fit in an `int`; anything else is an error. */
  function Atoi(s: string): (r: Option<int>)
    ensures r.Some? ==> MinInt <= r.value <= MaxInt
    ensures s == [] ==> r.None?
    ensures r.Some? ==> forall i :: 0 < i < |s| ==> IsDigit(s[i])
    ensures r.Some? ==> IsDigit(s[0]) || ((s[0] == '-' || s[0] == '+') && |s| > 1)
  {
    var signed := |s| > 0 && (s[0] == '-' || s[0] == '+');
    var digits := if signed then s[1..] else s;
    if digits == [] || !AllDigits(digits) then None
    else
      var n: int := if signed && s[0] == '-' then 0 - DigitsValue(digits) else DigitsValue(digits);
      if MinInt <= n <= MaxInt then Some(n) else None
  }

  function DigitChar(d: int): char
    requires 0 <= d < 10
  {
    ('0' as int + d) as char
  }

  /** The decimal digits of a natural number, without leading zeros. */
  function NatDigits(n: nat): (s: string)
    ensures |s| > 0 && AllDigits(s)
  {
    if n < 10 then [DigitChar(n)] else NatDigits(n / 10) + [DigitChar(n % 10)]
  }

  /** `strconv.Itoa`: how an id is written into a URL. */
  function Itoa(n: int): string {
    if n < 0 then "-" + NatDigits(-n) else NatDigits(n)
  }

  lemma {:induction false} NatDigitsValue(n: nat)
    ensures DigitsValue(NatDigits(n)) == n
  {
    if n >= 10 {
      var s := NatDigits(n);
      assert s[..|s| - 1] == NatDigits(n / 10);
      NatDigitsValue(n / 10);
    }
  }

  /** Round trip: every `int` written by Itoa is read back by Atoi. */
  lemma AtoiItoa(n: int)
    requires MinInt <= n <= MaxInt
    ensures Atoi(Itoa(n)) == Some(n)
  {
    var s := Itoa(n);
    if n < 0 {
      var digits := NatDigits(-n);
      assert s[0] == '-' && s[1..] == digits;
      NatDigitsValue(-n);
      assert DigitsValue(digits) == -n;
    } else {
      var digits := NatDigits(n);
      assert s == digits && IsDigit(s[0]);
      NatDigitsValue(n);
      assert DigitsValue(digits) == n;
    }
  }

  function Pow10(k: nat): nat {
    if k == 0 then 1 else 10 * Pow10(k - 1)
  }

  lemma {:induction false} Pow10Add(a: nat, b: nat)
    ensures Pow10(a + b) == Pow10(a) * Pow10(b)
  {
    if a > 0 {
      Pow10Add(a - 1, b);
    }
  }

  /** A numeral without a leading zero is at least 10 to its length minus one. */
  lemma {:induction false} DigitsValueBound(s: string)
    requires |s| > 0 && AllDigits(s) && s[0] != '0'
    ensures DigitsValue(s) >= Pow10(|s| - 1)
  {
    if |s| > 1 {
      DigitsValueBound(s[..|s| - 1]);
    }
  }

  /** How the DELETE route reads its id: a word, an empty segment, a lone
      sign and a trailing letter are refused. */
  lemma AtoiRefusesMalformed()
    ensures Atoi("invalid") == None
    ensures Atoi("") == None
    ensures Atoi("-") == None
    ensures Atoi("12a") == None
  {
    assert !IsDigit("invalid"[0]);
    assert "-"[1..] == [];
    assert !IsDigit("12a"[2]);
  }

  /** A number one past the 64-bit range is refused. */
  lemma AtoiRefusesOverflow()
    ensures Atoi("10000000000000000000") == None
  {
    var s := "10000000000000000000";
    DigitsValueBound(s);
    Pow10Add(10, 9);
    assert Pow10(10) == 10000000000 by {
      Pow10Add(5, 5);
    }
    assert DigitsValue(s) >= 10000000000000000000;
  }

  /** Signs and leading zeros are accepted. */
  lemma AtoiReadsSigned()
    ensures Atoi("42") == Some(42)
    ensures Atoi("-7") == Some(-7)
    ensures Atoi("+007") == Some(7)
  {
    assert DigitsValue("42") == 42 by {
      assert "42"[..1] == "4";
    }
    assert DigitsValue("7") == 7;
    assert "-7"[1..] == "7";
    assert DigitsValue("007") == 7 by {
      assert "007"[..2] == "00";
      assert "00"[..1] == "0";
    }
    assert "+007"[1..] == "007";
  }

  // ---- The decision table of each handler ----

  /** DELETE /bookings/:ID, once the service answered. */
  function DeleteResponse(success: bool, err: Option<BookingError>): (r: Response)
    ensures r.status == StatusNotFound <==> err.Some? && err.value.BookingNotFoundError?
    ensures r.status == StatusOK <==> err.None? && success
    ensures r.status == StatusInternalServerError <==>
      (err.Some? && !err.value.BookingNotFoundError?) || (err.None? && !success)
  {
    match err
    case Some(e) =>
      if e.BookingNotFoundError? then Response(StatusNotFound, Failure(e))
      else Response(StatusInternalServerError, Failure(e))
    case None =>
      if success then Response(StatusOK, Deleted) else Response(StatusInternalServerError, NotDeleted)
  }

  /** POST /bookings, once the service answered. */
  function PostResponse(result: Result<Booking, BookingError>): (r: Response)
    ensures r.status == StatusCreated <==> result.Ok?
    ensures r.status == StatusConflict <==> result.Err? && result.error.BookingExistsError?
    ensures r.status == StatusInternalServerError <==> result.Err? && !result.error.BookingExistsError?
    ensures result.Ok? ==> r.body == OneBooking(result.value)
  {
    match result
    case Ok(b) => Response(StatusCreated, OneBooking(b))
    case Err(e) =>
      if e.BookingExistsError? then Response(StatusConflict, Failure(e))
      else Response(StatusInternalServerError, Failure(e))
  }

  /** GET /bookings/ for a caller, once the service listed the bookings:
      refused if any of them belongs to someone else. */
  function GetResponse(userId: int, bookings: seq<Booking>): (r: Response)
    ensures r.status == StatusForbidden <==> exists b :: b in bookings && b.userId != userId
    ensures r.status != StatusForbidden ==> r == Response(StatusOK, ManyBookings(bookings))
  {
    if exists b :: b in bookings && b.userId != userId then Response(StatusForbidden, Unauthorized)
    else Response(StatusOK, ManyBookings(bookings))
  }

  /** PUT /bookings/, once the service answered. */
  function PutResponse(result: Result<Booking, BookingError>): (r: Response)
    ensures r.status == StatusOK <==> result.Ok?
    ensures r.status == StatusNotFound <==> result.Err? && result.error.BookingNotFoundError?
    ensures r.status == StatusInternalServerError <==> result.Err? && !result.error.BookingNotFoundError?
    ensures result.Ok? ==> r.body == OneBooking(result.value)
  {
    match result
    case Ok(b) => Response(StatusOK, OneBooking(b))
    case Err(e) =>
      if e.BookingNotFoundError? then Response(StatusNotFound, Failure(e))
      else Response(StatusInternalServerError, Failure(e))
  }

  // ---- The handlers ----

  /** DELETE /bookings/:ID. A malformed id is refused before the service is
      asked; then 404 for an unknown booking, 200 once it is gone, and 500 when
      the store failed part-way. */
  method HandleDelete(service: BookingService, idParam: string, fault: DeleteFault) returns (response: Response)
    requires service.Valid()
    modifies service.repo
    ensures service.Valid()
    ensures Atoi(idParam).None? ==>
      response == Response(StatusBadRequest, InvalidRequest) && unchanged(service.repo)
    ensures Atoi(idParam).Some? ==>
      var id := Atoi(idParam).value;
      && (response.status == StatusNotFound <==> id !in old(service.repo.Ids()))
      && (response.status == StatusOK <==> id in old(service.repo.Ids()) && fault == NoFault)
      && (response.status == StatusInternalServerError <==> id in old(service.repo.Ids()) && fault != NoFault)
      && (response.status == StatusNotFound ==> unchanged(service.repo))
      && (response.status == StatusOK ==> id !in service.repo.Ids())
      && (id in old(service.repo.Ids()) ==>
            && service.repo.bookingRows == RowsAfterDelete(old(service.repo.bookingRows), id, fault)
            && service.repo.passengerRows == PassengersAfterDelete(old(service.repo.passengerRows), id, fault)
            && service.repo.seatRows == SeatsAfterDelete(old(service.repo.seatRows), id, fault))
      && forall other :: other != id ==> service.GetByID(other) == old(service.GetByID(other))
  {
    var bookingId := Atoi(idParam);
    if bookingId.None? {
      return Response(StatusBadRequest, InvalidRequest);
    }
    var success, err := service.DeleteByBookingID(bookingId.value, fault);
    response := DeleteResponse(success, err);
  }

  /** POST /bookings. An unbindable body is refused before the service is
      asked; then 409 for a taken id, 500 when the store rejected the insert,
      201 with the stored booking otherwise. */
  method HandlePost(service: BookingService, request: Option<Booking>, now: Timestamp,
                    dbFault: bool, brokerAccepts: bool) returns (response: Response)
    requires service.Valid()
    modifies service.repo, service.channel
    ensures service.Valid()
    ensures request.None? ==>
      response == Response(StatusBadRequest, InvalidRequest)
      && unchanged(service.repo) && unchanged(service.channel)
    ensures request.Some? ==>
      var id := request.value.id;
      && (response.status == StatusConflict <==> id in old(service.repo.Ids()))
      && (response.status == StatusInternalServerError <==> id !in old(service.repo.Ids()) && dbFault)
      && (response.status == StatusCreated <==> id !in old(service.repo.Ids()) && !dbFault)
      && (response.status == StatusCreated ==>
            && response.body == OneBooking(service.GetByID(id)) && response.body.booking.status == Pending
            && service.repo.GetByID(id) == ConvertBookingToBookingEntity(request.value.(status := Pending), now)
            && (forall other :: other != id ==> service.GetByID(other) == old(service.GetByID(other)))
            && service.channel.published == old(service.channel.published) +
                 (if brokerAccepts then [BookingCreated(PaymentRequest(id, request.value.payment))] else []))
      && (response.status != StatusCreated ==> unchanged(service.repo) && unchanged(service.channel))
  {
    if request.None? {
      return Response(StatusBadRequest, InvalidRequest);
    }
    var result := service.Create(request.value, now, dbFault, brokerAccepts);
    response := PostResponse(result);
  }

  /** The ownership scan of GET /bookings/: 403 at the first booking that is
      not the caller's, 200 with the whole list when there is none. */
  method RespondWithOwnBookings(userId: int, bookings: seq<Booking>) returns (response: Response)
    ensures response == GetResponse(userId, bookings)
  {
    var i := 0;
    while i < |bookings|
      invariant 0 <= i <= |bookings|
      invariant forall j :: 0 <= j < i ==> bookings[j].userId == userId
    {
      if userId != bookings[i].userId {
        return Response(StatusForbidden, Unauthorized);
      }
      i := i + 1;
    }
    return Response(StatusOK, ManyBookings(bookings));
  }

  /** GET /bookings/: the caller's bookings. Because the service lists only
      the caller's own bookings, the ownership scan never refuses them. */
  method HandleGet(service: BookingService, caller: Option<int>) returns (response: Response)
    ensures caller.None? ==> response == Response(StatusBadRequest, InvalidRequest)
    ensures caller.Some? ==>
      response == Response(StatusOK, ManyBookings(BookingsOf(service.repo.GetByUserID(caller.value))))
  {
    if caller.None? {
      return Response(StatusBadRequest, InvalidRequest);
    }
    var bookings := service.GetByUserID(caller.value);
    response := RespondWithOwnBookings(caller.value, bookings);
  }

  /** PUT /bookings/. Refuses a malformed caller or body (400) and a booking
      whose user is not the caller (403) before the service is asked; then
      404 for an unknown booking and 200 with the stored booking otherwise. */
  method HandlePut(service: BookingService, caller: Option<int>, request: Option<Booking>, now: Timestamp)
    returns (response: Response)
    requires service.Valid()
    modifies service.repo
    ensures service.Valid()
    ensures caller.None? || request.None? ==>
      response == Response(StatusBadRequest, InvalidRequest) && unchanged(service.repo)
    ensures caller.Some? && request.Some? && request.value.userId != caller.value ==>
      response == Response(StatusForbidden, Unauthorized) && unchanged(service.repo)
    ensures caller.Some? && request.Some? && request.value.userId == caller.value ==>
      var id := request.value.id;
      && (id !in old(service.repo.Ids()) ==>
            response == Response(StatusNotFound, Failure(BookingNotFoundError(id))) && unchanged(service.repo))
      && (id in old(service.repo.Ids()) ==>
            && response == Response(StatusOK, OneBooking(service.GetByID(id)))
            && service.repo.GetByID(id) == ConvertBookingToBookingEntity(request.value, now)
            && forall other :: other != id ==> service.GetByID(other) == old(service.GetByID(other)))
  {
    if caller.None? {
      return Response(StatusBadRequest, InvalidRequest);
    }
    var userId := caller.value;
    if request.None? {
      return Response(StatusBadRequest, InvalidRequest);
    }
    var booking := request.value;
    if userId != booking.userId {
      return Response(StatusForbidden, Unauthorized);
    }
    var result := service.Update(booking, now);
    response := PutResponse(result);
  }

  /** The input that shows the ownership check of PUT looking only at the
      payload: booking 7 belongs to user 2, yet user 1 rewrites it, taking it
      over, by sending its id with their own user id. */
  method PutTakesOverForeignBooking() returns (ownerBefore: int, response: Response, ownerAfter: int)
    ensures ownerBefore == 2
    ensures response.status == StatusOK
    ensures ownerAfter == 1
  {
    var repo := new BookingRepository();
    var channel := new Channel();
    var service := new BookingService(repo, channel);
    var theirs := Booking(7, 2, "FH100", Economy, [], [], [], Pending, NoPayment);
    assert repo.Ids() == {};
    var created := service.Create(theirs, 0, false, true);
    assert repo.Ids() == {7};
    ownerBefore := service.GetByID(7).userId;
    var mine := theirs.(userId := 1);
    response := HandlePut(service, Some(1), Some(mine), 1);
    assert repo.GetByID(7) == ConvertBookingToBookingEntity(mine, 1);
    ownerAfter := service.GetByID(7).userId;
  }

  /** PUT /bookings/ with the ownership check applied to the stored booking as
      well as to the payload: a 200 answer means the booking was already the
      caller's, and no booking of another user ever changes. */
  method HandlePutOwnerChecked(service: BookingService, caller: Option<int>, request: Option<Booking>,
                               now: Timestamp) returns (response: Response)
    requires service.Valid()
    modifies service.repo
    ensures service.Valid()
    ensures caller.None? || request.None? ==>
      response == Response(StatusBadRequest, InvalidRequest) && unchanged(service.repo)
    ensures response.status == StatusOK ==>
      && caller.Some? && request.Some?
      && request.value.userId == caller.value
      && request.value.id in old(service.repo.Ids())
      && old(service.GetByID(request.value.id)).userId == caller.value
      && response == Response(StatusOK, OneBooking(service.GetByID(request.value.id)))
    ensures caller.Some? && request.Some? && request.value.userId == caller.value ==>
      var id := request.value.id;
      && (id !in old(service.repo.Ids()) ==>
            response == Response(StatusNotFound, Failure(BookingNotFoundError(id))))
      && (id in old(service.repo.Ids()) && old(service.GetByID(id)).userId == caller.value ==>
            && response == Response(StatusOK, OneBooking(service.GetByID(id)))
            && service.repo.GetByID(id) == ConvertBookingToBookingEntity(request.value, now))
      && (id in old(service.repo.Ids()) && old(service.GetByID(id)).userId != caller.value ==>
            response == Response(StatusForbidden, Unauthorized))
    ensures caller.Some? && request.Some? && request.value.userId != caller.value ==>
      response == Response(StatusForbidden, Unauthorized)
    ensures response.status != StatusOK ==> unchanged(service.repo)
    ensures caller.Some? ==>
      forall id :: (id in old(service.repo.Ids()) && old(service.GetByID(id)).userId != caller.value) ==>
        service.GetByID(id) == old(service.GetByID(id))
  {
    if caller.None? {
      return Response(StatusBadRequest, InvalidRequest);
    }
    var userId := caller.value;
    if request.None? {
      return Response(StatusBadRequest, InvalidRequest);
    }
    var booking := request.value;
    if userId != booking.userId {
      return Response(StatusForbidden, Unauthorized);
    }
    var known := service.BookingExists(booking.id);
    if known && service.GetByID(booking.id).userId != userId {
      return Response(StatusForbidden, Unauthorized);
    }
    assert forall id :: id in service.repo.Ids() && service.GetByID(id).userId != userId ==> id != booking.id;
    var result := service.Update(booking, now);
    response := PutResponse(result);
    assert response.status == StatusOK ==> known;
  }
}
