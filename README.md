# FlyHorizons booking lifecycle, in Dafny

This project models the booking service of FlyHorizons. The service stores
flight bookings with their passengers and seats. It creates them in the
Pending status and asks the payment service to charge for them. When a
payment succeeds it marks the booking Success and announces it. When a
payment fails it deletes the booking. When a user account is deleted it
removes all of that user's bookings. Four HTTP routes (DELETE, POST, GET,
PUT) serve the bookings.

The layers, one Dafny module per Go file:

- `LuggageEnum` and `FlightClassEnum` model the enum codecs. Luggage tags
  are stored as a JSON array string, and unknown tags are dropped when it
  is read back. Fare classes other than Business are read back as Economy.
- `PassengerConverter`, `SeatConverter` and `BookingConverter` model the
  field-copying converters between API values (`Models`) and storage rows
  (`Entities`). The loops are methods, each proved against a function on
  sequences, and the round trips are lemmas.
- `Repository` models the GORM store. It is a class holding three tables:
  booking rows, passenger rows and seat rows. Its invariant is that
  booking ids are unique and every child row belongs to a stored booking.
  `Tables` holds the generic selection functions (`Keys`, `Matching`,
  `Excluding`) and their lemmas.
- `Service` models the booking service. It scans for existence, rejects
  a taken id or an unknown id, forces the Pending status, and publishes
  `booking.created` on a `Channel`. The channel is the list of messages
  the broker accepted.
- `PaymentListener` and `UserListener` model the body of each consumer
  loop. Each takes one message that has already been decoded.
- `Router` models the four handlers. It has a pure decision function per
  handler (service outcome to status code and body), a method per handler
  that calls the service, and Go's `strconv.Atoi`/`strconv.Itoa` on the
  64-bit `int` range.

The environment becomes parameters:

- `now` is the clock.
- `dbFault` and `DeleteFault` say which database statement fails.
- `brokerAccepts` says whether the broker takes a message.
- `Option` inputs stand for a JSON body or context value that could not
  be decoded.

## Model

| member | source | states |
|---|---|---|
| FlightClassEnum.FlightClassFromInt | models/enums/flight_class.go:10-19 | The result is always Economy or Business. Both enum values decode to themselves. Every other int decodes to Economy. |
| LuggageEnum.KnownOnly | models/enums/luggage.go:22-28 | The filtered list holds only the six known tags and is no longer than the input. |
| LuggageEnum.KnownOnlyAppend | models/enums/luggage.go:23-28 | Filtering distributes over concatenation, so input order is kept. |
| LuggageEnum.KnownOnlyMembership | models/enums/luggage.go:24-26 | A string is in the decoded list iff it occurs in the input and is one of the known tags. |
| LuggageEnum.KnownOnlyKeepsKnown | models/enums/luggage.go:7-14 | A list made only of known tags, duplicates included, passes the filter unchanged. |
| LuggageEnum.LuggageClassesFromJSONString | models/enums/luggage.go:16-31 | The loop returns the known tags of the decoded array in order. For input that is not a string array it returns the empty list. |
| LuggageEnum.JSONStringToLuggageClasses | models/enums/luggage.go:33-39 | The encoding is always a bracketed JSON array text. |
| LuggageEnum.DecodeEncodeFilters | models/enums/luggage.go:16-39 | Decoding the encoding of any list of plain strings gives back exactly its known tags, in order. |
| LuggageEnum.DecodeEncode | models/enums/luggage.go:16-39 | Round trip: decode(encode(l)) == l for every list of known tags. |
| LuggageEnum.DecodeIdempotent | models/enums/luggage.go:16-39 | decode(encode(decode(s))) == decode(s) for every input string. |
| LuggageEnum.EncodeFixture | tests/services/converter/booking_converter_test.go:28-38 | [SmallBag, Cargo20kg] encodes to `["SmallBag","Cargo20kg"]`. |
| LuggageEnum.DecodeFixture | tests/services/converter/booking_converter_test.go:28-38 | `["SmallBag","Cargo20kg"]` decodes to [SmallBag, Cargo20kg]. |
| LuggageEnum.NonArraysDecodeEmpty | models/enums/luggage.go:17-20 | The empty string, `null` and an array of numbers all decode to the empty list. |
| PassengerConverter.PassengersOf | services/converter/passenger_converter.go:11-23 | Row to passenger keeps length and order, and copies ID, FullName, DateOfBirth, PassportNumber and Email. |
| PassengerConverter.PassengerEntitiesOf | services/converter/passenger_converter.go:25-38 | Passenger to row keeps length and order, copies every field, and sets every BookingID to the given id. |
| PassengerConverter.ConvertPassengerEntitiesToPassengers | services/converter/passenger_converter.go:11-23 | The append loop computes PassengersOf of its input. |
| PassengerConverter.ConvertPassengersToPassengerEntities | services/converter/passenger_converter.go:25-38 | The append loop computes PassengerEntitiesOf of its input. |
| PassengerConverter.PassengersRoundTrip | services/converter/passenger_converter.go:11-38 | Storing passengers under any booking id and reading them back gives the same passengers. |
| PassengerConverter.PassengersIgnoreBookingId | services/converter/passenger_converter.go:14-20 | Rows that differ only in BookingID read back as the same passengers. |
| PassengerConverter.PassengerEntitiesRoundTrip | services/converter/passenger_converter.go:11-38 | Rows of one booking, read back and stored again under that booking, are rebuilt exactly. |
| SeatConverter.SeatsOf | services/converter/seat_converter.go:12-22 | Row to seat keeps length and order, copies Row and Column, and marks every seat available. |
| SeatConverter.SeatEntitiesOf | services/converter/seat_converter.go:24-34 | Seat to row keeps length and order, copies Row and Column, sets BookingID to the given id, and leaves ID at zero. |
| SeatConverter.SeatsOfOptions | services/converter/seat_converter.go:36-47 | Seat-map option to seat keeps length and order, and Available is the option's Status. |
| SeatConverter.ConvertSeatEntitiesToSeats | services/converter/seat_converter.go:12-22 | The append loop computes SeatsOf of its input. |
| SeatConverter.ConvertSeatsToSeatEntities | services/converter/seat_converter.go:24-34 | The append loop computes SeatEntitiesOf of its input. |
| SeatConverter.ConvertSeatOptionEntitiesToSeats | services/converter/seat_converter.go:36-47 | The append loop computes SeatsOfOptions of its input. |
| SeatConverter.SeatsRoundTrip | services/converter/seat_converter.go:12-34 | Seats stored and read back keep Row and Column, and every seat becomes available. |
| SeatConverter.MarkedAvailableKeepsAvailable | services/converter/seat_converter.go:18 | Seats that are all available survive the round trip unchanged. |
| SeatConverter.SeatEntitiesRoundTrip | services/converter/seat_converter.go:12-34 | Rows of one booking, read back and stored again, are rebuilt except that their ids are reset to zero. |
| BookingConverter.ConvertBookingEntityToBooking | services/converter/booking_converter.go:15-26 | ID, UserID, FlightCode and Status are copied. The class is a valid fare class and the luggage holds only known tags. Every seat is available and the counts are kept. The payment is empty. |
| BookingConverter.ConvertBookingToBookingEntity | services/converter/booking_converter.go:28-43 | ID, UserID, FlightCode, class and Status are copied, and CreatedAt is the clock. Children keep their count, and every child row's BookingID is the booking id. |
| BookingConverter.BookingRoundTrip | services/converter/booking_converter.go:15-43 | For any clock value, storing and reading back a booking normalises it: class decoded, unknown tags dropped, seats available, payment cleared. |
| BookingConverter.NormalizedFixedPoints | services/converter/booking_converter.go:15-26 | Normalisation always gives a canonical booking. A booking is canonical iff normalisation leaves it unchanged. |
| BookingConverter.CanonicalRoundTrip | services/converter/booking_converter.go:15-43 | A booking with a valid class, known tags, available seats and no payment is read back exactly as it was stored. |
| BookingConverter.EntityRoundTrip | services/converter/booking_converter.go:15-43 | A row the converter could have written, read back and written again, is equal to the original except for CreatedAt and the seat ids. |
| Repository.BookingRepository.GetAll | repositories/booking_repository.go:35-41 | Every booking row is returned in table order, with exactly its own passengers and seats preloaded. |
| Repository.BookingRepository.GetByID | repositories/booking_repository.go:43-52 | For a stored id the result is that booking with its children. For any other id it is the zero entity. |
| Repository.BookingRepository.GetByUserID | repositories/booking_repository.go:54-63 | The rows whose UserID matches are returned in table order, with their children. |
| Repository.GetByUserIDSelects | repositories/booking_repository.go:54-63 | A booking is in GetByUserID(u) iff it is stored and its UserID is u. |
| Repository.BookingRepository.Create | repositories/booking_repository.go:65-73 | The insert succeeds iff the database accepts it and the id is new. On success the entity is returned, one row is appended, its children are inserted, GetByID returns it, and every other booking reads back unchanged. On failure nothing changes. |
| Repository.BookingRepository.DeleteByBookingID | repositories/booking_repository.go:75-94 | Deletes the passengers, then the seats, then the booking row, and stops at the first statement that fails. It returns true iff the booking row was removed. Every other booking reads back unchanged, whichever statement fails. |
| Repository.BookingRepository.UpdateStatus | repositories/booking_repository.go:96-113 | Only the Status of the booking with that id changes. Children, ids and every other booking are unchanged. |
| Repository.DeletedOthersKept | repositories/booking_repository.go:75-94 | Deleting one booking, however far the three statements get, leaves the lookup of every other id unchanged. |
| Repository.BookingRepository.Update | repositories/booking_repository.go:115-121 | Saves by id: the entity is returned, GetByID of its id returns it, and every other booking is unchanged. |
| Repository.Saved | repositories/booking_repository.go:115-121 | Saving an entity keeps the table invariant and adds its id. The saved id reads back as the entity, and every other id reads back as before. |
| Service.Channel.Publish | services/booking_service.go:86-98 | An accepted message is appended to the channel. A rejected one is dropped. |
| Service.BookingService.BookingExists | services/booking_service.go:32-39 | The linear scan returns true iff some stored booking has the id. |
| Service.BookingService.GetByID | services/booking_service.go:41-45 | The stored booking converted for the API. It has the requested id when the id is stored, and is the zero booking otherwise. |
| Service.BookingService.GetByUserID | services/booking_service.go:47-54 | The loop converts the user's rows in store order. Every result belongs to the user, and the results carry exactly the ids of the user's stored bookings. |
| Service.BookingsOf | services/booking_service.go:50-52 | Converting rows one by one keeps length and order. |
| Service.BookingService.Create | services/booking_service.go:56-102 | A taken id gives BookingExistsError, and a rejected insert gives BookingCreateError; in both cases the store and channel are unchanged. Otherwise the booking is stored as Pending and returned as read back, and every other booking reads back unchanged. The payment request with its id and payment is published when the broker accepts it. |
| Service.BookingService.DeleteByBookingID | services/booking_service.go:104-109 | An unknown id gives BookingNotFoundError and leaves the store unchanged. A known id gives the store's result with no error, and the result is true iff no statement failed. The tables are those left by the statements that ran, and every other booking reads back unchanged. |
| Service.UnknownIdExcludesNothing | services/booking_service.go:105-107 | Deleting an id no booking has removes no row from any table. |
| Service.BookingService.UpdateStatus | services/booking_service.go:111-113 | The new status is visible through GetByID, and every other booking reads back unchanged. |
| Service.BookingService.Update | services/booking_service.go:115-125 | An unknown id gives BookingNotFoundError and leaves the store unchanged. A known id is overwritten and returned as read back, which is the normalised input. Other bookings are unchanged. |
| PaymentListener.PaymentEventListener.HandlePaymentSuccess | services/payment_event_listener.go:41-86 | An undecodable message changes nothing. Otherwise the booking is marked Success, and nothing else changes. If the broker accepts it, the booking re-read after the update is published on `booking.confirmed`. |
| PaymentListener.PaymentEventListener.HandlePaymentFailed | services/payment_event_listener.go:104-121 | An undecodable message or an unknown id changes nothing. For a known id the tables are those left by the delete statements that ran, whichever one fails. When none fails, the booking and all its passenger and seat rows are gone. Every other booking reads back unchanged. |
| UserListener.UserEventListener.HandleUserDeleted | services/user_event_listener.go:44-60 | An undecodable message changes nothing. Otherwise no booking of the user remains, every other booking remains, and the children of the deleted bookings are gone. Nothing is published. |
| UserListener.OwnerRowsExcluded | services/user_event_listener.go:56-59 | Because booking ids are unique, deleting the user's bookings by id removes exactly the rows with that user id. |
| Router.Atoi | routes/booking_router.go:20-25 | A parsed id lies in the 64-bit range. The empty string is refused. An accepted text starts with a digit, or with a sign followed by at least one more character, and every later character is a digit. |
| Router.AtoiItoa | routes/booking_router.go:20 | Every 64-bit int written in decimal is read back as itself. |
| Router.AtoiRefusesMalformed | routes/booking_router.go:20-25 | `invalid`, the empty string, a lone `-` and `12a` are refused. |
| Router.AtoiRefusesOverflow | routes/booking_router.go:20-25 | A 20-digit number past the 64-bit range is refused. |
| Router.AtoiReadsSigned | routes/booking_router.go:20 | `42`, `-7` and `+007` are read as 42, -7 and 7. |
| Router.DeleteResponse | routes/booking_router.go:27-45 | NotFound gives 404, and a successful delete gives 200. Any other error, or false without an error, gives 500. |
| Router.PostResponse | routes/booking_router.go:56-67 | Success gives 201 with the booking, BookingExistsError gives 409, and any other error gives 500. |
| Router.GetResponse | routes/booking_router.go:84-94 | 403 iff some listed booking belongs to another user. Otherwise 200 with the list. |
| Router.PutResponse | routes/booking_router.go:119-128 | Success gives 200 with the booking, NotFound gives 404, and any other error gives 500. |
| Router.HandleDelete | routes/booking_router.go:16-46 | A non-integer id gives 400 without touching the store. Then 404 iff the id is unknown, 200 iff it is known and every statement succeeds, and 500 iff it is known and a statement fails. For a known id the tables are those left by the statements that ran; after a 200 the booking is gone. Every other booking reads back unchanged. |
| Router.HandlePost | routes/booking_router.go:48-68 | An unbindable body gives 400. Then 409 iff the id is taken, 500 iff the insert is rejected, and 201 iff the booking is stored, with the stored Pending booking in the body. After a 201 every other booking reads back unchanged, and the payment request with the id and payment is published when the broker accepts it. Every non-201 answer leaves the store and channel unchanged. |
| Router.RespondWithOwnBookings | routes/booking_router.go:86-94 | The ownership scan answers exactly as GetResponse. |
| Router.HandleGet | routes/booking_router.go:75-95 | A caller id that is not an int gives 400. Otherwise the answer is 200 with the caller's bookings: the service lists only the caller's own bookings, so the 403 branch is never taken. |
| Router.HandlePut | routes/booking_router.go:97-129 | 400 for a bad caller id or body, and 403 when the payload's user is not the caller; neither reaches the service. Then 404 for an unknown id, or 200 with the booking as stored from the payload, and every other booking reads back unchanged. |
| Router.PutTakesOverForeignBooking | routes/booking_router.go:113-119 | Booking 7 belongs to user 2. User 1 sends a PUT for id 7 with their own user id, gets 200, and booking 7 now belongs to user 1. |
| Router.HandlePutOwnerChecked | routes/booking_router.go:97-129 | PUT that also checks the stored owner. 400 for a bad caller id or body. 403 when the payload's user is not the caller, or when the stored booking belongs to another user. 404 for an unknown id. 200 with the booking as stored from the payload exactly when the stored booking is already the caller's. Another user's booking never changes. |

## Left out

- Process startup, configuration, the SQL Server and RabbitMQ connections, and the consumer loops' goroutines and auto-ack are I/O. Each listener method is the body of one loop iteration.
- Concurrency between HTTP handlers and consumers is not modelled; the model is sequential.
- The broker is reduced to a `Channel` of accepted messages. A publish the broker refuses is an input (`brokerAccepts`), and the message is dropped.
- JSON marshalling of whole bookings and payment requests, and gin's `ShouldBindJSON`, are not modelled. A bound body is an `Option<Booking>`, and a payment is kept as opaque text.
- The marshal-failure branches in booking creation and in payment success are not modelled: marshalling these plain records cannot fail.
- LuggageEnum.JSONStringToLuggageClasses: the `[]` fallback for a marshal failure is not modelled, because marshalling a list of strings cannot fail.
- LuggageEnum.JSONStringToLuggageClasses: tags that need JSON escapes (quotes, backslashes, control characters) are written without them. Go's HTML escaping of `<`, `>` and `&`, and its escaping of U+2028 and U+2029, are also not modelled. The round-trip lemmas are stated for tags without such characters.
- LuggageEnum.LuggageClassesFromJSONString: accepts only the compact form the encoder writes, with no whitespace and no escape sequences. Any other JSON array text decodes to the empty list here, where Go's decoder would still read it.
- Repository.BookingRepository.GetAll and Repository.BookingRepository.GetByUserID: the queries have no ORDER BY, so the database promises no order. The model returns rows in insertion order, and Router.HandleGet inherits that order.
- Go's nil slices and empty slices are both the empty sequence. In Go, encoding nil luggage gives `null`, and GetByUserID with no match returns nil.
- The clock (`time.Now()` for CreatedAt) is the parameter `now`.
- models/enums/status.go, models/booking.go and models/seat.go are not part of this model. The status values `"Pending"` and `"Success"` and the Booking fields are taken from their uses in the converters, the service and the payment listener.
- Repository.BookingRepository.Create: no auto-increment id is assigned to a booking with id 0, and child row ids are not assigned; the model stores the ids it is given.
- Service.BookingService.Create: inherits the repository's handling of id 0. In Go each POST of a booking with id 0 gets a fresh id from the database and is stored. The load test in tests/load/booking_load_test.go:22-25 posts such a booking repeatedly. In the model the first one is stored under id 0 and every later one gets BookingExistsError.
- Router.HandlePost: inherits the same id-0 simplification, so a second POST of a booking with id 0 answers 409 where Go answers 201.
- Repository.BookingRepository.Create: the primary keys of the Passenger and Seat tables (repositories/entity/passenger_entity.go:6, repositories/entity/seat_entity.go:4) are not enforced. A child whose id is already stored under another booking becomes a second row with that id in the model. GORM's association upsert instead moves the stored row to the new booking, keeping its other columns, so the other booking loses that child. The clause that every other booking reads back unchanged is therefore promised only where the new children's ids are not already stored.
- Service.BookingService.Create: inherits the unenforced child primary keys, and its clause that every other booking reads back unchanged carries the same limit.
- Router.HandlePost: inherits the unenforced child primary keys; the 201 clause that every other booking reads back unchanged carries the same limit.
- Repository.BookingRepository.Update: GORM's `Save` upserts associations and leaves in place child rows that are missing from the entity. The model replaces the booking's children with the entity's children instead. Under GORM's default, a child row that is already stored keeps its non-key columns, so a PUT that renames passenger 1 leaves the stored name unchanged in Go, while the model's `GetByID(id) == updated` shows the new name.
- Service.BookingService.Update: inherits the repository's replacement of the children. Go keeps the stored passengers and seats that are missing from the payload; the model drops them.
- Router.HandlePut: inherits the same replacement of the children from Service.BookingService.Update.
- Repository.BookingRepository.UpdateStatus: on an unknown id the model leaves the store unchanged. The source logs the error and then saves a zero-valued row carrying the status. The contract is stated for stored ids, and the unknown-id case is simplified.
- Service.BookingService.UpdateStatus: inherits the repository's unknown-id simplification.
- PaymentListener.PaymentEventListener.HandlePaymentSuccess: inherits the repository's unknown-id simplification of UpdateStatus.
- UserListener.UserEventListener.HandleUserDeleted: database failures during the per-booking deletes are not modelled; every delete succeeds.
- Error message texts and the discarded `errorCode` arguments of services/errors are not modelled. An error is a constructor carrying the booking id, and a message body is a `Body` constructor.
- The gateway authentication middleware is not part of this model. The caller's user id is an input, `None` when it is not an int.
- The seat repository (raw SQL), the seat service and the seat router are not modelled. Their only logic, the seat-option conversion, is modelled in `SeatConverter`.

## Findings

| source | as written | input that shows it | evidently intended | confidence | as-written member | corrected member |
|---|---|---|---|---|---|---|
| routes/booking_router.go:113-119 | PUT compares the caller only with the UserID in the payload. It then saves the payload over whatever booking has that id. | Booking 7 is stored for user 2. User 1 sends a PUT of `{id: 7, userId: 1}`. The answer is 200, and booking 7 now belongs to user 1. | A caller may rewrite only a booking that is already theirs, as the 403 message about bookings belonging to another user says. | medium, not executed | Router.HandlePut, Router.PutTakesOverForeignBooking | Router.HandlePutOwnerChecked |
