# Flight booking: seat inventory and booking lifecycle

A Dafny model of the core of a reactive Spring flight-booking service. The
model covers:

- how an airline adds flight inventory;
- how travellers search flights by route and date;
- how a ticket is booked, looked up, listed, cancelled and given a new meal;
- how the PNR is built from a UUID and the clock.

The two Mongo collections are modelled as a `Store` class (`store.dfy`). It
holds a map from flight id to flight document and a map from PNR to booking
document, and the service methods change it under `modifies store`.

- `FindFlightById` hands out a fresh `Flight` object, as the repository's
  mapping does. The services change that object through the setters of
  `model/Flight.java` and write it back with `SaveFlight`.
- Every state-changing service method is proved to compute one pure step
  function of module `Lifecycle`: `Book`, `Cancel`, `UpdateMeal` or
  `AddInventory`. The method ensures the returned result and the new state
  of both collections.
- The step functions carry the error order of the source, its messages,
  its "nothing changes on error" behaviour, and the exact new state.

Two invariants are proved:

- `Lifecycle.Valid` is structural: keys equal ids and PNRs, and each
  booking's seat count equals the size of its passenger list and of its
  seat-number list, and a booking has a cancellation time exactly when it
  is CANCELLED. Every operation keeps it.
- `Lifecycle.Conserved` is seat conservation: every booking's flight is
  stored, and for every flight, the available seats plus the seats held by
  its BOOKED bookings equal its total seats. Together with `Valid`, it
  implies 0 ≤ available ≤ total. Every operation keeps it, with two
  conditions:
  - booking keeps it when the generated PNR is not already in use;
  - adding inventory keeps it when the seat total is not negative.

Functions and lemmas relate the operations to each other:

- booking and then cancelling gives every flight back unchanged;
- `getTicketByPnr` finds the ticket `bookTicket` returned;
- a cancelled booking cannot be cancelled again;
- the cancel and meal-change guards accept exactly the same bookings.

Time is modelled as `java.time` values at second resolution. A `LocalDate`
is a date that exists in the proleptic Gregorian calendar: no February 30,
and February 29 only in leap years. `LocalDateTime.isBefore` compares the
date fields, then the time of day. `minusHours(24)` gives the same time on
the previous day. Date-times are also numbered by epoch second, using the
days-from-civil formula. Lemmas prove three facts about that numbering:

- the day after any date is the next epoch day;
- epoch seconds order date-times exactly as `isBefore` does;
- the 24-hour window test is therefore a comparison of epoch seconds.

The clock and `UUID.randomUUID()` are parameters (`now`, `uuid`). The
store-generated id of a new flight is the parameter `newId`.

Two behaviours of the code are worth noting:

- Cancellation and meal change are refused when
  `journey.minusHours(24).isBefore(now)`. A departure exactly 24 hours away
  is therefore still allowed.
- `searchFlights` does no request validation, takes no account of the trip
  type, and applies no round-trip filter.

## Model

| member | source | states |
|---|---|---|
| PnrGeneration.GeneratePnr | src/main/java/com/flightapp/service/PnrGenerator.java:12-22 | The PNR has 12 characters: the random part, then the time part. |
| PnrGeneration.RandomPart | src/main/java/com/flightapp/service/PnrGenerator.java:13-16 | Six characters, with no dash and no lower-case letter. They equal, ignoring case, the first six characters of the UUID string once its dashes are removed. |
| PnrGeneration.UuidRandomPart | src/main/java/com/flightapp/service/PnrGenerator.java:13-16 | For a canonical 8-4-4-4-12 UUID string, 32 hex digits remain after the dashes are removed. The random part is the upper-cased first six characters of the UUID, each a digit or a letter A to F. |
| PnrGeneration.TimePart | src/main/java/com/flightapp/service/PnrGenerator.java:18-19 | The `ddHHmm` format: six digits whose pairs read back as the day of the month, the hour and the minute of the clock reading. |
| Ascii.RemoveAll | src/main/java/com/flightapp/service/PnrGenerator.java:14 | `replace("-", "")`: the result has no dash, is no longer than the input, and every character comes from the input. |
| Ascii.ToUpper | src/main/java/com/flightapp/service/PnrGenerator.java:16 | `toUpperCase` on ASCII: the length is unchanged, no lower-case letter remains, and every other character is kept. |
| Ascii.EqualsIgnoreCaseCharwise | src/main/java/com/flightapp/service/BookingService.java:124 | The owner comparison holds exactly when the two emails have the same length and the characters at each position have the same upper case. |
| Ascii.Pad2 | src/main/java/com/flightapp/service/PnrGenerator.java:19 | A two-digit field of the formatter: two digits that read back as the number. |
| Clock.EpochDayNextDay | src/main/java/com/flightapp/service/BookingService.java:134 | For every valid date, the next calendar day is the next epoch day. This includes month ends, December 31 and February 28 or 29. |
| Clock.EpochDayPreviousDay | src/main/java/com/flightapp/service/BookingService.java:134 | For every valid date, the previous calendar day, as `minusHours(24)` reaches it, is the previous epoch day. |
| Clock.EpochDayOrder | src/main/java/com/flightapp/service/BookingService.java:134 | A date is before another, as `LocalDate.isBefore` compares them, exactly when its epoch day is smaller. |
| Clock.EpochSecondOrder | src/main/java/com/flightapp/service/BookingService.java:134 | A date-time is before another, as `LocalDateTime.isBefore` compares them, exactly when its epoch second is smaller. |
| Clock.WithinDayOfDepartureEpoch | src/main/java/com/flightapp/service/BookingService.java:133-134 | `journey.minusHours(24).isBefore(now)` holds exactly when the journey starts less than 86400 seconds after `now`. |
| Clock.Hour | src/main/java/com/flightapp/service/PnrGenerator.java:19 | The `HH` field: an hour from 0 to 23 whose hour-long interval contains the time. |
| Clock.Minute | src/main/java/com/flightapp/service/PnrGenerator.java:19 | The `mm` field: a minute from 0 to 59 whose minute-long interval within the hour contains the time. |
| Flights.Flight.SetId | src/main/java/com/flightapp/model/Flight.java:37-39 | The id becomes the argument, and no other field changes. |
| Flights.Flight.SetAirlineName | src/main/java/com/flightapp/model/Flight.java:45-47 | The airline name becomes the argument, and no other field changes. |
| Flights.Flight.SetAirlineLogoUrl | src/main/java/com/flightapp/model/Flight.java:53-55 | The logo URL becomes the argument, and no other field changes. |
| Flights.Flight.SetFromPlace | src/main/java/com/flightapp/model/Flight.java:61-63 | The origin becomes the argument, and no other field changes. |
| Flights.Flight.SetToPlace | src/main/java/com/flightapp/model/Flight.java:69-71 | The destination becomes the argument, and no other field changes. |
| Flights.Flight.SetDepartureDate | src/main/java/com/flightapp/model/Flight.java:77-79 | The departure date becomes the argument, and no other field changes. |
| Flights.Flight.SetDepartureTime | src/main/java/com/flightapp/model/Flight.java:85-87 | The departure time becomes the argument, and no other field changes. |
| Flights.Flight.SetArrivalTime | src/main/java/com/flightapp/model/Flight.java:93-95 | The arrival time becomes the argument, and no other field changes. |
| Flights.Flight.SetRoundTripAvailable | src/main/java/com/flightapp/model/Flight.java:101-103 | The round-trip flag becomes the argument, and no other field changes. |
| Flights.Flight.SetOneWayPrice | src/main/java/com/flightapp/model/Flight.java:109-111 | The one-way price becomes the argument, and no other field changes. |
| Flights.Flight.SetRoundTripPrice | src/main/java/com/flightapp/model/Flight.java:117-119 | The round-trip price becomes the argument, and no other field changes. |
| Flights.Flight.SetTotalSeats | src/main/java/com/flightapp/model/Flight.java:125-127 | The total becomes the argument; the available seats and every other field are unchanged. |
| Flights.Flight.SetAvailableSeats | src/main/java/com/flightapp/model/Flight.java:133-135 | The available seats become the argument; the total and every other field are unchanged. |
| Bookings.CheckRequest | src/main/java/com/flightapp/service/BookingService.java:39-50 | The request passes exactly when both lists are present and the seat count equals the size of each. A missing list fails with the business error "Passengers and seat numbers are required"; with both lists present, any failure is the count-mismatch business error. |
| Bookings.AnnotatedRequestHasLists | src/main/java/com/flightapp/dto/BookingRequest.java:23-31 | A request the bean-validation annotations admit never fails the null check, and it passes exactly when the counts agree. |
| Lifecycle.NewFlight | src/main/java/com/flightapp/service/FlightService.java:25-37 | The new flight carries the given id and, unchanged, every request field. Its available seats equal its total seats. |
| Lifecycle.AddInventory | src/main/java/com/flightapp/service/FlightService.java:23-40 | The flight store gains exactly the new id, with the new flight under it. Other flights and all bookings are untouched, and structural validity is kept. |
| Lifecycle.AddInventoryConserves | src/main/java/com/flightapp/service/FlightService.java:36-37 | On a valid, conserving store, adding a flight under an unused id, with as many seats available as in total, keeps seat conservation when the seat total is not negative. |
| FlightServices.FlightService.AddInventory | src/main/java/com/flightapp/service/FlightService.java:23-40 | Filled through the setters and saved, the flight equals `NewFlight`. The store's new state is `Lifecycle.AddInventory` of the old one. Validity is kept, and so is conservation when the seat total is not negative. |
| Repositories.Store.FindByRouteAndDate | src/main/java/com/flightapp/repository/FlightRepository.java:13-17 | Returns exactly the stored flights whose origin and destination match ignoring case and whose departure date is equal, each once. |
| FlightServices.FlightService.SearchFlights | src/main/java/com/flightapp/service/FlightService.java:42-51 | One response per matching flight, built from the stored flight, and no other; flight ids are distinct. The store is only read. |
| Lifecycle.NewBooking | src/main/java/com/flightapp/service/BookingService.java:68-85 | The saved booking is well-formed and BOOKED, with no cancellation time and booked at `now`. It copies the user name, email, seat count, passengers, seat numbers and meal from the request. It names the saved flight and takes its departure date and departure date-time from that flight. |
| Lifecycle.Book | src/main/java/com/flightapp/service/BookingService.java:36-91 | Errors come in the source's order: request check, flight not found with its id, not enough seats. It succeeds exactly when all three pass. An error changes nothing. On success the flight loses exactly the booked seats and is never left negative, the booking is stored under its PNR, and the ticket is that booking joined with the updated flight. Validity is kept. |
| Lifecycle.BookConserves | src/main/java/com/flightapp/service/BookingService.java:62-87 | Booking under a PNR not yet in use keeps seat conservation. |
| BookingServices.BookingService.BookTicket | src/main/java/com/flightapp/service/BookingService.java:36-91 | The result and the new state of both collections are `Lifecycle.Book` with the PNR generated from `uuid` and `now`. Validity is kept, and so is conservation when that PNR is fresh. |
| Lifecycle.TicketByPnr | src/main/java/com/flightapp/service/BookingService.java:93-104 | An unknown PNR fails with "Booking not found for PNR" and a missing flight with "Flight not found". Otherwise the result is the booking joined with its flight; on a valid store it carries the PNR asked for. |
| BookingServices.BookingService.GetTicketByPnr | src/main/java/com/flightapp/service/BookingService.java:93-104 | Computes `Lifecycle.TicketByPnr` on the store's state and changes nothing. |
| Lifecycle.BookThenTicket | src/main/java/com/flightapp/service/BookingService.java:87-103 | After a successful booking, looking up its PNR gives back exactly the ticket the booking returned. |
| Repositories.Store.FindByUserEmailOrderByBookedAtDesc | src/main/java/com/flightapp/service/BookingService.java:108 | Returns exactly the bookings with that email, each once, newest booking time first. |
| BookingServices.HistoryOf | src/main/java/com/flightapp/service/BookingService.java:109-112 | Every ticket is some listed booking joined with its stored flight; every listed booking whose flight is stored yields its ticket. Bookings without a stored flight are dropped. |
| BookingServices.HistoryKeepsOrder | src/main/java/com/flightapp/service/BookingService.java:106-112 | Joining bookings ordered newest first gives tickets ordered newest first. |
| BookingServices.HistoryKeepsDistinct | src/main/java/com/flightapp/service/BookingService.java:106-112 | Joining bookings with distinct PNRs gives tickets with distinct PNRs. |
| BookingServices.BookingService.GetBookingHistory | src/main/java/com/flightapp/service/BookingService.java:106-113 | A ticket is returned for exactly the stored bookings with that email whose flight is stored, each once, newest first. |
| Lifecycle.Guard | src/main/java/com/flightapp/service/BookingService.java:124-137 | Passes exactly when three conditions hold: the owner's email matches ignoring case, the booking is BOOKED, and departure is at least 24 hours after `now`. The owner check fails first, then the status check, then the 24-hour window, each with the message of the operation. |
| Lifecycle.GuardsAgree | src/main/java/com/flightapp/service/BookingService.java:168-182 | The meal-change checks accept exactly the bookings the cancel checks accept. |
| Lifecycle.Cancel | src/main/java/com/flightapp/service/BookingService.java:115-153 | Errors in order: booking not found, guard, flight not found. It succeeds exactly when none applies, and never for a cancelled booking. An error changes nothing. On success the booking is CANCELLED at `now` and its seats go back to its flight. Validity is kept. |
| Lifecycle.CancelConserves | src/main/java/com/flightapp/service/BookingService.java:139-149 | Cancelling keeps seat conservation: the seats released are exactly those the booking held. |
| Lifecycle.CancelTwiceFails | src/main/java/com/flightapp/service/BookingService.java:129-131 | After a successful cancellation, cancelling again fails and changes nothing; for the owner, the error is "Ticket already cancelled". |
| Lifecycle.BookThenCancelRestoresFlights | src/main/java/com/flightapp/service/BookingService.java:139-149 | A booking cancelled by its own traveller at least 24 hours before departure succeeds and leaves every flight as it was before the booking. |
| BookingServices.BookingService.CancelBooking | src/main/java/com/flightapp/service/BookingService.java:115-153 | The result and new state are `Lifecycle.Cancel`. Validity and conservation are kept. |
| Lifecycle.UpdateMeal | src/main/java/com/flightapp/service/BookingService.java:157-194 | Errors in order: booking not found, guard, flight not found. An error changes nothing. On success only the booking's meal type changes, no flight changes, and the ticket shows the new meal. Validity is kept. |
| Lifecycle.UpdateMealConserves | src/main/java/com/flightapp/service/BookingService.java:184-191 | A meal change keeps seat conservation. |
| BookingServices.BookingService.UpdateMealType | src/main/java/com/flightapp/service/BookingService.java:157-194 | The result and new state are `Lifecycle.UpdateMeal`. Validity and conservation are kept. |
| Lifecycle.SeatsWithinCapacity | src/main/java/com/flightapp/service/BookingService.java:58-63 | On a valid, conserving store every flight has between 0 and its total seats available. |

## Left out

- HTTP layer: the controllers, request binding, bean validation at the
  endpoint and the global exception handler are not part of this model. The
  annotations of BookingRequest appear only as the predicate
  `PassesAnnotations`.
- Concurrency: each operation is one atomic step on the store. The reactive
  pipelines are not modelled, so neither is the lost update when two bookings
  read the same flight at once.
- Persistence: Mongo is two in-memory maps, and saving replaces the whole
  document.
- Booking.java, TicketResponse.java, BookingRepository.java and the enums
  (BookingStatus, MealType, Gender) are not part of this model. Their fields
  and queries are taken from how the services use them; the meal and gender
  constants are opaque names.
- Clock: times are kept to the second (nanoseconds are dropped). The several
  `LocalDateTime.now()` reads of one call are collapsed into the one parameter
  `now`.
- IDs: the id Mongo assigns on inserting a flight is the parameter `newId`,
  required not to be in use.
- FlightServices.FlightService.AddInventory: requires `newId` fresh, because
  the store generates a new id. Conservation is proved only when the seat
  total is not negative; a negative total is rejected by the endpoint's
  annotations, not by the service.
- BookingServices.BookingService.BookTicket: PNR collisions are not checked,
  just as the source does not check them. Conservation is proved only when
  the generated PNR is fresh; a colliding PNR overwrites an older booking.
- Java nulls: a null request list is `None`. Null strings, a null
  `numberOfSeats` and null dates are not modelled; those fields always hold
  values.
- Integer width: seat counts are unbounded integers. On a valid, conserving
  store the available seats stay between 0 and the total, so 32-bit wrap-around
  does not arise there.
- Case folding: `equalsIgnoreCase`, `toUpperCase` and Mongo's IgnoreCase are
  modelled on ASCII letters only.
- Prices: BigDecimal is an (unscaled, scale) pair without arithmetic, since
  the core only copies prices.
- History order: `flatMap` may interleave results. The model keeps the
  repository's newest-first order.
- `MapToTicketResponse` and `MapToSearchResponse` are plain field copies with
  no contract of their own. The operations that use them state what they
  return.
- The controller's calls into the services and the controller test are not
  part of this model.
