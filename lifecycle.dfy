/** The booking lifecycle of service/BookingService.java and the flight
    creation rule of service/FlightService.java, as functions from the two
    stores (flights by id, bookings by PNR) to a result and the stores after
    the call. Each operation runs as one atomic step. The service classes are
    proved to compute exactly these functions. */
module Lifecycle {
  import opened Outcome
  import opened Clock
  import opened Ascii
  import opened Flights
  import opened Bookings

  datatype Stores = Stores(flights: map<string, FlightRecord>, bookings: map<string, Booking>)

  /** What an operation returns, and the stores after it. */
  datatype Step<T> = Step(result: Result<T>, after: Stores)

  // ---------------------------------------------------------------------------
  // Invariants

  /** A booking as bookTicket and cancelBooking leave it: stored under its own
      PNR, one passenger and one seat number per seat, and a cancellation time
      exactly when it is cancelled. */
  predicate WellFormedBooking(b: Booking, pnr: string)
  {
    && b.pnr == pnr
    && b.numberOfSeats == |b.passengers| == |b.seatNumbers|
    && (b.status == Cancelled <==> b.cancelledAt.Some?)
  }

  /** The structural invariant every operation keeps. */
  ghost predicate Valid(s: Stores)
  {
    && (forall id :: id in s.flights ==> s.flights[id].id == id)
    && (forall p :: p in s.bookings ==> WellFormedBooking(s.bookings[p], p))
  }

  /** The seats a booking holds on flight `id`. */
  function Held(b: Booking, id: string): int
  {
    if b.flightId == id && b.status == Booked then b.numberOfSeats else 0
  }

  /** The seats that the BOOKED bookings hold on flight `id`. */
  ghost function SeatsHeld(bs: map<string, Booking>, id: string): int
  {
    HeldOver(bs, bs.Keys, id)
  }

  /** The seats held on flight `id` by the bookings stored under `keys`. */
  ghost function HeldOver(bs: map<string, Booking>, keys: set<string>, id: string): int
    requires keys <= bs.Keys
    decreases keys
  {
    if keys == {} then 0
    else
      var p :| p in keys;
      Held(bs[p], id) + HeldOver(bs, keys - {p}, id)
  }

  /** Seat conservation: every booking refers to a stored flight, and on
      every flight the available seats are never negative and, together
      with the seats its BOOKED bookings hold, make up its total. */
  ghost predicate Conserved(s: Stores)
  {
    && (forall p :: p in s.bookings ==> s.bookings[p].flightId in s.flights)
    && (forall id :: id in s.flights ==>
          && 0 <= s.flights[id].availableSeats
          && s.flights[id].availableSeats + SeatsHeld(s.bookings, id) == s.flights[id].totalSeats)
  }

  // ---------------------------------------------------------------------------
  // Errors

  const NotEnoughSeats := "Not enough seats available"
  const FlightNotFound := "Flight not found"

  function FlightNotFoundWithId(id: string): string { "Flight not found with id: " + id }
  function BookingNotFound(pnr: string): string { "Booking not found for PNR: " + pnr }

  // ---------------------------------------------------------------------------
  // addInventory

  /** The flight addInventory builds from a request, once the store has given
      it the id `newId`. */
  function NewFlight(newId: string, req: InventoryRequest): (f: FlightRecord)
    ensures f.id == newId
    ensures f.availableSeats == f.totalSeats == req.totalSeats
    ensures RequestOf(f) == req
  {
    FlightRecord(newId, req.airlineName, req.airlineLogoUrl, req.fromPlace, req.toPlace,
                 req.departureDate, req.departureTime, req.arrivalTime, req.roundTripAvailable,
                 req.oneWayPrice, req.roundTripPrice, req.totalSeats, req.totalSeats)
  }

  /** The request fields a flight carries. */
  function RequestOf(f: FlightRecord): InventoryRequest
  {
    InventoryRequest(f.airlineName, f.airlineLogoUrl, f.fromPlace, f.toPlace,
                     f.departureDate, f.departureTime, f.arrivalTime,
                     f.oneWayPrice, f.roundTripPrice, f.roundTripAvailable, f.totalSeats)
  }

  function AddInventory(s: Stores, newId: string, req: InventoryRequest): (s': Stores)
    ensures s'.flights.Keys == s.flights.Keys + {newId}
    ensures s'.flights[newId] == NewFlight(newId, req)
    ensures forall id :: id in s.flights && id != newId ==> s'.flights[id] == s.flights[id]
    ensures s'.bookings == s.bookings
    ensures Valid(s) ==> Valid(s')
  {
    Stores(s.flights[newId := NewFlight(newId, req)], s.bookings)
  }

  // ---------------------------------------------------------------------------
  // bookTicket

  /** The booking bookTicket saves: BOOKED, for the saved flight, with the
      journey date and departure instant taken from that flight. */
  function NewBooking(pnr: string, f: FlightRecord, req: BookingRequest, now: LocalDateTime): (b: Booking)
    requires CheckRequest(req).None?
    ensures WellFormedBooking(b, pnr)
    ensures b.status == Booked && b.cancelledAt.None? && b.bookedAt == now
    ensures b.flightId == f.id && b.numberOfSeats == req.numberOfSeats
    ensures b.userName == req.userName && b.userEmail == req.userEmail
    ensures b.passengers == req.passengers.value && b.seatNumbers == req.seatNumbers.value
    ensures b.mealType == req.mealType
    ensures b.journeyDate == f.departureDate
    ensures b.journeyDepartureDateTime == LocalDateTime(f.departureDate, f.departureTime)
  {
    Booking(pnr, f.id, req.userName, req.userEmail, req.numberOfSeats,
            req.passengers.value, req.seatNumbers.value, req.mealType,
            Booked, now, None, f.departureDate, Of(f.departureDate, f.departureTime))
  }

  function Book(s: Stores, flightId: string, req: BookingRequest, pnr: string, now: LocalDateTime)
    : (o: Step<TicketResponse>)
    // Request checks come first and read no store.
    ensures CheckRequest(req).Some? ==> o.result == Err(CheckRequest(req).value)
    ensures CheckRequest(req).None? && flightId !in s.flights ==>
              o.result == Err(NotFound(FlightNotFoundWithId(flightId)))
    ensures CheckRequest(req).None? && flightId in s.flights
              && s.flights[flightId].availableSeats < req.numberOfSeats ==>
              o.result == Err(Business(NotEnoughSeats))
    ensures o.result.Ok? <==>
              CheckRequest(req).None? && flightId in s.flights
              && req.numberOfSeats <= s.flights[flightId].availableSeats
    // A failed booking changes neither store.
    ensures o.result.Err? ==> o.after == s
    ensures o.result.Ok? ==>
              var f := s.flights[flightId];
              var f' := f.(availableSeats := f.availableSeats - req.numberOfSeats);
              && o.after.flights == s.flights[flightId := f']
              && 0 <= f'.availableSeats
              && o.after.bookings == s.bookings[pnr := NewBooking(pnr, f, req, now)]
              && o.result.value == MapToTicketResponse(o.after.bookings[pnr], f')
    ensures Valid(s) ==> Valid(o.after)
  {
    var check := CheckRequest(req);
    if check.Some? then Step(Err(check.value), s)
    else if flightId !in s.flights then Step(Err(NotFound(FlightNotFoundWithId(flightId))), s)
    else
      var f := s.flights[flightId];
      if f.availableSeats < req.numberOfSeats then Step(Err(Business(NotEnoughSeats)), s)
      else
        var saved := f.(availableSeats := f.availableSeats - req.numberOfSeats);
        var b := NewBooking(pnr, saved, req, now);
        Step(Ok(MapToTicketResponse(b, saved)),
             Stores(s.flights[flightId := saved], s.bookings[pnr := b]))
  }

  /** The successful step written out, for callers that build it field by field. */
  lemma BookSucceeds(s: Stores, flightId: string, req: BookingRequest, pnr: string, now: LocalDateTime, saved: FlightRecord)
    requires CheckRequest(req).None? && flightId in s.flights
    requires req.numberOfSeats <= s.flights[flightId].availableSeats
    requires saved == s.flights[flightId].(availableSeats := s.flights[flightId].availableSeats - req.numberOfSeats)
    ensures Book(s, flightId, req, pnr, now)
            == Step(Ok(MapToTicketResponse(NewBooking(pnr, saved, req, now), saved)),
                    Stores(s.flights[flightId := saved], s.bookings[pnr := NewBooking(pnr, saved, req, now)]))
  {
  }

  // ---------------------------------------------------------------------------
  // getTicketByPnr

  /** The ticket for a PNR, joined with its flight; both must be stored. */
  function TicketByPnr(s: Stores, pnr: string): (r: Result<TicketResponse>)
    ensures pnr !in s.bookings ==> r == Err(NotFound(BookingNotFound(pnr)))
    ensures pnr in s.bookings && s.bookings[pnr].flightId !in s.flights ==> r == Err(NotFound(FlightNotFound))
    ensures r.Ok? <==> pnr in s.bookings && s.bookings[pnr].flightId in s.flights
    ensures r.Ok? ==> r.value == MapToTicketResponse(s.bookings[pnr], s.flights[s.bookings[pnr].flightId])
    ensures r.Ok? ==> r.value.pnr == pnr || !Valid(s)
  {
    if pnr !in s.bookings then Err(NotFound(BookingNotFound(pnr)))
    else
      var b := s.bookings[pnr];
      if b.flightId !in s.flights then Err(NotFound(FlightNotFound))
      else Ok(MapToTicketResponse(b, s.flights[b.flightId]))
  }

  // ---------------------------------------------------------------------------
  // The guards shared by cancelBooking and updateMealType

  datatype Action = CancelAction | UpdateMealAction

  function NotOwnerMessage(a: Action): string
  {
    match a
    case CancelAction => "You can cancel only your own bookings"
    case UpdateMealAction => "You can update only your own bookings"
  }

  function AlreadyCancelledMessage(a: Action): string
  {
    match a
    case CancelAction => "Ticket already cancelled"
    case UpdateMealAction => "Cannot update a cancelled booking"
  }

  function WindowClosedMessage(a: Action): string
  {
    match a
    case CancelAction => "Ticket can only be cancelled more than 24 hours before journey time"
    case UpdateMealAction => "Ticket can only be updated more than 24 hours before journey time"
  }

  /** Owner (ignoring case), then status, then the 24-hour window: the first
      that fails decides the error. */
  function Guard(b: Booking, email: string, now: LocalDateTime, a: Action): (e: Option<Error>)
    ensures e.None? <==>
              && EqualsIgnoreCase(b.userEmail, email)
              && b.status == Booked
              && EpochSecond(now) + 24 * SecondsPerHour <= EpochSecond(b.journeyDepartureDateTime)
    ensures !EqualsIgnoreCase(b.userEmail, email) ==> e == Some(Business(NotOwnerMessage(a)))
    ensures EqualsIgnoreCase(b.userEmail, email) && b.status == Cancelled ==>
              e == Some(Business(AlreadyCancelledMessage(a)))
    ensures EqualsIgnoreCase(b.userEmail, email) && b.status == Booked
            && WithinDayOfDeparture(b.journeyDepartureDateTime, now) ==>
              e == Some(Business(WindowClosedMessage(a)))
  {
    WithinDayOfDepartureEpoch(b.journeyDepartureDateTime, now);
    if !EqualsIgnoreCase(b.userEmail, email) then Some(Business(NotOwnerMessage(a)))
    else if b.status == Cancelled then Some(Business(AlreadyCancelledMessage(a)))
    else if WithinDayOfDeparture(b.journeyDepartureDateTime, now) then Some(Business(WindowClosedMessage(a)))
    else
      assert b.status == Booked;
      None
  }

  /** Cancellation and meal change are refused for exactly the same bookings. */
  lemma GuardsAgree(b: Booking, email: string, now: LocalDateTime)
    ensures Guard(b, email, now, CancelAction).None? <==> Guard(b, email, now, UpdateMealAction).None?
  {
  }

  // ---------------------------------------------------------------------------
  // cancelBooking

  function Cancel(s: Stores, pnr: string, email: string, now: LocalDateTime): (o: Step<()>)
    ensures pnr !in s.bookings ==> o.result == Err(NotFound(BookingNotFound(pnr)))
    ensures pnr in s.bookings && Guard(s.bookings[pnr], email, now, CancelAction).Some? ==>
              o.result == Err(Guard(s.bookings[pnr], email, now, CancelAction).value)
    ensures pnr in s.bookings && Guard(s.bookings[pnr], email, now, CancelAction).None?
              && s.bookings[pnr].flightId !in s.flights ==>
              o.result == Err(NotFound(FlightNotFound))
    ensures o.result.Ok? <==>
              && pnr in s.bookings
              && Guard(s.bookings[pnr], email, now, CancelAction).None?
              && s.bookings[pnr].flightId in s.flights
    // A cancelled booking can never be cancelled again.
    ensures pnr in s.bookings && s.bookings[pnr].status == Cancelled ==> o.result.Err?
    ensures o.result.Err? ==> o.after == s
    ensures o.result.Ok? ==>
              var b := s.bookings[pnr];
              var f := s.flights[b.flightId];
              && o.after.flights == s.flights[b.flightId := f.(availableSeats := f.availableSeats + b.numberOfSeats)]
              && o.after.bookings == s.bookings[pnr := b.(status := Cancelled, cancelledAt := Some(now))]
    ensures Valid(s) ==> Valid(o.after)
  {
    if pnr !in s.bookings then Step(Err(NotFound(BookingNotFound(pnr))), s)
    else
      var b := s.bookings[pnr];
      var g := Guard(b, email, now, CancelAction);
      if g.Some? then Step(Err(g.value), s)
      else
        var cancelled := b.(status := Cancelled, cancelledAt := Some(now));
        if cancelled.flightId !in s.flights then Step(Err(NotFound(FlightNotFound)), s)
        else
          var f := s.flights[cancelled.flightId];
          var released := f.(availableSeats := f.availableSeats + cancelled.numberOfSeats);
          Step(Ok(()), Stores(s.flights[cancelled.flightId := released], s.bookings[pnr := cancelled]))
  }

  /** The successful step written out, for callers that build it field by field. */
  lemma CancelSucceeds(s: Stores, pnr: string, email: string, now: LocalDateTime)
    requires pnr in s.bookings && Guard(s.bookings[pnr], email, now, CancelAction).None?
    requires s.bookings[pnr].flightId in s.flights
    ensures var b := s.bookings[pnr];
            var f := s.flights[b.flightId];
            Cancel(s, pnr, email, now)
            == Step(Ok(()), Stores(s.flights[b.flightId := f.(availableSeats := f.availableSeats + b.numberOfSeats)],
                                   s.bookings[pnr := b.(status := Cancelled, cancelledAt := Some(now))]))
  {
  }

  // ---------------------------------------------------------------------------
  // updateMealType

  function UpdateMeal(s: Stores, pnr: string, email: string, meal: MealType, now: LocalDateTime)
    : (o: Step<TicketResponse>)
    ensures pnr !in s.bookings ==> o.result == Err(NotFound(BookingNotFound(pnr)))
    ensures pnr in s.bookings && Guard(s.bookings[pnr], email, now, UpdateMealAction).Some? ==>
              o.result == Err(Guard(s.bookings[pnr], email, now, UpdateMealAction).value)
    ensures o.result.Ok? <==>
              && pnr in s.bookings
              && Guard(s.bookings[pnr], email, now, UpdateMealAction).None?
              && s.bookings[pnr].flightId in s.flights
    ensures pnr in s.bookings && Guard(s.bookings[pnr], email, now, UpdateMealAction).None?
              && s.bookings[pnr].flightId !in s.flights ==>
              o.result == Err(NotFound(FlightNotFound))
    ensures o.result.Err? ==> o.after == s
    // Only the meal changes: no flight, no seat count, no status.
    ensures o.after.flights == s.flights
    ensures o.result.Ok? ==>
              var b := s.bookings[pnr];
              && o.after.bookings == s.bookings[pnr := b.(mealType := meal)]
              && o.result.value == MapToTicketResponse(b.(mealType := meal), s.flights[b.flightId])
    ensures Valid(s) ==> Valid(o.after)
  {
    if pnr !in s.bookings then Step(Err(NotFound(BookingNotFound(pnr))), s)
    else
      var b := s.bookings[pnr];
      var g := Guard(b, email, now, UpdateMealAction);
      if g.Some? then Step(Err(g.value), s)
      else
        var updated := b.(mealType := meal);
        if updated.flightId !in s.flights then Step(Err(NotFound(FlightNotFound)), s)
        else
          Step(Ok(MapToTicketResponse(updated, s.flights[updated.flightId])),
               Stores(s.flights, s.bookings[pnr := updated]))
  }

  // ---------------------------------------------------------------------------
  // Counting held seats

  lemma {:induction false} HeldOverRemove(bs: map<string, Booking>, keys: set<string>, p: string, id: string)
    requires keys <= bs.Keys && p in keys
    ensures HeldOver(bs, keys, id) == Held(bs[p], id) + HeldOver(bs, keys - {p}, id)
    decreases keys
  {
    var q :| q in keys && HeldOver(bs, keys, id) == Held(bs[q], id) + HeldOver(bs, keys - {q}, id);
    if q != p {
      HeldOverRemove(bs, keys - {q}, p, id);
      HeldOverRemove(bs, keys - {p}, q, id);
      assert keys - {q} - {p} == keys - {p} - {q};
    }
  }

  /** Only the bookings under `keys` count. */
  lemma {:induction false} HeldOverAgree(bs: map<string, Booking>, bs': map<string, Booking>, keys: set<string>, id: string)
    requires keys <= bs.Keys && keys <= bs'.Keys
    requires forall p :: p in keys ==> Held(bs[p], id) == Held(bs'[p], id)
    ensures HeldOver(bs, keys, id) == HeldOver(bs', keys, id)
    decreases keys
  {
    if keys != {} {
      var p :| p in keys && HeldOver(bs, keys, id) == Held(bs[p], id) + HeldOver(bs, keys - {p}, id);
      HeldOverRemove(bs', keys, p, id);
      HeldOverAgree(bs, bs', keys - {p}, id);
    }
  }

  /** Storing booking `b` under `p`: it adds its own seats and takes away those
      of the booking it replaces. */
  lemma SeatsHeldPut(bs: map<string, Booking>, p: string, b: Booking, id: string)
    ensures p !in bs ==> SeatsHeld(bs[p := b], id) == SeatsHeld(bs, id) + Held(b, id)
    ensures p in bs ==> SeatsHeld(bs[p := b], id) == SeatsHeld(bs, id) - Held(bs[p], id) + Held(b, id)
  {
    var bs' := bs[p := b];
    HeldOverRemove(bs', bs'.Keys, p, id);
    HeldOverAgree(bs, bs', bs.Keys - {p}, id);
    if p in bs {
      HeldOverRemove(bs, bs.Keys, p, id);
    } else {
      assert bs'.Keys - {p} == bs.Keys;
    }
    assert bs'.Keys - {p} == bs.Keys - {p};
  }

  lemma {:induction false} HeldOverNonNegative(bs: map<string, Booking>, keys: set<string>, id: string)
    requires keys <= bs.Keys
    requires forall p :: p in bs ==> bs[p].numberOfSeats >= 0
    ensures HeldOver(bs, keys, id) >= 0
    decreases keys
  {
    if keys != {} {
      var p :| p in keys;
      HeldOverRemove(bs, keys, p, id);
      HeldOverNonNegative(bs, keys - {p}, id);
    }
  }

  lemma {:induction false} HeldOverUnreferenced(bs: map<string, Booking>, keys: set<string>, id: string)
    requires keys <= bs.Keys
    requires forall p :: p in bs ==> bs[p].flightId != id
    ensures HeldOver(bs, keys, id) == 0
    decreases keys
  {
    if keys != {} {
      var p :| p in keys;
      HeldOverRemove(bs, keys, p, id);
      HeldOverUnreferenced(bs, keys - {p}, id);
    }
  }

  // ---------------------------------------------------------------------------
  // Conservation is kept by every operation

  /** On a consistent store no flight is overbooked or over-released. */
  lemma SeatsWithinCapacity(s: Stores, id: string)
    requires Valid(s) && Conserved(s) && id in s.flights
    ensures 0 <= s.flights[id].availableSeats <= s.flights[id].totalSeats
  {
    HeldOverNonNegative(s.bookings, s.bookings.Keys, id);
  }

  lemma AddInventoryConserves(s: Stores, newId: string, req: InventoryRequest)
    requires Valid(s) && Conserved(s)
    requires newId !in s.flights && req.totalSeats >= 0
    ensures Conserved(AddInventory(s, newId, req))
  {
    HeldOverUnreferenced(s.bookings, s.bookings.Keys, newId);
  }

  /** Booking under a PNR not yet in use keeps conservation. */
  lemma BookConserves(s: Stores, flightId: string, req: BookingRequest, pnr: string, now: LocalDateTime)
    requires Valid(s) && Conserved(s)
    requires pnr !in s.bookings
    ensures Conserved(Book(s, flightId, req, pnr, now).after)
  {
    var o := Book(s, flightId, req, pnr, now);
    if o.result.Ok? {
      var b := o.after.bookings[pnr];
      forall id | id in o.after.flights
        ensures o.after.flights[id].availableSeats + SeatsHeld(o.after.bookings, id) == o.after.flights[id].totalSeats
      {
        SeatsHeldPut(s.bookings, pnr, b, id);
      }
    }
  }

  lemma CancelConserves(s: Stores, pnr: string, email: string, now: LocalDateTime)
    requires Valid(s) && Conserved(s)
    ensures Conserved(Cancel(s, pnr, email, now).after)
  {
    var o := Cancel(s, pnr, email, now);
    if o.result.Ok? {
      var b := o.after.bookings[pnr];
      forall id | id in o.after.flights
        ensures o.after.flights[id].availableSeats + SeatsHeld(o.after.bookings, id) == o.after.flights[id].totalSeats
      {
        SeatsHeldPut(s.bookings, pnr, b, id);
      }
    }
  }

  lemma UpdateMealConserves(s: Stores, pnr: string, email: string, meal: MealType, now: LocalDateTime)
    requires Valid(s) && Conserved(s)
    ensures Conserved(UpdateMeal(s, pnr, email, meal, now).after)
  {
    var o := UpdateMeal(s, pnr, email, meal, now);
    if o.result.Ok? {
      var b := o.after.bookings[pnr];
      forall id | id in o.after.flights
        ensures SeatsHeld(o.after.bookings, id) == SeatsHeld(s.bookings, id)
      {
        SeatsHeldPut(s.bookings, pnr, b, id);
      }
    }
  }

  // ---------------------------------------------------------------------------
  // Relations between calls

  /** Booking and then cancelling the new booking, by the same traveller at
      least 24 hours before departure, gives every flight back exactly as it
      was. */
  lemma BookThenCancelRestoresFlights(
    s: Stores, flightId: string, req: BookingRequest, pnr: string, now: LocalDateTime, later: LocalDateTime)
    requires Valid(s)
    requires Book(s, flightId, req, pnr, now).result.Ok?
    requires EpochSecond(later) + 24 * SecondsPerHour
             <= EpochDay(s.flights[flightId].departureDate) * SecondsPerDay + s.flights[flightId].departureTime
    ensures Cancel(Book(s, flightId, req, pnr, now).after, pnr, req.userEmail, later).result.Ok?
    ensures Cancel(Book(s, flightId, req, pnr, now).after, pnr, req.userEmail, later).after.flights == s.flights
  {
    var s1 := Book(s, flightId, req, pnr, now).after;
    EqualsIgnoreCaseReflexive(req.userEmail);
    assert s1.bookings[pnr].flightId == flightId;
    var f := s.flights[flightId];
    assert s1.flights[flightId].(availableSeats := f.availableSeats) == f;
  }

  /** The ticket bookTicket returns is the one getTicketByPnr then finds. */
  lemma BookThenTicket(s: Stores, flightId: string, req: BookingRequest, pnr: string, now: LocalDateTime)
    requires Valid(s)
    requires Book(s, flightId, req, pnr, now).result.Ok?
    ensures TicketByPnr(Book(s, flightId, req, pnr, now).after, pnr) == Book(s, flightId, req, pnr, now).result
  {
    var o := Book(s, flightId, req, pnr, now);
    assert o.after.bookings[pnr].flightId == flightId;
  }

  /** Once cancelled, a booking stays cancelled: any further cancellation
      fails, with "Ticket already cancelled" for its owner. */
  lemma CancelTwiceFails(s: Stores, pnr: string, email: string, now: LocalDateTime,
                         email2: string, now2: LocalDateTime)
    requires Cancel(s, pnr, email, now).result.Ok?
    ensures var s1 := Cancel(s, pnr, email, now).after;
            && Cancel(s1, pnr, email2, now2).result.Err?
            && Cancel(s1, pnr, email2, now2).after == s1
            && (EqualsIgnoreCase(s.bookings[pnr].userEmail, email2) ==>
                  Cancel(s1, pnr, email2, now2).result == Err(Business(AlreadyCancelledMessage(CancelAction))))
  {
  }
}
