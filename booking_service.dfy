/** service/BookingService.java: booking, looking up, listing, cancelling
    and changing the meal of tickets. Each method reads and writes through the
    store, mutating looked-up Flight objects through their setters, and is
    proved to compute the matching step function of Lifecycle. */
module BookingServices {
  import opened Outcome
  import opened Clock
  import opened Ascii
  import opened Flights
  import opened Bookings
  import opened Repositories
  import opened PnrGeneration
  import Lifecycle

  /** The flatMap over the history query: each booking joined with its
      flight, and bookings whose flight is missing dropped without an error. */
  function HistoryOf(bs: seq<Booking>, flights: map<string, FlightRecord>): (r: seq<TicketResponse>)
    ensures |r| <= |bs|
    ensures forall t :: t in r ==> exists b :: b in bs && b.flightId in flights && t == MapToTicketResponse(b, flights[b.flightId])
    ensures forall b :: b in bs && b.flightId in flights ==> MapToTicketResponse(b, flights[b.flightId]) in r
  {
    if bs == [] then []
    else
      var rest := HistoryOf(bs[1..], flights);
      assert forall b :: b in bs[1..] ==> b in bs;
      assert forall b :: b in bs ==> b == bs[0] || b in bs[1..];
      if bs[0].flightId in flights then [MapToTicketResponse(bs[0], flights[bs[0].flightId])] + rest
      else rest
  }

  predicate TicketsNewestFirst(r: seq<TicketResponse>)
  {
    forall i, j :: 0 <= i < j < |r| ==> EpochSecond(r[j].bookedAt) <= EpochSecond(r[i].bookedAt)
  }

  predicate DistinctTicketPnrs(r: seq<TicketResponse>)
  {
    forall i, j :: 0 <= i < j < |r| ==> r[i].pnr != r[j].pnr
  }

  /** Every ticket of the history comes from a later booking of `bs`. */
  lemma HistoryFromTail(bs: seq<Booking>, flights: map<string, FlightRecord>, j: int) returns (k: int)
    requires bs != [] && 0 <= j < |HistoryOf(bs[1..], flights)|
    ensures 1 <= k < |bs|
    ensures HistoryOf(bs[1..], flights)[j].pnr == bs[k].pnr
    ensures HistoryOf(bs[1..], flights)[j].bookedAt == bs[k].bookedAt
  {
    var t := HistoryOf(bs[1..], flights)[j];
    assert t in HistoryOf(bs[1..], flights);
    var b :| b in bs[1..] && b.flightId in flights && t == MapToTicketResponse(b, flights[b.flightId]);
    var i :| 0 <= i < |bs[1..]| && bs[1..][i] == b;
    assert bs[i + 1] == b;
    k := i + 1;
  }

  lemma ConsNewestFirst(t: TicketResponse, rest: seq<TicketResponse>)
    requires TicketsNewestFirst(rest)
    requires forall j :: 0 <= j < |rest| ==> EpochSecond(rest[j].bookedAt) <= EpochSecond(t.bookedAt)
    ensures TicketsNewestFirst([t] + rest)
  {
    var r := [t] + rest;
    assert forall j :: 1 <= j < |r| ==> r[j] == rest[j - 1];
  }

  lemma ConsDistinct(t: TicketResponse, rest: seq<TicketResponse>)
    requires DistinctTicketPnrs(rest)
    requires forall j :: 0 <= j < |rest| ==> rest[j].pnr != t.pnr
    ensures DistinctTicketPnrs([t] + rest)
  {
    var r := [t] + rest;
    assert forall j :: 1 <= j < |r| ==> r[j] == rest[j - 1];
  }

  lemma {:induction false} HistoryKeepsOrder(bs: seq<Booking>, flights: map<string, FlightRecord>)
    requires NewestFirst(bs)
    ensures TicketsNewestFirst(HistoryOf(bs, flights))
  {
    if bs != [] {
      assert NewestFirst(bs[1..]) by {
        assert forall i :: 0 <= i < |bs[1..]| ==> bs[1..][i] == bs[i + 1];
      }
      HistoryKeepsOrder(bs[1..], flights);
      var rest := HistoryOf(bs[1..], flights);
      if bs[0].flightId in flights {
        var t := MapToTicketResponse(bs[0], flights[bs[0].flightId]);
        forall j | 0 <= j < |rest| ensures EpochSecond(rest[j].bookedAt) <= EpochSecond(t.bookedAt) {
          var k := HistoryFromTail(bs, flights, j);
        }
        ConsNewestFirst(t, rest);
      }
    }
  }

  lemma {:induction false} HistoryKeepsDistinct(bs: seq<Booking>, flights: map<string, FlightRecord>)
    requires DistinctPnrs(bs)
    ensures DistinctTicketPnrs(HistoryOf(bs, flights))
  {
    if bs != [] {
      assert DistinctPnrs(bs[1..]) by {
        assert forall i :: 0 <= i < |bs[1..]| ==> bs[1..][i] == bs[i + 1];
      }
      HistoryKeepsDistinct(bs[1..], flights);
      var rest := HistoryOf(bs[1..], flights);
      if bs[0].flightId in flights {
        var t := MapToTicketResponse(bs[0], flights[bs[0].flightId]);
        forall j | 0 <= j < |rest| ensures rest[j].pnr != t.pnr {
          var k := HistoryFromTail(bs, flights, j);
        }
        ConsDistinct(t, rest);
      }
    }
  }

  class BookingService {
    const store: Store

    constructor (store: Store)
      ensures this.store == store
    {
      this.store := store;
    }

    /** bookTicket. The PNR comes from PnrGenerator with the given UUID string
        and clock reading. */
    method BookTicket(flightId: string, request: BookingRequest, uuid: string, now: LocalDateTime)
      returns (r: Result<TicketResponse>)
      requires store.Valid()
      requires |RemoveAll(uuid, '-')| >= RandomPartLength
      modifies store
      ensures var o := Lifecycle.Book(old(store.State()), flightId, request, GeneratePnr(uuid, now), now);
              r == o.result && store.State() == o.after
      ensures store.Valid()
      ensures old(store.Conserved()) && GeneratePnr(uuid, now) !in old(store.bookings) ==> store.Conserved()
    {
      ghost var before := store.State();
      ghost var pnr := GeneratePnr(uuid, now);
      if request.passengers.None? || request.seatNumbers.None? {
        return Err(Business(PassengersRequired));
      }
      var requested := request.numberOfSeats;
      var passengerCount := |request.passengers.value|;
      var seatCount := |request.seatNumbers.value|;
      if requested != passengerCount || requested != seatCount {
        return Err(Business(CountsMustMatch));
      }
      var flight := store.FindFlightById(flightId);
      if flight == null {
        return Err(NotFound(Lifecycle.FlightNotFoundWithId(flightId)));
      }
      if flight.GetAvailableSeats() < request.numberOfSeats {
        return Err(Business(Lifecycle.NotEnoughSeats));
      }
      var updatedSeats := flight.GetAvailableSeats() - request.numberOfSeats;
      flight.SetAvailableSeats(updatedSeats);
      store.SaveFlight(flight);
      var saved := flight.Record();
      var booking := Booking(
        GeneratePnr(uuid, now), saved.id, request.userName, request.userEmail,
        request.numberOfSeats, request.passengers.value, request.seatNumbers.value,
        request.mealType, Booked, now, None,
        saved.departureDate, Of(saved.departureDate, saved.departureTime));
      assert saved == before.flights[flightId].(availableSeats := updatedSeats);
      assert booking == Lifecycle.NewBooking(pnr, saved, request, now);
      store.SaveBooking(booking);
      r := Ok(MapToTicketResponse(booking, saved));
      Lifecycle.BookSucceeds(before, flightId, request, pnr, now, saved);
      if Lifecycle.Conserved(before) && pnr !in before.bookings {
        Lifecycle.BookConserves(before, flightId, request, pnr, now);
      }
    }

    /** getTicketByPnr: read-only. */
    method GetTicketByPnr(pnr: string) returns (r: Result<TicketResponse>)
      ensures r == Lifecycle.TicketByPnr(store.State(), pnr)
    {
      var found := store.FindBookingByPnr(pnr);
      if found.None? {
        return Err(NotFound(Lifecycle.BookingNotFound(pnr)));
      }
      var booking := found.value;
      var flight := store.FindFlightById(booking.flightId);
      if flight == null {
        return Err(NotFound(Lifecycle.FlightNotFound));
      }
      r := Ok(MapToTicketResponse(booking, flight.Record()));
    }

    /** getBookingHistory: the tickets of exactly the bookings made with this
        email whose flight is stored, each once, most recent first. */
    method GetBookingHistory(email: string) returns (r: seq<TicketResponse>)
      requires store.Valid()
      ensures forall t :: t in r ==>
                && t.pnr in store.bookings
                && store.bookings[t.pnr].userEmail == email
                && store.bookings[t.pnr].flightId in store.flights
                && t == MapToTicketResponse(store.bookings[t.pnr], store.flights[store.bookings[t.pnr].flightId])
      ensures forall p ::
                p in store.bookings && store.bookings[p].userEmail == email
                && store.bookings[p].flightId in store.flights ==>
                MapToTicketResponse(store.bookings[p], store.flights[store.bookings[p].flightId]) in r
      ensures DistinctTicketPnrs(r)
      ensures TicketsNewestFirst(r)
    {
      var bs := store.FindByUserEmailOrderByBookedAtDesc(email);
      r := HistoryOf(bs, store.flights);
      HistoryKeepsOrder(bs, store.flights);
      HistoryKeepsDistinct(bs, store.flights);
    }

    /** cancelBooking: owner, status and 24-hour checks, then the booking is
        marked cancelled and its seats go back to the flight. */
    method CancelBooking(pnr: string, loggedInEmail: string, now: LocalDateTime) returns (r: Result<()>)
      requires store.Valid()
      modifies store
      ensures var o := Lifecycle.Cancel(old(store.State()), pnr, loggedInEmail, now);
              r == o.result && store.State() == o.after
      ensures store.Valid()
      ensures old(store.Conserved()) ==> store.Conserved()
    {
      ghost var before := store.State();
      var found := store.FindBookingByPnr(pnr);
      if found.None? {
        return Err(NotFound(Lifecycle.BookingNotFound(pnr)));
      }
      var booking := found.value;
      if !EqualsIgnoreCase(booking.userEmail, loggedInEmail) {
        return Err(Business(Lifecycle.NotOwnerMessage(Lifecycle.CancelAction)));
      }
      if booking.status == Cancelled {
        return Err(Business(Lifecycle.AlreadyCancelledMessage(Lifecycle.CancelAction)));
      }
      if WithinDayOfDeparture(booking.journeyDepartureDateTime, now) {
        return Err(Business(Lifecycle.WindowClosedMessage(Lifecycle.CancelAction)));
      }
      booking := booking.(status := Cancelled, cancelledAt := Some(now));
      var flight := store.FindFlightById(booking.flightId);
      if flight == null {
        return Err(NotFound(Lifecycle.FlightNotFound));
      }
      var freedSeats := booking.numberOfSeats;
      flight.SetAvailableSeats(flight.GetAvailableSeats() + freedSeats);
      store.SaveFlight(flight);
      store.SaveBooking(booking);
      r := Ok(());
      Lifecycle.CancelSucceeds(before, pnr, loggedInEmail, now);
      if Lifecycle.Conserved(before) {
        Lifecycle.CancelConserves(before, pnr, loggedInEmail, now);
      }
    }

    /** updateMealType: the same three checks, then only the meal changes. */
    method UpdateMealType(pnr: string, loggedInEmail: string, newMealType: MealType, now: LocalDateTime)
      returns (r: Result<TicketResponse>)
      requires store.Valid()
      modifies store
      ensures var o := Lifecycle.UpdateMeal(old(store.State()), pnr, loggedInEmail, newMealType, now);
              r == o.result && store.State() == o.after
      ensures store.Valid()
      ensures old(store.Conserved()) ==> store.Conserved()
    {
      ghost var before := store.State();
      var found := store.FindBookingByPnr(pnr);
      if found.None? {
        return Err(NotFound(Lifecycle.BookingNotFound(pnr)));
      }
      var booking := found.value;
      if !EqualsIgnoreCase(booking.userEmail, loggedInEmail) {
        return Err(Business(Lifecycle.NotOwnerMessage(Lifecycle.UpdateMealAction)));
      }
      if booking.status == Cancelled {
        return Err(Business(Lifecycle.AlreadyCancelledMessage(Lifecycle.UpdateMealAction)));
      }
      if WithinDayOfDeparture(booking.journeyDepartureDateTime, now) {
        return Err(Business(Lifecycle.WindowClosedMessage(Lifecycle.UpdateMealAction)));
      }
      booking := booking.(mealType := newMealType);
      var flight := store.FindFlightById(booking.flightId);
      if flight == null {
        return Err(NotFound(Lifecycle.FlightNotFound));
      }
      store.SaveBooking(booking);
      r := Ok(MapToTicketResponse(booking, flight.Record()));
      if Lifecycle.Conserved(before) {
        Lifecycle.UpdateMealConserves(before, pnr, loggedInEmail, newMealType, now);
      }
    }
  }
}
