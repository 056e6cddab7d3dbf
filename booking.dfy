/** The booking document, the booking request and the ticket view the
    booking service returns. Booking.java and TicketResponse.java are not part
    of this model; their fields are those the service sets
    (service/BookingService.java, bookTicket and mapToTicketResponse). */
module Bookings {
  import opened Outcome
  import opened Clock
  import opened Flights

  /** The enum constants of Gender and MealType are not part of this model. */
  datatype Gender = Gender(name: string)
  datatype MealType = MealType(name: string)

  datatype Passenger = Passenger(name: string, gender: Gender, age: int)

  datatype BookingStatus = Booked | Cancelled

  datatype Booking = Booking(
    pnr: string,
    flightId: string,
    userName: string,
    userEmail: string,
    numberOfSeats: int,
    passengers: seq<Passenger>,
    seatNumbers: seq<string>,
    mealType: MealType,
    status: BookingStatus,
    bookedAt: LocalDateTime,
    cancelledAt: Option<LocalDateTime>,
    journeyDate: LocalDate,
    journeyDepartureDateTime: LocalDateTime)

  /** dto/BookingRequest.java; a null list is None. */
  datatype BookingRequest = BookingRequest(
    userName: string,
    userEmail: string,
    numberOfSeats: int,
    passengers: Option<seq<Passenger>>,
    seatNumbers: Option<seq<string>>,
    mealType: MealType)

  /** What the bean-validation annotations of BookingRequest admit: at least
      one seat, and both lists present and non-empty. */
  predicate PassesAnnotations(req: BookingRequest)
  {
    && req.numberOfSeats >= 1
    && req.passengers.Some? && |req.passengers.value| > 0
    && req.seatNumbers.Some? && |req.seatNumbers.value| > 0
  }

  const PassengersRequired := "Passengers and seat numbers are required"
  const CountsMustMatch := "Number of seats must match passengers count and seat numbers count"

  /** The request checks bookTicket runs before it reads anything: both lists
      present, and the seat count equal to the size of each. */
  function CheckRequest(req: BookingRequest): (e: Option<Error>)
    ensures e.None? <==>
              && req.passengers.Some? && req.seatNumbers.Some?
              && req.numberOfSeats == |req.passengers.value| == |req.seatNumbers.value|
    ensures e.None? ==> req.numberOfSeats >= 0
    ensures req.passengers.None? || req.seatNumbers.None? ==> e == Some(Business(PassengersRequired))
    ensures req.passengers.Some? && req.seatNumbers.Some? && e.Some? ==> e == Some(Business(CountsMustMatch))
  {
    if req.passengers.None? || req.seatNumbers.None? then Some(Business(PassengersRequired))
    else if req.numberOfSeats != |req.passengers.value| || req.numberOfSeats != |req.seatNumbers.value|
    then Some(Business(CountsMustMatch))
    else None
  }

  /** A request the annotations admit never fails the null check; it can
      still fail the count check. */
  lemma AnnotatedRequestHasLists(req: BookingRequest)
    requires PassesAnnotations(req)
    ensures CheckRequest(req) != Some(Business(PassengersRequired))
    ensures CheckRequest(req).None? <==>
              req.numberOfSeats == |req.passengers.value| == |req.seatNumbers.value|
  {
  }

  datatype TicketResponse = TicketResponse(
    pnr: string,
    flightId: string,
    airlineName: string,
    airlineLogoUrl: string,
    fromPlace: string,
    toPlace: string,
    departureDate: LocalDate,
    departureTime: LocalTime,
    arrivalTime: LocalTime,
    userName: string,
    userEmail: string,
    numberOfSeats: int,
    passengers: seq<Passenger>,
    seatNumbers: seq<string>,
    mealType: MealType,
    status: BookingStatus,
    bookedAt: LocalDateTime,
    cancelledAt: Option<LocalDateTime>)

  /** mapToTicketResponse: the booking's own fields joined with the flight's
      identity, route and times. */
  function MapToTicketResponse(b: Booking, f: FlightRecord): TicketResponse
  {
    TicketResponse(b.pnr, f.id, f.airlineName, f.airlineLogoUrl, f.fromPlace, f.toPlace,
                   f.departureDate, f.departureTime, f.arrivalTime,
                   b.userName, b.userEmail, b.numberOfSeats, b.passengers, b.seatNumbers,
                   b.mealType, b.status, b.bookedAt, b.cancelledAt)
  }
}
