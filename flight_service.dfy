/** service/FlightService.java: adding inventory and searching flights. */
module FlightServices {
  import opened Outcome
  import opened Clock
  import opened Flights
  import opened Repositories
  import Lifecycle

  /** dto/FlightSearchRequest.java. */
  datatype FlightSearchRequest = FlightSearchRequest(
    fromPlace: string, toPlace: string, travelDate: LocalDate, tripType: string)

  /** dto/FlightSearchResponse.java. */
  datatype FlightSearchResponse = FlightSearchResponse(
    flightId: string,
    airlineName: string,
    airlineLogoUrl: string,
    fromPlace: string,
    toPlace: string,
    departureDate: LocalDate,
    departureTime: LocalTime,
    arrivalTime: LocalTime,
    oneWayPrice: Price,
    roundTripPrice: Option<Price>,
    roundTripAvailable: bool,
    availableSeats: int)

  /** mapToSearchResponse: every field of the flight but its total seats. */
  function MapToSearchResponse(f: FlightRecord): FlightSearchResponse
  {
    FlightSearchResponse(f.id, f.airlineName, f.airlineLogoUrl, f.fromPlace, f.toPlace,
                         f.departureDate, f.departureTime, f.arrivalTime,
                         f.oneWayPrice, f.roundTripPrice, f.roundTripAvailable, f.availableSeats)
  }

  class FlightService {
    const store: Store

    constructor (store: Store)
      ensures this.store == store
    {
      this.store := store;
    }

    /** addInventory: a new Flight gets every request field through its
        setters, with availableSeats set to totalSeats; saving it gives it the
        id `newId` the store generates. */
    method AddInventory(request: InventoryRequest, newId: string) returns (flight: Flight)
      requires store.Valid()
      requires newId !in store.flights
      modifies store
      ensures fresh(flight)
      ensures flight.Record() == Lifecycle.NewFlight(newId, request)
      ensures store.State() == Lifecycle.AddInventory(old(store.State()), newId, request)
      ensures store.Valid()
      ensures old(store.Conserved()) && request.totalSeats >= 0 ==> store.Conserved()
    {
      ghost var before := store.State();
      flight := new Flight();
      flight.SetAirlineName(request.airlineName);
      flight.SetAirlineLogoUrl(request.airlineLogoUrl);
      flight.SetFromPlace(request.fromPlace);
      flight.SetToPlace(request.toPlace);
      flight.SetDepartureDate(request.departureDate);
      flight.SetDepartureTime(request.departureTime);
      flight.SetArrivalTime(request.arrivalTime);
      flight.SetOneWayPrice(request.oneWayPrice);
      flight.SetRoundTripPrice(request.roundTripPrice);
      flight.SetRoundTripAvailable(request.roundTripAvailable);
      flight.SetTotalSeats(request.totalSeats);
      flight.SetAvailableSeats(request.totalSeats);
      flight.SetId(newId);
      store.SaveFlight(flight);
      if Lifecycle.Conserved(before) && request.totalSeats >= 0 {
        Lifecycle.AddInventoryConserves(before, newId, request);
      }
    }

    /** searchFlights: one response per flight on the route and date, and
        nothing else; the trip type is never consulted and the store is
        only read. */
    method SearchFlights(request: FlightSearchRequest) returns (r: seq<FlightSearchResponse>)
      requires store.Valid()
      ensures forall x :: x in r ==>
                && x.flightId in store.flights
                && RouteMatches(store.flights[x.flightId], request.fromPlace, request.toPlace, request.travelDate)
                && x == MapToSearchResponse(store.flights[x.flightId])
      ensures forall id ::
                id in store.flights && RouteMatches(store.flights[id], request.fromPlace, request.toPlace, request.travelDate) ==>
                MapToSearchResponse(store.flights[id]) in r
      ensures forall i, j :: 0 <= i < j < |r| ==> r[i].flightId != r[j].flightId
    {
      var fs := store.FindByRouteAndDate(request.fromPlace, request.toPlace, request.travelDate);
      r := seq(|fs|, i requires 0 <= i < |fs| => MapToSearchResponse(fs[i]));
      forall x | x in r
        ensures x.flightId in store.flights && x == MapToSearchResponse(store.flights[x.flightId])
      {
        var i :| 0 <= i < |r| && r[i] == x;
        assert fs[i] in fs;
      }
      forall id | id in store.flights && RouteMatches(store.flights[id], request.fromPlace, request.toPlace, request.travelDate)
        ensures MapToSearchResponse(store.flights[id]) in r
      {
        var i :| 0 <= i < |fs| && fs[i] == store.flights[id];
        assert r[i] == MapToSearchResponse(store.flights[id]);
      }
    }
  }
}
