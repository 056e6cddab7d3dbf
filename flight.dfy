/** The flight record (model/Flight.java): a mutable object whose setters
    each overwrite one field, and the value it is stored as. */
module Flights {
  import opened Outcome
  import opened Clock

  /** A BigDecimal, carried without arithmetic: unscaled value and scale. */
  datatype Price = Price(unscaled: int, scale: int)

  /** The stored form of a flight: every field of Flight.java. */
  datatype FlightRecord = FlightRecord(
    id: string,
    airlineName: string,
    airlineLogoUrl: string,
    fromPlace: string,
    toPlace: string,
    departureDate: LocalDate,
    departureTime: LocalTime,
    arrivalTime: LocalTime,
    roundTripAvailable: bool,
    oneWayPrice: Price,
    roundTripPrice: Option<Price>,
    totalSeats: int,
    availableSeats: int)

  /** The request body of addInventory (dto/InventoryRequest.java). */
  datatype InventoryRequest = InventoryRequest(
    airlineName: string,
    airlineLogoUrl: string,
    fromPlace: string,
    toPlace: string,
    departureDate: LocalDate,
    departureTime: LocalTime,
    arrivalTime: LocalTime,
    oneWayPrice: Price,
    roundTripPrice: Option<Price>,
    roundTripAvailable: bool,
    totalSeats: int)

  /** The field values of `new Flight()` before any setter runs. Java leaves
      references null and numbers zero; the model uses fixed placeholders. */
  const Blank := FlightRecord("", "", "", "", "", Date(1970, 1, 1), 0, 0,
                              false, Price(0, 0), None, 0, 0)

  class Flight {
    var id: string
    var airlineName: string
    var airlineLogoUrl: string
    var fromPlace: string
    var toPlace: string
    var departureDate: LocalDate
    var departureTime: LocalTime
    var arrivalTime: LocalTime
    var roundTripAvailable: bool
    var oneWayPrice: Price
    var roundTripPrice: Option<Price>
    var totalSeats: int
    var availableSeats: int

    /** All fields at once. Nothing ties totalSeats and availableSeats
        together here: the record accepts any pair of values. */
    function Record(): FlightRecord
      reads this
    {
      FlightRecord(id, airlineName, airlineLogoUrl, fromPlace, toPlace,
                   departureDate, departureTime, arrivalTime, roundTripAvailable,
                   oneWayPrice, roundTripPrice, totalSeats, availableSeats)
    }

    constructor ()
      ensures Record() == Blank
    {
      id, airlineName, airlineLogoUrl, fromPlace, toPlace := "", "", "", "", "";
      departureDate, departureTime, arrivalTime := Date(1970, 1, 1), 0, 0;
      roundTripAvailable, oneWayPrice, roundTripPrice := false, Price(0, 0), None;
      totalSeats, availableSeats := 0, 0;
    }

    /** The object the store hands out for a stored document. */
    constructor FromRecord(r: FlightRecord)
      ensures Record() == r
    {
      id, airlineName, airlineLogoUrl, fromPlace, toPlace :=
        r.id, r.airlineName, r.airlineLogoUrl, r.fromPlace, r.toPlace;
      departureDate, departureTime, arrivalTime := r.departureDate, r.departureTime, r.arrivalTime;
      roundTripAvailable, oneWayPrice, roundTripPrice := r.roundTripAvailable, r.oneWayPrice, r.roundTripPrice;
      totalSeats, availableSeats := r.totalSeats, r.availableSeats;
    }

    function GetId(): string reads this { id }
    function GetAirlineName(): string reads this { airlineName }
    function GetAirlineLogoUrl(): string reads this { airlineLogoUrl }
    function GetFromPlace(): string reads this { fromPlace }
    function GetToPlace(): string reads this { toPlace }
    function GetDepartureDate(): LocalDate reads this { departureDate }
    function GetDepartureTime(): LocalTime reads this { departureTime }
    function GetArrivalTime(): LocalTime reads this { arrivalTime }
    function IsRoundTripAvailable(): bool reads this { roundTripAvailable }
    function GetOneWayPrice(): Price reads this { oneWayPrice }
    function GetRoundTripPrice(): Option<Price> reads this { roundTripPrice }
    function GetTotalSeats(): int reads this { totalSeats }
    function GetAvailableSeats(): int reads this { availableSeats }

    // Each setter: its getter now returns the new value, and every other field is as before.

    method SetId(v: string)
      modifies this
      ensures GetId() == v
      ensures Record() == old(Record()).(id := v)
    {
      id := v;
    }

    method SetAirlineName(v: string)
      modifies this
      ensures GetAirlineName() == v
      ensures Record() == old(Record()).(airlineName := v)
    {
      airlineName := v;
    }

    method SetAirlineLogoUrl(v: string)
      modifies this
      ensures GetAirlineLogoUrl() == v
      ensures Record() == old(Record()).(airlineLogoUrl := v)
    {
      airlineLogoUrl := v;
    }

    method SetFromPlace(v: string)
      modifies this
      ensures GetFromPlace() == v
      ensures Record() == old(Record()).(fromPlace := v)
    {
      fromPlace := v;
    }

    method SetToPlace(v: string)
      modifies this
      ensures GetToPlace() == v
      ensures Record() == old(Record()).(toPlace := v)
    {
      toPlace := v;
    }

    method SetDepartureDate(v: LocalDate)
      modifies this
      ensures GetDepartureDate() == v
      ensures Record() == old(Record()).(departureDate := v)
    {
      departureDate := v;
    }

    method SetDepartureTime(v: LocalTime)
      modifies this
      ensures GetDepartureTime() == v
      ensures Record() == old(Record()).(departureTime := v)
    {
      departureTime := v;
    }

    method SetArrivalTime(v: LocalTime)
      modifies this
      ensures GetArrivalTime() == v
      ensures Record() == old(Record()).(arrivalTime := v)
    {
      arrivalTime := v;
    }

    method SetRoundTripAvailable(v: bool)
      modifies this
      ensures IsRoundTripAvailable() == v
      ensures Record() == old(Record()).(roundTripAvailable := v)
    {
      roundTripAvailable := v;
    }

    method SetOneWayPrice(v: Price)
      modifies this
      ensures GetOneWayPrice() == v
      ensures Record() == old(Record()).(oneWayPrice := v)
    {
      oneWayPrice := v;
    }

    method SetRoundTripPrice(v: Option<Price>)
      modifies this
      ensures GetRoundTripPrice() == v
      ensures Record() == old(Record()).(roundTripPrice := v)
    {
      roundTripPrice := v;
    }

    method SetTotalSeats(v: int)
      modifies this
      ensures GetTotalSeats() == v
      ensures GetAvailableSeats() == old(GetAvailableSeats())
      ensures Record() == old(Record()).(totalSeats := v)
    {
      totalSeats := v;
    }

    method SetAvailableSeats(v: int)
      modifies this
      ensures GetAvailableSeats() == v
      ensures GetTotalSeats() == old(GetTotalSeats())
      ensures Record() == old(Record()).(availableSeats := v)
    {
      availableSeats := v;
    }
  }
}
