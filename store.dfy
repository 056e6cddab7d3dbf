/** The two Mongo repositories as one in-memory store: flights by id and
    bookings by PNR. Documents are values; looking a flight up hands out a
    fresh Flight object, and saving writes the object's fields back. The
    derived queries are specified by what they return. */
module Repositories {
  import opened Outcome
  import opened Clock
  import opened Ascii
  import opened Flights
  import opened Bookings
  import Lifecycle

  /** findByFromPlaceIgnoreCaseAndToPlaceIgnoreCaseAndDepartureDate: both
      places equal ignoring case, and the same departure date. */
  predicate RouteMatches(f: FlightRecord, fromPlace: string, toPlace: string, date: LocalDate)
  {
    EqualsIgnoreCase(f.fromPlace, fromPlace) && EqualsIgnoreCase(f.toPlace, toPlace) && f.departureDate == date
  }

  predicate DistinctIds(fs: seq<FlightRecord>)
  {
    forall i, j :: 0 <= i < j < |fs| ==> fs[i].id != fs[j].id
  }

  predicate DistinctPnrs(bs: seq<Booking>)
  {
    forall i, j :: 0 <= i < j < |bs| ==> bs[i].pnr != bs[j].pnr
  }

  /** Ordered by bookedAt, most recent first. */
  predicate NewestFirst(bs: seq<Booking>)
  {
    forall i, j :: 0 <= i < j < |bs| ==> EpochSecond(bs[j].bookedAt) <= EpochSecond(bs[i].bookedAt)
  }

  /** Inserts `b` after every booking made at the same time or later. */
  function InsertNewestFirst(bs: seq<Booking>, b: Booking): (r: seq<Booking>)
    ensures |r| == |bs| + 1
    ensures forall x :: x in r <==> x in bs || x == b
  {
    if bs == [] then [b]
    else if EpochSecond(bs[0].bookedAt) < EpochSecond(b.bookedAt) then [b] + bs
    else [bs[0]] + InsertNewestFirst(bs[1..], b)
  }

  lemma ConsBookingNewestFirst(x: Booking, rest: seq<Booking>)
    requires NewestFirst(rest)
    requires forall j :: 0 <= j < |rest| ==> EpochSecond(rest[j].bookedAt) <= EpochSecond(x.bookedAt)
    ensures NewestFirst([x] + rest)
  {
    var r := [x] + rest;
    assert forall j :: 1 <= j < |r| ==> r[j] == rest[j - 1];
  }

  lemma {:induction false} InsertKeepsOrder(bs: seq<Booking>, b: Booking)
    requires NewestFirst(bs)
    ensures NewestFirst(InsertNewestFirst(bs, b))
  {
    if bs == [] {
    } else if EpochSecond(bs[0].bookedAt) < EpochSecond(b.bookedAt) {
      ConsBookingNewestFirst(b, bs);
    } else {
      assert NewestFirst(bs[1..]) by {
        assert forall i :: 0 <= i < |bs[1..]| ==> bs[1..][i] == bs[i + 1];
      }
      InsertKeepsOrder(bs[1..], b);
      var rest := InsertNewestFirst(bs[1..], b);
      forall j | 0 <= j < |rest| ensures EpochSecond(rest[j].bookedAt) <= EpochSecond(bs[0].bookedAt) {
        assert rest[j] in rest;
        if rest[j] != b {
          var k :| 0 <= k < |bs[1..]| && bs[1..][k] == rest[j];
          assert bs[k + 1] == rest[j];
        }
      }
      ConsBookingNewestFirst(bs[0], rest);
    }
  }

  lemma {:induction false} InsertKeepsDistinct(bs: seq<Booking>, b: Booking)
    requires DistinctPnrs(bs)
    requires forall x :: x in bs ==> x.pnr != b.pnr
    ensures DistinctPnrs(InsertNewestFirst(bs, b))
  {
    if bs != [] {
      if EpochSecond(bs[0].bookedAt) < EpochSecond(b.bookedAt) {
        var r := [b] + bs;
        assert forall i :: 1 <= i < |r| ==> r[i] == bs[i - 1];
      } else {
        var rest := InsertNewestFirst(bs[1..], b);
        InsertKeepsDistinct(bs[1..], b);
        var r := [bs[0]] + rest;
        forall j | 1 <= j < |r| ensures r[j].pnr != bs[0].pnr {
          assert r[j] == rest[j - 1];
          assert r[j] in rest;
          if r[j] != b {
            var k :| 0 <= k < |bs[1..]| && bs[1..][k] == r[j];
            assert bs[k + 1] == r[j];
          }
        }
        assert forall i, j :: 1 <= i < j < |r| ==> r[i] == rest[i - 1] && r[j] == rest[j - 1];
      }
    }
  }

  class Store {
    var flights: map<string, FlightRecord>
    var bookings: map<string, Booking>

    function State(): Lifecycle.Stores
      reads this
    {
      Lifecycle.Stores(flights, bookings)
    }

    ghost predicate Valid()
      reads this
    {
      Lifecycle.Valid(State())
    }

    ghost predicate Conserved()
      reads this
    {
      Lifecycle.Conserved(State())
    }

    constructor ()
      ensures Valid() && Conserved()
      ensures flights == map[] && bookings == map[]
    {
      flights, bookings := map[], map[];
    }

    /** findById: a fresh object holding the stored document, or null. */
    method FindFlightById(id: string) returns (f: Flight?)
      ensures f == null <==> id !in flights
      ensures f != null ==> fresh(f) && f.Record() == flights[id]
    {
      if id in flights {
        f := new Flight.FromRecord(flights[id]);
      } else {
        f := null;
      }
    }

    /** save(flight): the document stored under the object's id is replaced by its fields. */
    method SaveFlight(f: Flight)
      modifies this
      ensures flights == old(flights)[f.id := f.Record()]
      ensures bookings == old(bookings)
    {
      flights := flights[f.id := f.Record()];
    }

    /** findByPnr. */
    function FindBookingByPnr(pnr: string): Option<Booking>
      reads this
    {
      if pnr in bookings then Some(bookings[pnr]) else None
    }

    /** save(booking). */
    method SaveBooking(b: Booking)
      modifies this
      ensures bookings == old(bookings)[b.pnr := b]
      ensures flights == old(flights)
    {
      bookings := bookings[b.pnr := b];
    }

    /** The route query: exactly the stored flights that match, each once, in
        no particular order. */
    method FindByRouteAndDate(fromPlace: string, toPlace: string, date: LocalDate)
      returns (fs: seq<FlightRecord>)
      requires Valid()
      ensures forall f :: f in fs ==> f.id in flights && flights[f.id] == f && RouteMatches(f, fromPlace, toPlace, date)
      ensures forall id :: id in flights && RouteMatches(flights[id], fromPlace, toPlace, date) ==> flights[id] in fs
      ensures DistinctIds(fs)
    {
      fs := [];
      var todo := flights.Keys;
      while todo != {}
        invariant todo <= flights.Keys
        invariant forall f :: f in fs ==> f.id in flights && f.id !in todo && flights[f.id] == f
                                          && RouteMatches(f, fromPlace, toPlace, date)
        invariant forall id ::
                    id in flights && id !in todo && RouteMatches(flights[id], fromPlace, toPlace, date) ==>
                    flights[id] in fs
        invariant DistinctIds(fs)
        decreases todo
      {
        var id :| id in todo;
        todo := todo - {id};
        var f := flights[id];
        if RouteMatches(f, fromPlace, toPlace, date) {
          fs := fs + [f];
        }
      }
    }

    /** findByUserEmailOrderByBookedAtDesc: exactly the bookings made with
        that email (compared exactly), each once, most recent first. */
    method FindByUserEmailOrderByBookedAtDesc(email: string) returns (bs: seq<Booking>)
      requires Valid()
      ensures forall b :: b in bs ==> b.pnr in bookings && bookings[b.pnr] == b && b.userEmail == email
      ensures forall p :: p in bookings && bookings[p].userEmail == email ==> bookings[p] in bs
      ensures DistinctPnrs(bs)
      ensures NewestFirst(bs)
    {
      bs := [];
      var todo := bookings.Keys;
      while todo != {}
        invariant todo <= bookings.Keys
        invariant forall b :: b in bs ==> b.pnr in bookings && b.pnr !in todo && bookings[b.pnr] == b
                                          && b.userEmail == email
        invariant forall p :: p in bookings && p !in todo && bookings[p].userEmail == email ==> bookings[p] in bs
        invariant DistinctPnrs(bs)
        invariant NewestFirst(bs)
        decreases todo
      {
        var p :| p in todo;
        todo := todo - {p};
        var b := bookings[p];
        if b.userEmail == email {
          InsertKeepsOrder(bs, b);
          InsertKeepsDistinct(bs, b);
          bs := InsertNewestFirst(bs, b);
        }
      }
    }
  }
}
