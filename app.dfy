/** `App.main` without the file loading and the printing: filter the
    tickets to one route, then run the two statistics over the result. */
module App {
  import opened Wrappers
  import opened Tickets
  import opened RouteFilter
  import opened ClockTime
  import opened FlightTime
  import opened PriceStats

  /** The route the program reports on (Vladivostok to Tel Aviv). */
  const Origin: string := "VVO"
  const Destination: string := "TLV"

  /** What the two sections of the output say: one line per carrier, and
      the mean, median and difference of the prices. */
  datatype Report = Report(carrierLines: map<string, HoursMinutes>, prices: PriceReport)

  /** The pipeline: route filter, minimum flight time per carrier, price
      statistics. A time string the formatter rejects aborts the whole run
      (the top-level handler reports it); otherwise there is one line for
      each carrier on the route, holding its least duration, and the price
      report of the tickets on the route. The price report uses the
      corrected median (`PriceStats.Median`), so no tickets on the route
      gives no carrier lines and all-zero price statistics where the source
      itself fails at `get(-1)` (`PriceStats.MedianAsWrittenEmpty`). */
  method Run(tickets: seq<Ticket>) returns (r: Result<Report, Error>)
    ensures r.Success? <==> AllTimesParse(FilterRoute(tickets, Origin, Destination))
    ensures r.Failure? ==> exists c :: Durations(OfCarrier(FilterRoute(tickets, Origin, Destination), c)) == Failure(r.error)
    ensures r.Success? ==> r.value.carrierLines.Keys == Carriers(FilterRoute(tickets, Origin, Destination))
    ensures r.Success? ==> forall c :: c in r.value.carrierLines ==>
      IsMinimumLine(r.value.carrierLines[c], OfCarrier(FilterRoute(tickets, Origin, Destination), c))
    ensures r.Success? ==> r.value.prices == PriceReportOf(Prices(FilterRoute(tickets, Origin, Destination)))
    ensures FilterRoute(tickets, Origin, Destination) == [] ==>
      r == Success(Report(map[], PriceReport(0.0, 0.0, 0.0)))
  {
    var filteredTickets := FilterRoute(tickets, Origin, Destination);
    var lines := MinFlightTimes(filteredTickets);
    if lines.Failure? {
      return Failure(lines.error);
    }
    var prices := CalculatePriceDifference(filteredTickets);
    return Success(Report(lines.value, prices));
  }

  /** A worked run: two SU flights (8h30 and 7h00), one overnight S7
      flight (23:00 to 04:00, 5h00) and one ticket on another route, which
      the filter drops. Prices 12000, 9000, 15000: mean and median 12000. */
  const SampleFirst := Ticket(Origin, Destination, "SU", "10:00", "18:30", 12000)
  const SampleSecond := Ticket(Origin, Destination, "SU", "09:00", "16:00", 9000)
  const SampleOvernight := Ticket(Origin, Destination, "S7", "23:00", "04:00", 15000)
  const SampleElsewhere := Ticket("LED", Destination, "SU", "12:00", "12:30", 100)
  const SampleTickets := [SampleFirst, SampleSecond, SampleElsewhere, SampleOvernight]
  const SampleRoute := [SampleFirst, SampleSecond, SampleOvernight]

  /** The ticket from another origin is dropped. */
  lemma SampleDropped()
    ensures FilterRoute([SampleElsewhere], Origin, Destination) == []
  {
    assert SampleElsewhere.origin[0] != Origin[0];
    assert [SampleElsewhere][1..] == [];
  }

  /** The tickets on the route are kept. */
  lemma SampleKept()
    ensures FilterRoute([SampleFirst, SampleSecond], Origin, Destination) == [SampleFirst, SampleSecond]
    ensures FilterRoute([SampleOvernight], Origin, Destination) == [SampleOvernight]
  {
    FilterRouteKeepsMatching([SampleFirst, SampleSecond], Origin, Destination);
    FilterRouteKeepsMatching([SampleOvernight], Origin, Destination);
  }

  lemma SampleFiltered()
    ensures FilterRoute(SampleTickets, Origin, Destination) == SampleRoute
  {
    var kept := [SampleFirst, SampleSecond];
    var dropped := [SampleElsewhere];
    var last := [SampleOvernight];
    assert SampleTickets == kept + dropped + last;
    assert SampleRoute == kept + last;
    FilterRouteAppend(kept + dropped, last, Origin, Destination);
    FilterRouteAppend(kept, dropped, Origin, Destination);
    SampleKept();
    SampleDropped();
  }

  /** The departure and arrival strings of the sample's SU tickets. */
  lemma SampleClocksSU()
    ensures ParseClock("10:00") == Some(600) && ParseClock("18:30") == Some(1110)
    ensures ParseClock("09:00") == Some(540) && ParseClock("16:00") == Some(960)
  {
    assert ScanHour("10:00", 2, 10) == ResolveClock(10, 0);
    assert ScanHour("18:30", 2, 18) == ResolveClock(18, 30);
    assert ScanHour("09:00", 2, 9) == ResolveClock(9, 0);
    assert ScanHour("16:00", 2, 16) == ResolveClock(16, 0);
  }

  /** The overnight ticket's strings. */
  lemma SampleClocksS7()
    ensures ParseClock("23:00") == Some(1380) && ParseClock("04:00") == Some(240)
  {
    assert ScanHour("23:00", 2, 23) == ResolveClock(23, 0);
    assert ScanHour("04:00", 2, 4) == ResolveClock(4, 0);
  }

  lemma SampleDurations()
    ensures TicketDuration(SampleFirst) == Success(510)
    ensures TicketDuration(SampleSecond) == Success(420)
    ensures TicketDuration(SampleOvernight) == Success(300)
  {
    SampleClocksSU();
    SampleClocksS7();
  }

  /** The carriers on the sample route. */
  lemma SampleCarriers()
    ensures Carriers(SampleRoute) == {"SU", "S7"}
  {
    var route := SampleRoute;
    assert forall t :: t in route ==> t.carrier in {"SU", "S7"};
    assert route[0].carrier == "SU" && route[2].carrier == "S7";
  }

  /** The two carrier groups of the sample route, in input order. */
  lemma SampleGroups()
    ensures OfCarrier(SampleRoute, "SU") == [SampleFirst, SampleSecond]
    ensures OfCarrier(SampleRoute, "S7") == [SampleOvernight]
  {
    var route := SampleRoute;
    var two := [SampleFirst, SampleSecond];
    var one := [SampleFirst];
    assert route[..2] == two && two[..1] == one && one[..0] == [];
    OfCarrierSnoc(one, "SU");
    OfCarrierSnoc(one, "S7");
    OfCarrierSnoc(two, "SU");
    OfCarrierSnoc(two, "S7");
    OfCarrierSnoc(route, "SU");
    OfCarrierSnoc(route, "S7");
  }

  /** The SU durations, 8h30 and 7h00. */
  lemma SampleGroupSU()
    ensures Durations(OfCarrier(SampleRoute, "SU")) == Success([510, 420])
  {
    SampleGroups();
    SampleDurations();
    var group := [SampleFirst, SampleSecond];
    DurationsSpec(group);
    assert Durations(group).value == [510, 420];
  }

  /** The S7 duration: the overnight flight alone, 5h00. */
  lemma SampleGroupS7()
    ensures Durations(OfCarrier(SampleRoute, "S7")) == Success([300])
  {
    SampleGroups();
    SampleDurations();
    var group := [SampleOvernight];
    DurationsSpec(group);
    assert Durations(group).value == [300];
  }

  lemma SampleLineSU(line: HoursMinutes)
    requires IsMinimumLine(line, OfCarrier(SampleRoute, "SU"))
    ensures line == HoursMinutes(7, 0)
  {
    SampleGroupSU();
    var ds: seq<nat> := [510, 420];
    MinimumLineIsSplit(line, ds, 1);
  }

  lemma SampleLineS7(line: HoursMinutes)
    requires IsMinimumLine(line, OfCarrier(SampleRoute, "S7"))
    ensures line == HoursMinutes(5, 0)
  {
    SampleGroupS7();
    var ds: seq<nat> := [300];
    MinimumLineIsSplit(line, ds, 0);
  }

  lemma SampleSum()
    ensures Sum([12000, 9000, 15000]) == 36000
  {
    var prices := [12000, 9000, 15000];
    assert prices[..2] == [12000, 9000] && prices[..2][..1] == [12000] && [12000][..0] == [];
    assert Sum([12000]) == 12000;
    assert Sum(prices[..2]) == 21000;
  }

  lemma SampleSort()
    ensures Sort([12000, 9000, 15000]) == [9000, 12000, 15000]
  {
    var prices := [12000, 9000, 15000];
    var sorted := [9000, 12000, 15000];
    SortSpec(prices);
    assert multiset(sorted) == multiset(prices);
    SortedUnique(Sort(prices), sorted);
  }

  /** Mean 12000 and median 12000 (the middle of 9000, 12000, 15000). */
  lemma SamplePrices()
    ensures PriceReportOf(Prices(SampleRoute)) == PriceReport(12000.0, 12000.0, 0.0)
  {
    var prices := Prices(SampleRoute);
    assert prices == [12000, 9000, 15000];
    SampleSum();
    SampleSort();
    assert Median([9000, 12000, 15000]) == 12000.0;
  }

  /** The carrier lines the pipeline can give for the sample route. */
  lemma SampleLineMap(lines: map<string, HoursMinutes>)
    requires lines.Keys == Carriers(SampleRoute)
    requires forall c :: c in lines ==> IsMinimumLine(lines[c], OfCarrier(SampleRoute, c))
    ensures lines == map["SU" := HoursMinutes(7, 0), "S7" := HoursMinutes(5, 0)]
  {
    SampleCarriers();
    SampleLineSU(lines["SU"]);
    SampleLineS7(lines["S7"]);
  }

  /** Every report the pipeline can give for the sample route: 7h00 for
      SU, 5h00 for S7, mean and median 12000. */
  lemma SampleReport(report: Report)
    requires report.carrierLines.Keys == Carriers(SampleRoute)
    requires forall c :: c in report.carrierLines ==>
      IsMinimumLine(report.carrierLines[c], OfCarrier(SampleRoute, c))
    requires report.prices == PriceReportOf(Prices(SampleRoute))
    ensures report == Report(
      map["SU" := HoursMinutes(7, 0), "S7" := HoursMinutes(5, 0)],
      PriceReport(12000.0, 12000.0, 0.0))
  {
    SampleLineMap(report.carrierLines);
    SamplePrices();
  }

  method ExampleRun() returns (r: Result<Report, Error>)
    ensures r == Success(Report(
      map["SU" := HoursMinutes(7, 0), "S7" := HoursMinutes(5, 0)],
      PriceReport(12000.0, 12000.0, 0.0)))
  {
    r := Run(SampleTickets);
    SampleFiltered();
    assert AllTimesParse(SampleRoute) by {
      SampleDurations();
    }
    SampleReport(r.value);
  }
}
