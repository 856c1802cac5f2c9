# Avia-tickets statistics pipeline in Dafny

This project models the statistics pipeline of the Avia-tickets program
(`src/main/java/org/example/App.java`). The program reads a list of flight
tickets and keeps those from Vladivostok (`VVO`) to Tel Aviv (`TLV`). It then
reports two things:

- for each carrier, its shortest flight (clock times are read with the
  pattern `"H:mm"`, and 24 hours is added to a negative duration);
- the mean of the ticket prices, their median after an in-place sort, and the
  difference of the two.

Modules, one per concern:

- `Wrappers`: `Option` and `Result`.
- `Tickets`: the `Ticket` record, Java `int` (`Int32`, `Wrap32`), and the two
  ways a run can fail.
- `RouteFilter`: the stream filter in `main`.
- `ClockTime`: `LocalTime.parse` with `ofPattern("H:mm")`, the day-wrap
  duration, and the split into hours and minutes.
- `FlightTime`: `calculateMinFlightTime`. It holds the `groupingBy`
  collector, the running-minimum `for` loop (`MinDuration`), the `forEach`
  callback (`CarrierLine`), and the loop over carriers (`MinFlightTimes`).
- `PriceStats`: `calculatePriceDifference`. It holds the price extraction, the
  mean, an in-place insertion sort on an array (`SortInPlace`), which stands
  in for `Collections.sort`, and the median as written and as corrected.
- `App`: `main` without file loading and printing (`Run`), plus the worked
  example `ExampleRun`.

The imperative parts are Dafny methods with loops. Each is proved against a
specification function:

- `MinDuration` against `Durations` and `IsMinimum`;
- `SortInPlace` against `IsSorted` and a multiset permutation;
- `CalculatePriceDifference` against `PriceReportOf`.

The groups are visited in an unspecified order (`:|` over the remaining
keys), as with the `HashMap` the collector builds.

Time parsing follows what `LocalTime.parse` with `ofPattern("H:mm")` does,
which is wider than the one- or two-digit hours of typical inputs:

- the `"H"` field reads 1 to 19 digits, so `"007:05"` is accepted;
- the default SMART resolver also accepts `24:00` and reads it as midnight.

`ClockTime.ParseClockSpec` states this for every string.

The price statistics are the one place where the model departs from the
code. `PriceStats.CalculatePriceDifference` and `App.Run` use the corrected
median `PriceStats.Median`, which differs from line 103 as written in two
cases (see Findings):

- with no tickets on the route, the source reads `get(-1)` and the run ends in
  the catch-all handler, while the model reports 0.0;
- when the two central prices add up to more than 2^31-1, the source's `int`
  sum wraps around, while the model gives the exact midpoint.

`PriceStats.MedianAsWritten` models line 103 as written.

## Model

| member | source | states |
|---|---|---|
| Tickets.Wrap32 | src/main/java/org/example/App.java:103 | Java `int` addition: the result is in the 32-bit range, congruent to the exact sum modulo 2^32, and equal to it when the sum is in range |
| RouteFilter.FilterRoute | src/main/java/org/example/App.java:32-34 | a ticket is in the result exactly when it is in the input and has that origin and destination; the result is never longer than the input |
| RouteFilter.FilterRouteCount | src/main/java/org/example/App.java:32-34 | every matching ticket is kept as often as it occurs in the input, and every other ticket is dropped |
| RouteFilter.FilterRouteAppend | src/main/java/org/example/App.java:32-34 | filtering a concatenation is concatenating the filtered parts, so the relative order of the kept tickets is the input order |
| RouteFilter.FilterRouteKeepsMatching | src/main/java/org/example/App.java:32-34 | a list whose tickets are all on the route passes through unchanged |
| RouteFilter.FilterRouteIdempotent | src/main/java/org/example/App.java:32-34 | filtering twice by the same route equals filtering once |
| ClockTime.DigitValue | src/main/java/org/example/App.java:52 | a decimal digit's value is at most 9 |
| ClockTime.ParseClock | src/main/java/org/example/App.java:52-63 | an accepted time string gives a minute of the day below 1440 (which strings are accepted, and with what value, is `ParseClockSpec`) |
| ClockTime.ScanHour | src/main/java/org/example/App.java:52-63 | what the scanner accepts from any position is a minute of the day below 1440 |
| ClockTime.ParseClockSpec | src/main/java/org/example/App.java:52-63 | for every string: if it is 1 to 19 hour digits, a colon and two minute digits with nothing after, the result is the resolver's check of that hour and minute; any other string is rejected |
| ClockTime.ScanHourSpec | src/main/java/org/example/App.java:52-63 | the scanner, started after some hour digits already read, agrees with that description of the accepted strings |
| ClockTime.ScanHourStop | src/main/java/org/example/App.java:52-63 | at the first non-digit a string has at most one place its colon can be, and the scanner accepts exactly when the string has the accepted shape with the colon there |
| ClockTime.ResolveClock | src/main/java/org/example/App.java:62-63 | accepted exactly when the minute is below 60 and the hour is below 24, or the time is 24:00; the value is hour*60 + minute below 24 hours, and 0 (midnight) for 24:00 |
| ClockTime.DigitChar | src/main/java/org/example/App.java:52 | gives a digit character whose value is the given digit |
| ClockTime.FormatClock | src/main/java/org/example/App.java:52 | the canonical "H:mm" text of a minute of the day is 4 or 5 characters long |
| ClockTime.ParseFormatClock | src/main/java/org/example/App.java:52-63 | every minute of the day, written as "H:mm", parses back to itself |
| ClockTime.ParseClockEdges | src/main/java/org/example/App.java:52-63 | "07:05" and "24:00" are accepted (as 425 and midnight); "24:01", "12:60", "7:5", ":30" and a trailing space are rejected |
| ClockTime.FlightDuration | src/main/java/org/example/App.java:65-69 | the day-wrap duration is below 1440 minutes, and adding it to the departure gives the arrival modulo one day |
| ClockTime.FlightDurationUnique | src/main/java/org/example/App.java:65-69 | it is the only such duration, so equal times give 0 and never 24 h |
| ClockTime.TicketDuration | src/main/java/org/example/App.java:62-69 | succeeds exactly when both times parse, with the day-wrap relation between them; otherwise fails with the departure string if that one is rejected, else with the arrival string |
| ClockTime.Split | src/main/java/org/example/App.java:77-78 | `toHours` and `toMinutes() % 60`: hours*60 + minutes equals the duration, and minutes is below 60 |
| ClockTime.SplitUnique | src/main/java/org/example/App.java:77-78 | the split is the only pair of hours and minutes below 60 that adds up to the duration |
| FlightTime.OfCarrier | src/main/java/org/example/App.java:54-55 | one carrier's group is never longer than the input |
| FlightTime.OfCarrierMembers | src/main/java/org/example/App.java:54-55 | a ticket is in a carrier's group exactly when it is in the input with that carrier |
| FlightTime.GroupByCarrier | src/main/java/org/example/App.java:54-55 | `groupingBy` gives one key per carrier present, and each key's list is that carrier's tickets in input order |
| FlightTime.GroupStep | src/main/java/org/example/App.java:54-55 | the accumulator step (append a ticket to its carrier's list) extends the grouping by one ticket |
| FlightTime.GroupStepAt | src/main/java/org/example/App.java:54-55 | after that step, each carrier's list is its group in the longer input |
| FlightTime.CarriersSnoc | src/main/java/org/example/App.java:54-55 | the carriers of a list are those of all but its last ticket plus the last ticket's carrier |
| FlightTime.OfCarrierAbsent | src/main/java/org/example/App.java:54-55 | a carrier not present has an empty group |
| FlightTime.CarrierGroupNonEmpty | src/main/java/org/example/App.java:54-57 | every carrier present has a non-empty group |
| FlightTime.Durations | src/main/java/org/example/App.java:60-69 | on success there is one duration per ticket |
| FlightTime.DurationsSpec | src/main/java/org/example/App.java:60-69 | the durations of a group succeed exactly when every ticket's times parse, and then list each ticket's duration; otherwise the error is that of a ticket whose predecessors all parse |
| FlightTime.DurationsPrefixFailure | src/main/java/org/example/App.java:60-63 | once a prefix fails, the whole group fails with the same error (the exception ends the loop) |
| FlightTime.MinimumSnoc | src/main/java/org/example/App.java:71-73 | keeping the smaller of the running minimum and the new duration keeps it the minimum of the durations seen |
| FlightTime.MinimumLineIsSplit | src/main/java/org/example/App.java:71-78 | a printed line is the split of the least duration of its group |
| FlightTime.GroupFailure | src/main/java/org/example/App.java:57-63 | a rejected time in one carrier's group is a rejected time of the input |
| FlightTime.GroupsParse | src/main/java/org/example/App.java:54-81 | lines that match every group cover exactly the carriers present, each is the minimum line of its carrier's tickets, and every ticket's times parse |
| FlightTime.LinesMatchExtend | src/main/java/org/example/App.java:57-79 | adding one carrier's minimum line keeps every line matching its group |
| FlightTime.MinDuration | src/main/java/org/example/App.java:58-74 | the loop with a nullable running minimum: it aborts with the group's first rejected time, ends null exactly for an empty group, and otherwise ends with a duration that is at most every duration in the group and equal to one of them |
| FlightTime.CarrierLine | src/main/java/org/example/App.java:57-81 | the `forEach` callback: it fails exactly when the group has a rejected time, and otherwise prints a line exactly when the group is non-empty, that line being the group's minimum as hours and minutes below 60 |
| FlightTime.MinFlightTimes | src/main/java/org/example/App.java:50-82 | succeeds exactly when every time string parses; on failure the error is that of some carrier's group; on success there is a line for exactly the carriers present, each the minimum of that carrier's durations |
| PriceStats.Prices | src/main/java/org/example/App.java:86-88 | one price per ticket, in ticket order |
| PriceStats.Mean | src/main/java/org/example/App.java:90-93 | 0.0 for no prices; otherwise mean times count equals the sum |
| PriceStats.SumBounds | src/main/java/org/example/App.java:90-93 | a sum of values in [lo, hi] lies between count*lo and count*hi |
| PriceStats.MeanBounds | src/main/java/org/example/App.java:90-93 | the mean of a non-empty price list lies between any lower and upper bound of its prices |
| PriceStats.MeanBetween | src/main/java/org/example/App.java:90-93 | the same bound, stated over the total and the count |
| PriceStats.QuotientBounds | src/main/java/org/example/App.java:90-93 | a quotient by a positive count inherits the bounds of the total |
| PriceStats.MeanOfEqual | src/main/java/org/example/App.java:90-93 | equal prices have that price as their mean |
| PriceStats.Insert | src/main/java/org/example/App.java:95 | inserting into a list adds one element |
| PriceStats.InsertPermutes | src/main/java/org/example/App.java:95 | inserting adds exactly one copy of the element and nothing else |
| PriceStats.InsertLowerBound | src/main/java/org/example/App.java:95 | a lower bound of the element and the list bounds the result |
| PriceStats.ConsSorted | src/main/java/org/example/App.java:95 | a head no larger than a sorted tail gives a sorted list |
| PriceStats.InsertSorted | src/main/java/org/example/App.java:95 | inserting into a sorted list keeps it sorted |
| PriceStats.Sort | src/main/java/org/example/App.java:95 | the reference sort keeps the length |
| PriceStats.SortSpec | src/main/java/org/example/App.java:95 | the reference sort is ascending and a permutation of its input |
| PriceStats.SortedHeadLeast | src/main/java/org/example/App.java:95 | the head of a sorted list is its least element |
| PriceStats.SortedTail | src/main/java/org/example/App.java:95 | the tail of a sorted list is sorted |
| PriceStats.SortedUnique | src/main/java/org/example/App.java:95 | two ascending lists with the same elements are equal, so any correct sort gives the same list |
| PriceStats.SwapDown | src/main/java/org/example/App.java:95 | swapping two neighbours keeps the multiset and changes only those two cells |
| PriceStats.SinkInto | src/main/java/org/example/App.java:95 | sinking one element into a sorted prefix extends the prefix, keeps the multiset and leaves the rest alone |
| PriceStats.SortInPlace | src/main/java/org/example/App.java:95 | `Collections.sort`: afterwards the array is ascending and a permutation of its old contents |
| PriceStats.Median | src/main/java/org/example/App.java:97-104 | the corrected median: 0.0 for no prices; for an even count, equally far from the two central prices (their exact midpoint, with no 32-bit wrap); for a sorted list, at least every element of the lower half and at most every element of the upper half, so for an odd count exactly the middle price |
| PriceStats.MedianAsWritten | src/main/java/org/example/App.java:97-104 | the median as written fails exactly for the empty list |
| PriceStats.MedianAsWrittenEmpty | src/main/java/org/example/App.java:98-103 | for no prices the even branch reads index -1 and fails |
| PriceStats.MedianAsWrittenOverflow | src/main/java/org/example/App.java:103 | two sorted prices of 2^31-1 give -1.0 as written, while the median is 2^31-1 |
| PriceStats.MedianAsWrittenAgrees | src/main/java/org/example/App.java:97-104 | for a non-empty list whose central sum fits in an `int`, the median as written is the corrected median |
| PriceStats.MedianWithinPrices | src/main/java/org/example/App.java:95-104 | the median of the sorted prices lies between two of the prices |
| PriceStats.PriceReportEmpty | src/main/java/org/example/App.java:90-106 | with the corrected median, no prices give mean, median and difference 0.0 |
| PriceStats.PriceReportSingle | src/main/java/org/example/App.java:90-106 | one price is its own mean and median, so the difference is 0 |
| PriceStats.PriceReportEqual | src/main/java/org/example/App.java:90-106 | equal prices of any count give mean == median and difference 0 |
| PriceStats.CalculatePriceDifference | src/main/java/org/example/App.java:84-106 | copy the prices, sort them in place, and report mean, median of the sorted list, and their difference: the result is the price report of the tickets' prices, with the corrected median |
| App.Run | src/main/java/org/example/App.java:18-48 | filter the route, then the flight times, then the prices. It succeeds exactly when every time on the route parses, and a failure is some carrier group's rejected time. On success: one line per carrier on the route, each its minimum, and the price report of the route's prices. With the corrected median, an empty route gives no lines and zero statistics |
| App.SampleDropped | src/main/java/org/example/App.java:32-34 | a ticket from another origin is dropped |
| App.SampleKept | src/main/java/org/example/App.java:32-34 | tickets on the route are kept |
| App.SampleFiltered | src/main/java/org/example/App.java:32-34 | the sample keeps its three VVO to TLV tickets in order |
| App.SampleClocksSU | src/main/java/org/example/App.java:52-63 | the four time strings of the sample's SU tickets parse to their minutes of the day |
| App.SampleClocksS7 | src/main/java/org/example/App.java:52-63 | the overnight ticket's "23:00" and "04:00" parse to 1380 and 240 |
| App.SampleDurations | src/main/java/org/example/App.java:62-69 | the sample durations are 8h30, 7h00 and, across midnight, 5h00 |
| App.SampleCarriers | src/main/java/org/example/App.java:54-55 | the carriers on the sample route are SU and S7 |
| App.SampleGroups | src/main/java/org/example/App.java:54-55 | the sample's SU and S7 groups, in input order |
| App.SampleGroupSU | src/main/java/org/example/App.java:58-74 | the SU durations are 510 and 420 minutes |
| App.SampleGroupS7 | src/main/java/org/example/App.java:58-74 | the S7 duration is 300 minutes |
| App.SampleLineSU | src/main/java/org/example/App.java:76-79 | the only SU line is 7 hours 0 minutes |
| App.SampleLineS7 | src/main/java/org/example/App.java:76-79 | the only S7 line is 5 hours 0 minutes |
| App.SampleLineMap | src/main/java/org/example/App.java:54-81 | the only carrier lines for the sample are SU 7h00 and S7 5h00 |
| App.SampleSum | src/main/java/org/example/App.java:90-93 | the sample prices sum to 36000 |
| App.SampleSort | src/main/java/org/example/App.java:95 | the sample prices sort to 9000, 12000, 15000 |
| App.SamplePrices | src/main/java/org/example/App.java:84-106 | the sample's mean and median are 12000 and their difference is 0 |
| App.SampleReport | src/main/java/org/example/App.java:18-48 | every report the pipeline can give for the sample route is SU 7h00, S7 5h00, mean and median 12000 |
| App.ExampleRun | src/main/java/org/example/App.java:18-48 | the whole pipeline on the sample, including a ticket off the route, gives exactly that report |

## Left out

- JSON loading through Jackson and the file access (`App.java` lines 19-30): these are foreign library code and file I/O. The model starts from a sequence of `Ticket` values. The `Ticket` and `TicketsList` classes are not part of this model, and their fields are taken to be the six the code reads.
- The console output and its `%.2f` formatting (lines 36-42, 79, 107-109): the model returns the values that would be printed, namely a map from carrier to hours and minutes and a `PriceReport`.
- Carrier lines printed before a failing group: the model returns only the failure. Which carriers were printed first depends on the `HashMap` order, which the model leaves unspecified.
- IEEE `double` arithmetic in the average (lines 90-93) and in the difference `averagePrice - medianPrice` (line 106): the mean and the difference are exact `real`s, so the rounding of a double sum of very many or very large prices, and of the final subtraction, is not modelled. The halving at line 103 is exact in `double` for every `int`, so the median loses nothing.
- The catch-all handler and its stack trace (lines 44-47): a failure is a `Result` `Failure` carrying which string was rejected or which index was read.
- Exceptions other than a rejected time string or a bad index, such as a null field in the input: the `Ticket` fields here cannot be null.
- `Collections.sort` is a merge sort over a `List<Integer>`. The model sorts an `array<int>` in place by insertion, and proves the result is the unique ascending permutation, which is all the median depends on.
- PriceStats.CalculatePriceDifference: uses the corrected median. With no prices it reports 0.0 where the source fails at `get(-1)` (line 103). Where the two central prices add up to more than 2^31-1, it gives their exact midpoint where the source gives the wrapped sum halved.
- App.Run: inherits both differences from `CalculatePriceDifference`. An empty route gives a report of zeros where the source ends in the catch-all handler (lines 44-47). A wrapping central sum gives the exact median.

## Findings

| source | as written | input that shows it | evidently intended | confidence | as-written member | corrected member |
|---|---|---|---|---|---|---|
| src/main/java/org/example/App.java:103 | with no tickets on the route, `size` is 0, the even branch runs, and `prices.get(size / 2 - 1)` reads index -1 and throws, which ends the run in the catch-all handler | a ticket list with no VVO to TLV ticket | no prices give a median of 0.0, like the mean's fallback, and the report prints | not executed | PriceStats.MedianAsWrittenEmpty | PriceStats.PriceReportEmpty |
| src/main/java/org/example/App.java:103 | the two central `Integer` prices are added as `int` before the division by 2.0, so a sum above 2^31-1 wraps to a negative number | two tickets on the route priced 2147483647 each: median -1.0 | the exact midpoint of the two central prices, here 2147483647.0, which `Median` states for every even count | not executed | PriceStats.MedianAsWrittenOverflow | PriceStats.Median |
