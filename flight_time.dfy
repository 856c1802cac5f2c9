/** `calculateMinFlightTime`: group the tickets by carrier, walk each group
    keeping a running minimum of the day-wrap durations, and report every
    carrier's minimum as hours and minutes. */
module FlightTime {
  import opened Wrappers
  import opened Tickets
  import opened ClockTime

  /** The carriers that occur in `ts`. */
  function Carriers(ts: seq<Ticket>): set<string> {
    set t | t in ts :: t.carrier
  }

  /** The tickets of one carrier, in input order (one group of `groupingBy`). */
  function OfCarrier(ts: seq<Ticket>, c: string): (r: seq<Ticket>)
    ensures |r| <= |ts|
  {
    if ts == [] then []
    else OfCarrier(ts[..|ts| - 1], c) + (if ts[|ts| - 1].carrier == c then [ts[|ts| - 1]] else [])
  }

  /** A carrier's group holds exactly the tickets of that carrier. */
  lemma {:induction false} OfCarrierMembers(ts: seq<Ticket>, c: string)
    ensures forall t :: t in OfCarrier(ts, c) <==> t in ts && t.carrier == c
  {
    if ts != [] {
      OfCarrierMembers(ts[..|ts| - 1], c);
      assert ts == ts[..|ts| - 1] + [ts[|ts| - 1]];
    }
  }

  /** `m` maps each carrier of `ts`, and only those, to its tickets. */
  predicate IsGrouping(m: map<string, seq<Ticket>>, ts: seq<Ticket>) {
    m.Keys == Carriers(ts) && forall c :: c in m ==> m[c] == OfCarrier(ts, c)
  }

  /** The collector's accumulator step: append `t` to its carrier's list,
      starting a new list for a carrier not seen before. */
  function AddTicket(m: map<string, seq<Ticket>>, t: Ticket): map<string, seq<Ticket>> {
    m[t.carrier := (if t.carrier in m then m[t.carrier] else []) + [t]]
  }

  /** `Collectors.groupingBy(Ticket::getCarrier)`, built in one pass that
      appends each ticket to its carrier's list: one key per carrier present,
      and each key's list is exactly that carrier's tickets in input order. */
  function GroupByCarrier(ts: seq<Ticket>): (m: map<string, seq<Ticket>>)
    ensures IsGrouping(m, ts)
  {
    if ts == [] then map[]
    else
      var m := GroupByCarrier(ts[..|ts| - 1]);
      GroupStep(ts, m);
      AddTicket(m, ts[|ts| - 1])
  }

  /** Appending the last ticket to its carrier's list turns the grouping of
      all but the last ticket into the grouping of all of them. */
  lemma GroupStep(ts: seq<Ticket>, m: map<string, seq<Ticket>>)
    requires ts != [] && IsGrouping(m, ts[..|ts| - 1])
    ensures IsGrouping(AddTicket(m, ts[|ts| - 1]), ts)
  {
    var m' := AddTicket(m, ts[|ts| - 1]);
    assert m'.Keys == Carriers(ts) by {
      CarriersSnoc(ts);
    }
    forall c | c in m' ensures m'[c] == OfCarrier(ts, c) {
      GroupStepAt(ts, m, c);
    }
  }

  /** One carrier's list after the step. */
  lemma GroupStepAt(ts: seq<Ticket>, m: map<string, seq<Ticket>>, c: string)
    requires ts != [] && IsGrouping(m, ts[..|ts| - 1])
    requires c in AddTicket(m, ts[|ts| - 1])
    ensures AddTicket(m, ts[|ts| - 1])[c] == OfCarrier(ts, c)
  {
    var t := ts[|ts| - 1];
    OfCarrierSnoc(ts, c);
    if c == t.carrier && c !in m {
      OfCarrierAbsent(ts[..|ts| - 1], c);
    }
  }

  lemma CarriersSnoc(ts: seq<Ticket>)
    requires ts != []
    ensures Carriers(ts) == Carriers(ts[..|ts| - 1]) + {ts[|ts| - 1].carrier}
  {
    assert ts == ts[..|ts| - 1] + [ts[|ts| - 1]];
  }

  lemma OfCarrierSnoc(ts: seq<Ticket>, c: string)
    requires ts != []
    ensures OfCarrier(ts, c)
         == OfCarrier(ts[..|ts| - 1], c) + (if ts[|ts| - 1].carrier == c then [ts[|ts| - 1]] else [])
  {
  }

  lemma OfCarrierAbsent(ts: seq<Ticket>, c: string)
    requires c !in Carriers(ts)
    ensures OfCarrier(ts, c) == []
  {
    OfCarrierMembers(ts, c);
  }

  /** Every time string of every ticket is accepted by the formatter. */
  predicate AllTimesParse(ts: seq<Ticket>) {
    forall i :: 0 <= i < |ts| ==> TicketDuration(ts[i]).Success?
  }

  /** The durations of `ts` in order, or the failure of the first ticket
      whose times are rejected (see `DurationsSpec`). */
  function Durations(ts: seq<Ticket>): (r: Result<seq<nat>, Error>)
    ensures r.Success? ==> |r.value| == |ts|
  {
    if ts == [] then Success([])
    else
      match Durations(ts[..|ts| - 1])
      case Failure(e) => Failure(e)
      case Success(ds) =>
        match TicketDuration(ts[|ts| - 1])
        case Failure(e) => Failure(e)
        case Success(d) => Success(ds + [d])
  }

  /** `Durations` succeeds exactly when every ticket's times parse, and then
      lists each ticket's duration; otherwise it reports the failure of the
      first ticket that does not parse. */
  lemma {:induction false} DurationsSpec(ts: seq<Ticket>)
    ensures Durations(ts).Success? <==> AllTimesParse(ts)
    ensures Durations(ts).Success? ==>
      forall i :: 0 <= i < |ts| ==> TicketDuration(ts[i]) == Success(Durations(ts).value[i])
    ensures Durations(ts).Failure? ==>
      exists i :: 0 <= i < |ts| && TicketDuration(ts[i]) == Failure(Durations(ts).error) && AllTimesParse(ts[..i])
  {
    if ts != [] {
      var init := ts[..|ts| - 1];
      DurationsSpec(init);
      assert forall i :: 0 <= i < |init| ==> init[i] == ts[i];
      assert forall i :: 0 <= i < |init| ==> init[..i] == ts[..i];
      assert ts[..|ts| - 1] == init;
    }
  }

  /** Once a prefix fails, the whole list fails the same way. */
  lemma {:induction false} DurationsPrefixFailure(ts: seq<Ticket>, k: nat)
    requires k <= |ts| && Durations(ts[..k]).Failure?
    ensures Durations(ts) == Durations(ts[..k])
  {
    if k < |ts| {
      var init := ts[..|ts| - 1];
      assert init[..k] == ts[..k];
      DurationsPrefixFailure(init, k);
    } else {
      assert ts[..k] == ts;
    }
  }

  /** A rejected time in one carrier's group is a rejected time of the input. */
  lemma GroupFailure(ts: seq<Ticket>, c: string)
    requires Durations(OfCarrier(ts, c)).Failure?
    ensures !AllTimesParse(ts)
  {
    var group := OfCarrier(ts, c);
    DurationsSpec(group);
    OfCarrierMembers(ts, c);
    var j :| 0 <= j < |group| && TicketDuration(group[j]).Failure?;
    assert group[j] in ts;
  }

  /** Lines that match every group of the grouping are exactly the
      carriers' minimum lines, and every ticket's times then parse. */
  lemma GroupsParse(ts: seq<Ticket>, groups: map<string, seq<Ticket>>, lines: map<string, HoursMinutes>)
    requires IsGrouping(groups, ts) && lines.Keys == groups.Keys
    requires LinesMatch(lines, groups)
    ensures AllTimesParse(ts)
    ensures lines.Keys == Carriers(ts)
    ensures forall c :: c in lines ==> IsMinimumLine(lines[c], OfCarrier(ts, c))
  {
    forall i | 0 <= i < |ts|
      ensures TicketDuration(ts[i]).Success?
    {
      var t := ts[i];
      assert t.carrier in Carriers(ts);
      var group := groups[t.carrier];
      DurationsSpec(group);
      OfCarrierMembers(ts, t.carrier);
      assert t in group;
      var j :| 0 <= j < |group| && group[j] == t;
    }
  }

  /** `m` is the least of `ds` and is one of them. */
  predicate IsMinimum(m: nat, ds: seq<nat>) {
    (forall i :: 0 <= i < |ds| ==> m <= ds[i]) && (exists i :: 0 <= i < |ds| && ds[i] == m)
  }

  /** The durations of a list extended by one ticket. */
  lemma DurationsSnoc(ts: seq<Ticket>, k: nat)
    requires k < |ts| && Durations(ts[..k]).Success?
    ensures Durations(ts[..k + 1]) == match TicketDuration(ts[k])
      case Failure(e) => Failure(e)
      case Success(d) => Success(Durations(ts[..k]).value + [d])
  {
    assert ts[..k + 1][..k] == ts[..k];
  }

  /** Taking a smaller duration keeps `IsMinimum` as the list grows. */
  lemma MinimumSnoc(m: nat, ds: seq<nat>, d: nat)
    requires IsMinimum(m, ds)
    ensures IsMinimum(if d < m then d else m, ds + [d])
  {
    var i :| 0 <= i < |ds| && ds[i] == m;
    assert (ds + [d])[i] == m && (ds + [d])[|ds|] == d;
  }

  /** A printed line for a group: the group's times all parse and the line,
      read back as minutes, is the least duration in the group. */
  predicate IsMinimumLine(line: HoursMinutes, group: seq<Ticket>) {
    && Durations(group).Success?
    && line.minutes < MinutesPerHour
    && IsMinimum(TotalMinutes(line), Durations(group).value)
  }

  /** The line is determined by the group: it is the split of the least
      duration, whichever ticket that duration came from. */
  lemma MinimumLineIsSplit(line: HoursMinutes, ds: seq<nat>, i: nat)
    requires line.minutes < MinutesPerHour && IsMinimum(TotalMinutes(line), ds)
    requires i < |ds| && forall j :: 0 <= j < |ds| ==> ds[i] <= ds[j]
    ensures line == Split(ds[i])
  {
    var k :| 0 <= k < |ds| && ds[k] == TotalMinutes(line);
    assert TotalMinutes(line) == ds[i];
    SplitUnique(ds[i], line);
  }

  /** Every carrier present has a non-empty group. */
  lemma CarrierGroupNonEmpty(ts: seq<Ticket>, c: string)
    requires c in Carriers(ts)
    ensures OfCarrier(ts, c) != []
  {
    var t :| t in ts && t.carrier == c;
    OfCarrierMembers(ts, c);
    assert t in OfCarrier(ts, c);
  }

  /** The loop over one carrier's tickets. `minDuration` starts as null and
      takes every strictly smaller duration; a rejected time aborts the loop
      with the first rejected string. Afterwards it is null exactly for an
      empty group, and otherwise the least duration of the group. */
  method MinDuration(group: seq<Ticket>) returns (r: Result<Option<nat>, Error>)
    ensures Durations(group).Failure? ==> r == Failure(Durations(group).error)
    ensures Durations(group).Success? ==> r.Success? && (r.value.None? <==> group == [])
    ensures r.Success? && r.value.Some? ==> IsMinimum(r.value.value, Durations(group).value)
  {
    var minDuration: Option<nat> := None;
    ghost var ds: seq<nat> := [];
    assert group[..0] == [];
    for i := 0 to |group|
      invariant Durations(group[..i]) == Success(ds)
      invariant minDuration.None? <==> i == 0
      invariant minDuration.Some? ==> IsMinimum(minDuration.value, ds)
    {
      DurationsSnoc(group, i);
      var duration := TicketDuration(group[i]);
      if duration.Failure? {
        assert Durations(group) == Failure(duration.error) by {
          DurationsPrefixFailure(group, i + 1);
        }
        return Failure(duration.error);
      }
      assert Durations(group[..i + 1]) == Success(ds + [duration.value]);
      if minDuration.None? {
        minDuration := Some(duration.value);
        assert ds == [];
        assert (ds + [duration.value])[0] == duration.value;
      } else {
        MinimumSnoc(minDuration.value, ds, duration.value);
        if duration.value < minDuration.value {
          minDuration := Some(duration.value);
        }
      }
      ds := ds + [duration.value];
    }
    assert group[..|group|] == group;
    assert Durations(group) == Success(ds);
    return Success(minDuration);
  }

  /** The `forEach` callback for one carrier: run the loop over its
      tickets and, when a minimum was found, produce the line it prints.
      A rejected time aborts with the loop's failure. */
  method CarrierLine(group: seq<Ticket>) returns (r: Result<Option<HoursMinutes>, Error>)
    ensures r.Success? <==> Durations(group).Success?
    ensures r.Failure? ==> r.error == Durations(group).error
    ensures r.Success? ==> (r.value.Some? <==> group != [])
    ensures r.Success? && r.value.Some? ==> IsMinimumLine(r.value.value, group)
  {
    var minDuration := MinDuration(group);
    if minDuration.Failure? {
      return Failure(minDuration.error);
    }
    if minDuration.value.Some? {
      return Success(Some(Split(minDuration.value.value)));
    }
    return Success(None);
  }

  /** Every line in `lines` is the minimum line of its carrier's group. */
  predicate LinesMatch(lines: map<string, HoursMinutes>, groups: map<string, seq<Ticket>>) {
    forall c :: c in lines ==> c in groups && IsMinimumLine(lines[c], groups[c])
  }

  lemma LinesMatchExtend(lines: map<string, HoursMinutes>, groups: map<string, seq<Ticket>>,
                         carrier: string, line: HoursMinutes)
    requires LinesMatch(lines, groups)
    requires carrier in groups && IsMinimumLine(line, groups[carrier])
    ensures LinesMatch(lines[carrier := line], groups)
  {
  }

  /** The whole of `calculateMinFlightTime`, with the printed lines
      collected as a map from carrier to its minimum split into hours and
      minutes. Groups are visited in no particular order (a HashMap's).
      A rejected time string anywhere aborts the computation; otherwise
      there is a line for exactly the carriers present, and each line is the
      least duration among that carrier's tickets. */
  method MinFlightTimes(tickets: seq<Ticket>) returns (r: Result<map<string, HoursMinutes>, Error>)
    ensures r.Success? <==> AllTimesParse(tickets)
    ensures r.Failure? ==>
      exists c :: c in Carriers(tickets) && Durations(OfCarrier(tickets, c)) == Failure(r.error)
    ensures r.Success? ==> r.value.Keys == Carriers(tickets)
    ensures r.Success? ==> forall c :: c in r.value ==> IsMinimumLine(r.value[c], OfCarrier(tickets, c))
  {
    var ticketsByCarrier := GroupByCarrier(tickets);
    var remaining := ticketsByCarrier.Keys;
    var lines: map<string, HoursMinutes> := map[];
    while remaining != {}
      invariant remaining <= ticketsByCarrier.Keys
      invariant lines.Keys == ticketsByCarrier.Keys - remaining
      invariant LinesMatch(lines, ticketsByCarrier)
      decreases remaining
    {
      var carrier :| carrier in remaining;
      assert ticketsByCarrier[carrier] != [] by {
        CarrierGroupNonEmpty(tickets, carrier);
      }
      var line := CarrierLine(ticketsByCarrier[carrier]);
      if line.Failure? {
        assert !AllTimesParse(tickets) by {
          GroupFailure(tickets, carrier);
        }
        return Failure(line.error);
      }
      LinesMatchExtend(lines, ticketsByCarrier, carrier, line.value.value);
      lines := lines[carrier := line.value.value];
      remaining := remaining - {carrier};
    }
    GroupsParse(tickets, ticketsByCarrier, lines);
    return Success(lines);
  }
}
