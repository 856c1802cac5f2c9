/** The route filter of `main`: keep the tickets from one origin to one destination. */
module RouteFilter {
  import opened Tickets

  /** Exact, case-sensitive match of both airport codes. */
  predicate OnRoute(t: Ticket, origin: string, destination: string) {
    t.origin == origin && t.destination == destination
  }

  /** The tickets of `ts` on the route, in their original order. */
  function FilterRoute(ts: seq<Ticket>, origin: string, destination: string): (r: seq<Ticket>)
    ensures |r| <= |ts|
    ensures forall t :: t in r <==> t in ts && OnRoute(t, origin, destination)
  {
    if ts == [] then []
    else (if OnRoute(ts[0], origin, destination) then [ts[0]] else [])
         + FilterRoute(ts[1..], origin, destination)
  }

  /** Every matching ticket is kept as often as it occurs (duplicates count
      independently); every other ticket is dropped. */
  lemma {:induction false} FilterRouteCount(ts: seq<Ticket>, origin: string, destination: string, t: Ticket)
    ensures multiset(FilterRoute(ts, origin, destination))[t]
         == if OnRoute(t, origin, destination) then multiset(ts)[t] else 0
  {
    if ts != [] {
      FilterRouteCount(ts[1..], origin, destination, t);
      assert ts == [ts[0]] + ts[1..];
    }
  }

  /** Filtering distributes over concatenation: together with the one-ticket
      case this says the relative order of the kept tickets is the input order. */
  lemma {:induction false} FilterRouteAppend(a: seq<Ticket>, b: seq<Ticket>, origin: string, destination: string)
    ensures FilterRoute(a + b, origin, destination)
         == FilterRoute(a, origin, destination) + FilterRoute(b, origin, destination)
  {
    if a == [] {
      assert a + b == b;
    } else {
      assert (a + b)[1..] == a[1..] + b;
      FilterRouteAppend(a[1..], b, origin, destination);
    }
  }

  /** A list already on the route passes through unchanged. */
  lemma {:induction false} FilterRouteKeepsMatching(ts: seq<Ticket>, origin: string, destination: string)
    requires forall i :: 0 <= i < |ts| ==> OnRoute(ts[i], origin, destination)
    ensures FilterRoute(ts, origin, destination) == ts
  {
    if ts != [] {
      FilterRouteKeepsMatching(ts[1..], origin, destination);
    }
  }

  /** Filtering twice by the same route is filtering once. */
  lemma FilterRouteIdempotent(ts: seq<Ticket>, origin: string, destination: string)
    ensures FilterRoute(FilterRoute(ts, origin, destination), origin, destination)
         == FilterRoute(ts, origin, destination)
  {
    var r := FilterRoute(ts, origin, destination);
    assert forall i :: 0 <= i < |r| ==> r[i] in r;
    FilterRouteKeepsMatching(r, origin, destination);
  }
}
