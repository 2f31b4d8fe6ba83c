/** The miqaat list page: each fetched miqaat gets a display status from its end date and
    defaults for missing fields, and the list splits into upcoming and past miqaats. */
module MiqaatsPage {
  import opened Common

  datatype Event = Event(id: int, name: string, datetime: string, location: string)

  /** A miqaat as the request returns it. `endAt` is the instant `new Date(end_date)` gives,
      `None` for an invalid date; `events` and `registrationCount` may be missing. */
  datatype Fetched = Fetched(
    id: int, name: string, description: string, startDate: string, endDate: string, endAt: Option<int>,
    location: string, status: string, events: Option<seq<Event>>, registrationCount: Option<int>)

  datatype DisplayStatus = Upcoming | Completed

  /** A miqaat as the page shows it. */
  datatype Shown = Shown(
    id: int, name: string, description: string, startDate: string, endDate: string,
    location: string, status: DisplayStatus, events: seq<Event>, registrationCount: int)

  /** `endDate < today ? 'completed' : 'upcoming'`; an invalid date compares false. */
  function StatusAt(endAt: Option<int>, now: int): (r: DisplayStatus)
    ensures r == Completed <==> endAt.Some? && endAt.value < now
  {
    if endAt.Some? && endAt.value < now then Completed else Upcoming
  }

  /** The mapping applied to each fetched miqaat. */
  function Format(m: Fetched, now: int): (r: Shown)
    ensures r.status == Completed <==> m.endAt.Some? && m.endAt.value < now
    ensures m.events.None? ==> r.events == []
    ensures m.events.Some? ==> r.events == m.events.value
    ensures m.registrationCount.None? ==> r.registrationCount == 0
    ensures m.registrationCount.Some? ==> r.registrationCount == m.registrationCount.value
    ensures r.id == m.id && r.name == m.name && r.startDate == m.startDate && r.endDate == m.endDate
    ensures r.description == m.description && r.location == m.location
  {
    Shown(m.id, m.name, m.description, m.startDate, m.endDate, m.location,
      StatusAt(m.endAt, now),
      if m.events.Some? then m.events.value else [],
      if m.registrationCount.Some? then m.registrationCount.value else 0)
  }

  /** The stored status plays no part in what is shown. */
  lemma StoredStatusDiscarded(m: Fetched, status: string, now: int)
    ensures Format(m.(status := status), now) == Format(m, now)
  {
  }

  function FormatAll(list: seq<Fetched>, now: int): (r: seq<Shown>)
    ensures |r| == |list|
    ensures forall i :: 0 <= i < |list| ==> r[i] == Format(list[i], now)
  {
    seq(|list|, i requires 0 <= i < |list| => Format(list[i], now))
  }

  predicate IsUpcoming(m: Shown)
  {
    m.status == Upcoming
  }

  predicate IsPast(m: Shown)
  {
    m.status == Completed
  }

  function UpcomingOf(shown: seq<Shown>): seq<Shown>
  {
    Filter(shown, IsUpcoming)
  }

  function PastOf(shown: seq<Shown>): seq<Shown>
  {
    Filter(shown, IsPast)
  }

  /** The upcoming and past lists split the formatted list: every miqaat lands in exactly one
      of them, as often as it occurs in the list. */
  lemma {:induction false} Partition(shown: seq<Shown>, x: Shown)
    ensures Count(UpcomingOf(shown), x) + Count(PastOf(shown), x) == Count(shown, x)
    ensures |UpcomingOf(shown)| + |PastOf(shown)| == |shown|
    ensures x in shown ==> (x in UpcomingOf(shown) <==> x !in PastOf(shown))
  {
    if shown != [] {
      Partition(shown[1..], x);
      CountZero(UpcomingOf(shown), x);
      CountZero(PastOf(shown), x);
      CountZero(shown, x);
    }
  }

  /** The two dates shown for a miqaat: one when the raw strings agree, else a range; the
      locale formatting of each date is not modelled. */
  datatype DateRange = OneDay(date: string) | Span(from: string, to: string)

  function FormatDateRange(startDate: string, endDate: string): (r: DateRange)
    ensures r.OneDay? <==> startDate == endDate
    ensures r.OneDay? ==> r.date == startDate
    ensures r.Span? ==> r.from == startDate && r.to == endDate
  {
    if startDate == endDate then OneDay(startDate) else Span(startDate, endDate)
  }

  /** `events.slice(0, 2)`, and the count of the `+ n more events` link, shown when there are
      over two events. */
  function EventPreview(events: seq<Event>): (r: (seq<Event>, Option<nat>))
    ensures |r.0| <= 2 && |r.0| <= |events| && r.0 == events[..|r.0|]
    ensures |events| <= 2 ==> r.0 == events && r.1 == None
    ensures |events| > 2 ==> |r.0| == 2 && r.1 == Some(|events| - 2)
    ensures |r.0| + (if r.1.Some? then r.1.value else 0) == |events|
  {
    if |events| <= 2 then (events, None) else (events[..2], Some(|events| - 2))
  }
}
