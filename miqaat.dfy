/** The event catalog: the `miqaats` table, its sub-events and the pure parts of the event
    controllers. Dates are day or instant numbers; the clock is a parameter. */
module Miqaat {
  import opened Common
  import opened Request

  datatype Status = Upcoming | Ongoing | Completed | Cancelled

  const Statuses: set<string> := {"upcoming", "ongoing", "completed", "cancelled"}

  function StatusOf(s: string): (st: Status)
    ensures s == "ongoing" <==> st == Ongoing
    ensures s == "completed" <==> st == Completed
    ensures s == "cancelled" <==> st == Cancelled
  {
    if s == "ongoing" then Ongoing
    else if s == "completed" then Completed
    else if s == "cancelled" then Cancelled
    else Upcoming
  }

  /** A row of the `miqaats` table; `id` is auto-incremented. */
  datatype Miqaat = Miqaat(
    id: nat,
    name: string,
    startDate: int,
    endDate: int,
    description: Option<string>,
    status: Status)

  const Fillable: set<string> := {"name", "start_date", "end_date", "description", "status"}

  /** A row of the sub-event table, owned by the miqaat `miqaatId`. */
  datatype SubEvent = SubEvent(
    id: nat,
    miqaatId: nat,
    name: string,
    datetime: int,
    location: string,
    description: Option<string>)

  /** The content columns of a sub-event, mass assignable under every reading of its model. */
  const EventFillable: set<string> := {"name", "datetime", "location", "description"}

  /** The sub-event model is not part of this model's sources, so whether its fillable list holds
      `miqaat_id`, as every other child model's list holds its parent key, is a parameter. */
  function EventMassAssignable(parentFillable: bool): (r: set<string>)
    ensures EventFillable <= r
    ensures "miqaat_id" in r <==> parentFillable
  {
    if parentFillable then EventFillable + {"miqaat_id"} else EventFillable
  }

  function Ids(rows: seq<Miqaat>): set<nat>
  {
    set m | m in rows :: m.id
  }

  function EventIds(events: seq<SubEvent>): set<nat>
  {
    set e | e in events :: e.id
  }

  /** `Miqaat::find`. */
  function Find(rows: seq<Miqaat>, id: nat): (r: Option<Miqaat>)
    ensures r.Some? <==> id in Ids(rows)
    ensures r.Some? ==> r.value in rows && r.value.id == id
  {
    if rows == [] then None
    else if rows[0].id == id then Some(rows[0])
    else
      var r := Find(rows[1..], id);
      assert Ids(rows) == {rows[0].id} + Ids(rows[1..]);
      r
  }

  // ---------------------------------------------------------------- validation

  /** The rules of `store`. */
  predicate StoreAccepted(req: Req)
  {
    && FieldOk(req, "name", true, false, StringMax(Get(req, "name"), 255))
    && FieldOk(req, "start_date", true, false, Get(req, "start_date").Date?)
    && FieldOk(req, "end_date", true, false, DateNotBefore(req, "start_date", Get(req, "end_date")))
    && FieldOk(req, "description", false, true, IsString(Get(req, "description")))
    && FieldOk(req, "status", true, false, StringIn(Get(req, "status"), Statuses))
  }

  /** `store` accepts exactly the requests with a non-blank name of at most 255 characters, two
      dates with the end not before the start (the same day is allowed), a status of the enum and
      a description that is a string or null. */
  lemma StoreAcceptedIff(req: Req)
    ensures StoreAccepted(req) <==>
      && StringMax(Get(req, "name"), 255) && !IsBlankValue(Get(req, "name"))
      && Get(req, "start_date").Date? && Get(req, "end_date").Date?
      && Get(req, "end_date").instant >= Get(req, "start_date").instant
      && StringIn(Get(req, "status"), Statuses) && !IsBlankValue(Get(req, "status"))
      && (Get(req, "description") == Null || IsString(Get(req, "description")))
  {
  }

  /** The rules of `update`: every field is optional; a status present must be of the enum, and
      an end date is compared with the start date of the same request only. */
  predicate UpdateAccepted(req: Req)
  {
    && FieldOk(req, "name", false, false, StringMax(Get(req, "name"), 255))
    && FieldOk(req, "start_date", false, false, Get(req, "start_date").Date?)
    && FieldOk(req, "end_date", false, false, DateNotBefore(req, "start_date", Get(req, "end_date")))
    && FieldOk(req, "description", false, true, IsString(Get(req, "description")))
    && FieldOk(req, "status", false, false, StringIn(Get(req, "status"), Statuses))
  }

  /** A status that is present, not blank and outside the enum is refused by `update`, and so is
      a null status. */
  lemma UpdateStatusInEnum(req: Req)
    requires UpdateAccepted(req) && "status" in req && !IsBlankValue(req["status"])
    ensures StringIn(req["status"], Statuses)
  {
  }

  // ---------------------------------------------------------------- building rows

  /** The row `Miqaat::create($request->all())` builds with the next id, `None` when a column
      cannot hold the value given. */
  function NewMiqaat(id: nat, req: Req): (r: Option<Miqaat>)
    ensures r.Some? ==> r.value.id == id
    ensures r.Some? ==> r.value.description == OptText(Get(req, "description"))
  {
    RestrictGet(req, Fillable, "description");
    var f := Restrict(req, Fillable);
    var name := Get(f, "name");
    var start := Get(f, "start_date");
    var end := Get(f, "end_date");
    var status := Get(f, "status");
    if IsString(name) && start.Date? && end.Date? && StringIn(status, Statuses) then
      Some(Miqaat(id, TextOf(name), start.instant, end.instant, OptText(Get(f, "description")),
                  StatusOf(TextOf(status))))
    else None
  }

  /** An accepted `store` request builds a row, and the row has the request's fields with the
      end not before the start. */
  lemma StoreBuilds(id: nat, req: Req)
    requires StoreAccepted(req)
    ensures NewMiqaat(id, req).Some?
    ensures var m := NewMiqaat(id, req).value;
      && m.name == TextOf(req["name"]) && |m.name| <= 255
      && m.startDate == req["start_date"].instant && m.endDate == req["end_date"].instant
      && m.startDate <= m.endDate
      && m.status == StatusOf(TextOf(req["status"]))
      && m.description == OptText(Get(req, "description"))
  {
    assert Get(Restrict(req, Fillable), "name") == req["name"];
    assert Get(Restrict(req, Fillable), "start_date") == req["start_date"];
    assert Get(Restrict(req, Fillable), "end_date") == req["end_date"];
    assert Get(Restrict(req, Fillable), "status") == req["status"];
  }

  /** A value of the fillable part of an update that a non-null column cannot hold. */
  predicate Unstorable(f: Req)
  {
    || ("name" in f && !IsString(f["name"]))
    || ("start_date" in f && !f["start_date"].Date?)
    || ("end_date" in f && !f["end_date"].Date?)
    || ("status" in f && !StringIn(f["status"], Statuses))
  }

  /** `$miqaat->update($request->all())`: each fillable field present replaces the row's with
      the request's value, the others keep theirs; `None` when a value present cannot be
      stored. */
  function ApplyUpdate(m: Miqaat, req: Req): (r: Option<Miqaat>)
    ensures r.None? <==> Unstorable(Restrict(req, Fillable))
    ensures r.Some? ==> r.value.id == m.id
    ensures r.Some? ==> (r.value.name == if "name" in req then TextOf(req["name"]) else m.name)
    ensures r.Some? ==> (r.value.startDate == if "start_date" in req then req["start_date"].instant else m.startDate)
    ensures r.Some? ==> (r.value.endDate == if "end_date" in req then req["end_date"].instant else m.endDate)
    ensures r.Some? ==> (r.value.description == if "description" in req then OptText(req["description"]) else m.description)
    ensures r.Some? ==> (r.value.status == if "status" in req then StatusOf(TextOf(req["status"])) else m.status)
    ensures req.Keys !! Fillable ==> r == Some(m)
  {
    var f := Restrict(req, Fillable);
    RestrictGet(req, Fillable, "name");
    RestrictGet(req, Fillable, "start_date");
    RestrictGet(req, Fillable, "end_date");
    RestrictGet(req, Fillable, "description");
    RestrictGet(req, Fillable, "status");
    if Unstorable(f) then None
    else
      Some(Miqaat(
        m.id,
        if "name" in f then TextOf(f["name"]) else m.name,
        if "start_date" in f then f["start_date"].instant else m.startDate,
        if "end_date" in f then f["end_date"].instant else m.endDate,
        if "description" in f then OptText(f["description"]) else m.description,
        if "status" in f then StatusOf(TextOf(f["status"])) else m.status))
  }

  /** A request key outside the fillable list has no effect on an update. */
  lemma UpdateIgnoresOtherKeys(m: Miqaat, req: Req, k: string, v: Value)
    requires k !in Fillable
    ensures ApplyUpdate(m, req[k := v]) == ApplyUpdate(m, req)
  {
    assert Restrict(req[k := v], Fillable) == Restrict(req, Fillable);
  }

  /** An accepted update that only moves the end date is compared with nothing: it can leave an
      event that ends before it starts. */
  lemma UpdateMayInvertDates()
    ensures var m := Miqaat(1, "Ashara", 10, 20, None, Upcoming);
      var req: Req := map["end_date" := Date("d", 5)];
      && UpdateAccepted(req)
      && ApplyUpdate(m, req).Some?
      && ApplyUpdate(m, req).value.endDate < ApplyUpdate(m, req).value.startDate
  {
    var req: Req := map["end_date" := Date("d", 5)];
    assert Restrict(req, Fillable) == req;
  }

  /** The table after the row `m.id` is written back as `m`. */
  function ReplaceById(rows: seq<Miqaat>, m: Miqaat): (r: seq<Miqaat>)
  {
    seq(|rows|, i requires 0 <= i < |rows| => if rows[i].id == m.id then m else rows[i])
  }

  function ReplaceEvent(events: seq<SubEvent>, e: SubEvent): (r: seq<SubEvent>)
  {
    seq(|events|, i requires 0 <= i < |events| => if events[i].id == e.id then e else events[i])
  }

  function Key(m: Miqaat): int
  {
    m.id
  }

  function EventKey(e: SubEvent): int
  {
    e.id
  }

  /** The rows a delete of miqaat `id` keeps. */
  function OtherThan(id: nat): Miqaat -> bool
  {
    (m: Miqaat) => m.id != id
  }

  /** The sub-events a delete of sub-event `id` keeps. */
  function EventOtherThan(id: nat): SubEvent -> bool
  {
    (e: SubEvent) => e.id != id
  }

  /** The sub-events the cascade from a delete of miqaat `id` keeps. */
  function EventOutside(id: nat): SubEvent -> bool
  {
    (e: SubEvent) => e.miqaatId != id
  }

  // ---------------------------------------------------------------- upcoming

  /** The `where` of `upcoming`: status upcoming, or ongoing and not yet ended. */
  predicate IsUpcoming(m: Miqaat, now: int)
  {
    m.status == Upcoming || (m.status == Ongoing && m.endDate >= now)
  }

  predicate SortedByStart(s: seq<Miqaat>)
  {
    forall i, j :: 0 <= i < j < |s| ==> s[i].startDate <= s[j].startDate
  }

  /** Inserts `m` after every row that does not start later. */
  function InsertByStart(m: Miqaat, s: seq<Miqaat>): (r: seq<Miqaat>)
    requires SortedByStart(s)
    ensures SortedByStart(r)
    ensures multiset(r) == multiset(s) + multiset{m}
  {
    if s == [] || m.startDate < s[0].startDate then
      ConsSorted(m, s);
      [m] + s
    else
      var rest := InsertByStart(m, s[1..]);
      assert s == [s[0]] + s[1..];
      StartsFrom(rest, s[1..], m, s[0].startDate);
      ConsSorted(s[0], rest);
      [s[0]] + rest
  }

  /** A row put in front of sorted rows that start no earlier keeps them sorted. */
  lemma ConsSorted(x: Miqaat, s: seq<Miqaat>)
    requires SortedByStart(s)
    requires s != [] ==> x.startDate <= s[0].startDate
    ensures SortedByStart([x] + s)
  {
    var r := [x] + s;
    forall i, j | 0 <= i < j < |r| ensures r[i].startDate <= r[j].startDate {
      if i > 0 {
        assert r[i] == s[i - 1] && r[j] == s[j - 1];
      } else {
        assert r[j] == s[j - 1];
        assert s[0].startDate <= s[j - 1].startDate;
      }
    }
  }

  /** A sequence whose elements are those of `t` and `m`, all starting at `b` or later. */
  lemma StartsFrom(rest: seq<Miqaat>, t: seq<Miqaat>, m: Miqaat, b: int)
    requires multiset(rest) == multiset(t) + multiset{m}
    requires m.startDate >= b && forall k :: 0 <= k < |t| ==> t[k].startDate >= b
    ensures forall k :: 0 <= k < |rest| ==> rest[k].startDate >= b
  {
    forall k | 0 <= k < |rest| ensures rest[k].startDate >= b {
      assert rest[k] in multiset(rest);
      if rest[k] != m {
        assert rest[k] in multiset(t);
        var j :| 0 <= j < |t| && t[j] == rest[k];
      }
    }
  }

  /** `orderBy('start_date', 'asc')`. */
  function SortByStart(s: seq<Miqaat>): (r: seq<Miqaat>)
    ensures SortedByStart(r)
    ensures multiset(r) == multiset(s)
  {
    if s == [] then []
    else
      assert s == [s[0]] + s[1..];
      InsertByStart(s[0], SortByStart(s[1..]))
  }

  /** `upcoming`: the matching rows ascending by start date. */
  function UpcomingList(rows: seq<Miqaat>, now: int): (r: seq<Miqaat>)
    ensures SortedByStart(r)
    ensures multiset(r) == multiset(Filter(rows, (m: Miqaat) => IsUpcoming(m, now)))
  {
    SortByStart(Filter(rows, (m: Miqaat) => IsUpcoming(m, now)))
  }

  /** The rows of `upcoming` are exactly the upcoming rows and the ongoing rows not yet ended; a
      completed or cancelled event never appears. */
  lemma UpcomingMembers(rows: seq<Miqaat>, now: int, m: Miqaat)
    ensures m in UpcomingList(rows, now) <==>
      m in rows && (m.status == Upcoming || (m.status == Ongoing && m.endDate >= now))
    ensures m.status == Completed || m.status == Cancelled ==> m !in UpcomingList(rows, now)
  {
    var r := UpcomingList(rows, now);
    var f := Filter(rows, (x: Miqaat) => IsUpcoming(x, now));
    assert m in r <==> m in multiset(r);
    assert m in f <==> m in multiset(f);
  }

  // ---------------------------------------------------------------- sub-events

  /** The sub-events of miqaat `id` (`where('miqaat_id', $id)` and the `events` relation). */
  function EventsOf(events: seq<SubEvent>, id: nat): (r: seq<SubEvent>)
    ensures forall e :: e in r <==> e in events && e.miqaatId == id
    ensures IsSubsequence(r, events)
  {
    Filter(events, (e: SubEvent) => e.miqaatId == id)
  }

  /** `withEvents`. */
  function WithEvents(rows: seq<Miqaat>, events: seq<SubEvent>, id: nat): (r: Response<(Miqaat, seq<SubEvent>)>)
    ensures r.NotFound? <==> id !in Ids(rows)
    ensures r.Ok? || r.NotFound?
    ensures r.Ok? ==> r.value.0 in rows && r.value.0.id == id
    ensures r.Ok? ==> forall e :: e in r.value.1 <==> e in events && e.miqaatId == id
  {
    match Find(rows, id)
    case None => NotFound
    case Some(m) => Ok((m, EventsOf(events, id)))
  }

  /** The sub-event index of miqaat `id`: "not found" when the parent is absent. */
  function EventIndex(rows: seq<Miqaat>, events: seq<SubEvent>, id: nat): (r: Response<seq<SubEvent>>)
    ensures r.NotFound? <==> id !in Ids(rows)
    ensures r.Ok? || r.NotFound?
    ensures r.Ok? ==> forall e :: e in r.value <==> e in events && e.miqaatId == id
  {
    if id !in Ids(rows) then NotFound else Ok(EventsOf(events, id))
  }

  /** `where('id', $id)->where('miqaat_id', $miqaatId)->first()`: the sub-event `id` only when
      it belongs to `miqaatId`. */
  function FindScoped(events: seq<SubEvent>, miqaatId: nat, id: nat): (r: Option<SubEvent>)
    ensures r.Some? <==> exists e :: e in events && e.id == id && e.miqaatId == miqaatId
    ensures r.Some? ==> r.value in events && r.value.id == id && r.value.miqaatId == miqaatId
  {
    if events == [] then None
    else if events[0].id == id && events[0].miqaatId == miqaatId then Some(events[0])
    else
      var r := FindScoped(events[1..], miqaatId, id);
      assert forall e :: e in events <==> e == events[0] || e in events[1..];
      r
  }

  /** A sub-event reached through a parent other than its own is not found. */
  lemma NoCrossParentAccess(events: seq<SubEvent>, e: SubEvent, other: nat)
    requires e in events && other != e.miqaatId
    requires forall x :: x in events && x.id == e.id ==> x == e
    ensures FindScoped(events, other, e.id).None?
  {
  }

  /** The rules of the sub-event `store`. */
  predicate EventStoreAccepted(req: Req)
  {
    && FieldOk(req, "name", true, false, StringMax(Get(req, "name"), 255))
    && FieldOk(req, "datetime", true, false, Get(req, "datetime").Date?)
    && FieldOk(req, "location", true, false, StringMax(Get(req, "location"), 255))
    && FieldOk(req, "description", false, true, IsString(Get(req, "description")))
  }

  /** The rules of the sub-event `update`: every field optional. */
  predicate EventUpdateAccepted(req: Req)
  {
    && FieldOk(req, "name", false, false, StringMax(Get(req, "name"), 255))
    && FieldOk(req, "datetime", false, false, Get(req, "datetime").Date?)
    && FieldOk(req, "location", false, false, StringMax(Get(req, "location"), 255))
    && FieldOk(req, "description", false, true, IsString(Get(req, "description")))
  }

  /** `new MiqaatEvent($request->all())` followed by `miqaat_id = $miqaatId`: the parent is the
      path's, whatever the body says. */
  function NewSubEvent(id: nat, miqaatId: nat, parentFillable: bool, req: Req): (r: Option<SubEvent>)
    ensures r.Some? ==> r.value.id == id && r.value.miqaatId == miqaatId
    ensures EventStoreAccepted(req) ==> r.Some?
    ensures EventStoreAccepted(req) ==> r.value.name == TextOf(req["name"]) && r.value.location == TextOf(req["location"])
    ensures EventStoreAccepted(req) ==> r.value.datetime == req["datetime"].instant
    ensures r.Some? ==> r.value.description == OptText(Get(req, "description"))
  {
    var fillable := EventMassAssignable(parentFillable);
    var f := Restrict(req, fillable);
    RestrictGet(req, fillable, "name");
    RestrictGet(req, fillable, "datetime");
    RestrictGet(req, fillable, "location");
    RestrictGet(req, fillable, "description");
    var name := Get(f, "name");
    var dt := Get(f, "datetime");
    var loc := Get(f, "location");
    if IsString(name) && dt.Date? && IsString(loc) then
      Some(SubEvent(id, miqaatId, TextOf(name), dt.instant, TextOf(loc), OptText(Get(f, "description"))))
    else None
  }

  /** A `miqaat_id` in the body has no effect on the sub-event created, whether or not the model
      lists it as fillable. */
  lemma NewSubEventIgnoresBodyParent(id: nat, miqaatId: nat, parentFillable: bool, req: Req, v: Value)
    ensures NewSubEvent(id, miqaatId, parentFillable, req["miqaat_id" := v]) == NewSubEvent(id, miqaatId, parentFillable, req)
    ensures NewSubEvent(id, miqaatId, true, req) == NewSubEvent(id, miqaatId, false, req)
  {
    var req' := req["miqaat_id" := v];
    var fillable := EventMassAssignable(parentFillable);
    RestrictGet(req', fillable, "name");
    RestrictGet(req', fillable, "datetime");
    RestrictGet(req', fillable, "location");
    RestrictGet(req', fillable, "description");
    assert Get(req', "name") == Get(req, "name") && Get(req', "datetime") == Get(req, "datetime");
    assert Get(req', "location") == Get(req, "location") && Get(req', "description") == Get(req, "description");
  }

  /** A value of the mass-assigned part of a sub-event update that its column cannot hold; a
      parent key must name an id. */
  predicate EventUnstorable(f: Req)
  {
    || ("name" in f && !IsString(f["name"]))
    || ("datetime" in f && !f["datetime"].Date?)
    || ("location" in f && !IsString(f["location"]))
    || ("miqaat_id" in f && AsId(f["miqaat_id"]).None?)
  }

  /** `$event->update($request->all())`: each mass-assignable field present replaces the row's
      with the request's value. The parent changes only when `miqaat_id` is fillable and the
      request carries it; the update rules do not look at it. */
  function ApplyEventUpdate(e: SubEvent, parentFillable: bool, req: Req): (r: Option<SubEvent>)
    ensures r.None? <==> EventUnstorable(Restrict(req, EventMassAssignable(parentFillable)))
    ensures r.Some? ==> r.value.id == e.id
    ensures r.Some? ==> (Some(r.value.miqaatId) ==
      if parentFillable && "miqaat_id" in req then AsId(req["miqaat_id"]) else Some(e.miqaatId))
    ensures r.Some? ==> (r.value.name == if "name" in req then TextOf(req["name"]) else e.name)
    ensures r.Some? ==> (r.value.datetime == if "datetime" in req then req["datetime"].instant else e.datetime)
    ensures r.Some? ==> (r.value.location == if "location" in req then TextOf(req["location"]) else e.location)
    ensures r.Some? ==> (r.value.description == if "description" in req then OptText(req["description"]) else e.description)
    ensures req.Keys !! EventMassAssignable(parentFillable) ==> r == Some(e)
  {
    var fillable := EventMassAssignable(parentFillable);
    var f := Restrict(req, fillable);
    RestrictGet(req, fillable, "name");
    RestrictGet(req, fillable, "datetime");
    RestrictGet(req, fillable, "location");
    RestrictGet(req, fillable, "description");
    assert "miqaat_id" in f <==> parentFillable && "miqaat_id" in req;
    if EventUnstorable(f) then None
    else
      Some(SubEvent(
        e.id,
        if "miqaat_id" in f then AsId(f["miqaat_id"]).value else e.miqaatId,
        if "name" in f then TextOf(f["name"]) else e.name,
        if "datetime" in f then f["datetime"].instant else e.datetime,
        if "location" in f then TextOf(f["location"]) else e.location,
        if "description" in f then OptText(f["description"]) else e.description))
  }

  /** A request key outside the mass-assignable list has no effect on a sub-event update. */
  lemma EventUpdateIgnoresOtherKeys(e: SubEvent, parentFillable: bool, req: Req, k: string, v: Value)
    requires k !in EventMassAssignable(parentFillable)
    ensures ApplyEventUpdate(e, parentFillable, req[k := v]) == ApplyEventUpdate(e, parentFillable, req)
  {
    var fillable := EventMassAssignable(parentFillable);
    assert Restrict(req[k := v], fillable) == Restrict(req, fillable);
  }

  /** With `miqaat_id` fillable, a request the update rules accept moves a sub-event to another
      miqaat; with it not fillable the same request changes nothing. */
  lemma EventUpdateMayMoveParent(e: SubEvent, other: nat)
    requires other != e.miqaatId
    ensures var req := map["miqaat_id" := Int(other)];
      && EventUpdateAccepted(req)
      && ApplyEventUpdate(e, true, req) == Some(e.(miqaatId := other))
      && ApplyEventUpdate(e, false, req) == Some(e)
  {
    var req := map["miqaat_id" := Int(other)];
    assert req.Keys !! EventMassAssignable(false);
    var u := ApplyEventUpdate(e, true, req);
    assert !EventUnstorable(Restrict(req, EventMassAssignable(true)));
    assert u.Some? && u.value.miqaatId == other;
  }
}
