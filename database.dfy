/** The four tables the controllers write and the constraints the schema enforces on them. Each
    write builds the state the statement would leave, and the store keeps it only when the
    constraints hold; otherwise the write fails and nothing changes. */
module Database {
  import opened Common
  import opened Request
  import Mumineen
  import Accommodation
  import Miqaat

  /** The primary key and the self foreign key of `mumineen`, the two foreign keys of
      `accommodations` and the parent key of the sub-events. */
  predicate Consistent(
    members: seq<Mumineen.Member>,
    accommodations: seq<Accommodation.Accommodation>,
    miqaats: seq<Miqaat.Miqaat>,
    events: seq<Miqaat.SubEvent>)
  {
    && Mumineen.UniqueKeys(members) && Mumineen.LinksResolve(members)
    && (forall a :: a in accommodations ==> a.itsId in Mumineen.Keys(members) && a.miqaatId in Miqaat.Ids(miqaats))
    && (forall e :: e in events ==> e.miqaatId in Miqaat.Ids(miqaats))
  }

  predicate ValidState(
    members: seq<Mumineen.Member>,
    accommodations: seq<Accommodation.Accommodation>, nextAccommodationId: nat,
    miqaats: seq<Miqaat.Miqaat>, nextMiqaatId: nat,
    events: seq<Miqaat.SubEvent>, nextEventId: nat)
  {
    && Consistent(members, accommodations, miqaats, events)
    && IncreasingBy(accommodations, Accommodation.Key)
    && (forall a :: a in accommodations ==> a.id < nextAccommodationId)
    && IncreasingBy(miqaats, Miqaat.Key)
    && (forall m :: m in miqaats ==> m.id < nextMiqaatId)
    && IncreasingBy(events, Miqaat.EventKey)
    && (forall e :: e in events ==> e.id < nextEventId)
  }

  class Database {
    var members: seq<Mumineen.Member>
    var accommodations: seq<Accommodation.Accommodation>
    var nextAccommodationId: nat
    var miqaats: seq<Miqaat.Miqaat>
    var nextMiqaatId: nat
    var events: seq<Miqaat.SubEvent>
    var nextEventId: nat
    /** Whether the sub-event model mass-assigns `miqaat_id`. */
    const parentFillable: bool

    /** The constraints, and auto-increment ids that grow in storage order and stay below the
        next id to be handed out. */
    predicate Valid()
      reads this
    {
      ValidState(members, accommodations, nextAccommodationId, miqaats, nextMiqaatId, events, nextEventId)
    }

    constructor (parentFillable: bool)
      ensures Valid() && this.parentFillable == parentFillable
      ensures members == [] && accommodations == [] && miqaats == [] && events == []
    {
      this.parentFillable := parentFillable;
      members := [];
      accommodations := [];
      nextAccommodationId := 1;
      miqaats := [];
      nextMiqaatId := 1;
      events := [];
      nextEventId := 1;
    }

    // ------------------------------------------------------------ members

    /** `MumineenController::store`. */
    method StoreMember(req: Req) returns (r: Response<Mumineen.Member>)
      requires Valid()
      modifies this
      ensures Valid()
      ensures r.Ok? || r.Invalid? || r.Failed?
      ensures r.Invalid? <==> !Mumineen.StoreAccepted(old(members), req)
      ensures r.Ok? ==> r.value == Mumineen.NewMember(req) && members == old(members) + [r.value]
      ensures !r.Ok? ==> members == old(members)
      ensures (&& Mumineen.StoreAccepted(old(members), req) && !IsBlankValue(Get(req, "hof_its_id"))
               && !Mumineen.Unstorable(Restrict(req, Mumineen.Fillable))) ==> r.Ok?
      ensures accommodations == old(accommodations) && miqaats == old(miqaats) && events == old(events)
      ensures nextAccommodationId == old(nextAccommodationId) && nextMiqaatId == old(nextMiqaatId) && nextEventId == old(nextEventId)
    {
      if !Mumineen.StoreAccepted(members, req) {
        return Invalid;
      }
      if Mumineen.Unstorable(Restrict(req, Mumineen.Fillable)) {
        return Failed;
      }
      var m := Mumineen.NewMember(req);
      var candidate := members + [m];
      if !IsBlankValue(Get(req, "hof_its_id")) {
        Mumineen.StoreKeepsKeys(members, req);
        assert Mumineen.Keys(candidate) == Mumineen.Keys(members) + {m.itsId};
      }
      if !Consistent(candidate, accommodations, miqaats, events) {
        return Failed;
      }
      members := candidate;
      r := Ok(m);
    }

    /** `MumineenController::update`. A change of the key that leaves a link or an accommodation
        pointing at the old key breaks a foreign key and fails. */
    method UpdateMember(id: string, req: Req) returns (r: Response<Mumineen.Member>)
      requires Valid()
      modifies this
      ensures Valid()
      ensures r.Ok? || r.NotFound? || r.Invalid? || r.Failed?
      ensures r.NotFound? <==> id !in Mumineen.Keys(old(members))
      ensures r.Invalid? <==> id in Mumineen.Keys(old(members)) && !Mumineen.UpdateAccepted(old(members), id, req)
      ensures r.Ok? ==>
        && Some(r.value) == Mumineen.ApplyUpdate(Mumineen.Find(old(members), id).value, req)
        && members == Mumineen.ReplaceRow(old(members), id, r.value)
      ensures !r.Ok? ==> members == old(members)
      ensures (&& id in Mumineen.Keys(old(members)) && Mumineen.UpdateAccepted(old(members), id, req)
               && !IsBlankValue(Get(req, "hof_its_id"))
               && Mumineen.ApplyUpdate(Mumineen.Find(old(members), id).value, req).Some?
               && Mumineen.ApplyUpdate(Mumineen.Find(old(members), id).value, req).value.itsId == id) ==> r.Ok?
      ensures accommodations == old(accommodations) && miqaats == old(miqaats) && events == old(events)
      ensures nextAccommodationId == old(nextAccommodationId) && nextMiqaatId == old(nextMiqaatId) && nextEventId == old(nextEventId)
    {
      var found := Mumineen.Find(members, id);
      if found.None? {
        return NotFound;
      }
      if !Mumineen.UpdateAccepted(members, id, req) {
        return Invalid;
      }
      var updated := Mumineen.ApplyUpdate(found.value, req);
      if updated.None? {
        return Failed;
      }
      var candidate := Mumineen.ReplaceRow(members, id, updated.value);
      if !IsBlankValue(Get(req, "hof_its_id")) && updated.value.itsId == id {
        Mumineen.UpdateKeepsKeys(members, id, req, updated.value);
      }
      if !Consistent(candidate, accommodations, miqaats, events) {
        return Failed;
      }
      members := candidate;
      r := Ok(updated.value);
    }

    /** `MumineenController::destroy`: "not found" for an absent key; a failure, with nothing
        changed, while an accommodation names the member; otherwise the row goes and every link
        to it becomes null. */
    method DestroyMember(id: string) returns (r: Response<()>)
      requires Valid()
      modifies this
      ensures Valid()
      ensures r.Ok? || r.NotFound? || r.Failed?
      ensures r.NotFound? <==> id !in Mumineen.Keys(old(members))
      ensures r.Failed? <==> id in Mumineen.Keys(old(members)) && exists a :: a in old(accommodations) && a.itsId == id
      ensures r.Ok? ==> members == Mumineen.DeleteRow(old(members), id)
      ensures !r.Ok? ==> members == old(members)
      ensures accommodations == old(accommodations) && miqaats == old(miqaats) && events == old(events)
      ensures nextAccommodationId == old(nextAccommodationId) && nextMiqaatId == old(nextMiqaatId) && nextEventId == old(nextEventId)
    {
      if id !in Mumineen.Keys(members) {
        return NotFound;
      }
      if exists a :: a in accommodations && a.itsId == id {
        return Failed;
      }
      Mumineen.DeleteRowUnique(members, id);
      Mumineen.DeleteRowLinks(members, id);
      members := Mumineen.DeleteRow(members, id);
      r := Ok(());
    }

    // ------------------------------------------------------------ accommodations

    /** `AccommodationController::store`. The member must exist in the member table, whatever
        the abstract `exists` rule said. */
    method StoreAccommodation(inMumineens: string -> bool, req: Req) returns (r: Response<Accommodation.Accommodation>)
      requires Valid()
      modifies this
      ensures Valid()
      ensures r.Ok? || r.Invalid? || r.Failed?
      ensures r.Invalid? <==> !Accommodation.StoreAccepted(Miqaat.Ids(old(miqaats)), inMumineens, req)
      ensures r.Ok? ==>
        && Some(r.value) == Accommodation.NewAccommodation(old(nextAccommodationId), req)
        && accommodations == old(accommodations) + [r.value]
        && nextAccommodationId == old(nextAccommodationId) + 1
        && r.value.checkIn <= r.value.checkOut
      ensures !r.Ok? ==> accommodations == old(accommodations) && nextAccommodationId == old(nextAccommodationId)
      ensures (&& Accommodation.StoreAccepted(Miqaat.Ids(old(miqaats)), inMumineens, req)
               && TextOf(req["its_id"]) in Mumineen.Keys(old(members))) ==> r.Ok?
      ensures members == old(members) && miqaats == old(miqaats) && events == old(events)
      ensures nextMiqaatId == old(nextMiqaatId) && nextEventId == old(nextEventId)
    {
      if !Accommodation.StoreAccepted(Miqaat.Ids(miqaats), inMumineens, req) {
        return Invalid;
      }
      Accommodation.StoreBuilds(Miqaat.Ids(miqaats), inMumineens, nextAccommodationId, req);
      var a := Accommodation.NewAccommodation(nextAccommodationId, req).value;
      if a.itsId !in Mumineen.Keys(members) {
        return Failed;
      }
      accommodations := accommodations + [a];
      nextAccommodationId := nextAccommodationId + 1;
      r := Ok(a);
    }

    /** `AccommodationController::update`. */
    method UpdateAccommodation(inMumineens: string -> bool, id: nat, req: Req) returns (r: Response<Accommodation.Accommodation>)
      requires Valid()
      modifies this
      ensures Valid()
      ensures r.Ok? || r.NotFound? || r.Invalid? || r.Failed?
      ensures r.NotFound? <==> id !in Accommodation.Ids(old(accommodations))
      ensures r.Invalid? <==>
        (id in Accommodation.Ids(old(accommodations)) && !Accommodation.UpdateAccepted(Miqaat.Ids(old(miqaats)), inMumineens, req))
      ensures r.Ok? ==>
        && Some(r.value) == Accommodation.ApplyUpdate(Accommodation.Find(old(accommodations), id).value, req)
        && accommodations == Accommodation.ReplaceById(old(accommodations), r.value)
      ensures !r.Ok? ==> accommodations == old(accommodations)
      ensures members == old(members) && miqaats == old(miqaats) && events == old(events)
      ensures nextAccommodationId == old(nextAccommodationId) && nextMiqaatId == old(nextMiqaatId) && nextEventId == old(nextEventId)
    {
      var found := Accommodation.Find(accommodations, id);
      if found.None? {
        return NotFound;
      }
      if !Accommodation.UpdateAccepted(Miqaat.Ids(miqaats), inMumineens, req) {
        return Invalid;
      }
      var updated := Accommodation.ApplyUpdate(found.value, req);
      if updated.None? {
        return Failed;
      }
      var a := updated.value;
      if a.itsId !in Mumineen.Keys(members) || a.miqaatId !in Miqaat.Ids(miqaats) {
        return Failed;
      }
      var candidate := Accommodation.ReplaceById(accommodations, a);
      forall x | x in candidate ensures x == a || x in accommodations {
        var i :| 0 <= i < |candidate| && candidate[i] == x;
      }
      accommodations := candidate;
      r := Ok(a);
    }

    /** `AccommodationController::destroy`. */
    method DestroyAccommodation(id: nat) returns (r: Response<()>)
      requires Valid()
      modifies this
      ensures Valid()
      ensures r.Ok? || r.NotFound?
      ensures r.NotFound? <==> id !in Accommodation.Ids(old(accommodations))
      ensures r.Ok? ==> accommodations == Filter(old(accommodations), Accommodation.OtherThan(id))
      ensures id !in Accommodation.Ids(accommodations)
      ensures !r.Ok? ==> accommodations == old(accommodations)
      ensures members == old(members) && miqaats == old(miqaats) && events == old(events)
      ensures nextAccommodationId == old(nextAccommodationId) && nextMiqaatId == old(nextMiqaatId) && nextEventId == old(nextEventId)
    {
      if id !in Accommodation.Ids(accommodations) {
        return NotFound;
      }
      var keep := Accommodation.OtherThan(id);
      FilterIncreasing(accommodations, keep, Accommodation.Key);
      accommodations := Filter(accommodations, keep);
      r := Ok(());
    }

    // ------------------------------------------------------------ miqaats

    /** `MiqaatController::store`. */
    method StoreMiqaat(req: Req) returns (r: Response<Miqaat.Miqaat>)
      requires Valid()
      modifies this
      ensures Valid()
      ensures r.Ok? || r.Invalid?
      ensures r.Invalid? <==> !Miqaat.StoreAccepted(req)
      ensures r.Ok? ==>
        && Some(r.value) == Miqaat.NewMiqaat(old(nextMiqaatId), req)
        && miqaats == old(miqaats) + [r.value]
        && nextMiqaatId == old(nextMiqaatId) + 1
        && r.value.startDate <= r.value.endDate
      ensures !r.Ok? ==> miqaats == old(miqaats) && nextMiqaatId == old(nextMiqaatId)
      ensures members == old(members) && accommodations == old(accommodations) && events == old(events)
      ensures nextAccommodationId == old(nextAccommodationId) && nextEventId == old(nextEventId)
    {
      if !Miqaat.StoreAccepted(req) {
        return Invalid;
      }
      Miqaat.StoreBuilds(nextMiqaatId, req);
      var m := Miqaat.NewMiqaat(nextMiqaatId, req).value;
      miqaats := miqaats + [m];
      nextMiqaatId := nextMiqaatId + 1;
      r := Ok(m);
    }

    /** `MiqaatController::update`. */
    method UpdateMiqaat(id: nat, req: Req) returns (r: Response<Miqaat.Miqaat>)
      requires Valid()
      modifies this
      ensures Valid()
      ensures r.Ok? || r.NotFound? || r.Invalid? || r.Failed?
      ensures r.NotFound? <==> id !in Miqaat.Ids(old(miqaats))
      ensures r.Invalid? <==> id in Miqaat.Ids(old(miqaats)) && !Miqaat.UpdateAccepted(req)
      ensures r.Ok? ==>
        && Some(r.value) == Miqaat.ApplyUpdate(Miqaat.Find(old(miqaats), id).value, req)
        && miqaats == Miqaat.ReplaceById(old(miqaats), r.value)
      ensures !r.Ok? ==> miqaats == old(miqaats)
      ensures members == old(members) && accommodations == old(accommodations) && events == old(events)
      ensures nextAccommodationId == old(nextAccommodationId) && nextMiqaatId == old(nextMiqaatId) && nextEventId == old(nextEventId)
    {
      var found := Miqaat.Find(miqaats, id);
      if found.None? {
        return NotFound;
      }
      if !Miqaat.UpdateAccepted(req) {
        return Invalid;
      }
      var updated := Miqaat.ApplyUpdate(found.value, req);
      if updated.None? {
        return Failed;
      }
      var m := updated.value;
      var candidate := Miqaat.ReplaceById(miqaats, m);
      ReplaceMiqaatKeeps(miqaats, m);
      miqaats := candidate;
      r := Ok(m);
    }

    /** `MiqaatController::destroy`: the event goes, and by the cascades so do its
        accommodations and its sub-events, and nothing else. */
    method DestroyMiqaat(id: nat) returns (r: Response<()>)
      requires Valid()
      modifies this
      ensures Valid()
      ensures r.Ok? || r.NotFound?
      ensures r.NotFound? <==> id !in Miqaat.Ids(old(miqaats))
      ensures r.Ok? ==>
        && miqaats == Filter(old(miqaats), Miqaat.OtherThan(id))
        && accommodations == Filter(old(accommodations), Accommodation.OutsideMiqaat(id))
        && events == Filter(old(events), Miqaat.EventOutside(id))
      ensures !r.Ok? ==> miqaats == old(miqaats) && accommodations == old(accommodations) && events == old(events)
      ensures members == old(members)
      ensures nextAccommodationId == old(nextAccommodationId) && nextMiqaatId == old(nextMiqaatId) && nextEventId == old(nextEventId)
    {
      if id !in Miqaat.Ids(miqaats) {
        return NotFound;
      }
      CascadeValid(members, accommodations, nextAccommodationId, miqaats, nextMiqaatId, events, nextEventId, id);
      miqaats := Filter(miqaats, Miqaat.OtherThan(id));
      accommodations := Filter(accommodations, Accommodation.OutsideMiqaat(id));
      events := Filter(events, Miqaat.EventOutside(id));
      r := Ok(());
    }

    // ------------------------------------------------------------ sub-events

    /** `MiqaatEventController::store`: the parent comes from the path. */
    method StoreSubEvent(miqaatId: nat, req: Req) returns (r: Response<Miqaat.SubEvent>)
      requires Valid()
      modifies this
      ensures Valid()
      ensures r.Ok? || r.NotFound? || r.Invalid?
      ensures r.NotFound? <==> miqaatId !in Miqaat.Ids(old(miqaats))
      ensures r.Invalid? <==> miqaatId in Miqaat.Ids(old(miqaats)) && !Miqaat.EventStoreAccepted(req)
      ensures r.Ok? ==>
        && Some(r.value) == Miqaat.NewSubEvent(old(nextEventId), miqaatId, parentFillable, req)
        && r.value.miqaatId == miqaatId
        && events == old(events) + [r.value]
        && nextEventId == old(nextEventId) + 1
      ensures !r.Ok? ==> events == old(events) && nextEventId == old(nextEventId)
      ensures members == old(members) && accommodations == old(accommodations) && miqaats == old(miqaats)
      ensures nextAccommodationId == old(nextAccommodationId) && nextMiqaatId == old(nextMiqaatId)
    {
      if miqaatId !in Miqaat.Ids(miqaats) {
        return NotFound;
      }
      if !Miqaat.EventStoreAccepted(req) {
        return Invalid;
      }
      var e := Miqaat.NewSubEvent(nextEventId, miqaatId, parentFillable, req).value;
      events := events + [e];
      nextEventId := nextEventId + 1;
      r := Ok(e);
    }

    /** `MiqaatEventController::update`: found only under its own parent. When the model
        mass-assigns `miqaat_id`, the update can move the sub-event; a move to a miqaat that does
        not exist breaks the parent key and fails. */
    method UpdateSubEvent(miqaatId: nat, id: nat, req: Req) returns (r: Response<Miqaat.SubEvent>)
      requires Valid()
      modifies this
      ensures Valid()
      ensures r.Ok? || r.NotFound? || r.Invalid? || r.Failed?
      ensures r.NotFound? <==> Miqaat.FindScoped(old(events), miqaatId, id).None?
      ensures r.Invalid? <==> Miqaat.FindScoped(old(events), miqaatId, id).Some? && !Miqaat.EventUpdateAccepted(req)
      ensures r.Failed? <==>
        && Miqaat.FindScoped(old(events), miqaatId, id).Some? && Miqaat.EventUpdateAccepted(req)
        && var u := Miqaat.ApplyEventUpdate(Miqaat.FindScoped(old(events), miqaatId, id).value, parentFillable, req);
           u.None? || u.value.miqaatId !in Miqaat.Ids(old(miqaats))
      ensures r.Ok? ==>
        && Some(r.value) == Miqaat.ApplyEventUpdate(Miqaat.FindScoped(old(events), miqaatId, id).value, parentFillable, req)
        && r.value.miqaatId in Miqaat.Ids(old(miqaats))
        && events == Miqaat.ReplaceEvent(old(events), r.value)
      ensures r.Ok? && !parentFillable ==> r.value.miqaatId == miqaatId
      ensures !r.Ok? ==> events == old(events)
      ensures members == old(members) && accommodations == old(accommodations) && miqaats == old(miqaats)
      ensures nextAccommodationId == old(nextAccommodationId) && nextMiqaatId == old(nextMiqaatId) && nextEventId == old(nextEventId)
    {
      var found := Miqaat.FindScoped(events, miqaatId, id);
      if found.None? {
        return NotFound;
      }
      if !Miqaat.EventUpdateAccepted(req) {
        return Invalid;
      }
      var updated := Miqaat.ApplyEventUpdate(found.value, parentFillable, req);
      if updated.None? || updated.value.miqaatId !in Miqaat.Ids(miqaats) {
        return Failed;
      }
      var e := updated.value;
      var candidate := Miqaat.ReplaceEvent(events, e);
      forall x | x in candidate ensures x == e || x in events {
        var i :| 0 <= i < |candidate| && candidate[i] == x;
      }
      events := candidate;
      r := Ok(e);
    }

    /** `MiqaatEventController::destroy`: found only under its own parent. */
    method DestroySubEvent(miqaatId: nat, id: nat) returns (r: Response<()>)
      requires Valid()
      modifies this
      ensures Valid()
      ensures r.Ok? || r.NotFound?
      ensures r.NotFound? <==> Miqaat.FindScoped(old(events), miqaatId, id).None?
      ensures r.Ok? ==> events == Filter(old(events), Miqaat.EventOtherThan(id))
      ensures !r.Ok? ==> events == old(events)
      ensures members == old(members) && accommodations == old(accommodations) && miqaats == old(miqaats)
      ensures nextAccommodationId == old(nextAccommodationId) && nextMiqaatId == old(nextMiqaatId) && nextEventId == old(nextEventId)
    {
      if Miqaat.FindScoped(events, miqaatId, id).None? {
        return NotFound;
      }
      var keep := Miqaat.EventOtherThan(id);
      FilterIncreasing(events, keep, Miqaat.EventKey);
      events := Filter(events, keep);
      r := Ok(());
    }
  
  }

  /** Writing a miqaat back under its own id keeps the ids of the table. */
  lemma ReplaceMiqaatKeeps(miqaats: seq<Miqaat.Miqaat>, m: Miqaat.Miqaat)
    requires m.id in Miqaat.Ids(miqaats) && IncreasingBy(miqaats, Miqaat.Key)
    ensures Miqaat.Ids(Miqaat.ReplaceById(miqaats, m)) == Miqaat.Ids(miqaats)
    ensures IncreasingBy(Miqaat.ReplaceById(miqaats, m), Miqaat.Key)
    ensures forall x :: x in Miqaat.ReplaceById(miqaats, m) ==> x == m || x in miqaats
  {
    var candidate := Miqaat.ReplaceById(miqaats, m);
    forall k | k in Miqaat.Ids(miqaats) ensures k in Miqaat.Ids(candidate) {
      var x :| x in miqaats && x.id == k;
      var i :| 0 <= i < |miqaats| && miqaats[i] == x;
      assert candidate[i].id == k;
    }
    forall x | x in candidate ensures x == m || x in miqaats {
      var i :| 0 <= i < |candidate| && candidate[i] == x;
    }
  }

  /** Deleting a miqaat with its accommodations and sub-events keeps every constraint. */
  lemma CascadeConsistent(
    members: seq<Mumineen.Member>,
    accommodations: seq<Accommodation.Accommodation>,
    miqaats: seq<Miqaat.Miqaat>,
    events: seq<Miqaat.SubEvent>,
    id: nat)
    requires Consistent(members, accommodations, miqaats, events)
    ensures Consistent(members,
                       Filter(accommodations, Accommodation.OutsideMiqaat(id)),
                       Filter(miqaats, Miqaat.OtherThan(id)),
                       Filter(events, Miqaat.EventOutside(id)))
  {
    var ms := Filter(miqaats, Miqaat.OtherThan(id));
    forall k | k in Miqaat.Ids(miqaats) && k != id ensures k in Miqaat.Ids(ms) {
      var x :| x in miqaats && x.id == k;
      var i :| 0 <= i < |miqaats| && miqaats[i] == x;
      assert miqaats[i] in ms;
    }
  }

  /** The state `MiqaatController::destroy` leaves is valid. */
  lemma CascadeValid(
    members: seq<Mumineen.Member>,
    accommodations: seq<Accommodation.Accommodation>, nextAccommodationId: nat,
    miqaats: seq<Miqaat.Miqaat>, nextMiqaatId: nat,
    events: seq<Miqaat.SubEvent>, nextEventId: nat,
    id: nat)
    requires ValidState(members, accommodations, nextAccommodationId, miqaats, nextMiqaatId, events, nextEventId)
    ensures ValidState(members,
                       Filter(accommodations, Accommodation.OutsideMiqaat(id)), nextAccommodationId,
                       Filter(miqaats, Miqaat.OtherThan(id)), nextMiqaatId,
                       Filter(events, Miqaat.EventOutside(id)), nextEventId)
  {
    FilterIncreasing(miqaats, Miqaat.OtherThan(id), Miqaat.Key);
    FilterIncreasing(accommodations, Accommodation.OutsideMiqaat(id), Accommodation.Key);
    FilterIncreasing(events, Miqaat.EventOutside(id), Miqaat.EventKey);
    CascadeConsistent(members, accommodations, miqaats, events, id);
  }
}
